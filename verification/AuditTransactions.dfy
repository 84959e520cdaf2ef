/** Concurrent transactions appending to the audit chains and the outbox.

    Each transaction is scoped to one tenant, takes that tenant's advisory lock before it reads
    the latest row, inserts audit rows and outbox rows one statement at a time, sees committed
    rows and its own, and commits or rolls back at any point. */
module AuditTransactions {
  import opened Basics
  import opened AuditChain

  datatype Tx = Tx(tenant: string, holds: bool, audits: seq<AuditRow>, outbox: seq<OutboxRow>)

  datatype State = State(audits: seq<AuditRow>, outbox: seq<OutboxRow>, txs: map<nat, Tx>, locks: map<int, nat>)

  datatype Step =
    | Begin(tx: nat, tenant: string)
    | Lock(tx: nat)
    | AddAudit(tx: nat, event: AuditEvent, now: int)
    | AddOutbox(tx: nat)
    | Commit(tx: nat)
    | Abort(tx: nat)

  /** SHA-256 over the canonical event, and the hash that names an advisory lock. */
  datatype Hashes = Hashes(digestOf: DigestOf, lockOf: string -> int)

  /** Every audit row written so far has its outbox row. */
  predicate Settled(t: Tx) {
    |t.audits| == |t.outbox|
  }

  predicate Enabled(h: Hashes, s: State, step: Step) {
    match step
    case Begin(tx, _) => tx !in s.txs
    case Lock(tx) =>
      tx in s.txs && Settled(s.txs[tx])
      && (h.lockOf(s.txs[tx].tenant) in s.locks ==> s.locks[h.lockOf(s.txs[tx].tenant)] == tx)
    case AddAudit(tx, event, _) =>
      tx in s.txs && Settled(s.txs[tx]) && s.txs[tx].holds && event.tenant == s.txs[tx].tenant
    case AddOutbox(tx) => tx in s.txs && |s.txs[tx].audits| == |s.txs[tx].outbox| + 1
    case Commit(tx) => tx in s.txs && Settled(s.txs[tx])
    case Abort(tx) => tx in s.txs
  }

  function Released(locks: map<int, nat>, tx: nat): map<int, nat> {
    map l | l in locks && locks[l] != tx :: locks[l]
  }

  function Apply(h: Hashes, s: State, step: Step): State
    requires Enabled(h, s, step)
  {
    match step
    case Begin(tx, tenant) => s.(txs := s.txs[tx := Tx(tenant, false, [], [])])
    case Lock(tx) =>
      var t := s.txs[tx];
      s.(txs := s.txs[tx := t.(holds := true)], locks := s.locks[h.lockOf(t.tenant) := tx])
    case AddAudit(tx, event, now) =>
      var t := s.txs[tx];
      var row := NextRow(h.digestOf, s.audits + t.audits, event, now);
      s.(txs := s.txs[tx := t.(audits := t.audits + [row])])
    case AddOutbox(tx) =>
      var t := s.txs[tx];
      s.(txs := s.txs[tx := t.(outbox := t.outbox + [Announcement(t.audits[|t.outbox|])])])
    case Commit(tx) =>
      var t := s.txs[tx];
      State(s.audits + t.audits, s.outbox + t.outbox, s.txs - {tx}, Released(s.locks, tx))
    case Abort(tx) => s.(txs := s.txs - {tx}, locks := Released(s.locks, tx))
  }

  /** Rows from before the chain existed may be there already. */
  predicate Initial(legacy: seq<AuditRow>, s: State) {
    s == State(legacy, [], map[], map[]) && forall row <- legacy :: row.sequence.None?
  }

  ghost predicate Reaches(h: Hashes, legacy: seq<AuditRow>, steps: seq<Step>, s: State)
    decreases |steps|
  {
    if steps == [] then Initial(legacy, s)
    else
      var last := |steps| - 1;
      exists before: State ::
        Reaches(h, legacy, steps[..last], before) && Enabled(h, before, steps[last])
        && s == Apply(h, before, steps[last])
  }

  // ---------------------------------------------------------------- invariant

  ghost predicate ChainsOk(digestOf: DigestOf, audits: seq<AuditRow>) {
    forall tenant :: ChainOk(digestOf, TenantRows(audits, tenant))
  }

  /** The open rows of a transaction continue its tenant's committed chain. */
  ghost predicate TxOk(h: Hashes, audits: seq<AuditRow>, locks: map<int, nat>, tx: nat, t: Tx) {
    && (t.audits != [] ==> t.holds)
    && (t.holds ==> h.lockOf(t.tenant) in locks && locks[h.lockOf(t.tenant)] == tx)
    && (forall row <- t.audits :: row.event.tenant == t.tenant)
    && ChainOk(h.digestOf, TenantRows(audits + t.audits, t.tenant))
    && |t.outbox| <= |t.audits| <= |t.outbox| + 1
    && t.outbox == Announcements(t.audits[..|t.outbox|])
  }

  ghost predicate Announced(legacy: seq<AuditRow>, audits: seq<AuditRow>, outbox: seq<OutboxRow>) {
    |legacy| <= |audits| && audits[..|legacy|] == legacy && outbox == Announcements(audits[|legacy|..])
  }

  ghost predicate Inv(h: Hashes, legacy: seq<AuditRow>, s: State) {
    && ChainsOk(h.digestOf, s.audits)
    && Announced(legacy, s.audits, s.outbox)
    && (forall tx <- s.txs :: TxOk(h, s.audits, s.locks, tx, s.txs[tx]))
  }

  lemma {:induction false} UnsequencedRowsAreNobodys(rows: seq<AuditRow>, tenant: string)
    requires forall row <- rows :: row.sequence.None?
    ensures TenantRows(rows, tenant) == []
  {
    if rows != [] { UnsequencedRowsAreNobodys(rows[..|rows| - 1], tenant); }
  }

  lemma {:induction false} OtherTenantsRows(rows: seq<AuditRow>, tenant: string)
    requires forall row <- rows :: row.event.tenant != tenant
    ensures TenantRows(rows, tenant) == []
  {
    if rows != [] { OtherTenantsRows(rows[..|rows| - 1], tenant); }
  }

  lemma AnnouncementsConcat(a: seq<AuditRow>, b: seq<AuditRow>)
    ensures Announcements(a + b) == Announcements(a) + Announcements(b)
  {
  }

  /** A transaction's own new row extends its chain. */
  lemma OwnRowExtends(digestOf: DigestOf, audits: seq<AuditRow>, pending: seq<AuditRow>, event: AuditEvent, now: int)
    requires ChainOk(digestOf, TenantRows(audits + pending, event.tenant))
    ensures var row := NextRow(digestOf, audits + pending, event, now);
            && row.event == event
            && ChainOk(digestOf, TenantRows(audits + (pending + [row]), event.tenant))
  {
    var row := NextRow(digestOf, audits + pending, event, now);
    ChainGrows(digestOf, audits + pending, event, now);
    assert audits + (pending + [row]) == audits + pending + [row];
  }

  lemma ChainGrows(digestOf: DigestOf, rows: seq<AuditRow>, event: AuditEvent, now: int)
    requires ChainOk(digestOf, TenantRows(rows, event.tenant))
    ensures var row := NextRow(digestOf, rows, event, now);
            && TenantRows(rows + [row], event.tenant) == TenantRows(rows, event.tenant) + [row]
            && ChainOk(digestOf, TenantRows(rows + [row], event.tenant))
  {
    var row := NextRow(digestOf, rows, event, now);
    NextRowExtends(digestOf, rows, event, now);
    assert (rows + [row])[..|rows|] == rows;
  }

  lemma AddAuditKeeps(h: Hashes, s: State, tx: nat, event: AuditEvent, now: int)
    requires Enabled(h, s, AddAudit(tx, event, now)) && TxOk(h, s.audits, s.locks, tx, s.txs[tx])
    ensures TxOk(h, s.audits, s.locks, tx, Apply(h, s, AddAudit(tx, event, now)).txs[tx])
  {
    var t := s.txs[tx];
    var row := NextRow(h.digestOf, s.audits + t.audits, event, now);
    OwnRowExtends(h.digestOf, s.audits, t.audits, event, now);
    assert (t.audits + [row])[..|t.outbox|] == t.audits[..|t.outbox|];
  }

  lemma AddOutboxKeeps(h: Hashes, s: State, tx: nat)
    requires Enabled(h, s, AddOutbox(tx)) && TxOk(h, s.audits, s.locks, tx, s.txs[tx])
    ensures TxOk(h, s.audits, s.locks, tx, Apply(h, s, AddOutbox(tx)).txs[tx])
  {
    var t := s.txs[tx];
    var n := |t.outbox|;
    assert t.audits[..n + 1] == t.audits[..n] + [t.audits[n]];
    AnnouncementsConcat(t.audits[..n], [t.audits[n]]);
  }

  /** Committed rows extend the chain of their tenant and touch no other. */
  lemma CommitKeepsChains(h: Hashes, s: State, tx: nat)
    requires tx in s.txs && ChainsOk(h.digestOf, s.audits) && TxOk(h, s.audits, s.locks, tx, s.txs[tx])
    ensures ChainsOk(h.digestOf, s.audits + s.txs[tx].audits)
  {
    var t := s.txs[tx];
    forall tenant ensures ChainOk(h.digestOf, TenantRows(s.audits + t.audits, tenant)) {
      if tenant != t.tenant {
        TenantRowsConcat(s.audits, t.audits, tenant);
        OtherTenantsRows(t.audits, tenant);
        assert TenantRows(s.audits + t.audits, tenant) == TenantRows(s.audits, tenant);
        assert ChainOk(h.digestOf, TenantRows(s.audits, tenant));
      }
    }
  }

  /** No other open transaction has rows that a commit could cut off: the lock kept it out. */
  lemma CommitKeepsOthers(h: Hashes, s: State, tx: nat, other: nat)
    requires tx in s.txs && other in s.txs && tx != other && ChainsOk(h.digestOf, s.audits)
    requires TxOk(h, s.audits, s.locks, tx, s.txs[tx]) && TxOk(h, s.audits, s.locks, other, s.txs[other])
    ensures TxOk(h, s.audits + s.txs[tx].audits, Released(s.locks, tx), other, s.txs[other])
  {
    var t, u := s.txs[tx], s.txs[other];
    var after := s.audits + t.audits;
    if u.audits == [] {
      CommitKeepsChains(h, s, tx);
      assert after + u.audits == after;
      assert ChainOk(h.digestOf, TenantRows(after, u.tenant));
    } else if t.audits == [] {
      assert after == s.audits;
    } else {
      assert t.tenant != u.tenant;
      TenantRowsConcat(after, u.audits, u.tenant);
      TenantRowsConcat(s.audits, t.audits, u.tenant);
      OtherTenantsRows(t.audits, u.tenant);
      TenantRowsConcat(s.audits, u.audits, u.tenant);
      assert TenantRows(after + u.audits, u.tenant) == TenantRows(s.audits + u.audits, u.tenant);
    }
  }

  lemma CommitKeepsAnnounced(h: Hashes, legacy: seq<AuditRow>, s: State, tx: nat)
    requires Enabled(h, s, Commit(tx)) && TxOk(h, s.audits, s.locks, tx, s.txs[tx])
    requires Announced(legacy, s.audits, s.outbox)
    ensures Announced(legacy, s.audits + s.txs[tx].audits, s.outbox + s.txs[tx].outbox)
  {
    var t := s.txs[tx];
    assert t.audits[..|t.outbox|] == t.audits;
    assert (s.audits + t.audits)[..|legacy|] == legacy;
    assert (s.audits + t.audits)[|legacy|..] == s.audits[|legacy|..] + t.audits;
    AnnouncementsConcat(s.audits[|legacy|..], t.audits);
  }

  /** Transactions a step does not touch, and whose locks it does not take. */
  lemma UntouchedKept(h: Hashes, s: State, locks: map<int, nat>, u: nat)
    requires u in s.txs && TxOk(h, s.audits, s.locks, u, s.txs[u])
    requires s.txs[u].holds ==> h.lockOf(s.txs[u].tenant) in locks && locks[h.lockOf(s.txs[u].tenant)] == u
    ensures TxOk(h, s.audits, locks, u, s.txs[u])
  {
  }

  lemma BeginKeeps(h: Hashes, s: State, tx: nat, tenant: string)
    requires ChainsOk(h.digestOf, s.audits)
    ensures TxOk(h, s.audits, s.locks, tx, Tx(tenant, false, [], []))
  {
    assert s.audits + [] == s.audits;
    assert ChainOk(h.digestOf, TenantRows(s.audits, tenant));
  }

  lemma StepKeeps(h: Hashes, legacy: seq<AuditRow>, s: State, step: Step)
    requires Inv(h, legacy, s) && Enabled(h, s, step)
    ensures Inv(h, legacy, Apply(h, s, step))
  {
    if step.Commit? {
      CommitKeeps(h, legacy, s, step.tx);
    } else {
      OthersKeep(h, legacy, s, step);
    }
  }

  lemma CommitKeeps(h: Hashes, legacy: seq<AuditRow>, s: State, tx: nat)
    requires Inv(h, legacy, s) && Enabled(h, s, Commit(tx))
    ensures Inv(h, legacy, Apply(h, s, Commit(tx)))
  {
    var after := Apply(h, s, Commit(tx));
    CommitKeepsChains(h, s, tx);
    CommitKeepsAnnounced(h, legacy, s, tx);
    forall other <- after.txs ensures TxOk(h, after.audits, after.locks, other, after.txs[other]) {
      CommitKeepsOthers(h, s, tx, other);
    }
  }

  /** Every other step concerns one transaction and no committed row. */
  lemma OthersKeep(h: Hashes, legacy: seq<AuditRow>, s: State, step: Step)
    requires Inv(h, legacy, s) && Enabled(h, s, step) && !step.Commit?
    ensures Inv(h, legacy, Apply(h, s, step))
  {
    var after := Apply(h, s, step);
    forall u <- after.txs ensures TxOk(h, s.audits, after.locks, u, after.txs[u]) {
      if u != step.tx {
        UntouchedKept(h, s, after.locks, u);
      } else {
        match step
        case Begin(tx, tenant) => BeginKeeps(h, s, tx, tenant);
        case Lock(_) =>
        case AddAudit(tx, event, now) => AddAuditKeeps(h, s, tx, event, now);
        case AddOutbox(tx) => AddOutboxKeeps(h, s, tx);
        case Abort(_) =>
      }
    }
  }

  lemma {:induction false} InvariantReached(h: Hashes, legacy: seq<AuditRow>, steps: seq<Step>, s: State)
    requires Reaches(h, legacy, steps, s)
    ensures Inv(h, legacy, s)
    decreases |steps|
  {
    if steps == [] {
      forall tenant ensures ChainOk(h.digestOf, TenantRows(s.audits, tenant)) {
        UnsequencedRowsAreNobodys(legacy, tenant);
      }
    } else {
      var last := |steps| - 1;
      var before: State :| Reaches(h, legacy, steps[..last], before) && Enabled(h, before, steps[last])
                           && s == Apply(h, before, steps[last]);
      InvariantReached(h, legacy, steps[..last], before);
      StepKeeps(h, legacy, before, steps[last]);
    }
  }

  // ---------------------------------------------------------------- theorems

  lemma {:induction false} SequencedRowIsInChain(digestOf: DigestOf, rows: seq<AuditRow>, i: nat)
    requires i < |rows| && rows[i].sequence.Some? && rows[i].digest.Some?
    ensures rows[i] in TenantRows(rows, rows[i].event.tenant)
    decreases |rows|
  {
    if i < |rows| - 1 { SequencedRowIsInChain(digestOf, rows[..|rows| - 1], i); }
  }

  /** No two rows of one tenant carry the same number. */
  lemma {:induction false} NumbersDiffer(digestOf: DigestOf, rows: seq<AuditRow>, i: nat, j: nat)
    requires ChainsOk(digestOf, rows) && i < j < |rows| && rows[i].event.tenant == rows[j].event.tenant
    requires rows[i].sequence.Some? && rows[i].digest.Some? && rows[j].sequence.Some? && rows[j].digest.Some?
    ensures rows[i].sequence != rows[j].sequence
    decreases |rows|
  {
    var tenant, init := rows[j].event.tenant, rows[..j];
    var mine, before := TenantRows(rows[..j + 1], tenant), TenantRows(init, tenant);
    assert rows[..j + 1][..j] == init && mine == before + [rows[j]];
    assert rows == rows[..j + 1] + rows[j + 1..];
    TenantRowsConcat(rows[..j + 1], rows[j + 1..], tenant);
    assert TenantRows(rows, tenant)[..|mine|] == mine;
    assert ChainOk(digestOf, TenantRows(rows, tenant));
    ChainPrefix(digestOf, TenantRows(rows, tenant), |mine|);
    assert LinkOk(digestOf, mine, |before|);
    SequencedRowIsInChain(digestOf, init, i);
    var k :| 0 <= k < |before| && before[k] == rows[i];
    assert LinkOk(digestOf, mine, k);
  }

  /** All rows from `n` on are numbered and have a digest. */
  predicate SequencedFrom(rows: seq<AuditRow>, n: nat) {
    forall i | n <= i < |rows| :: rows[i].sequence.Some? && rows[i].digest.Some?
  }

  lemma {:induction false} NewRowsSequenced(h: Hashes, legacy: seq<AuditRow>, steps: seq<Step>, s: State)
    requires Reaches(h, legacy, steps, s)
    ensures |legacy| <= |s.audits| && SequencedFrom(s.audits, |legacy|) && forall tx <- s.txs :: SequencedFrom(s.txs[tx].audits, 0)
    decreases |steps|
  {
    if steps != [] {
      var last := |steps| - 1;
      var before: State :| Reaches(h, legacy, steps[..last], before) && Enabled(h, before, steps[last])
                           && s == Apply(h, before, steps[last]);
      NewRowsSequenced(h, legacy, steps[..last], before);
      StepSequences(h, |legacy|, before, steps[last]);
    }
  }

  lemma StepSequences(h: Hashes, n: nat, s: State, step: Step)
    requires Enabled(h, s, step) && n <= |s.audits| && SequencedFrom(s.audits, n)
    requires forall tx <- s.txs :: SequencedFrom(s.txs[tx].audits, 0)
    ensures var s' := Apply(h, s, step);
            n <= |s'.audits| && SequencedFrom(s'.audits, n) && forall tx <- s'.txs :: SequencedFrom(s'.txs[tx].audits, 0)
  {
  }

  /** The last earlier row, from `n` on, of the tenant of row `i`. */
  predicate IsPrevious(rows: seq<AuditRow>, n: nat, j: nat, i: nat) {
    && n <= j < i < |rows| && rows[j].event.tenant == rows[i].event.tenant
    && forall k | j < k < i :: rows[k].event.tenant != rows[i].event.tenant
  }

  lemma {:induction false} TenantRowsEnd(rows: seq<AuditRow>, n: nat, j: nat, tenant: string)
    requires n <= j < |rows| && rows[j].event.tenant == tenant && SequencedFrom(rows, n)
    requires forall k | j < k < |rows| :: rows[k].event.tenant != tenant
    ensures var mine := TenantRows(rows, tenant); mine != [] && mine[|mine| - 1] == rows[j]
    decreases |rows|
  {
    if j < |rows| - 1 { TenantRowsEnd(rows[..|rows| - 1], n, j, tenant); }
  }

  lemma {:induction false} NoTenantRows(rows: seq<AuditRow>, n: nat, tenant: string)
    requires n <= |rows| && (forall k | 0 <= k < n :: rows[k].sequence.None?)
    requires forall k | n <= k < |rows| :: rows[k].event.tenant != tenant
    ensures TenantRows(rows, tenant) == []
    decreases |rows|
  {
    if rows != [] {
      NoTenantRows(rows[..|rows| - 1], if n == |rows| then n - 1 else n, tenant);
    }
  }

  /** A row comes last in the chain of its tenant as it was when the row was committed. */
  lemma RowEndsItsChain(digestOf: DigestOf, rows: seq<AuditRow>, n: nat, i: nat)
    requires ChainsOk(digestOf, rows) && n <= i < |rows| && SequencedFrom(rows, n)
    ensures var before := TenantRows(rows[..i], rows[i].event.tenant);
            ChainOk(digestOf, before + [rows[i]])
  {
    var tenant := rows[i].event.tenant;
    var upTo, before := rows[..i + 1], TenantRows(rows[..i], tenant);
    assert upTo[..i] == rows[..i] && TenantRows(upTo, tenant) == before + [rows[i]];
    assert rows == upTo + rows[i + 1..];
    TenantRowsConcat(upTo, rows[i + 1..], tenant);
    ChainPrefix(digestOf, TenantRows(rows, tenant), |before| + 1);
    assert TenantRows(rows, tenant)[..|before| + 1] == before + [rows[i]];
  }

  /** Every committed row carries the digest of the row of its tenant before it and the number after that
      row's, or number 1 and 64 zeros if there is none; and its own digest over them. */
  lemma RowsLinkBack(h: Hashes, legacy: seq<AuditRow>, steps: seq<Step>, s: State, i: nat)
    requires Reaches(h, legacy, steps, s) && |legacy| <= i < |s.audits|
    ensures (forall j | |legacy| <= j < i :: s.audits[j].event.tenant != s.audits[i].event.tenant) ==>
              Carries(h.digestOf, s.audits[i], 1, ZEROS)
    ensures forall j: nat | IsPrevious(s.audits, |legacy|, j, i) ::
              && s.audits[j].sequence.Some? && s.audits[j].digest.Some?
              && Carries(h.digestOf, s.audits[i], s.audits[j].sequence.value + 1, s.audits[j].digest.value)
  {
    ChainsReached(h, legacy, steps, s);
    NewRowsSequenced(h, legacy, steps, s);
    LegacyUnsequenced(h, legacy, steps, s);
    RowLinksBack(h.digestOf, s.audits, |legacy|, i);
  }

  lemma ChainsReached(h: Hashes, legacy: seq<AuditRow>, steps: seq<Step>, s: State)
    requires Reaches(h, legacy, steps, s)
    ensures ChainsOk(h.digestOf, s.audits)
  {
    InvariantReached(h, legacy, steps, s);
  }

  lemma {:induction false} LegacyUnsequenced(h: Hashes, legacy: seq<AuditRow>, steps: seq<Step>, s: State)
    requires Reaches(h, legacy, steps, s)
    ensures |legacy| <= |s.audits| && s.audits[..|legacy|] == legacy && forall row <- legacy :: row.sequence.None?
    decreases |steps|
  {
    if steps != [] {
      var last := |steps| - 1;
      var before: State :| Reaches(h, legacy, steps[..last], before) && Enabled(h, before, steps[last])
                           && s == Apply(h, before, steps[last]);
      LegacyUnsequenced(h, legacy, steps[..last], before);
    }
  }

  lemma RowLinksBack(digestOf: DigestOf, rows: seq<AuditRow>, n: nat, i: nat)
    requires ChainsOk(digestOf, rows) && n <= i < |rows| && SequencedFrom(rows, n)
    requires forall row <- rows[..n] :: row.sequence.None?
    ensures (forall j | n <= j < i :: rows[j].event.tenant != rows[i].event.tenant) ==>
              Carries(digestOf, rows[i], 1, ZEROS)
    ensures forall j: nat | IsPrevious(rows, n, j, i) ::
              Carries(digestOf, rows[i], rows[j].sequence.value + 1, rows[j].digest.value)
  {
    var tenant := rows[i].event.tenant;
    var before := TenantRows(rows[..i], tenant);
    RowEndsItsChain(digestOf, rows, n, i);
    ChainExactly(digestOf, before + [rows[i]]);
    if forall j | n <= j < i :: rows[j].event.tenant != tenant {
      forall k | 0 <= k < n ensures rows[..i][k].sequence.None? { assert rows[..i][k] == rows[..n][k]; }
      NoTenantRows(rows[..i], n, tenant);
      assert (before + [rows[i]])[0] == rows[i];
    }
    forall j: nat | IsPrevious(rows, n, j, i)
      ensures Carries(digestOf, rows[i], rows[j].sequence.value + 1, rows[j].digest.value) {
      TenantRowsEnd(rows[..i], n, j, tenant);
      LinksToLast(digestOf, before, rows[i]);
    }
  }

  lemma LinksToLast(digestOf: DigestOf, before: seq<AuditRow>, row: AuditRow)
    requires before != [] && ChainOk(digestOf, before + [row])
    ensures var last := before[|before| - 1];
            last.sequence.Some? && last.digest.Some? && Carries(digestOf, row, last.sequence.value + 1, last.digest.value)
  {
    var rows := before + [row];
    ChainExactly(digestOf, rows);
    assert rows[|before| - 1] == before[|before| - 1] && rows[|before|] == row;
    if |before| > 1 { assert LinksTo(digestOf, rows[|before| - 2], rows[|before| - 1], |before| - 1); }
    assert LinksTo(digestOf, rows[|before| - 1], rows[|before|], |before|);
  }

  /** In every reachable state each tenant's committed sequenced rows are one verified chain,
      numbered 1 to n from 64 zeros; no number is used twice; and the outbox holds one row for
      each committed audit row, in order, carrying that row's number and digest. */
  lemma AuditTrailSound(h: Hashes, legacy: seq<AuditRow>, steps: seq<Step>, s: State)
    requires Reaches(h, legacy, steps, s)
    ensures forall tenant :: ChainOk(h.digestOf, TenantRows(s.audits, tenant))
    ensures forall i, j | 0 <= i < j < |s.audits| && s.audits[i].event.tenant == s.audits[j].event.tenant
              && s.audits[i].sequence.Some? && s.audits[i].digest.Some?
              && s.audits[j].sequence.Some? && s.audits[j].digest.Some? :: s.audits[i].sequence != s.audits[j].sequence
    ensures |legacy| <= |s.audits| && s.audits[..|legacy|] == legacy
    ensures |s.outbox| == |s.audits| - |legacy|
    ensures forall i | 0 <= i < |s.outbox| ::
              && s.outbox[i].tenant == s.audits[|legacy| + i].event.tenant
              && s.outbox[i].sequence == s.audits[|legacy| + i].sequence
              && s.outbox[i].digest == s.audits[|legacy| + i].digest
  {
    InvariantReached(h, legacy, steps, s);
    forall i, j | 0 <= i < j < |s.audits| && s.audits[i].event.tenant == s.audits[j].event.tenant
      && s.audits[i].sequence.Some? && s.audits[i].digest.Some?
      && s.audits[j].sequence.Some? && s.audits[j].digest.Some?
      ensures s.audits[i].sequence != s.audits[j].sequence {
      NumbersDiffer(h.digestOf, s.audits, i, j);
    }
  }

  /** One event recorded by a transaction alone: each of its statements can be run in turn, and in the end
      the next row of the tenant's chain and its outbox row are committed and the lock is given up; rolled
      back before or after its writes it leaves everything as it was. */
  lemma AloneIsRecorded(h: Hashes, s: State, tx: nat, event: AuditEvent, now: int)
    requires s.txs == map[] && s.locks == map[]
    ensures var row := NextRow(h.digestOf, s.audits, event, now);
            && Enabled(h, s, Begin(tx, event.tenant)) && var s1 := Apply(h, s, Begin(tx, event.tenant));
            && Enabled(h, s1, Lock(tx)) && var s2 := Apply(h, s1, Lock(tx));
            && Enabled(h, s2, AddAudit(tx, event, now)) && var s3 := Apply(h, s2, AddAudit(tx, event, now));
            && Enabled(h, s3, AddOutbox(tx)) && var s4 := Apply(h, s3, AddOutbox(tx));
            && Enabled(h, s4, Commit(tx))
            && Apply(h, s4, Commit(tx))
               == State(s.audits + [row], s.outbox + [OutboxRow(event.tenant, row.sequence, row.digest)], map[], map[])
            && Enabled(h, s2, Abort(tx)) && Apply(h, s2, Abort(tx)) == s
            && Enabled(h, s4, Abort(tx)) && Apply(h, s4, Abort(tx)) == s
  {
    assert s.audits + [] == s.audits;
    var row := NextRow(h.digestOf, s.audits, event, now);
    assert row.event == event;
    assert [] + [row] == [row];
  }

  // ---------------------------------------------------------------- the calls

  /** What one transaction of the repository sees: the committed rows and its own. */
  class AuditSession {
    const digestOf: DigestOf
    var rows: seq<AuditRow>
    var outbox: seq<OutboxRow>

    constructor (digestOf: DigestOf, rows: seq<AuditRow>, outbox: seq<OutboxRow>)
      ensures this.digestOf == digestOf && this.rows == rows && this.outbox == outbox
    {
      this.digestOf, this.rows, this.outbox := digestOf, rows, outbox;
    }

    /** `ORDER BY sequence DESC LIMIT 1` over the tenant's sequenced rows. */
    method SelectLatest(tenant: string) returns (latest: Option<AuditRow>)
      ensures latest == Latest(rows, tenant)
    {
      latest := None;
      for i := 0 to |rows|
        invariant latest == Latest(rows[..i], tenant)
      {
        var row := rows[i];
        assert rows[..i + 1][..i] == rows[..i];
        if row.event.tenant == tenant && row.sequence.Some? && row.digest.Some?
           && (latest.None? || latest.value.sequence.None? || row.sequence.value >= latest.value.sequence.value) {
          latest := Some(row);
        }
      }
      assert rows[..|rows|] == rows;
    }

    /** `_add_audit`. */
    method InsertAudit(event: AuditEvent, now: int) returns (chained: AuditRow)
      modifies this`rows
      ensures chained == NextRow(digestOf, old(rows), event, now) && rows == old(rows) + [chained]
    {
      var previous := SelectLatest(event.tenant);
      var sequence, previousDigest := 1, ZEROS;
      if previous.Some? && previous.value.sequence.Some? && previous.value.digest.Some? {
        sequence, previousDigest := previous.value.sequence.value + 1, previous.value.digest.value;
      }
      chained := Chained(digestOf, event, sequence, previousDigest, now);
      rows := rows + [chained];
    }

    /** `_add_audit_and_outbox`: the tenant's chain grows by one valid link, announced in the
        outbox; no other tenant's chain changes. */
    method AddAuditAndOutbox(event: AuditEvent, now: int) returns (chained: AuditRow)
      modifies this
      ensures rows == old(rows) + [NextRow(digestOf, old(rows), event, now)]
      ensures outbox == old(outbox) + [Announcement(chained)] && chained == rows[|rows| - 1]
      ensures chained.event == event
      ensures old(ChainsOk(digestOf, rows)) ==>
                ChainsOk(digestOf, rows) && TenantRows(rows, event.tenant) == old(TenantRows(rows, event.tenant)) + [chained]
    {
      ghost var before := rows;
      chained := InsertAudit(event, now);
      outbox := outbox + [Announcement(chained)];
      if ChainsOk(digestOf, before) {
        ChainsGrow(digestOf, before, event, now);
      }
    }
  }

  lemma ChainsGrow(digestOf: DigestOf, rows: seq<AuditRow>, event: AuditEvent, now: int)
    requires ChainsOk(digestOf, rows)
    ensures var row := NextRow(digestOf, rows, event, now);
            ChainsOk(digestOf, rows + [row])
            && TenantRows(rows + [row], event.tenant) == TenantRows(rows, event.tenant) + [row]
  {
    var row := NextRow(digestOf, rows, event, now);
    ChainGrows(digestOf, rows, event, now);
    assert (rows + [row])[..|rows|] == rows;
    forall tenant ensures ChainOk(digestOf, TenantRows(rows + [row], tenant)) {
      if tenant != event.tenant {
        assert TenantRows(rows + [row], tenant) == TenantRows(rows, tenant);
        assert ChainOk(digestOf, TenantRows(rows, tenant));
      }
    }
  }
}
