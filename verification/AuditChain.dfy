/** The per-tenant audit chain of the authoritative store.

    Transactions of many tenants append audit rows concurrently, each row numbered and linked to
    the digest of its predecessor, each with an outbox row; any of them may roll back.
    `digestOf` stands for SHA-256 over the previous digest and the canonical event, and `lockOf`
    for the hash that names a tenant's advisory lock; neither is assumed injective. */
module AuditChain {
  import opened Basics

  datatype AuditEvent = AuditEvent(id: string, tenant: string, body: string)

  /** Rows from before the chain existed have no sequence, previous digest or digest. */
  datatype AuditRow = AuditRow(
    event: AuditEvent, createdAt: int, sequence: Option<nat>, previous: Option<string>, digest: Option<string>)

  datatype OutboxRow = OutboxRow(tenant: string, sequence: Option<nat>, digest: Option<string>)

  type DigestOf = (string, AuditEvent, nat, int) -> string

  const ZEROS16 := "0000000000000000"

  /** What the first row of a chain has for a previous digest. */
  const ZEROS := ZEROS16 + ZEROS16 + ZEROS16 + ZEROS16

  lemma ZerosAre64()
    ensures |ZEROS| == 64 && forall c <- ZEROS :: c == '0'
  {
    assert forall c <- ZEROS16 :: c == '0';
  }

  function Chained(digestOf: DigestOf, event: AuditEvent, sequence: nat, previous: string, now: int): AuditRow {
    AuditRow(event, now, Some(sequence), Some(previous), Some(digestOf(previous, event, sequence, now)))
  }

  function Announcement(row: AuditRow): OutboxRow {
    OutboxRow(row.event.tenant, row.sequence, row.digest)
  }

  function Announcements(rows: seq<AuditRow>): (r: seq<OutboxRow>)
    ensures |r| == |rows|
  {
    seq(|rows|, i requires 0 <= i < |rows| => Announcement(rows[i]))
  }

  /** The sequenced rows of one tenant, in table order. */
  function TenantRows(rows: seq<AuditRow>, tenant: string): seq<AuditRow> {
    if rows == [] then []
    else
      var last := rows[|rows| - 1];
      TenantRows(rows[..|rows| - 1], tenant)
      + (if last.event.tenant == tenant && last.sequence.Some? && last.digest.Some? then [last] else [])
  }

  /** The row with the highest sequence among the sequenced rows of a tenant. */
  function Latest(rows: seq<AuditRow>, tenant: string): Option<AuditRow> {
    if rows == [] then None
    else
      var before, last := Latest(rows[..|rows| - 1], tenant), rows[|rows| - 1];
      if last.event.tenant != tenant || last.sequence.None? || last.digest.None? then before
      else if before.Some? && before.value.sequence.Some? && before.value.sequence.value > last.sequence.value then before
      else Some(last)
  }

  function NextRow(digestOf: DigestOf, rows: seq<AuditRow>, event: AuditEvent, now: int): AuditRow {
    match Latest(rows, event.tenant)
    case Some(AuditRow(_, _, Some(n), _, Some(digest))) => Chained(digestOf, event, n + 1, digest, now)
    case _ => Chained(digestOf, event, 1, ZEROS, now)
  }

  // ---------------------------------------------------------------- chains

  predicate LinkOk(digestOf: DigestOf, rows: seq<AuditRow>, i: nat)
    requires i < |rows|
  {
    var previous := if i == 0 then Some(ZEROS) else rows[i - 1].digest;
    previous.Some? && rows[i] == Chained(digestOf, rows[i].event, i + 1, previous.value, rows[i].createdAt)
  }

  /** Numbered 1, 2, 3, ... and each linked to its predecessor, the first to 64 zeros. */
  predicate ChainOk(digestOf: DigestOf, rows: seq<AuditRow>) {
    forall i | 0 <= i < |rows| :: LinkOk(digestOf, rows, i)
  }

  /** The row carries this number and previous digest, and the digest over them and its own event. */
  predicate Carries(digestOf: DigestOf, row: AuditRow, sequence: nat, previous: string) {
    && row.sequence == Some(sequence) && row.previous == Some(previous)
    && row.digest == Some(digestOf(previous, row.event, sequence, row.createdAt))
  }

  /** And it carries the number and the digest that follow the row before it. */
  predicate LinksTo(digestOf: DigestOf, before: AuditRow, row: AuditRow, i: nat) {
    before.digest.Some? && Carries(digestOf, row, i + 1, before.digest.value)
  }

  lemma ChainExactly(digestOf: DigestOf, rows: seq<AuditRow>)
    ensures ChainOk(digestOf, rows) <==>
            && (rows != [] ==> Carries(digestOf, rows[0], 1, ZEROS))
            && forall i | 0 < i < |rows| :: LinksTo(digestOf, rows[i - 1], rows[i], i)
  {
    if ChainOk(digestOf, rows) {
      if rows != [] { assert LinkOk(digestOf, rows, 0); }
      forall i | 0 < i < |rows| ensures LinksTo(digestOf, rows[i - 1], rows[i], i) {
        assert LinkOk(digestOf, rows, i);
      }
    } else {
      var i :| 0 <= i < |rows| && !LinkOk(digestOf, rows, i);
      assert i > 0 ==> !LinksTo(digestOf, rows[i - 1], rows[i], i);
    }
  }

  /** `verify_audit_chain`: the rows are numbered 1, 2, 3, ..., each carries the digest of the one before,
      the first 64 zeros, and each its own digest over number, previous digest, event and time. */
  method VerifyAuditChain(digestOf: DigestOf, rows: seq<AuditRow>) returns (ok: bool)
    ensures ok <==> rows != [] && ChainOk(digestOf, rows)
    ensures |ZEROS| == 64 && forall c <- ZEROS :: c == '0'
    ensures ok <==>
            && rows != [] && Carries(digestOf, rows[0], 1, ZEROS)
            && forall i | 0 < i < |rows| :: LinksTo(digestOf, rows[i - 1], rows[i], i)
  {
    ZerosAre64();
    ChainExactly(digestOf, rows);
    var previousDigest, expected := ZEROS, 1;
    for i := 0 to |rows|
      invariant expected == i + 1
      invariant i > 0 ==> rows[i - 1].digest == Some(previousDigest)
      invariant i == 0 ==> previousDigest == ZEROS
      invariant ChainOk(digestOf, rows[..i])
    {
      var row := rows[i];
      forall j | 0 <= j < i ensures LinkOk(digestOf, rows, j) {
        assert LinkOk(digestOf, rows[..i], j);
      }
      if row.sequence != Some(expected) || row.previous != Some(previousDigest) || row.digest.None? {
        assert !LinkOk(digestOf, rows, i);
        return false;
      }
      if digestOf(previousDigest, row.event, expected, row.createdAt) != row.digest.value {
        assert !LinkOk(digestOf, rows, i);
        return false;
      }
      assert LinkOk(digestOf, rows, i);
      var checked := rows[..i + 1];
      forall j | 0 <= j < |checked| ensures LinkOk(digestOf, checked, j) {
        assert LinkOk(digestOf, rows, j);
      }
      previousDigest, expected := row.digest.value, expected + 1;
    }
    assert rows[..|rows|] == rows;
    ok := rows != [];
  }

  /** No two different links of the two chains have the same digest. */
  predicate CollisionFree(digestOf: DigestOf, a: seq<AuditRow>, b: seq<AuditRow>) {
    forall i, j | 0 <= i < |a| && 0 <= j < |b| && a[i].digest == b[j].digest ::
      a[i].event == b[j].event && a[i].sequence == b[j].sequence
      && a[i].createdAt == b[j].createdAt && a[i].previous == b[j].previous
  }

  /** Short of a hash collision the last digest fixes the whole history: two verified chains with
      the same head have the same rows, so no row can be altered, dropped, inserted or moved. */
  lemma {:induction false} HeadFixesHistory(digestOf: DigestOf, a: seq<AuditRow>, b: seq<AuditRow>)
    requires ChainOk(digestOf, a) && ChainOk(digestOf, b) && CollisionFree(digestOf, a, b)
    requires a != [] && b != [] && a[|a| - 1].digest == b[|b| - 1].digest
    ensures a == b
    decreases |a|
  {
    var n, m := |a| - 1, |b| - 1;
    assert LinkOk(digestOf, a, n) && LinkOk(digestOf, b, m);
    assert n == m && a[n] == b[m];
    if n > 0 {
      ChainPrefix(digestOf, a, n);
      ChainPrefix(digestOf, b, n);
      HeadFixesHistory(digestOf, a[..n], b[..n]);
    }
    assert a == a[..n] + [a[n]] && b == b[..n] + [b[n]];
  }

  lemma ChainPrefix(digestOf: DigestOf, rows: seq<AuditRow>, n: nat)
    requires ChainOk(digestOf, rows) && n <= |rows|
    ensures ChainOk(digestOf, rows[..n])
  {
    forall i | 0 <= i < n ensures LinkOk(digestOf, rows[..n], i) {
      assert LinkOk(digestOf, rows, i);
    }
  }

  lemma ChainAppend(digestOf: DigestOf, rows: seq<AuditRow>, row: AuditRow)
    requires ChainOk(digestOf, rows)
    requires row == Chained(digestOf, row.event, |rows| + 1,
                            if rows == [] || rows[|rows| - 1].digest.None? then ZEROS else rows[|rows| - 1].digest.value,
                            row.createdAt)
    ensures ChainOk(digestOf, rows + [row])
  {
    var longer := rows + [row];
    forall i | 0 <= i < |longer| ensures LinkOk(digestOf, longer, i) {
      if i < |rows| { assert LinkOk(digestOf, rows, i); }
      if i == |rows| && i > 0 { assert LinkOk(digestOf, rows, i - 1); }
    }
  }

  lemma {:induction false} TenantRowsConcat(a: seq<AuditRow>, b: seq<AuditRow>, tenant: string)
    ensures TenantRows(a + b, tenant) == TenantRows(a, tenant) + TenantRows(b, tenant)
    decreases |b|
  {
    if b == [] {
      assert a + b == a;
    } else {
      var init := b[..|b| - 1];
      assert (a + b)[..|a + b| - 1] == a + init;
      TenantRowsConcat(a, init, tenant);
    }
  }

  /** With the tenant's rows in a chain, the highest sequence is the last row. */
  lemma {:induction false} LatestIsLast(digestOf: DigestOf, rows: seq<AuditRow>, tenant: string)
    requires ChainOk(digestOf, TenantRows(rows, tenant))
    ensures var mine := TenantRows(rows, tenant);
            Latest(rows, tenant) == if mine == [] then None else Some(mine[|mine| - 1])
    decreases |rows|
  {
    if rows != [] {
      var init, last := rows[..|rows| - 1], rows[|rows| - 1];
      var mine, before := TenantRows(rows, tenant), TenantRows(init, tenant);
      if last.event.tenant == tenant && last.sequence.Some? && last.digest.Some? {
        assert mine[..|before|] == before;
        ChainPrefix(digestOf, mine, |before|);
        LatestIsLast(digestOf, init, tenant);
        assert LinkOk(digestOf, mine, |before|);
        if before != [] { assert LinkOk(digestOf, mine, |before| - 1); }
      } else {
        assert mine == before;
        LatestIsLast(digestOf, init, tenant);
      }
    }
  }

  /** What `_add_audit` appends extends the chain of its tenant. */
  lemma NextRowExtends(digestOf: DigestOf, rows: seq<AuditRow>, event: AuditEvent, now: int)
    requires ChainOk(digestOf, TenantRows(rows, event.tenant))
    ensures ChainOk(digestOf, TenantRows(rows, event.tenant) + [NextRow(digestOf, rows, event, now)])
  {
    var mine := TenantRows(rows, event.tenant);
    LatestIsLast(digestOf, rows, event.tenant);
    if mine != [] { assert LinkOk(digestOf, mine, |mine| - 1); }
    ChainAppend(digestOf, mine, NextRow(digestOf, rows, event, now));
  }
}
