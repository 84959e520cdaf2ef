/** Memory deletions running beside each other, statement by statement.

    A deletion reads the ids derived from its root, selects the live records among them without
    locking them, updates those records by id, and writes one ledger row for each when it commits.
    An update waits for the records another uncommitted one has changed, but does not look again
    whether they are still live. */
module MemoryConcurrency {
  import opened MemoryDeletion

  datatype Phase = Walked(ids: set<string>) | Selected(picked: set<Key>) | Updated(picked: set<Key>, gone: set<Key>)

  datatype Tx = Tx(tenant: string, root: string, phase: Phase)

  /** `returned` adds up what the finished deletions answered. */
  datatype State = State(tables: Tables, txs: map<nat, Tx>, returned: nat)

  datatype Step =
    | Add(key: Key, content: string)
    | AddEdge(edge: Edge)
    | Project(key: Key)
    | Follow(tx: nat, tenant: string, root: string, ids: set<string>)
    | Select(tx: nat)
    | Update(tx: nat)
    | Commit(tx: nat, added: seq<Entry>)
    | Abort(tx: nat)

  const Empty := State(Tables(map[], {}, {}, []), map[], 0)

  function Picked(t: Tx): set<Key> {
    if t.phase.Walked? then {} else t.phase.picked
  }

  ghost predicate Enabled(s: State, step: Step) {
    match step
    case Add(key, _) => forall k <- s.tables.records :: k.id != key.id
    case AddEdge(_) => true
    case Project(_) => true
    case Follow(tx, tenant, root, ids) =>
      tx !in s.txs && forall id :: id in ids <==> Reachable(s.tables.edges, tenant, root, id)
    case Select(tx) => tx in s.txs && s.txs[tx].phase.Walked?
    case Update(tx) =>
      tx in s.txs && s.txs[tx].phase.Selected?
      && forall u <- s.txs | s.txs[u].phase.Updated? :: Picked(s.txs[u]) !! Picked(s.txs[tx])
    case Commit(tx, added) =>
      tx in s.txs && s.txs[tx].phase.Updated? && Entered(added, Picked(s.txs[tx]), s.txs[tx].root)
    case Abort(tx) => tx in s.txs
  }

  /** The live records of the tenant among the given ids. */
  function LiveAmong(records: map<Key, MemoryRow>, tenant: string, ids: set<string>): set<Key> {
    set k | k in records && k.tenant == tenant && k.id in ids && records[k].live
  }

  function InPhase(s: State, tx: nat, phase: Phase): State
    requires tx in s.txs
  {
    s.(txs := s.txs[tx := s.txs[tx].(phase := phase)])
  }

  function Written(t: Tables, key: Key, content: string): Tables {
    t.(records := t.records[key := MemoryRow(content, true)], ledger := t.ledger + [Entry(key, Write)])
  }

  function Buried(t: Tables, phase: Phase, added: seq<Entry>): Tables
    requires phase.Updated?
  {
    t.(records := Bury(t.records, phase.picked), projections := t.projections - phase.gone, ledger := t.ledger + added)
  }

  ghost function Apply(s: State, step: Step): State
    requires Enabled(s, step)
  {
    match step
    case Add(key, content) => s.(tables := Written(s.tables, key, content))
    case AddEdge(edge) => s.(tables := s.tables.(edges := s.tables.edges + {edge}))
    case Project(key) => s.(tables := s.tables.(projections := s.tables.projections + {key}))
    case Follow(tx, tenant, root, ids) => s.(txs := s.txs[tx := Tx(tenant, root, Walked(ids))])
    case Select(tx) =>
      var live := LiveAmong(s.tables.records, s.txs[tx].tenant, s.txs[tx].phase.ids);
      if live == {} then s.(txs := s.txs - {tx}) else InPhase(s, tx, Selected(live))
    case Update(tx) => InPhase(s, tx, Updated(Picked(s.txs[tx]), s.tables.projections * Picked(s.txs[tx])))
    case Commit(tx, added) =>
      State(Buried(s.tables, s.txs[tx].phase, added), s.txs - {tx}, s.returned + |Picked(s.txs[tx])|)
    case Abort(tx) => s.(txs := s.txs - {tx})
  }

  /** What a deployment lets happen, by whatever means it schedules the calls. */
  type Guard = (State, Step) -> bool

  /** It may hold calls and reads back, but a deletion that has selected its records runs freely. */
  ghost predicate HoldsBackStartsOnly(guard: Guard) {
    forall s: State, step: Step | step.Update? || step.Commit? || step.Abort? :: guard(s, step)
  }

  ghost predicate Reaches(guard: Guard, steps: seq<Step>, s: State)
    decreases |steps|
  {
    if steps == [] then s == Empty
    else
      var last := |steps| - 1;
      exists before: State ::
        && Reaches(guard, steps[..last], before) && Enabled(before, steps[last]) && guard(before, steps[last])
        && s == Apply(before, steps[last])
  }

  lemma ReachesNext(guard: Guard, steps: seq<Step>, s: State, step: Step)
    requires Reaches(guard, steps, s) && Enabled(s, step) && guard(s, step)
    ensures Reaches(guard, steps + [step], Apply(s, step))
  {
    assert (steps + [step])[..|steps|] == steps;
  }

  // ---------------------------------------------------------------- what every schedule keeps

  predicate BothWrite(a: Entry, b: Entry) {
    a.key == b.key && a.kind == Write && b.kind == Write
  }

  /** Every record has its one write row, and is live exactly while no delete row names it. */
  ghost predicate LedgerOk(t: Tables) {
    && (forall e <- t.ledger :: e.key in t.records)
    && (forall k <- t.records :: Entry(k, Write) in t.ledger)
    && (forall k <- t.records :: t.records[k].live <==> forall e <- t.ledger :: !DeleteRow(e, k))
    && (forall i, j | 0 <= i < j < |t.ledger| :: !BothWrite(t.ledger[i], t.ledger[j]))
  }

  ghost predicate TxOk(records: map<Key, MemoryRow>, t: Tx) {
    forall k <- Picked(t) :: k in records && k.tenant == t.tenant
  }

  ghost predicate TxsOk(records: map<Key, MemoryRow>, txs: map<nat, Tx>) {
    forall tx <- txs :: TxOk(records, txs[tx])
  }

  ghost predicate Inv(s: State) {
    && LedgerOk(s.tables)
    && TxsOk(s.tables.records, s.txs)
    && s.returned == Deletions(s.tables.ledger)
  }

  function Deletions(ledger: seq<Entry>): nat {
    if ledger == [] then 0
    else Deletions(ledger[..|ledger| - 1]) + (if ledger[|ledger| - 1].kind.Delete? then 1 else 0)
  }

  lemma {:induction false} DeletionsAppend(ledger: seq<Entry>, added: seq<Entry>)
    requires forall e <- added :: e.kind.Delete?
    ensures Deletions(ledger + added) == Deletions(ledger) + |added|
    decreases |added|
  {
    if added == [] {
      assert ledger + added == ledger;
    } else {
      var n := |added| - 1;
      assert (ledger + added)[..|ledger + added| - 1] == ledger + added[..n];
      DeletionsAppend(ledger, added[..n]);
    }
  }

  lemma EnteredLength(added: seq<Entry>, picked: set<Key>, root: string)
    requires Entered(added, picked, root)
    ensures |added| == |picked|
  {
    var entries := set k | k in picked :: Entry(k, Delete(root));
    assert |added| == |multiset(added)| == |multiset(entries)| == |entries|;
    SameNumber(picked, entries, root);
  }

  lemma {:induction false} SameNumber(picked: set<Key>, entries: set<Entry>, root: string)
    requires entries == set k | k in picked :: Entry(k, Delete(root))
    ensures |entries| == |picked|
    decreases |picked|
  {
    if picked != {} {
      var k :| k in picked;
      SameNumber(picked - {k}, entries - {Entry(k, Delete(root))}, root);
    }
  }

  lemma WriteKeepsOnce(t: Tables, key: Key)
    requires LedgerOk(t) && key !in t.records
    ensures forall i, j | 0 <= i < j < |t.ledger + [Entry(key, Write)]| ::
              !BothWrite((t.ledger + [Entry(key, Write)])[i], (t.ledger + [Entry(key, Write)])[j])
  {
    var ledger := t.ledger + [Entry(key, Write)];
    forall i, j | 0 <= i < j < |ledger| ensures !BothWrite(ledger[i], ledger[j]) {
      assert ledger[i] in t.ledger;
      if j < |t.ledger| { assert ledger[j] == t.ledger[j]; }
    }
  }

  lemma WriteKeepsLive(t: Tables, key: Key, content: string, k: Key)
    requires LedgerOk(t) && key !in t.records && k in Written(t, key, content).records
    ensures var t' := Written(t, key, content); t'.records[k].live <==> forall f <- t'.ledger :: !DeleteRow(f, k)
  {
    var ledger := Written(t, key, content).ledger;
    assert forall f <- t.ledger :: f in ledger;
    assert forall f <- ledger :: f in t.ledger || f == Entry(key, Write);
    if k == key { assert forall f <- t.ledger :: f.key in t.records; }
  }

  lemma WriteKeepsLedger(t: Tables, key: Key, content: string)
    requires LedgerOk(t) && key !in t.records
    ensures LedgerOk(Written(t, key, content))
  {
    var t' := Written(t, key, content);
    assert t'.ledger[|t.ledger|] == Entry(key, Write);
    assert forall f <- t.ledger :: f in t'.ledger;
    WriteKeepsOnce(t, key);
    forall k | k in t'.records ensures t'.records[k].live <==> forall f <- t'.ledger :: !DeleteRow(f, k) {
      WriteKeepsLive(t, key, content, k);
    }
  }

  lemma TxsStayOk(records: map<Key, MemoryRow>, records': map<Key, MemoryRow>, txs: map<nat, Tx>, txs': map<nat, Tx>)
    requires TxsOk(records, txs) && records.Keys <= records'.Keys
    requires forall tx <- txs' :: tx in txs && txs'[tx] == txs[tx]
    ensures TxsOk(records', txs')
  {
    forall tx | tx in txs' ensures TxOk(records', txs'[tx]) {
      assert TxOk(records, txs[tx]);
    }
  }

  lemma AddKeeps(s: State, key: Key, content: string)
    requires Inv(s) && Enabled(s, Add(key, content))
    ensures Inv(Apply(s, Add(key, content)))
  {
    WriteKeepsLedger(s.tables, key, content);
    assert (s.tables.ledger + [Entry(key, Write)])[..|s.tables.ledger|] == s.tables.ledger;
    TxsStayOk(s.tables.records, Written(s.tables, key, content).records, s.txs, s.txs);
  }

  lemma BuryKeepsLedger(t: Tables, phase: Phase, added: seq<Entry>, root: string)
    requires LedgerOk(t) && phase.Updated? && phase.picked <= t.records.Keys && Entered(added, phase.picked, root)
    ensures LedgerOk(Buried(t, phase, added))
  {
    var t' := Buried(t, phase, added);
    EnteredExactly(added, phase.picked, root);
    assert forall e <- t.ledger :: e in t'.ledger;
    assert forall e <- t'.ledger :: e in t.ledger || e in added;
    forall k | k in t'.records ensures t'.records[k].live <==> forall e <- t'.ledger :: !DeleteRow(e, k) {
      if k in phase.picked {
        assert Entry(k, Delete(root)) in added && DeleteRow(Entry(k, Delete(root)), k);
        assert Entry(k, Delete(root)) in t'.ledger;
      }
    }
    forall i, j | 0 <= i < j < |t'.ledger| ensures !BothWrite(t'.ledger[i], t'.ledger[j]) {
      if j >= |t.ledger| { assert t'.ledger[j] in added; }
    }
  }

  lemma CommitKeeps(s: State, tx: nat, added: seq<Entry>)
    requires Inv(s) && Enabled(s, Commit(tx, added))
    ensures Inv(Apply(s, Commit(tx, added)))
  {
    var t := s.txs[tx];
    assert TxOk(s.tables.records, t);
    BuryKeepsLedger(s.tables, t.phase, added, t.root);
    EnteredExactly(added, Picked(t), t.root);
    EnteredLength(added, Picked(t), t.root);
    DeletionsAppend(s.tables.ledger, added);
    TxsStayOk(s.tables.records, Buried(s.tables, t.phase, added).records, s.txs, s.txs - {tx});
  }

  lemma StepKeeps(s: State, step: Step)
    requires Inv(s) && Enabled(s, step)
    ensures Inv(Apply(s, step))
  {
    match step
    case Add(key, content) => AddKeeps(s, key, content);
    case Commit(tx, added) => CommitKeeps(s, tx, added);
    case _ =>
  }

  lemma {:induction false} InvariantReached(guard: Guard, steps: seq<Step>, s: State)
    requires Reaches(guard, steps, s)
    ensures Inv(s)
    decreases |steps|
  {
    if steps != [] {
      var last := |steps| - 1;
      var before: State :| Reaches(guard, steps[..last], before) && Enabled(before, steps[last])
                           && guard(before, steps[last]) && s == Apply(before, steps[last]);
      InvariantReached(guard, steps[..last], before);
      StepKeeps(before, steps[last]);
    }
  }

  /** Under any schedule each record has one write row, and the records listed are exactly those
      written and never deleted. */
  lemma LedgerTellsRecords(guard: Guard, steps: seq<Step>, s: State, tenant: string, key: Key)
    requires Reaches(guard, steps, s)
    ensures key in ListMemory(s.tables, tenant)
            <==> key.tenant == tenant && Entry(key, Write) in s.tables.ledger
                 && forall e <- s.tables.ledger :: !DeleteRow(e, key)
    ensures forall i, j | 0 <= i < j < |s.tables.ledger| :: !BothWrite(s.tables.ledger[i], s.tables.ledger[j])
  {
    InvariantReached(guard, steps, s);
  }

  /** Uncommitted updates change different records. */
  ghost predicate UpdatesApart(txs: map<nat, Tx>) {
    forall a <- txs, b <- txs | a != b && txs[a].phase.Updated? && txs[b].phase.Updated? :: Picked(txs[a]) !! Picked(txs[b])
  }

  /** However deletions are scheduled, no two that have updated a record and not ended share one: the
      later update waits. */
  lemma {:induction false} UpdatesStayApart(guard: Guard, steps: seq<Step>, s: State)
    requires Reaches(guard, steps, s)
    ensures UpdatesApart(s.txs)
    decreases |steps|
  {
    if steps != [] {
      var last := |steps| - 1;
      var before: State :| Reaches(guard, steps[..last], before) && Enabled(before, steps[last])
                           && guard(before, steps[last]) && s == Apply(before, steps[last]);
      UpdatesStayApart(guard, steps[..last], before);
      StepKeepsApart(before, steps[last]);
    }
  }

  lemma StepKeepsApart(s: State, step: Step)
    requires Enabled(s, step) && UpdatesApart(s.txs)
    ensures UpdatesApart(Apply(s, step).txs)
  {
  }

  // ---------------------------------------------------------------- when nothing is deleted twice

  predicate BothDelete(a: Entry, b: Entry) {
    a.key == b.key && a.kind.Delete? && b.kind.Delete?
  }

  predicate DeletedOnce(ledger: seq<Entry>) {
    forall i, j | 0 <= i < j < |ledger| :: !BothDelete(ledger[i], ledger[j])
  }

  predicate Shared(txs: map<nat, Tx>, a: nat, b: nat, key: Key) {
    a in txs && b in txs && a != b && key in Picked(txs[a]) && key in Picked(txs[b])
  }

  /** Two deletions that have selected one and the same record are in flight. */
  ghost predicate Overlapping(txs: map<nat, Tx>) {
    exists a, b, key :: Shared(txs, a, b, key)
  }

  predicate PickedLive(records: map<Key, MemoryRow>, t: Tx) {
    forall k <- Picked(t) :: k in records && records[k].live
  }

  predicate AllPickedLive(records: map<Key, MemoryRow>, txs: map<nat, Tx>) {
    forall tx <- txs :: PickedLive(records, txs[tx])
  }

  lemma CommitKeepsLive(s: State, tx: nat, added: seq<Entry>)
    requires Enabled(s, Commit(tx, added)) && AllPickedLive(s.tables.records, s.txs) && !Overlapping(s.txs)
    ensures AllPickedLive(Buried(s.tables, s.txs[tx].phase, added).records, s.txs - {tx})
  {
    var records := Buried(s.tables, s.txs[tx].phase, added).records;
    forall u | u in s.txs && u != tx ensures PickedLive(records, s.txs[u]) {
      assert PickedLive(s.tables.records, s.txs[u]);
      forall k | k in Picked(s.txs[u]) ensures k in records && records[k].live {
        assert !Shared(s.txs, tx, u, k);
      }
    }
  }

  lemma StepKeepsLive(s: State, step: Step)
    requires Inv(s) && Enabled(s, step) && AllPickedLive(s.tables.records, s.txs) && !Overlapping(s.txs)
    ensures AllPickedLive(Apply(s, step).tables.records, Apply(s, step).txs)
  {
    match step
    case Add(key, content) =>
      forall tx | tx in s.txs ensures PickedLive(Written(s.tables, key, content).records, s.txs[tx]) {
        assert PickedLive(s.tables.records, s.txs[tx]);
      }
    case Update(tx) => assert PickedLive(s.tables.records, s.txs[tx]);
    case Commit(tx, added) => CommitKeepsLive(s, tx, added);
    case _ =>
  }

  lemma CommitKeepsOnce(s: State, tx: nat, added: seq<Entry>)
    requires Inv(s) && Enabled(s, Commit(tx, added))
    requires AllPickedLive(s.tables.records, s.txs) && DeletedOnce(s.tables.ledger)
    ensures DeletedOnce(s.tables.ledger + added)
  {
    var ledger, t := s.tables.ledger, s.txs[tx];
    EnteredExactly(added, Picked(t), t.root);
    assert PickedLive(s.tables.records, t);
    forall i, j | 0 <= i < j < |ledger + added| ensures !BothDelete((ledger + added)[i], (ledger + added)[j]) {
      if j >= |ledger| {
        var e := (ledger + added)[j];
        assert e in added;
        if i < |ledger| {
          assert ledger[i] in ledger && !DeleteRow(ledger[i], e.key);
        }
      }
    }
  }

  lemma StepKeepsOnce(s: State, step: Step)
    requires Inv(s) && Enabled(s, step) && AllPickedLive(s.tables.records, s.txs) && DeletedOnce(s.tables.ledger)
    ensures DeletedOnce(Apply(s, step).tables.ledger)
  {
    match step
    case Commit(tx, added) => CommitKeepsOnce(s, tx, added);
    case _ =>
  }

  ghost predicate NeverOverlapping(guard: Guard) {
    forall steps: seq<Step>, s: State | Reaches(guard, steps, s) :: !Overlapping(s.txs)
  }

  lemma {:induction false} NoneDeletedTwice(guard: Guard, steps: seq<Step>, s: State)
    requires NeverOverlapping(guard) && Reaches(guard, steps, s)
    ensures AllPickedLive(s.tables.records, s.txs) && DeletedOnce(s.tables.ledger)
    decreases |steps|
  {
    if steps != [] {
      var last := |steps| - 1;
      var before: State :| Reaches(guard, steps[..last], before) && Enabled(before, steps[last])
                           && guard(before, steps[last]) && s == Apply(before, steps[last]);
      InvariantReached(guard, steps[..last], before);
      NoneDeletedTwice(guard, steps[..last], before);
      StepKeepsLive(before, steps[last]);
      StepKeepsOnce(before, steps[last]);
    }
  }

  // ---------------------------------------------------------------- an overlap deletes twice

  lemma {:induction false} EntriesExist(picked: set<Key>, root: string) returns (added: seq<Entry>)
    ensures Entered(added, picked, root)
    decreases |picked|
  {
    added := [];
    if picked == {} {
      assert (set k | k in picked :: Entry(k, Delete(root))) == {};
    } else {
      var k :| k in picked;
      added := EntriesExist(picked - {k}, root);
      EnteredOne(added, picked - {k}, root, k);
      added := added + [Entry(k, Delete(root))];
      assert picked - {k} + {k} == picked;
    }
  }

  /** Every open transaction but the given ones is aborted. */
  lemma {:induction false} AbortOthers(guard: Guard, steps: seq<Step>, s: State, keep: set<nat>)
    returns (steps': seq<Step>, s': State)
    requires HoldsBackStartsOnly(guard) && Reaches(guard, steps, s)
    ensures Reaches(guard, steps', s') && s'.tables == s.tables && s'.txs.Keys == s.txs.Keys * keep
    ensures forall tx <- s'.txs :: s'.txs[tx] == s.txs[tx]
    decreases |s.txs.Keys - keep|
  {
    steps', s' := steps, s;
    if s.txs.Keys - keep != {} {
      var tx :| tx in s.txs.Keys - keep;
      var fewer := s.(txs := s.txs - {tx});
      ReachesNext(guard, steps, s, Abort(tx));
      assert fewer.txs.Keys - keep == s.txs.Keys - keep - {tx};
      steps', s' := AbortOthers(guard, steps + [Abort(tx)], fewer, keep);
    } else {
      assert s.txs.Keys <= keep by {
        forall tx | tx in s.txs.Keys ensures tx in keep { assert tx !in s.txs.Keys - keep; }
      }
    }
  }

  /** An updated deletion commits, and a delete row of the key is added. */
  lemma CommitsOne(guard: Guard, steps: seq<Step>, s: State, tx: nat, key: Key)
    returns (steps': seq<Step>, s': State)
    requires HoldsBackStartsOnly(guard) && Reaches(guard, steps, s)
    requires tx in s.txs && s.txs[tx].phase.Updated? && key in Picked(s.txs[tx])
    ensures Reaches(guard, steps', s') && s'.txs == s.txs - {tx}
    ensures Longer(s.tables.ledger, s'.tables.ledger, key)
  {
    var root := s.txs[tx].root;
    var added := EntriesExist(Picked(s.txs[tx]), root);
    ReachesNext(guard, steps, s, Commit(tx, added));
    steps', s' := steps + [Commit(tx, added)], Apply(s, Commit(tx, added));
    EnteredExactly(added, Picked(s.txs[tx]), root);
    assert Entry(key, Delete(root)) in added;
    var i :| 0 <= i < |added| && added[i] == Entry(key, Delete(root));
    assert s'.tables.ledger[|s.tables.ledger| + i] == added[i];
  }

  /** The ledger has grown by a delete row of the key, among others. */
  predicate Longer(ledger: seq<Entry>, ledger': seq<Entry>, key: Key) {
    ledger <= ledger' && exists i | |ledger| <= i < |ledger'| :: DeleteRow(ledger'[i], key)
  }

  lemma FinishesOne(guard: Guard, steps: seq<Step>, s: State, tx: nat, key: Key)
    returns (steps': seq<Step>, s': State)
    requires HoldsBackStartsOnly(guard) && Reaches(guard, steps, s)
    requires tx in s.txs && key in Picked(s.txs[tx])
    requires s.txs[tx].phase.Selected? ==> forall u <- s.txs :: !s.txs[u].phase.Updated?
    ensures Reaches(guard, steps', s') && s'.txs == s.txs - {tx}
    ensures Longer(s.tables.ledger, s'.tables.ledger, key)
  {
    if s.txs[tx].phase.Selected? {
      ReachesNext(guard, steps, s, Update(tx));
      var s1 := Apply(s, Update(tx));
      steps', s' := CommitsOne(guard, steps + [Update(tx)], s1, tx, key);
      assert s1.txs - {tx} == s.txs - {tx};
    } else {
      steps', s' := CommitsOne(guard, steps, s, tx, key);
    }
  }

  lemma LongerTwice(a: seq<Entry>, b: seq<Entry>, c: seq<Entry>, key: Key)
    requires Longer(a, b, key) && Longer(b, c, key)
    ensures !DeletedOnce(c)
  {
    var i :| |a| <= i < |b| && DeleteRow(b[i], key);
    var j :| |b| <= j < |c| && DeleteRow(c[j], key);
    assert c[i] == b[i] && BothDelete(c[i], c[j]);
  }

  /** Two deletions that selected one record both delete it once the others are out of the way. */
  lemma OverlapDeletesTwice(guard: Guard, steps: seq<Step>, s: State, a: nat, b: nat, key: Key)
    returns (steps': seq<Step>, s': State)
    requires HoldsBackStartsOnly(guard) && Reaches(guard, steps, s) && Shared(s.txs, a, b, key)
    ensures Reaches(guard, steps', s') && !DeletedOnce(s'.tables.ledger)
  {
    var steps1, s1 := AbortOthers(guard, steps, s, {a, b});
    assert a in s1.txs.Keys && b in s1.txs.Keys;
    var first, second := a, b;
    if s1.txs[b].phase.Updated? { first, second := b, a; }
    var steps2, s2 := FinishesOne(guard, steps1, s1, first, key);
    assert s2.txs.Keys == {second};
    steps', s' := FinishesOne(guard, steps2, s2, second, key);
    LongerTwice(s1.tables.ledger, s2.tables.ledger, s'.tables.ledger, key);
  }

  /** However deletions are scheduled, no memory gets a second delete row in any run if and only if
      no run has two deletions in flight that selected the same record. */
  lemma OneDeleteRowExactly(guard: Guard)
    requires HoldsBackStartsOnly(guard)
    ensures NeverOverlapping(guard)
            <==> forall steps: seq<Step>, s: State | Reaches(guard, steps, s) :: DeletedOnce(s.tables.ledger)
  {
    if NeverOverlapping(guard) {
      forall steps: seq<Step>, s: State | Reaches(guard, steps, s) ensures DeletedOnce(s.tables.ledger) {
        NoneDeletedTwice(guard, steps, s);
      }
    } else {
      var steps: seq<Step>, s: State :| Reaches(guard, steps, s) && Overlapping(s.txs);
      var a, b, key :| Shared(s.txs, a, b, key);
      var steps', s' := OverlapDeletesTwice(guard, steps, s, a, b, key);
      assert Reaches(guard, steps', s') && !DeletedOnce(s'.tables.ledger);
    }
  }

  /** The code by itself schedules nothing. */
  const Unscheduled: Guard := (s: State, step: Step) => true

  /** Two calls for one record: it gets two delete rows and is counted twice. */
  lemma DeletedTwice(key: Key, content: string) returns (steps: seq<Step>, s: State)
    ensures Reaches(Unscheduled, steps, s) && !DeletedOnce(s.tables.ledger)
    ensures s.returned > |Dead(s.tables.records)|
  {
    var steps1, s1 := BothSelect(key, content);
    steps, s := OverlapDeletesTwice(Unscheduled, steps1, s1, 0, 1, key);
    AnswersAddUpExactly(Unscheduled, steps, s);
  }

  lemma AloneInReach(tenant: string, root: string, id: string)
    ensures Reachable({}, tenant, root, id) <==> id == root
  {
    if Reachable({}, tenant, root, id) {
      var path :| Walk({}, tenant, path) && path[0] == root && path[|path| - 1] == id;
      ClosedContains({}, tenant, path, {root});
    }
    assert Walk({}, tenant, [root]);
  }

  lemma BothSelect(key: Key, content: string) returns (steps: seq<Step>, s: State)
    ensures Reaches(Unscheduled, steps, s) && Shared(s.txs, 0, 1, key)
  {
    forall id ensures Reachable({}, key.tenant, key.id, id) <==> id == key.id { AloneInReach(key.tenant, key.id, id); }
    var add := Add(key, content);
    var follow0, follow1 := Follow(0, key.tenant, key.id, {key.id}), Follow(1, key.tenant, key.id, {key.id});
    var s1 := Apply(Empty, add);
    ReachesNext(Unscheduled, [], Empty, add);
    ReachesNext(Unscheduled, [] + [add], s1, follow0);
    var s2 := Apply(s1, follow0);
    ReachesNext(Unscheduled, [] + [add] + [follow0], s2, follow1);
    var steps3, s3 := [] + [add] + [follow0] + [follow1], Apply(s2, follow1);
    steps, s := BothSelectAfter(steps3, s3, key);
  }

  lemma BothSelectAfter(steps: seq<Step>, s: State, key: Key) returns (steps': seq<Step>, s': State)
    requires Reaches(Unscheduled, steps, s) && key in LiveAmong(s.tables.records, key.tenant, {key.id})
    requires var walked := Tx(key.tenant, key.id, Walked({key.id})); s.txs == map[0 := walked, 1 := walked]
    ensures Reaches(Unscheduled, steps', s') && Shared(s'.txs, 0, 1, key)
  {
    ReachesNext(Unscheduled, steps, s, Select(0));
    var s1 := Apply(s, Select(0));
    ReachesNext(Unscheduled, steps + [Select(0)], s1, Select(1));
    steps', s' := steps + [Select(0)] + [Select(1)], Apply(s1, Select(1));
  }

  // ---------------------------------------------------------------- schedules that are enough

  predicate OneForEachTenant(txs: map<nat, Tx>) {
    forall a <- txs, b <- txs | txs[a].tenant == txs[b].tenant :: a == b
  }

  ghost predicate BeginsAlone(guard: Guard) {
    forall s: State, step: Step | step.Follow? && guard(s, step) ::
      forall u <- s.txs :: s.txs[u].tenant != step.tenant
  }

  lemma {:induction false} StaysOneForEachTenant(guard: Guard, steps: seq<Step>, s: State)
    requires BeginsAlone(guard) && Reaches(guard, steps, s)
    ensures OneForEachTenant(s.txs)
    decreases |steps|
  {
    if steps != [] {
      var last := |steps| - 1;
      var before: State :| Reaches(guard, steps[..last], before) && Enabled(before, steps[last])
                           && guard(before, steps[last]) && s == Apply(before, steps[last]);
      StaysOneForEachTenant(guard, steps[..last], before);
    }
  }

  /** Beginning a deletion only when no other of its tenant is in flight is enough. */
  lemma SerialForTenantIsEnough(guard: Guard)
    requires BeginsAlone(guard)
    ensures NeverOverlapping(guard)
  {
    forall steps: seq<Step>, s: State | Reaches(guard, steps, s) ensures !Overlapping(s.txs) {
      StaysOneForEachTenant(guard, steps, s);
      InvariantReached(guard, steps, s);
      forall a, b, key ensures !Shared(s.txs, a, b, key) {
        if a in s.txs && b in s.txs && key in Picked(s.txs[a]) && key in Picked(s.txs[b]) {
          assert TxOk(s.tables.records, s.txs[a]) && TxOk(s.tables.records, s.txs[b]);
        }
      }
    }
  }

  // ---------------------------------------------------------------- the answers

  function Dead(records: map<Key, MemoryRow>): set<Key> {
    set k | k in records && !records[k].live
  }

  function DeletedKeys(ledger: seq<Entry>): set<Key> {
    set e | e in ledger && e.kind.Delete? :: e.key
  }

  /** Delete rows are at least as many as the keys they name, and as many exactly if none repeats. */
  lemma {:induction false} DeletionsCounted(ledger: seq<Entry>)
    ensures |DeletedKeys(ledger)| <= Deletions(ledger)
    ensures |DeletedKeys(ledger)| == Deletions(ledger) <==> DeletedOnce(ledger)
    decreases |ledger|
  {
    if ledger != [] {
      var n := |ledger| - 1;
      var init, e := ledger[..n], ledger[n];
      assert ledger == init + [e];
      DeletionsCounted(init);
      DeletedKeysNext(init, e);
      DeletedOnceNext(init, e);
    }
  }

  lemma DeletedKeysNext(ledger: seq<Entry>, e: Entry)
    ensures DeletedKeys(ledger + [e]) == DeletedKeys(ledger) + (if e.kind.Delete? then {e.key} else {})
  {
    var longer := ledger + [e];
    assert longer[|ledger|] == e;
    assert forall f :: f in longer <==> f in ledger || f == e;
    forall k ensures k in DeletedKeys(longer) <==> k in DeletedKeys(ledger) || (e.kind.Delete? && k == e.key) {
      if k in DeletedKeys(ledger) {
        var f :| f in ledger && f.kind.Delete? && f.key == k;
        assert f in longer;
      }
    }
  }

  lemma NamedBefore(ledger: seq<Entry>, e: Entry)
    ensures (exists i | 0 <= i < |ledger| :: BothDelete(ledger[i], e)) <==> e.kind.Delete? && e.key in DeletedKeys(ledger)
  {
    if e.kind.Delete? && e.key in DeletedKeys(ledger) {
      var f :| f in ledger && f.kind.Delete? && f.key == e.key;
      var i :| 0 <= i < |ledger| && ledger[i] == f;
      assert BothDelete(ledger[i], e);
    }
  }

  lemma DeletedOnceNext(ledger: seq<Entry>, e: Entry)
    ensures DeletedOnce(ledger + [e]) <==> DeletedOnce(ledger) && !(e.kind.Delete? && e.key in DeletedKeys(ledger))
  {
    var longer := ledger + [e];
    NamedBefore(ledger, e);
    if !DeletedOnce(ledger) {
      var i, j :| 0 <= i < j < |ledger| && BothDelete(ledger[i], ledger[j]);
      assert BothDelete(longer[i], longer[j]);
    } else if i :| 0 <= i < |ledger| && BothDelete(ledger[i], e) {
      assert BothDelete(longer[i], longer[|ledger|]);
    } else {
      forall i, j | 0 <= i < j < |longer| ensures !BothDelete(longer[i], longer[j]) {
        assert longer[i] == ledger[i];
        if j < |ledger| { assert !BothDelete(ledger[i], ledger[j]); } else { assert !BothDelete(ledger[i], e); }
      }
    }
  }

  lemma DeadAreDeleted(t: Tables)
    requires LedgerOk(t)
    ensures Dead(t.records) == DeletedKeys(t.ledger)
  {
    forall k ensures k in Dead(t.records) <==> k in DeletedKeys(t.ledger) {
      if k in t.records && !t.records[k].live {
        var e :| e in t.ledger && DeleteRow(e, k);
        assert e.kind.Delete? && e.key == k;
      }
      if k in DeletedKeys(t.ledger) {
        var e :| e in t.ledger && e.kind.Delete? && e.key == k;
        assert DeleteRow(e, k);
      }
    }
  }

  /** Together the calls answer with at least as many deletions as there are deleted memories, and
      with exactly as many if and only if none has a second delete row. */
  lemma AnswersAddUpExactly(guard: Guard, steps: seq<Step>, s: State)
    requires Reaches(guard, steps, s)
    ensures |Dead(s.tables.records)| <= s.returned
    ensures |Dead(s.tables.records)| == s.returned <==> DeletedOnce(s.tables.ledger)
  {
    InvariantReached(guard, steps, s);
    DeadAreDeleted(s.tables);
    DeletionsCounted(s.tables.ledger);
  }

  // ---------------------------------------------------------------- a deletion alone

  /** The statements of one deletion, run with no other in flight, are the whole `delete_memory`. */
  lemma AloneIsDeleteMemory(s: State, tenant: string, root: string, ids: set<string>, added: seq<Entry>)
    requires s.txs == map[] && Enabled(s, Follow(0, tenant, root, ids))
    requires Entered(added, Doomed(s.tables, tenant, root), root)
    ensures var s2 := Apply(Apply(s, Follow(0, tenant, root, ids)), Select(0));
            if Doomed(s.tables, tenant, root) == {} then
              s2 == s && Deletes(s.tables, s2.tables, tenant, root, 0)
            else
              && Enabled(s2, Update(0)) && Enabled(Apply(s2, Update(0)), Commit(0, added))
              && var s4 := Apply(Apply(s2, Update(0)), Commit(0, added));
              && s4.txs == map[] && Deletes(s.tables, s4.tables, tenant, root, s4.returned - s.returned)
  {
    var doomed := Doomed(s.tables, tenant, root);
    assert LiveAmong(s.tables.records, tenant, ids) == doomed;
    if doomed == {} {
      assert s.tables.records == Bury(s.tables.records, doomed);
      assert (set k | k in doomed :: Entry(k, Delete(root))) == {};
      assert s.tables.ledger[|s.tables.ledger|..] == [];
    } else {
      assert (s.tables.ledger + added)[|s.tables.ledger|..] == added;
      assert s.tables.projections - s.tables.projections * doomed == s.tables.projections - doomed;
    }
  }

  /** A commit takes away the index projections its deletion found, not one made since. */
  lemma LateProjectionStays(s: State, tx: nat, key: Key, added: seq<Entry>)
    requires Enabled(s, Update(tx)) && key !in s.tables.projections && Entered(added, Picked(s.txs[tx]), s.txs[tx].root)
    ensures var s1 := Apply(Apply(s, Update(tx)), Project(key));
            && Enabled(s1, Commit(tx, added))
            && Apply(s1, Commit(tx, added)).tables.projections == s.tables.projections - Picked(s.txs[tx]) + {key}
  {
  }
}
