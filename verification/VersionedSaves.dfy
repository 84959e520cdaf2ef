/** Saving aggregates under an optimistic version.

    Any number of clients read a row, apply transitions to their copy (each adds one to the
    version) and save it back conditionally on the stored version. `save_run`, `save_task`,
    `save_action` and `save_approval` expect the version that was read; `save_candidate` and
    `save_deployment` derive it, expecting one less than the version being written.
    `apply` is what a transition does to the stored value; it is not interpreted. */
module VersionedSaves {
  import opened Basics

  datatype Row = Row(version: nat, value: string)

  /** A tenant and an object id. */
  type Key = (string, string)

  type Apply = (string, string) -> string

  datatype Expecting = ReadVersion | OneLess

  datatype Work = Work(key: Key, version: nat, value: string, edits: seq<string>)

  datatype Event =
    | Inserted(key: Key, row: Row)
    | Saved(work: Work)
    | Conflicted(work: Work)

  datatype State = State(rows: map<Key, Row>, clients: map<nat, Work>, log: seq<Event>)

  datatype Step =
    | Insert(key: Key, row: Row)
    | Read(client: nat, key: Key)
    | Edit(client: nat, edit: string)
    | Save(client: nat, expecting: Expecting)

  const Empty := State(map[], map[], [])

  function Fold(apply: Apply, value: string, edits: seq<string>): string {
    if edits == [] then value
    else apply(Fold(apply, value, edits[..|edits| - 1]), edits[|edits| - 1])
  }

  /** The copy a client is about to write. */
  function Written(apply: Apply, w: Work): Row {
    Row(w.version + |w.edits|, Fold(apply, w.value, w.edits))
  }

  function Expected(w: Work, expecting: Expecting): int {
    match expecting
    case ReadVersion => w.version
    case OneLess => w.version + |w.edits| - 1
  }

  predicate Matches(rows: map<Key, Row>, key: Key, expected: int) {
    key in rows && rows[key].version == expected
  }

  /** `allowed` says which save calls, and after how many transitions, the program makes. */
  predicate Enabled(allowed: (Expecting, nat) -> bool, s: State, step: Step) {
    match step
    case Insert(key, _) => key !in s.rows
    case Read(_, key) => key in s.rows
    case Edit(client, _) => client in s.clients
    case Save(client, expecting) => client in s.clients && allowed(expecting, |s.clients[client].edits|)
  }

  function After(apply: Apply, s: State, step: Step): State
    requires Enabled((_, _) => true, s, step)
  {
    match step
    case Insert(key, row) => s.(rows := s.rows[key := row], log := s.log + [Inserted(key, row)])
    case Read(client, key) =>
      s.(clients := s.clients[client := Work(key, s.rows[key].version, s.rows[key].value, [])])
    case Edit(client, edit) =>
      var w := s.clients[client];
      s.(clients := s.clients[client := w.(edits := w.edits + [edit])])
    case Save(client, expecting) =>
      var w := s.clients[client];
      if Matches(s.rows, w.key, Expected(w, expecting)) then
        State(s.rows[w.key := Written(apply, w)], s.clients - {client}, s.log + [Saved(w)])
      else
        State(s.rows, s.clients - {client}, s.log + [Conflicted(w)])
  }

  ghost predicate Reaches(apply: Apply, allowed: (Expecting, nat) -> bool, steps: seq<Step>, s: State)
    decreases |steps|
  {
    if steps == [] then s == Empty
    else
      var last := |steps| - 1;
      exists before: State ::
        Reaches(apply, allowed, steps[..last], before) && Enabled(allowed, before, steps[last])
        && s == After(apply, before, steps[last])
  }

  // ---------------------------------------------------------------- what the log says

  /** Every transition of every committed save of one row, in commit order. */
  function Edits(log: seq<Event>, key: Key): seq<string> {
    if log == [] then []
    else
      var last := log[|log| - 1];
      Edits(log[..|log| - 1], key) + (if last.Saved? && last.work.key == key then last.work.edits else [])
  }

  function Origin(log: seq<Event>, key: Key): Option<Row> {
    if log == [] then None
    else
      var last := log[|log| - 1];
      if last.Inserted? && last.key == key then Some(last.row) else Origin(log[..|log| - 1], key)
  }

  function Accumulate(apply: Apply, origin: Option<Row>, edits: seq<string>): Option<Row> {
    match origin
    case None => None
    case Some(row) => Some(Row(row.version + |edits|, Fold(apply, row.value, edits)))
  }

  /** The row as all committed saves together should have left it. */
  function Accumulated(apply: Apply, log: seq<Event>, key: Key): Option<Row> {
    Accumulate(apply, Origin(log, key), Edits(log, key))
  }

  /** The i-th event, if a committed save, was computed from what the saves before it left. */
  predicate BuiltOnLatest(apply: Apply, log: seq<Event>, i: nat)
    requires i < |log|
  {
    log[i].Saved? ==>
      Accumulated(apply, log[..i], log[i].work.key) == Some(Row(log[i].work.version, log[i].work.value))
  }

  predicate NothingLost(apply: Apply, log: seq<Event>) {
    forall i | 0 <= i < |log| :: BuiltOnLatest(apply, log, i)
  }

  // ---------------------------------------------------------------- safety

  predicate RowOk(apply: Apply, rows: map<Key, Row>, log: seq<Event>, key: Key) {
    Accumulated(apply, log, key) == if key in rows then Some(rows[key]) else None
  }

  ghost predicate RowsOk(apply: Apply, rows: map<Key, Row>, log: seq<Event>) {
    forall key :: RowOk(apply, rows, log, key)
  }

  /** A copy is never ahead of its row, and a copy at the row's version has the row's value. */
  predicate CopyOk(rows: map<Key, Row>, w: Work) {
    && w.key in rows && w.version <= rows[w.key].version
    && (w.version == rows[w.key].version ==> w.value == rows[w.key].value)
  }

  ghost predicate Inv(apply: Apply, s: State) {
    && RowsOk(apply, s.rows, s.log)
    && (forall c <- s.clients :: CopyOk(s.rows, s.clients[c]))
    && NothingLost(apply, s.log)
  }

  lemma {:induction false} FoldConcat(apply: Apply, value: string, a: seq<string>, b: seq<string>)
    ensures Fold(apply, value, a + b) == Fold(apply, Fold(apply, value, a), b)
    decreases |b|
  {
    if b == [] {
      assert a + b == a;
    } else {
      assert (a + b)[..|a + b| - 1] == a + b[..|b| - 1];
      FoldConcat(apply, value, a, b[..|b| - 1]);
    }
  }

  lemma LogNext(log: seq<Event>, e: Event, key: Key)
    ensures Edits(log + [e], key) == if e.Saved? && e.work.key == key then Edits(log, key) + e.work.edits else Edits(log, key)
    ensures Origin(log + [e], key) == if e.Inserted? && e.key == key then Some(e.row) else Origin(log, key)
  {
    assert (log + [e])[..|log|] == log;
    assert Edits(log, key) + [] == Edits(log, key);
  }

  lemma AccumulateMore(apply: Apply, origin: Option<Row>, a: seq<string>, b: seq<string>)
    ensures Accumulate(apply, origin, a + b) == Accumulate(apply, Accumulate(apply, origin, a), b)
  {
    if origin.Some? { FoldConcat(apply, origin.value.value, a, b); }
  }

  lemma NothingLostNext(apply: Apply, log: seq<Event>, e: Event)
    requires NothingLost(apply, log)
    requires e.Saved? ==> Accumulated(apply, log, e.work.key) == Some(Row(e.work.version, e.work.value))
    ensures NothingLost(apply, log + [e])
  {
    var longer := log + [e];
    forall i | 0 <= i < |longer| ensures BuiltOnLatest(apply, longer, i) {
      assert longer[..i] == log[..i];
      if i < |log| { assert BuiltOnLatest(apply, log, i); } else { assert log[..i] == log; }
    }
  }

  lemma {:induction false} NoEditsBeforeOrigin(apply: Apply, log: seq<Event>, key: Key)
    requires Origin(log, key).None? && NothingLost(apply, log)
    ensures Edits(log, key) == []
    decreases |log|
  {
    if log != [] {
      var n := |log| - 1;
      PrefixNothingLost(apply, log, n);
      NoEditsBeforeOrigin(apply, log[..n], key);
      assert BuiltOnLatest(apply, log, n);
    }
  }

  lemma PrefixNothingLost(apply: Apply, log: seq<Event>, n: nat)
    requires NothingLost(apply, log) && n <= |log|
    ensures NothingLost(apply, log[..n])
  {
    var init := log[..n];
    forall i | 0 <= i < |init| ensures BuiltOnLatest(apply, init, i) {
      assert BuiltOnLatest(apply, log, i);
      assert init[..i] == log[..i];
    }
  }

  lemma SavedRowOk(apply: Apply, rows: map<Key, Row>, log: seq<Event>, w: Work, key: Key)
    requires RowOk(apply, rows, log, key) && w.key in rows
    requires Accumulated(apply, log, w.key) == Some(Row(w.version, w.value))
    ensures RowOk(apply, rows[w.key := Written(apply, w)], log + [Saved(w)], key)
  {
    LogNext(log, Saved(w), key);
    if w.key == key { AccumulateMore(apply, Origin(log, key), Edits(log, key), w.edits); }
  }

  lemma InsertedRowOk(apply: Apply, rows: map<Key, Row>, log: seq<Event>, inserted: Key, row: Row, key: Key)
    requires RowOk(apply, rows, log, key) && Edits(log, inserted) == []
    ensures RowOk(apply, rows[inserted := row], log + [Inserted(inserted, row)], key)
  {
    LogNext(log, Inserted(inserted, row), key);
  }

  /** The rows stay what the log accumulates to, as long as the log has lost nothing. */
  lemma RowsFollowLog(apply: Apply, s: State, step: Step)
    requires Enabled((_, _) => true, s, step) && RowsOk(apply, s.rows, s.log)
    requires NothingLost(apply, After(apply, s, step).log)
    ensures RowsOk(apply, After(apply, s, step).rows, After(apply, s, step).log)
  {
    var after := After(apply, s, step);
    if after.log != s.log {
      var n := |s.log|;
      var e := after.log[n];
      assert after.log[..n] == s.log && after.log == s.log + [e];
      PrefixNothingLost(apply, after.log, n);
      assert BuiltOnLatest(apply, after.log, n);
      match e
      case Inserted(inserted, row) =>
        assert RowOk(apply, s.rows, s.log, inserted);
        NoEditsBeforeOrigin(apply, s.log, inserted);
        forall key ensures RowOk(apply, after.rows, after.log, key) {
          assert RowOk(apply, s.rows, s.log, key);
          InsertedRowOk(apply, s.rows, s.log, inserted, row, key);
        }
      case Saved(w) =>
        forall key ensures RowOk(apply, after.rows, after.log, key) {
          assert RowOk(apply, s.rows, s.log, key);
          SavedRowOk(apply, s.rows, s.log, w, key);
        }
      case Conflicted(w) =>
        forall key ensures RowOk(apply, after.rows, after.log, key) {
          assert RowOk(apply, s.rows, s.log, key);
          LogNext(s.log, Conflicted(w), key);
        }
    }
  }

  lemma SaveKeeps(apply: Apply, s: State, client: nat, expecting: Expecting)
    requires Inv(apply, s) && client in s.clients
    requires expecting == OneLess ==> |s.clients[client].edits| < 2
    ensures Inv(apply, After(apply, s, Save(client, expecting)))
  {
    var w := s.clients[client];
    var after := After(apply, s, Save(client, expecting));
    assert CopyOk(s.rows, w);
    if Matches(s.rows, w.key, Expected(w, expecting)) {
      assert RowOk(apply, s.rows, s.log, w.key);
      NothingLostNext(apply, s.log, Saved(w));
      forall c <- after.clients ensures CopyOk(after.rows, after.clients[c]) {
        assert CopyOk(s.rows, s.clients[c]);
      }
    } else {
      NothingLostNext(apply, s.log, Conflicted(w));
    }
    RowsFollowLog(apply, s, Save(client, expecting));
  }

  /** The save calls that can never overwrite a change: those that expect the version read, and
      those that expect one less after at most one transition. */
  ghost predicate Harmless(allowed: (Expecting, nat) -> bool) {
    forall n: nat :: allowed(OneLess, n) ==> n < 2
  }

  lemma InsertKeeps(apply: Apply, s: State, key: Key, row: Row)
    requires Inv(apply, s) && key !in s.rows
    ensures Inv(apply, After(apply, s, Insert(key, row)))
  {
    var after := After(apply, s, Insert(key, row));
    NothingLostNext(apply, s.log, Inserted(key, row));
    RowsFollowLog(apply, s, Insert(key, row));
    forall c <- after.clients ensures CopyOk(after.rows, after.clients[c]) {
      assert CopyOk(s.rows, s.clients[c]);
    }
  }

  lemma StepKeeps(apply: Apply, allowed: (Expecting, nat) -> bool, s: State, step: Step)
    requires Inv(apply, s) && Enabled(allowed, s, step) && Harmless(allowed)
    ensures Inv(apply, After(apply, s, step))
  {
    match step {
      case Insert(key, row) => InsertKeeps(apply, s, key, row);
      case Read(_, _) =>
      case Edit(client, _) => assert CopyOk(s.rows, s.clients[client]);
      case Save(client, expecting) => SaveKeeps(apply, s, client, expecting);
    }
  }

  lemma {:induction false} InvariantReached(apply: Apply, allowed: (Expecting, nat) -> bool, steps: seq<Step>, s: State)
    requires Reaches(apply, allowed, steps, s) && Harmless(allowed)
    ensures Inv(apply, s)
    decreases |steps|
  {
    if steps != [] {
      var last := |steps| - 1;
      var before: State :| Reaches(apply, allowed, steps[..last], before) && Enabled(allowed, before, steps[last])
                           && s == After(apply, before, steps[last]);
      InvariantReached(apply, allowed, steps[..last], before);
      StepKeeps(apply, allowed, before, steps[last]);
    }
  }

  /** Every committed save was computed from what the commit before it left, so each row ends as
      the fold of exactly the committed transitions in commit order, its version counting them. */
  lemma NoUpdateLost(apply: Apply, allowed: (Expecting, nat) -> bool, steps: seq<Step>, s: State, key: Key)
    requires Reaches(apply, allowed, steps, s) && Harmless(allowed) && key in s.rows
    ensures NothingLost(apply, s.log)
    ensures Origin(s.log, key).Some?
    ensures s.rows[key].version == Origin(s.log, key).value.version + |Edits(s.log, key)|
    ensures s.rows[key].value == Fold(apply, Origin(s.log, key).value.value, Edits(s.log, key))
  {
    InvariantReached(apply, allowed, steps, s);
    assert RowOk(apply, s.rows, s.log, key);
  }

  // ---------------------------------------------------------------- exactly when

  lemma ReachesNext(apply: Apply, allowed: (Expecting, nat) -> bool, steps: seq<Step>, s: State, step: Step)
    requires Reaches(apply, allowed, steps, s) && Enabled(allowed, s, step)
    ensures Reaches(apply, allowed, steps + [step], After(apply, s, step))
  {
    assert (steps + [step])[..|steps|] == steps;
  }

  /** The table is saved after single transitions, in whichever of the two ways it has. */
  predicate SavesSingly(allowed: (Expecting, nat) -> bool) {
    allowed(OneLess, 1) || allowed(ReadVersion, 1)
  }

  /** A client makes any number of transitions. */
  lemma {:induction false} EditsReach(apply: Apply, allowed: (Expecting, nat) -> bool, steps: seq<Step>, s: State,
                                      client: nat, n: nat)
    returns (steps': seq<Step>, s': State)
    requires Reaches(apply, allowed, steps, s) && client in s.clients
    ensures Reaches(apply, allowed, steps', s') && s'.rows == s.rows && s'.log == s.log
    ensures client in s'.clients && |s'.clients[client].edits| == |s.clients[client].edits| + n
    ensures s'.clients[client].key == s.clients[client].key && s'.clients[client].version == s.clients[client].version
    ensures forall c | c in s.clients && c != client :: c in s'.clients && s'.clients[c] == s.clients[c]
  {
    if n == 0 { return steps, s; }
    var steps1, s1 := EditsReach(apply, allowed, steps, s, client, n - 1);
    ReachesNext(apply, allowed, steps1, s1, Edit(client, "transition"));
    steps', s' := steps1 + [Edit(client, "transition")], After(apply, s1, Edit(client, "transition"));
  }

  /** Another client saves one transition at a time, n times, while `held` keeps its copy. */
  lemma {:induction false} OthersAdvance(apply: Apply, allowed: (Expecting, nat) -> bool, steps: seq<Step>, s: State,
                                         held: nat, key: Key, n: nat)
    returns (steps': seq<Step>, s': State)
    requires Reaches(apply, allowed, steps, s) && held in s.clients && key in s.rows
    requires SavesSingly(allowed)
    ensures Reaches(apply, allowed, steps', s') && key in s'.rows && s'.rows[key].version == s.rows[key].version + n
    ensures held in s'.clients && s'.clients[held] == s.clients[held]
  {
    if n == 0 { return steps, s; }
    var steps1, s1 := OthersAdvance(apply, allowed, steps, s, held, key, n - 1);
    var other := held + 1;
    ReachesNext(apply, allowed, steps1, s1, Read(other, key));
    var s2 := After(apply, s1, Read(other, key));
    var steps2 := steps1 + [Read(other, key)];
    var steps3, s3 := EditsReach(apply, allowed, steps2, s2, other, 1);
    var save := Save(other, if allowed(OneLess, 1) then OneLess else ReadVersion);
    ReachesNext(apply, allowed, steps3, s3, save);
    steps', s' := steps3 + [save], After(apply, s3, save);
  }

  lemma {:induction false} LogTellsRows(apply: Apply, allowed: (Expecting, nat) -> bool, steps: seq<Step>, s: State)
    requires Reaches(apply, allowed, steps, s) && NothingLost(apply, s.log)
    ensures RowsOk(apply, s.rows, s.log)
    decreases |steps|
  {
    if steps != [] {
      var last := |steps| - 1;
      var before: State :| Reaches(apply, allowed, steps[..last], before) && Enabled(allowed, before, steps[last])
                           && s == After(apply, before, steps[last]);
      assert s.log[..|before.log|] == before.log;
      PrefixNothingLost(apply, s.log, |before.log|);
      LogTellsRows(apply, allowed, steps[..last], before);
      RowsFollowLog(apply, before, steps[last]);
    }
  }

  lemma BehindIsNotBuilt(apply: Apply, rows: map<Key, Row>, log: seq<Event>, w: Work)
    requires RowsOk(apply, rows, log) && w.key in rows && w.version < rows[w.key].version
    ensures !BuiltOnLatest(apply, log + [Saved(w)], |log|)
  {
    assert (log + [Saved(w)])[..|log|] == log;
    assert RowOk(apply, rows, log, w.key);
  }

  /** A save that goes through although its copy is behind the row loses an update. */
  lemma StaleSaveLoses(apply: Apply, allowed: (Expecting, nat) -> bool, steps: seq<Step>, s: State, client: nat,
                       expecting: Expecting)
    requires Reaches(apply, allowed, steps, s) && Enabled(allowed, s, Save(client, expecting))
    requires CopyBehind(s, client) && Matches(s.rows, s.clients[client].key, Expected(s.clients[client], expecting))
    ensures !NothingLost(apply, After(apply, s, Save(client, expecting)).log)
  {
    var w, after := s.clients[client], After(apply, s, Save(client, expecting));
    assert after.log == s.log + [Saved(w)] && after.log[..|s.log|] == s.log;
    if NothingLost(apply, s.log) {
      LogTellsRows(apply, allowed, steps, s);
      BehindIsNotBuilt(apply, s.rows, s.log, w);
    } else if NothingLost(apply, after.log) {
      PrefixNothingLost(apply, after.log, |s.log|);
    }
  }

  predicate CopyBehind(s: State, client: nat) {
    client in s.clients && s.clients[client].key in s.rows
    && s.clients[client].version < s.rows[s.clients[client].key].version
  }

  /** A client reads a new row and makes n transitions on its copy. */
  lemma FirstReader(apply: Apply, allowed: (Expecting, nat) -> bool, key: Key, n: nat)
    returns (steps: seq<Step>, s: State)
    ensures Reaches(apply, allowed, steps, s) && key in s.rows && s.rows[key].version == 1
    ensures 0 in s.clients && s.clients[0].key == key && s.clients[0].version == 1 && |s.clients[0].edits| == n
  {
    var insert := Insert(key, Row(1, "shadow"));
    ReachesNext(apply, allowed, [], Empty, insert);
    var s1 := After(apply, Empty, insert);
    ReachesNext(apply, allowed, [] + [insert], s1, Read(0, key));
    var s2 := After(apply, s1, Read(0, key));
    steps, s := EditsReach(apply, allowed, [] + [insert] + [Read(0, key)], s2, 0, n);
  }

  /** Two transitions before one derived save: somebody else's save in between is overwritten. */
  lemma TwoTransitionsLoseAnUpdate(apply: Apply, allowed: (Expecting, nat) -> bool, n: nat)
    returns (steps: seq<Step>, s: State)
    requires n >= 2 && allowed(OneLess, n) && SavesSingly(allowed)
    ensures Reaches(apply, allowed, steps, s) && !NothingLost(apply, s.log)
  {
    var key := ("tenant", "deployment");
    var steps1, s1 := FirstReader(apply, allowed, key, n);
    var steps2, s2 := OthersAdvance(apply, allowed, steps1, s1, 0, key, n - 1);
    StaleSaveLoses(apply, allowed, steps2, s2, 0, OneLess);
    ReachesNext(apply, allowed, steps2, s2, Save(0, OneLess));
    steps, s := steps2 + [Save(0, OneLess)], After(apply, s2, Save(0, OneLess));
  }

  /** No update is ever lost exactly when no call that derives the expected version is made after
      two or more transitions. */
  lemma NothingLostExactly(apply: Apply, allowed: (Expecting, nat) -> bool)
    requires SavesSingly(allowed)
    ensures Harmless(allowed)
            <==> forall steps: seq<Step>, s: State | Reaches(apply, allowed, steps, s) :: NothingLost(apply, s.log)
  {
    if Harmless(allowed) {
      forall steps: seq<Step>, s: State | Reaches(apply, allowed, steps, s) ensures NothingLost(apply, s.log) {
        InvariantReached(apply, allowed, steps, s);
      }
    } else {
      var n: nat :| allowed(OneLess, n) && n >= 2;
      var steps, s := TwoTransitionsLoseAnUpdate(apply, allowed, n);
      assert Reaches(apply, allowed, steps, s) && !NothingLost(apply, s.log);
    }
  }

  /** Then a save goes through exactly if nobody has saved the row since it was read; otherwise it is told
      of the conflict and changes nothing.  Either way the client's copy is spent. */
  lemma SavesExactly(apply: Apply, allowed: (Expecting, nat) -> bool, steps: seq<Step>, s: State, client: nat,
                     expecting: Expecting)
    requires Harmless(allowed) && Reaches(apply, allowed, steps, s) && Enabled(allowed, s, Save(client, expecting))
    requires expecting == OneLess ==> s.clients[client].edits != []
    ensures var w, after := s.clients[client], After(apply, s, Save(client, expecting));
            && w.key in s.rows && after.clients == s.clients - {client}
            && if s.rows[w.key].version == w.version then
                 && after.log == s.log + [Saved(w)]
                 && after.rows == s.rows[w.key := Row(w.version + |w.edits|, Fold(apply, s.rows[w.key].value, w.edits))]
               else after.rows == s.rows && after.log == s.log + [Conflicted(w)]
  {
    InvariantReached(apply, allowed, steps, s);
    assert CopyOk(s.rows, s.clients[client]);
  }

  // ---------------------------------------------------------------- the calls

  class VersionedTable {
    ghost const apply: Apply
    var rows: map<Key, Row>
    ghost var log: seq<Event>

    /** Every row is the accumulation of the committed saves, none of which lost another. */
    ghost predicate Valid()
      reads this
    {
      RowsOk(apply, rows, log) && NothingLost(apply, log)
    }

    constructor (ghost apply: Apply)
      ensures this.apply == apply && Valid() && rows == map[]
    {
      this.apply := apply;
      rows, log := map[], [];
    }

    /** `_save_versioned`: `UPDATE ... WHERE id AND tenant AND version`, and the row count. */
    method SaveVersioned(key: Key, expected: int, newVersion: nat, value: string) returns (saved: bool)
      modifies `rows
      ensures saved <==> Matches(old(rows), key, expected)
      ensures rows == if saved then old(rows)[key := Row(newVersion, value)] else old(rows)
    {
      saved := key in rows && rows[key].version == expected;
      if saved {
        rows := rows[key := Row(newVersion, value)];
      }
    }

    /** Saves a changed copy.  It goes through exactly if nobody has saved the row since the copy was
        read, and the transitions are then applied to the row as it stands. */
    method SaveCopy(ghost w: Work, expecting: Expecting, key: Key, expected: int, newVersion: nat, value: string)
      returns (saved: bool)
      requires Valid() && CopyOk(rows, w) && (expecting == OneLess ==> |w.edits| == 1)
      requires key == w.key && expected == Expected(w, expecting) && Row(newVersion, value) == Written(apply, w)
      modifies `rows, `log
      ensures Valid()
      ensures saved <==> old(rows)[key].version == w.version
      ensures saved ==>
                var before := old(rows)[key];
                rows == old(rows)[key := Row(before.version + |w.edits|, Fold(apply, before.value, w.edits))]
      ensures !saved ==> rows == old(rows)
    {
      ghost var s := State(rows, map[0 := w], log);
      ghost var save := Save(0, expecting);
      assert Inv(apply, s);
      SaveKeeps(apply, s, 0, expecting);
      saved := SaveVersioned(key, expected, newVersion, value);
      log := After(apply, s, save).log;
      assert rows == After(apply, s, save).rows;
    }
  }
}
