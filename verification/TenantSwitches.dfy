/** A tenant's kill switches: rows that are activated and deactivated, and the query that blocks.

    Deactivating reads an active row without locking it and then updates it by id, so two
    deactivations may pick the same row. */
module TenantSwitches {
  import opened Basics

  datatype Dimension = Platform | Tenant | Agent | Tool | Operation | Provider | CapabilityPack

  datatype Key = Key(tenant: string, dimension: Dimension, target: string)

  datatype Row = Row(key: Key, active: bool)

  datatype Event = Activated(id: string, key: Key) | Deactivated(id: string, key: Key)

  datatype State = State(rows: map<string, Row>, picked: map<nat, string>, log: seq<Event>)

  datatype Step =
    | Activate(id: string, key: Key)
    | Pick(tx: nat, id: string)
    | Finish(tx: nat)
    | Abort(tx: nat)

  const Empty := State(map[], map[], [])

  predicate Enabled(s: State, step: Step) {
    match step
    case Activate(id, key) => id !in s.rows && key.dimension != Platform
    case Pick(tx, id) => tx !in s.picked && id in s.rows && s.rows[id].active
    case Finish(tx) => tx in s.picked && s.picked[tx] in s.rows
    case Abort(tx) => tx in s.picked
  }

  function Apply(s: State, step: Step): State
    requires Enabled(s, step)
  {
    match step
    case Activate(id, key) => s.(rows := s.rows[id := Row(key, true)], log := s.log + [Activated(id, key)])
    case Pick(tx, id) => s.(picked := s.picked[tx := id])
    case Finish(tx) =>
      var id := s.picked[tx];
      State(s.rows[id := s.rows[id].(active := false)], s.picked - {tx}, s.log + [Deactivated(id, s.rows[id].key)])
    case Abort(tx) => s.(picked := s.picked - {tx})
  }

  /** What a deployment lets happen, by whatever means it schedules the calls. */
  type Guard = (State, Step) -> bool

  /** The code by itself schedules nothing. */
  const Unscheduled: Guard := (s: State, step: Step) => true

  /** It may hold calls and reads back, but a deactivation that has read its row finishes freely. */
  ghost predicate FinishesFreely(guard: Guard) {
    forall s: State, tx :: guard(s, Finish(tx))
  }

  ghost predicate Reaches(guard: Guard, steps: seq<Step>, s: State)
    decreases |steps|
  {
    if steps == [] then s == Empty
    else
      var last := |steps| - 1;
      exists before: State ::
        && Reaches(guard, steps[..last], before) && Enabled(before, steps[last]) && guard(before, steps[last])
        && s == Apply(before, steps[last])
  }

  // ---------------------------------------------------------------- counting

  function ActiveRows(rows: map<string, Row>, key: Key): set<string> {
    set id | id in rows && rows[id].active && rows[id].key == key
  }

  function Count(log: seq<Event>, key: Key, activations: bool): nat {
    if log == [] then 0
    else
      var e := log[|log| - 1];
      Count(log[..|log| - 1], key, activations) + (if e.key == key && e.Activated? == activations then 1 else 0)
  }

  function Ids(log: seq<Event>, key: Key, activations: bool): set<string> {
    if log == [] then {}
    else
      var e := log[|log| - 1];
      Ids(log[..|log| - 1], key, activations) + (if e.key == key && e.Activated? == activations then {e.id} else {})
  }

  /** No row of the key was deactivated twice. */
  predicate NoneTwice(log: seq<Event>, key: Key) {
    forall i, j | 0 <= i < j < |log| && log[i].Deactivated? && log[j].Deactivated? && log[i].key == key && log[j].key == key ::
      log[i].id != log[j].id
  }

  lemma {:induction false} IdsAt(log: seq<Event>, key: Key, activations: bool, id: string)
    ensures id in Ids(log, key, activations) <==>
            exists i | 0 <= i < |log| :: log[i].id == id && log[i].key == key && log[i].Activated? == activations
  {
    if log != [] {
      var n := |log| - 1;
      IdsAt(log[..n], key, activations, id);
      assert log == log[..n] + [log[n]];
    }
  }

  lemma Next(log: seq<Event>, e: Event, key: Key, activations: bool)
    ensures Count(log + [e], key, activations) ==
            Count(log, key, activations) + (if e.key == key && e.Activated? == activations then 1 else 0)
    ensures Ids(log + [e], key, activations) ==
            Ids(log, key, activations) + (if e.key == key && e.Activated? == activations then {e.id} else {})
  {
    assert (log + [e])[..|log|] == log;
  }

  lemma NoneTwiceNext(log: seq<Event>, e: Event, key: Key)
    requires e.Deactivated? && e.key == key ==> e.id !in Ids(log, key, false)
    ensures NoneTwice(log + [e], key) <==> NoneTwice(log, key)
  {
    var longer := log + [e];
    IdsAt(log, key, false, e.id);
    if NoneTwice(longer, key) {
      forall i, j | 0 <= i < j < |log| && log[i].Deactivated? && log[j].Deactivated? && log[i].key == key && log[j].key == key
        ensures log[i].id != log[j].id {
        assert longer[i] == log[i] && longer[j] == log[j];
      }
    }
  }

  lemma RepetitionIsTwice(log: seq<Event>, e: Event, key: Key)
    requires e.Deactivated? && e.key == key && e.id in Ids(log, key, false)
    ensures !NoneTwice(log + [e], key)
  {
    IdsAt(log, key, false, e.id);
    var i :| 0 <= i < |log| && log[i].id == e.id && log[i].key == key && log[i].Deactivated?;
    assert (log + [e])[i] == log[i] && (log + [e])[|log|] == e;
  }

  /** Each id counted once, the count equals the number of ids; with a repetition it exceeds it. */
  lemma {:induction false} DeactivationsCounted(log: seq<Event>, key: Key)
    ensures |Ids(log, key, false)| <= Count(log, key, false)
    ensures |Ids(log, key, false)| == Count(log, key, false) <==> NoneTwice(log, key)
  {
    if log != [] {
      var init, e := log[..|log| - 1], log[|log| - 1];
      assert log == init + [e];
      DeactivationsCounted(init, key);
      Next(init, e, key, false);
      var ids := Ids(init, key, false);
      if e.Deactivated? && e.key == key && e.id in ids {
        assert ids + {e.id} == ids;
        RepetitionIsTwice(init, e, key);
      } else {
        assert ids + {} == ids;
        NoneTwiceNext(init, e, key);
      }
    }
  }

  ghost predicate RowsOk(rows: map<string, Row>, log: seq<Event>, key: Key) {
    && SetsOk(rows, Ids(log, key, true), Ids(log, key, false), key)
    && |Ids(log, key, true)| == Count(log, key, true)
  }

  /** The ids ever activated and ever deactivated are what the rows say. */
  ghost predicate SetsOk(rows: map<string, Row>, on: set<string>, off: set<string>, key: Key) {
    && off <= on
    && (forall id :: id in on <==> id in rows && rows[id].key == key)
    && (forall id :: id in off <==> id in rows && rows[id].key == key && !rows[id].active)
  }

  ghost predicate Inv(s: State) {
    (forall key :: RowsOk(s.rows, s.log, key)) && forall tx <- s.picked :: s.picked[tx] in s.rows
  }

  lemma ActivateSets(rows: map<string, Row>, on: set<string>, off: set<string>, id: string, activated: Key, key: Key)
    requires SetsOk(rows, on, off, key) && id !in rows
    ensures SetsOk(rows[id := Row(activated, true)], on + (if activated == key then {id} else {}), off, key)
    ensures activated == key ==> |on + {id}| == |on| + 1
  {
    assert id !in on && id !in off;
  }

  lemma ActivateKeeps(rows: map<string, Row>, log: seq<Event>, id: string, activated: Key, key: Key)
    requires RowsOk(rows, log, key) && id !in rows
    ensures RowsOk(rows[id := Row(activated, true)], log + [Activated(id, activated)], key)
  {
    Next(log, Activated(id, activated), key, true);
    Next(log, Activated(id, activated), key, false);
    ActivateSets(rows, Ids(log, key, true), Ids(log, key, false), id, activated, key);
    assert Ids(log, key, false) + {} == Ids(log, key, false);
    assert Ids(log, key, true) + {} == Ids(log, key, true);
  }

  lemma DeactivateSets(rows: map<string, Row>, on: set<string>, off: set<string>, id: string, key: Key)
    requires SetsOk(rows, on, off, key) && id in rows
    ensures SetsOk(rows[id := rows[id].(active := false)], on, off + (if rows[id].key == key then {id} else {}), key)
  {
  }

  lemma DeactivateKeeps(rows: map<string, Row>, log: seq<Event>, id: string, key: Key)
    requires RowsOk(rows, log, key) && id in rows
    ensures RowsOk(rows[id := rows[id].(active := false)], log + [Deactivated(id, rows[id].key)], key)
  {
    Next(log, Deactivated(id, rows[id].key), key, true);
    Next(log, Deactivated(id, rows[id].key), key, false);
    DeactivateSets(rows, Ids(log, key, true), Ids(log, key, false), id, key);
    assert Ids(log, key, true) + {} == Ids(log, key, true);
  }

  lemma StepKeeps(s: State, step: Step)
    requires Inv(s) && Enabled(s, step)
    ensures Inv(Apply(s, step))
  {
    match step
    case Activate(id, activated) =>
      forall key ensures RowsOk(Apply(s, step).rows, Apply(s, step).log, key) {
        ActivateKeeps(s.rows, s.log, id, activated, key);
      }
    case Pick(_, _) =>
    case Finish(tx) =>
      forall key ensures RowsOk(Apply(s, step).rows, Apply(s, step).log, key) {
        DeactivateKeeps(s.rows, s.log, s.picked[tx], key);
      }
    case Abort(_) =>
  }

  lemma {:induction false} InvariantReached(guard: Guard, steps: seq<Step>, s: State)
    requires Reaches(guard, steps, s)
    ensures Inv(s)
    decreases |steps|
  {
    if steps != [] {
      var last := |steps| - 1;
      var before: State :| Reaches(guard, steps[..last], before) && Enabled(before, steps[last])
                           && guard(before, steps[last]) && s == Apply(before, steps[last]);
      InvariantReached(guard, steps[..last], before);
      StepKeeps(before, steps[last]);
    }
  }

  /** As many active rows of the key as activations less deactivations. */
  predicate Balances(s: State, key: Key) {
    |ActiveRows(s.rows, key)| == Count(s.log, key, true) - Count(s.log, key, false)
  }

  /** Never fewer active rows than activations less deactivations, and exactly that many if and only
      if no row was deactivated twice. */
  lemma ActiveRowsBalance(guard: Guard, steps: seq<Step>, s: State, key: Key)
    requires Reaches(guard, steps, s)
    ensures |ActiveRows(s.rows, key)| >= Count(s.log, key, true) - Count(s.log, key, false)
    ensures Balances(s, key) <==> NoneTwice(s.log, key)
  {
    InvariantReached(guard, steps, s);
    assert RowsOk(s.rows, s.log, key);
    DeactivationsCounted(s.log, key);
    assert ActiveRows(s.rows, key) == Ids(s.log, key, true) - Ids(s.log, key, false);
    assert |Ids(s.log, key, true) - Ids(s.log, key, false)| == |Ids(s.log, key, true)| - |Ids(s.log, key, false)| by {
      assert Ids(s.log, key, true) == (Ids(s.log, key, true) - Ids(s.log, key, false)) + Ids(s.log, key, false);
    }
  }

  lemma ReachesNext(guard: Guard, steps: seq<Step>, s: State, step: Step)
    requires Reaches(guard, steps, s) && Enabled(s, step) && guard(s, step)
    ensures Reaches(guard, steps + [step], Apply(s, step))
  {
    assert (steps + [step])[..|steps|] == steps;
  }

  // ---------------------------------------------------------------- schedules

  /** Two deactivations in flight have read the same row. */
  ghost predicate Collide(picked: map<nat, string>) {
    exists a <- picked, b <- picked :: a != b && picked[a] == picked[b]
  }

  ghost predicate NeverCollide(guard: Guard) {
    forall steps: seq<Step>, s: State | Reaches(guard, steps, s) :: !Collide(s.picked)
  }

  predicate Active(rows: map<string, Row>, id: string) {
    id in rows && rows[id].active
  }

  ghost predicate PickedActive(s: State) {
    forall tx <- s.picked :: Active(s.rows, s.picked[tx])
  }

  lemma FinishKeepsOnce(s: State, tx: nat, key: Key)
    requires Inv(s) && Enabled(s, Finish(tx)) && Active(s.rows, s.picked[tx]) && NoneTwice(s.log, key)
    ensures NoneTwice(Apply(s, Finish(tx)).log, key)
  {
    var id := s.picked[tx];
    assert RowsOk(s.rows, s.log, key);
    NoneTwiceNext(s.log, Deactivated(id, s.rows[id].key), key);
  }

  lemma StepKeepsOnce(s: State, step: Step, key: Key)
    requires Inv(s) && PickedActive(s) && Enabled(s, step) && NoneTwice(s.log, key)
    ensures NoneTwice(Apply(s, step).log, key)
  {
    match step
    case Activate(id, activated) => NoneTwiceNext(s.log, Activated(id, activated), key);
    case Finish(tx) => FinishKeepsOnce(s, tx, key);
    case _ =>
  }

  lemma StepKeepsPicked(s: State, step: Step)
    requires PickedActive(s) && Enabled(s, step) && !Collide(s.picked)
    ensures PickedActive(Apply(s, step))
  {
  }

  lemma {:induction false} NoneDeactivatedTwice(guard: Guard, steps: seq<Step>, s: State, key: Key)
    requires NeverCollide(guard) && Reaches(guard, steps, s)
    ensures PickedActive(s) && NoneTwice(s.log, key)
    decreases |steps|
  {
    if steps != [] {
      var last := |steps| - 1;
      var before: State :| Reaches(guard, steps[..last], before) && Enabled(before, steps[last])
                           && guard(before, steps[last]) && s == Apply(before, steps[last]);
      InvariantReached(guard, steps[..last], before);
      NoneDeactivatedTwice(guard, steps[..last], before, key);
      StepKeepsPicked(before, steps[last]);
      StepKeepsOnce(before, steps[last], key);
    }
  }

  lemma BothAreTwice(log: seq<Event>, id: string, key: Key)
    ensures !NoneTwice(log + [Deactivated(id, key)] + [Deactivated(id, key)], key)
  {
    var longer := log + [Deactivated(id, key)] + [Deactivated(id, key)];
    assert longer[|log|] == longer[|log| + 1] == Deactivated(id, key);
  }

  /** Two deactivations that have read the same row both finish, and both are recorded. */
  lemma BothFinish(guard: Guard, steps: seq<Step>, s: State, a: nat, b: nat, id: string, key: Key)
    returns (steps': seq<Step>, s': State)
    requires FinishesFreely(guard) && Reaches(guard, steps, s)
    requires a in s.picked && b in s.picked && a != b && s.picked[a] == s.picked[b] == id
    requires id in s.rows && s.rows[id].key == key
    ensures Reaches(guard, steps', s') && s'.rows == s.rows[id := Row(key, false)]
    ensures s'.log == s.log + [Deactivated(id, key)] + [Deactivated(id, key)]
  {
    ReachesNext(guard, steps, s, Finish(a));
    var s1 := State(s.rows[id := Row(key, false)], s.picked - {a}, s.log + [Deactivated(id, key)]);
    assert s1 == Apply(s, Finish(a));
    ReachesNext(guard, steps + [Finish(a)], s1, Finish(b));
    steps', s' := steps + [Finish(a)] + [Finish(b)], Apply(s1, Finish(b));
  }

  lemma CollisionUnbalances(guard: Guard, steps: seq<Step>, s: State)
    returns (steps': seq<Step>, s': State, key: Key)
    requires FinishesFreely(guard) && Reaches(guard, steps, s) && Collide(s.picked)
    ensures Reaches(guard, steps', s') && !Balances(s', key)
  {
    InvariantReached(guard, steps, s);
    var a, b :| a in s.picked && b in s.picked && a != b && s.picked[a] == s.picked[b];
    var id := s.picked[a];
    key := s.rows[id].key;
    steps', s' := BothFinish(guard, steps, s, a, b, id, key);
    BothAreTwice(s.log, id, key);
    ActiveRowsBalance(guard, steps', s', key);
  }

  /** However calls are scheduled, rows and log balance in every run if and only if no run has two
      deactivations in flight that have read the same row. */
  lemma BalanceExactly(guard: Guard)
    requires FinishesFreely(guard)
    ensures NeverCollide(guard)
            <==> forall steps: seq<Step>, s: State, key | Reaches(guard, steps, s) :: Balances(s, key)
  {
    if NeverCollide(guard) {
      forall steps: seq<Step>, s: State, key | Reaches(guard, steps, s) ensures Balances(s, key) {
        NoneDeactivatedTwice(guard, steps, s, key);
        ActiveRowsBalance(guard, steps, s, key);
      }
    } else {
      var steps: seq<Step>, s: State :| Reaches(guard, steps, s) && Collide(s.picked);
      var steps', s', key := CollisionUnbalances(guard, steps, s);
      assert Reaches(guard, steps', s') && !Balances(s', key);
    }
  }

  /** Reading a row only while no other deactivation in flight has read it is enough. */
  lemma LockingReadIsEnough(guard: Guard)
    requires forall s: State, tx, id | guard(s, Pick(tx, id)) :: id !in s.picked.Values
    ensures NeverCollide(guard)
  {
    forall steps: seq<Step>, s: State | Reaches(guard, steps, s) ensures !Collide(s.picked) {
      LockedReadsDiffer(guard, steps, s);
    }
  }

  lemma {:induction false} LockedReadsDiffer(guard: Guard, steps: seq<Step>, s: State)
    requires forall s: State, tx, id | guard(s, Pick(tx, id)) :: id !in s.picked.Values
    requires Reaches(guard, steps, s)
    ensures !Collide(s.picked)
    decreases |steps|
  {
    if steps != [] {
      var last := |steps| - 1;
      var before: State :| Reaches(guard, steps[..last], before) && Enabled(before, steps[last])
                           && guard(before, steps[last]) && s == Apply(before, steps[last]);
      LockedReadsDiffer(guard, steps[..last], before);
    }
  }

  /** Two activations, two successful deactivations, and the target is still blocked. */
  lemma DeactivationsCanCollide(key: Key) returns (steps: seq<Step>, s: State)
    requires key.dimension != Platform
    ensures Reaches(Unscheduled, steps, s) && Count(s.log, key, true) == Count(s.log, key, false) == 2
    ensures ActiveRows(s.rows, key) != {}
  {
    var steps2, s2 := BothPicked(key);
    steps, s := BothFinish(Unscheduled, steps2, s2, 0, 1, "a", key);
    var e, once := Deactivated("a", key), s2.log + [Deactivated("a", key)];
    Next(s2.log, e, key, true);
    Next(s2.log, e, key, false);
    Next(once, e, key, true);
    Next(once, e, key, false);
    assert "b" in ActiveRows(s.rows, key);
  }

  lemma BothPicked(key: Key) returns (steps: seq<Step>, s: State)
    requires key.dimension != Platform
    ensures Reaches(Unscheduled, steps, s) && s.picked == map[0 := "a", 1 := "a"]
    ensures s.rows == map["a" := Row(key, true)]["b" := Row(key, true)]
    ensures Count(s.log, key, true) == 2 && Count(s.log, key, false) == 0
  {
    var steps1, s1 := TwoActive(key);
    ReachesNext(Unscheduled, steps1, s1, Pick(0, "a"));
    var s2 := Apply(s1, Pick(0, "a"));
    ReachesNext(Unscheduled, steps1 + [Pick(0, "a")], s2, Pick(1, "a"));
    steps, s := steps1 + [Pick(0, "a")] + [Pick(1, "a")], Apply(s2, Pick(1, "a"));
  }

  lemma TwoActive(key: Key) returns (steps: seq<Step>, s: State)
    requires key.dimension != Platform
    ensures Reaches(Unscheduled, steps, s) && s.picked == map[]
    ensures s.rows == map["a" := Row(key, true)]["b" := Row(key, true)]
    ensures Count(s.log, key, true) == 2 && Count(s.log, key, false) == 0
  {
    var steps1, s1 := OneMoreActive([], Empty, "a", key);
    steps, s := OneMoreActive(steps1, s1, "b", key);
  }

  lemma OneMoreActive(steps: seq<Step>, s: State, id: string, key: Key) returns (steps': seq<Step>, s': State)
    requires Reaches(Unscheduled, steps, s) && Enabled(s, Activate(id, key))
    ensures Reaches(Unscheduled, steps', s') && s'.picked == s.picked && s'.rows == s.rows[id := Row(key, true)]
    ensures Count(s'.log, key, true) == Count(s.log, key, true) + 1 && Count(s'.log, key, false) == Count(s.log, key, false)
  {
    ReachesNext(Unscheduled, steps, s, Activate(id, key));
    steps', s' := steps + [Activate(id, key)], Apply(s, Activate(id, key));
    Next(s.log, Activated(id, key), key, true);
    Next(s.log, Activated(id, key), key, false);
  }

  // ---------------------------------------------------------------- the query

  datatype Query = Query(
    tenant: Option<string>, agent: Option<string>, tool: Option<string>, operation: Option<string>,
    provider: Option<string>, pack: Option<string>)

  function Asked(dimension: Dimension, value: Option<string>): seq<(Dimension, string)> {
    if value.Some? then [(dimension, value.value)] else []
  }

  function Dimensions(q: Query): seq<(Dimension, string)> {
    [(Platform, "platform")] + Asked(Tenant, q.tenant) + Asked(Agent, q.agent) + Asked(Tool, q.tool)
    + Asked(Operation, q.operation) + Asked(Provider, q.provider) + Asked(CapabilityPack, q.pack)
  }

  predicate Matches(row: Row, tenant: string, dimensions: seq<(Dimension, string)>) {
    row.active && row.key.tenant == tenant && (row.key.dimension, row.key.target) in dimensions
  }

  predicate Blocked(rows: map<string, Row>, platform: bool, tenant: string, dimensions: seq<(Dimension, string)>) {
    dimensions != [] && (platform || exists id <- rows :: Matches(rows[id], tenant, dimensions))
  }

  /** The query asks about the dimension of the key, and gives the key's target for it. */
  predicate AsksAbout(q: Query, key: Key) {
    match key.dimension
    case Platform => key.target == "platform"
    case Tenant => q.tenant == Some(key.target)
    case Agent => q.agent == Some(key.target)
    case Tool => q.tool == Some(key.target)
    case Operation => q.operation == Some(key.target)
    case Provider => q.provider == Some(key.target)
    case CapabilityPack => q.pack == Some(key.target)
  }

  lemma DimensionsAskAbout(q: Query, key: Key)
    ensures (key.dimension, key.target) in Dimensions(q) <==> AsksAbout(q, key)
  {
    var d := (key.dimension, key.target);
    assert d in Dimensions(q) <==>
           || d == (Platform, "platform") || d in Asked(Tenant, q.tenant) || d in Asked(Agent, q.agent)
           || d in Asked(Tool, q.tool) || d in Asked(Operation, q.operation) || d in Asked(Provider, q.provider)
           || d in Asked(CapabilityPack, q.pack);
  }

  /** A query is blocked exactly by the platform switch or by an active row of the tenant for one of the
      things it asks about. */
  lemma BlockedByRows(rows: map<string, Row>, platform: bool, tenant: string, q: Query)
    ensures Blocked(rows, platform, tenant, Dimensions(q)) <==>
            platform || exists id <- rows :: rows[id].active && rows[id].key.tenant == tenant && AsksAbout(q, rows[id].key)
  {
    forall id | id in rows
      ensures Matches(rows[id], tenant, Dimensions(q))
              <==> rows[id].active && rows[id].key.tenant == tenant && AsksAbout(q, rows[id].key) {
      DimensionsAskAbout(q, rows[id].key);
    }
  }

  /** When no two deactivations in flight read the same row, then in every reachable state a query
      is blocked exactly when the platform switch is on or something it asks about was activated more
      often than deactivated for the tenant. */
  lemma BlockedExactly(guard: Guard, steps: seq<Step>, s: State, platform: bool, tenant: string, q: Query)
    requires NeverCollide(guard) && Reaches(guard, steps, s)
    ensures Blocked(s.rows, platform, tenant, Dimensions(q)) <==>
            || platform
            || exists key: Key :: key.tenant == tenant && AsksAbout(q, key) && Count(s.log, key, true) > Count(s.log, key, false)
  {
    forall key ensures ActiveRows(s.rows, key) != {} <==> Count(s.log, key, true) > Count(s.log, key, false) {
      NoneDeactivatedTwice(guard, steps, s, key);
      ActiveRowsBalance(guard, steps, s, key);
    }
    BlockedByRows(s.rows, platform, tenant, q);
    if id :| id in s.rows && s.rows[id].active && s.rows[id].key.tenant == tenant && AsksAbout(q, s.rows[id].key) {
      assert id in ActiveRows(s.rows, s.rows[id].key);
    }
    if key: Key :| key.tenant == tenant && AsksAbout(q, key) && Count(s.log, key, true) > Count(s.log, key, false) {
      var id :| id in ActiveRows(s.rows, key);
      assert s.rows[id].active && AsksAbout(q, s.rows[id].key);
    }
  }

  // ---------------------------------------------------------------- the calls

  datatype Failure = NoTenant | NotPermitted

  class SqlKillSwitchStore {
    const tenant: Option<string>
    var rows: map<string, Row>

    constructor (tenant: Option<string>, rows: map<string, Row>)
      ensures this.tenant == tenant && this.rows == rows
    {
      this.tenant, this.rows := tenant, rows;
    }

    method IsBlocked(q: Query, platform: bool) returns (r: Result<bool, Failure>)
      ensures r.Err? <==> tenant.None? && (q.tenant == None || q.tenant == Some(""))
      ensures r.Ok? ==> var t := if tenant.Some? then tenant.value else q.tenant.value;
                        r.value <==> platform || exists id <- rows ::
                          rows[id].active && rows[id].key.tenant == t && AsksAbout(q, rows[id].key)
    {
      var scoped := tenant;
      if scoped.None? && q.tenant != Some("") {
        scoped := q.tenant;
      }
      if scoped.None? {
        return Err(NoTenant);
      }
      BlockedByRows(rows, platform, scoped.value, q);
      if platform {
        return Ok(true);
      }
      var rest := rows.Keys;
      while rest != {}
        invariant rest <= rows.Keys
        invariant forall id <- rows.Keys - rest :: !Matches(rows[id], scoped.value, Dimensions(q))
        decreases |rest|
      {
        var id :| id in rest;
        if Matches(rows[id], scoped.value, Dimensions(q)) {
          return Ok(true);
        }
        rest := rest - {id};
      }
      r := Ok(false);
    }

    method Activate(id: string, dimension: Dimension, target: string) returns (r: Result<(), Failure>)
      requires id !in rows
      modifies this
      ensures r == if tenant.None? then Err(NoTenant) else if dimension == Platform then Err(NotPermitted) else Ok(())
      ensures r.Err? ==> rows == old(rows)
      ensures r.Ok? ==> var key := Key(tenant.value, dimension, target);
                        rows == old(rows)[id := Row(key, true)] && ActiveRows(rows, key) == old(ActiveRows(rows, key)) + {id}
    {
      if tenant.None? {
        return Err(NoTenant);
      }
      if dimension == Platform {
        return Err(NotPermitted);
      }
      rows := rows[id := Row(Key(tenant.value, dimension, target), true)];
      r := Ok(());
    }

    /** One active row of the target is deactivated, if there is one; a call alone never collides. */
    method Deactivate(dimension: Dimension, target: string) returns (r: Result<Option<string>, Failure>)
      modifies this
      ensures r.Err? <==> tenant.None? || dimension == Platform
      ensures r.Err? || r == Ok(None) ==> rows == old(rows)
      ensures r.Ok? ==>
                var key := Key(tenant.value, dimension, target);
                && (r.value.None? <==> old(ActiveRows(rows, key)) == {})
                && (r.value.Some? ==>
                      && r.value.value in old(ActiveRows(rows, key))
                      && rows == old(rows)[r.value.value := Row(key, false)]
                      && ActiveRows(rows, key) == old(ActiveRows(rows, key)) - {r.value.value})
    {
      if tenant.None? {
        return Err(NoTenant);
      }
      if dimension == Platform {
        return Err(NotPermitted);
      }
      var candidates := ActiveRows(rows, Key(tenant.value, dimension, target));
      if candidates == {} {
        return Ok(None);
      }
      var id :| id in candidates;
      rows := rows[id := rows[id].(active := false)];
      r := Ok(Some(id));
    }
  }
}
