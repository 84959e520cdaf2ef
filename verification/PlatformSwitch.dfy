/** The platform kill switch: at most one active row, and an audit log that only grows.

    Activations and deactivations run as transactions; each reads the clock before it begins.
    Inserting an active row waits for another uncommitted one, or for the row being deactivated,
    and fails on a committed one (the partial unique index); deactivating locks the row. */
module PlatformSwitch {
  import opened Basics

  datatype Audit = Audit(id: string, activated: bool, switch: string, at: int)

  datatype Phase = Begun | SawNone | Inserted | Locked(row: string)

  datatype Tx = Activating(switch: string, now: int, phase: Phase) | Deactivating(now: int, phase: Phase)

  /** A row holds its deactivation time, if any. */
  type Rows = map<string, Option<int>>

  datatype State = State(rows: Rows, log: seq<Audit>, txs: map<nat, Tx>, clock: int)

  datatype Step =
    | Tick
    | BeginActivate(tx: nat, switch: string)
    | BeginDeactivate(tx: nat)
    | Look(tx: nat)
    | Insert(tx: nat)
    | LockRow(tx: nat, row: string)
    | FindNone(tx: nat)
    | Commit(tx: nat, audit: string)
    | Abort(tx: nat)

  const Empty := State(map[], [], map[], 0)

  predicate Active(rows: Rows, row: string) {
    row in rows && rows[row].None?
  }

  predicate AnyActive(rows: Rows) {
    exists row <- rows :: Active(rows, row)
  }

  predicate Holds(t: Tx, row: string) {
    t.phase == Locked(row)
  }

  predicate LockedRow(txs: map<nat, Tx>, row: string) {
    exists tx <- txs :: Holds(txs[tx], row)
  }

  predicate Enabled(s: State, step: Step) {
    match step
    case Tick => true
    case BeginActivate(tx, switch) =>
      tx !in s.txs && switch !in s.rows
      && forall u <- s.txs | s.txs[u].Activating? :: s.txs[u].switch != switch
    case BeginDeactivate(tx) => tx !in s.txs
    case Look(tx) => tx in s.txs && s.txs[tx].Activating? && s.txs[tx].phase == Begun
    case Insert(tx) =>
      tx in s.txs && s.txs[tx].Activating? && s.txs[tx].phase == SawNone
      && (forall u <- s.txs :: s.txs[u].phase != Inserted)
      && (forall row <- s.rows | Active(s.rows, row) :: !LockedRow(s.txs, row))
    case LockRow(tx, row) =>
      tx in s.txs && s.txs[tx].Deactivating? && s.txs[tx].phase == Begun && Active(s.rows, row) && !LockedRow(s.txs, row)
    case FindNone(tx) => tx in s.txs && s.txs[tx].Deactivating? && s.txs[tx].phase == Begun && !AnyActive(s.rows)
    case Commit(tx, audit) =>
      tx in s.txs && (if s.txs[tx].Activating? then s.txs[tx].phase == Inserted else s.txs[tx].phase.Locked?)
      && forall i | 0 <= i < |s.log| :: s.log[i].id != audit
    case Abort(tx) => tx in s.txs
  }

  function Finished(s: State, tx: nat): State {
    s.(txs := s.txs - {tx})
  }

  function InPhase(s: State, tx: nat, phase: Phase): State
    requires tx in s.txs
  {
    s.(txs := s.txs[tx := s.txs[tx].(phase := phase)])
  }

  /** What a committing transaction has written. */
  function Entry(t: Tx, audit: string): Audit
    requires t.Deactivating? ==> t.phase.Locked?
  {
    match t
    case Activating(switch, now, _) => Audit(audit, true, switch, now)
    case Deactivating(now, phase) => Audit(audit, false, phase.row, now)
  }

  function Recorded(rows: Rows, e: Audit): Rows {
    rows[e.switch := if e.activated then None else Some(e.at)]
  }

  function Apply(s: State, step: Step): State
    requires Enabled(s, step)
  {
    match step
    case Tick => s.(clock := s.clock + 1)
    case BeginActivate(tx, switch) => s.(txs := s.txs[tx := Activating(switch, s.clock, Begun)])
    case BeginDeactivate(tx) => s.(txs := s.txs[tx := Deactivating(s.clock, Begun)])
    case Look(tx) => if AnyActive(s.rows) then Finished(s, tx) else InPhase(s, tx, SawNone)
    case Insert(tx) => if AnyActive(s.rows) then Finished(s, tx) else InPhase(s, tx, Inserted)
    case LockRow(tx, row) => InPhase(s, tx, Locked(row))
    case FindNone(tx) => Finished(s, tx)
    case Commit(tx, audit) =>
      var e := Entry(s.txs[tx], audit);
      Finished(s, tx).(rows := Recorded(s.rows, e), log := s.log + [e])
    case Abort(tx) => Finished(s, tx)
  }

  /** What a deployment lets happen, by whatever means it schedules the calls. */
  type Guard = (State, Step) -> bool

  /** The code by itself schedules nothing. */
  const Unscheduled: Guard := (s: State, step: Step) => true

  ghost predicate Reaches(guard: Guard, steps: seq<Step>, s: State)
    decreases |steps|
  {
    if steps == [] then s == Empty
    else
      var last := |steps| - 1;
      exists before: State ::
        && Reaches(guard, steps[..last], before) && Enabled(before, steps[last]) && guard(before, steps[last])
        && s == Apply(before, steps[last])
  }

  // ---------------------------------------------------------------- replay

  datatype Replayed = Broken | Off | On(switch: string)

  /** An activation must find the switch off, a deactivation must find that very switch on. */
  function Replay(log: seq<Audit>): Replayed {
    if log == [] then Off
    else
      var before, e := Replay(log[..|log| - 1]), log[|log| - 1];
      if e.activated then (if before == Off then On(e.switch) else Broken)
      else if before == On(e.switch) then Off else Broken
  }

  function Rebuilt(log: seq<Audit>): Rows {
    if log == [] then map[] else Recorded(Rebuilt(log[..|log| - 1]), log[|log| - 1])
  }

  ghost predicate Agrees(rows: Rows, r: Replayed) {
    && r != Broken
    && forall row :: Active(rows, row) <==> r == On(row)
  }

  ghost predicate TxsOk(rows: Rows, txs: map<nat, Tx>) {
    && (forall t <- txs | txs[t].phase == Inserted :: !AnyActive(rows))
    && (forall t <- txs, u <- txs | txs[t].phase == Inserted && txs[u].phase == Inserted :: t == u)
    && (forall t <- txs, row | Holds(txs[t], row) :: Active(rows, row))
    && (forall t <- txs, u <- txs, row | Holds(txs[t], row) && Holds(txs[u], row) :: t == u)
  }

  ghost predicate IdsOk(rows: Rows, txs: map<nat, Tx>) {
    && (forall t <- txs | txs[t].Activating? :: txs[t].switch !in rows)
    && (forall t <- txs | txs[t].phase == Inserted :: txs[t].Activating?)
    && (forall t <- txs, u <- txs | txs[t].Activating? && txs[u].Activating? && txs[t].switch == txs[u].switch :: t == u)
  }

  ghost predicate Inv(s: State) {
    && TxsOk(s.rows, s.txs)
    && IdsOk(s.rows, s.txs)
    && Agrees(s.rows, Replay(s.log))
    && s.rows == Rebuilt(s.log)
  }

  lemma OffWhenNoneActive(rows: Rows, r: Replayed)
    requires Agrees(rows, r) && !AnyActive(rows)
    ensures r == Off
  {
    var row := if r.On? then r.switch else "";
    assert Active(rows, row) <==> r == On(row);
  }

  lemma CommitKeeps(s: State, tx: nat, audit: string)
    requires Inv(s) && Enabled(s, Commit(tx, audit))
    ensures Inv(Apply(s, Commit(tx, audit)))
  {
    var t, after := s.txs[tx], Apply(s, Commit(tx, audit));
    var e := Entry(t, audit);
    assert after.log[..|s.log|] == s.log;
    if t.Activating? {
      OffWhenNoneActive(s.rows, Replay(s.log));
    } else {
      assert Holds(t, e.switch);
    }
    assert Agrees(after.rows, Replay(after.log));
  }

  lemma BeginKeeps(s: State, step: Step)
    requires Inv(s) && Enabled(s, step) && (step.BeginActivate? || step.BeginDeactivate?)
    ensures Inv(Apply(s, step))
  {
  }

  lemma PhaseKeeps(s: State, step: Step)
    requires Inv(s) && Enabled(s, step) && (step.Look? || step.Insert?)
    ensures Inv(Apply(s, step))
  {
  }

  lemma StepKeeps(s: State, step: Step)
    requires Inv(s) && Enabled(s, step)
    ensures Inv(Apply(s, step))
  {
    match step
    case Tick =>
    case BeginActivate(_, _) => BeginKeeps(s, step);
    case BeginDeactivate(_) => BeginKeeps(s, step);
    case Look(_) => PhaseKeeps(s, step);
    case Insert(_) => PhaseKeeps(s, step);
    case LockRow(tx, row) => LockKeeps(s, tx, row);
    case FindNone(tx) => EndKeeps(s, tx);
    case Commit(tx, audit) => CommitKeeps(s, tx, audit);
    case Abort(tx) => EndKeeps(s, tx);
  }

  lemma EndKeeps(s: State, tx: nat)
    requires Inv(s) && tx in s.txs
    ensures Inv(Finished(s, tx))
  {
  }

  lemma LockKeeps(s: State, tx: nat, row: string)
    requires Inv(s) && Enabled(s, LockRow(tx, row))
    ensures Inv(Apply(s, LockRow(tx, row)))
  {
    var after := Apply(s, LockRow(tx, row));
    forall t <- after.txs, u <- after.txs, r | Holds(after.txs[t], r) && Holds(after.txs[u], r) ensures t == u {
      assert t != tx ==> Holds(s.txs[t], r);
      assert u != tx ==> Holds(s.txs[u], r);
    }
  }

  lemma {:induction false} InvariantReached(guard: Guard, steps: seq<Step>, s: State)
    requires Reaches(guard, steps, s)
    ensures Inv(s)
    decreases |steps|
  {
    if steps != [] {
      var last := |steps| - 1;
      var before: State :| Reaches(guard, steps[..last], before) && Enabled(before, steps[last])
                           && guard(before, steps[last]) && s == Apply(before, steps[last]);
      InvariantReached(guard, steps[..last], before);
      StepKeeps(before, steps[last]);
    }
  }

  /** In every reachable state at most one switch is active; the audit log, in commit order,
      strictly alternates activating a switch and deactivating that same one; and replaying it
      rebuilds every row. */
  lemma PlatformSwitchSound(guard: Guard, steps: seq<Step>, s: State)
    requires Reaches(guard, steps, s)
    ensures forall a, b | Active(s.rows, a) && Active(s.rows, b) :: a == b
    ensures Replay(s.log) != Broken
    ensures forall row :: Active(s.rows, row) <==> Replay(s.log) == On(row)
    ensures s.rows == Rebuilt(s.log)
  {
    InvariantReached(guard, steps, s);
  }

  /** What a call begun finds: an activation is refused exactly while a switch is active, at its first look
      as at its insert; a deactivation takes an active switch nobody has locked, and finds none only if
      none is active. */
  lemma CallsFindExactly(s: State, tx: nat)
    requires tx in s.txs && s.txs[tx].phase == Begun
    ensures s.txs[tx].Activating? ==>
              && Enabled(s, Look(tx)) && !Enabled(s, FindNone(tx)) && (forall row :: !Enabled(s, LockRow(tx, row)))
              && (tx in Apply(s, Look(tx)).txs <==> !AnyActive(s.rows))
              && Apply(s, Look(tx)).rows == s.rows && Apply(s, Look(tx)).log == s.log
    ensures s.txs[tx].Deactivating? ==>
              && !Enabled(s, Look(tx)) && (Enabled(s, FindNone(tx)) <==> !AnyActive(s.rows))
              && (forall row :: Enabled(s, LockRow(tx, row)) <==> Active(s.rows, row) && !LockedRow(s.txs, row))
              && (Enabled(s, FindNone(tx)) ==> Apply(s, FindNone(tx)) == s.(txs := s.txs - {tx}))
    ensures forall audit :: !Enabled(s, Commit(tx, audit))
  {
  }

  /** An activation that looked in time still does nothing if another switch was committed since. */
  lemma LateInsertIsRefused(s: State, tx: nat)
    requires Enabled(s, Insert(tx)) && AnyActive(s.rows)
    ensures Apply(s, Insert(tx)) == s.(txs := s.txs - {tx})
  {
  }

  // ---------------------------------------------------------------- the calls

  /** A row and its audit entry written together keep rows and log in agreement. */
  lemma RecordedAgrees(rows: Rows, log: seq<Audit>, e: Audit)
    requires Agrees(rows, Replay(log)) && rows == Rebuilt(log)
    requires if e.activated then Replay(log) == Off else Active(rows, e.switch)
    ensures Agrees(Recorded(rows, e), Replay(log + [e])) && Recorded(rows, e) == Rebuilt(log + [e])
    ensures Replay(log + [e]) == if e.activated then On(e.switch) else Off
  {
    assert (log + [e])[..|log|] == log;
  }

  class SqlPlatformKillSwitchStore {
    var rows: Rows
    var log: seq<Audit>

    ghost predicate Valid()
      reads this
    {
      Agrees(rows, Replay(log)) && rows == Rebuilt(log)
    }

    constructor ()
      ensures Valid() && rows == map[] && log == []
    {
      rows, log := map[], [];
    }

    /** `activate`, refused while a switch is active. */
    method Activate(switch: string, audit: string, now: int) returns (done: bool)
      requires Valid() && switch !in rows
      modifies this
      ensures Valid() && done == !old(AnyActive(rows))
      ensures log == if done then old(log) + [Audit(audit, true, switch, now)] else old(log)
      ensures Replay(log).On? && (done ==> Replay(log) == On(switch)) && (!done ==> Replay(log) == old(Replay(log)))
    {
      if AnyActive(rows) {
        return false;
      }
      OffWhenNoneActive(rows, Replay(log));
      RecordedAgrees(rows, log, Audit(audit, true, switch, now));
      rows := rows[switch := None];
      log := log + [Audit(audit, true, switch, now)];
      done := true;
    }

    /** `deactivate`: the active switch, or none when it was off. */
    method Deactivate(audit: string, now: int) returns (row: Option<string>)
      requires Valid()
      modifies this
      ensures Valid() && Replay(log) == Off
      ensures row == if old(Replay(log)).On? then Some(old(Replay(log)).switch) else None
      ensures log == if row.Some? then old(log) + [Audit(audit, false, row.value, now)] else old(log)
    {
      if !AnyActive(rows) {
        assert Replay(log).On? ==> Active(rows, Replay(log).switch);
        return None;
      }
      var active :| active in rows && Active(rows, active);
      RecordedAgrees(rows, log, Audit(audit, false, active, now));
      rows := rows[active := Some(now)];
      log := log + [Audit(audit, false, active, now)];
      row := Some(active);
    }
  }
}
