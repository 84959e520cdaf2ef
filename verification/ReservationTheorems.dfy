/** What holds of every concurrent execution of the SQL reservations. */
module ReservationTheorems {
  import opened Basics
  import opened ReservationSpec
  import opened ReservationSimulation
  import opened ReservationConcurrency
  import opened ReservationAnswers

  // ---------------------------------------------------------------- the log

  predicate Granted(e: Event) {
    e.Reserved? && e.outcome.Decided? && e.outcome.decision.status == Acquired
  }

  ghost predicate GrantsOk(log: seq<Event>, rows: map<Key, Row>) {
    && (forall i | 0 <= i < |log| && Granted(log[i]) :: KeyOf(log[i].request) in rows)
    && (forall i, j | 0 <= i < j < |log| && Granted(log[i]) && Granted(log[j]) ::
          KeyOf(log[i].request) != KeyOf(log[j].request))
  }

  predicate FromOutside(e: Event) {
    e.Spent? || e.Bound?
  }

  /** Reservation ids are never reused: not between open transactions, not in the log. */
  ghost predicate TxIdsOk(txs: map<nat, Tx>, issued: set<string>) {
    && (forall t <- txs :: txs[t].id in issued)
    && (forall t <- txs, u <- txs :: t != u ==> txs[t].id != txs[u].id)
  }

  ghost predicate LogIdsOk(log: seq<Event>, txs: map<nat, Tx>, issued: set<string>) {
    && (forall i | 0 <= i < |log| && log[i].Reserved? :: log[i].id in issued)
    && (forall i, t | 0 <= i < |log| && log[i].Reserved? && t in txs :: txs[t].id != log[i].id)
    && (forall i, j | 0 <= i < j < |log| && log[i].Reserved? && log[j].Reserved? :: log[i].id != log[j].id)
  }

  ghost predicate IdsOk(s: State) {
    TxIdsOk(s.txs, s.issued) && LogIdsOk(s.log, s.txs, s.issued)
  }

  // ---------------------------------------------------------------- replay

  /** The event as one uninterrupted call. */
  function Replayed(db: Db, e: Event): Db {
    match e
    case Reserved(request, id, _) => SqlReserve(db, request, id).0
    case Finalized(tenant, id, receipt, _) => SqlComplete(db, tenant, id, receipt).0
    case Spent(row) => db.(ledger := db.ledger + [row])
    case Bound(key, row) => db.(rows := db.rows[key := row])
  }

  predicate AnsweredAs(db: Db, e: Event) {
    match e
    case Reserved(request, id, outcome) => outcome == SqlReserve(db, request, id).1
    case Finalized(tenant, id, receipt, done) => done == SqlComplete(db, tenant, id, receipt).1
    case Spent(_) => true
    case Bound(key, _) => key !in db.rows
  }

  function Replay(db: Db, log: seq<Event>): Db
    decreases |log|
  {
    if log == [] then db else Replayed(Replay(db, log[..|log| - 1]), log[|log| - 1])
  }

  /** Running the log one call at a time gives every call the answer it really got. */
  ghost predicate Serial(db: Db, log: seq<Event>) {
    forall i | 0 <= i < |log| :: AnsweredAs(Replay(db, log[..i]), log[i])
  }

  ghost predicate Explained(start: Db, s: State) {
    !s.disturbed ==> s.db == Replay(start, s.log) && Serial(start, s.log)
  }

  /** Each step that is not disturbed makes at most one call visible, and that call is then a
      whole sequential `reserve`, `complete` or outside write on the committed data. */
  lemma StepIsOneCall(hash: Key -> int, s: State, step: Step)
    requires LocksOk(hash, s) && DataOk(s) && Enabled(hash, s, step) && !s.disturbed
    ensures var turn := TurnOf(hash, s, step);
            && |turn.events| <= 1
            && (turn.events == [] ==> turn.db == s.db)
            && (|turn.events| == 1 ==> AnsweredAs(s.db, turn.events[0]) && turn.db == Replayed(s.db, turn.events[0]))
  {
    if !(step.Begin? || step.Finalize? || step.Spend? || step.Bind?) {
      assert TxOk(s.db, s.disturbed, s.txs[step.t]);
    }
  }

  lemma ExplainedAppend(start: Db, log: seq<Event>, e: Event)
    requires Serial(start, log) && AnsweredAs(Replay(start, log), e)
    ensures Serial(start, log + [e]) && Replay(start, log + [e]) == Replayed(Replay(start, log), e)
  {
    var log' := log + [e];
    assert log'[..|log|] == log;
    forall i | 0 <= i < |log'| ensures AnsweredAs(Replay(start, log'[..i]), log'[i]) {
      if i < |log| { assert log'[..i] == log[..i]; }
    }
  }

  lemma ExplainedKept(hash: Key -> int, start: Db, s: State, step: Step)
    requires LocksOk(hash, s) && DataOk(s) && Enabled(hash, s, step) && Explained(start, s)
    ensures Explained(start, Apply(hash, s, step))
  {
    if !Apply(hash, s, step).disturbed {
      StepIsOneCall(hash, s, step);
      var events := TurnOf(hash, s, step).events;
      if events == [] {
        assert s.log + events == s.log;
      } else {
        assert events == [events[0]];
        ExplainedAppend(start, s.log, events[0]);
      }
    }
  }

  lemma GrantsKept(hash: Key -> int, s: State, step: Step)
    requires DataOk(s) && Enabled(hash, s, step) && GrantsOk(s.log, s.db.rows)
    ensures GrantsOk(Apply(hash, s, step).log, Apply(hash, s, step).db.rows)
  {
    var turn := TurnOf(hash, s, step);
    assert s.db.rows.Keys <= turn.db.rows.Keys;
    if step.Commit? {
      assert TxOk(s.db, s.disturbed, s.txs[step.t]);
    } else {
      assert forall e <- turn.events :: !Granted(e);
    }
  }

  lemma AnswersEndTheirTransaction(hash: Key -> int, s: State, step: Step)
    requires Enabled(hash, s, step)
    ensures var turn := TurnOf(hash, s, step);
            turn.events != [] ==>
              && |turn.events| == 1
              && (turn.events[0].Reserved? ==>
                    Mover(step) in s.txs && turn.shape == Ended && turn.events[0].id == s.txs[Mover(step)].id)
  {
  }

  lemma IdsAfterShape(hash: Key -> int, s: State, t: nat, shape: Shape, added: set<string>)
    requires Allowed(hash, s, t, shape) && IdsOk(s) && added !! s.issued
    requires shape.Entered? ==> added == {shape.tx.id}
    ensures TxIdsOk(TxsAfter(hash, s, t, shape), s.issued + added)
    ensures LogIdsOk(s.log, TxsAfter(hash, s, t, shape), s.issued + added)
  {
  }

  lemma IdsAfterAnswer(txs: map<nat, Tx>, issued: set<string>, t: nat, log: seq<Event>, e: Event)
    requires TxIdsOk(txs, issued) && LogIdsOk(log, txs, issued)
    requires e.Reserved? ==> t in txs && e.id == txs[t].id
    ensures LogIdsOk(log + [e], if e.Reserved? then txs - {t} else txs, issued)
  {
  }

  lemma IdsKept(hash: Key -> int, s: State, step: Step)
    requires Enabled(hash, s, step) && IdsOk(s)
    ensures IdsOk(Apply(hash, s, step))
  {
    var turn := TurnOf(hash, s, step);
    TurnAllowed(hash, s, step);
    AnswersEndTheirTransaction(hash, s, step);
    IdsAfterShape(hash, s, Mover(step), turn.shape, NewIds(step));
    if turn.events == [] {
      assert s.log + turn.events == s.log;
    } else {
      var e := turn.events[0];
      assert turn.events == [e];
      if e.Reserved? {
        assert s.issued + NewIds(step) == s.issued;
        IdsAfterAnswer(s.txs, s.issued, Mover(step), s.log, e);
      } else {
        var txs' := TxsAfter(hash, s, Mover(step), turn.shape);
        IdsAfterAnswer(txs', s.issued + NewIds(step), Mover(step), s.log, e);
      }
    }
  }

  /** What the log says was granted to one Run. */
  function GrantTotal(log: seq<Event>, run: RunKey): int {
    if log == [] then 0
    else
      var e := log[|log| - 1];
      GrantTotal(log[..|log| - 1], run) + (if Granted(e) && RunOf(e.request) == run then e.request.cost else 0)
  }

  ghost predicate GrantsPaid(s: State) {
    forall run: RunKey :: ReservedSum(s.db.ledger, run) == GrantTotal(s.log, run)
  }

  lemma GrantTotalAppend(log: seq<Event>, e: Event, run: RunKey)
    ensures GrantTotal(log + [e], run)
            == GrantTotal(log, run) + (if Granted(e) && RunOf(e.request) == run then e.request.cost else 0)
  {
    assert (log + [e])[..|log|] == log;
  }

  function PaidBy(s: State, step: Step, run: RunKey): int {
    if step.Commit? && step.t in s.txs && RunOf(s.txs[step.t].request) == run then s.txs[step.t].request.cost else 0
  }

  lemma StepPays(hash: Key -> int, s: State, step: Step, run: RunKey)
    requires Enabled(hash, s, step)
    ensures ReservedSum(TurnOf(hash, s, step).db.ledger, run) == ReservedSum(s.db.ledger, run) + PaidBy(s, step, run)
  {
    match step {
      case Commit(t) => ReservedSumAppend(s.db.ledger, ReservationEntry(s.txs[t].request, s.txs[t].id), run);
      case Spend(row) => ReservedSumAppend(s.db.ledger, row, run);
      case _ =>
    }
  }

  lemma OnlyCommitsGrant(hash: Key -> int, s: State, step: Step)
    requires Enabled(hash, s, step)
    ensures var events := TurnOf(hash, s, step).events;
            && |events| <= 1
            && (step.Commit? ==> |events| == 1 && Granted(events[0]) && events[0].request == s.txs[step.t].request)
            && (!step.Commit? && |events| == 1 ==> !Granted(events[0]))
  {
  }

  lemma GrantsPaidKept(hash: Key -> int, s: State, step: Step)
    requires Enabled(hash, s, step) && GrantsPaid(s)
    ensures GrantsPaid(Apply(hash, s, step))
  {
    var turn := TurnOf(hash, s, step);
    OnlyCommitsGrant(hash, s, step);
    forall run: RunKey ensures ReservedSum(turn.db.ledger, run) == GrantTotal(s.log + turn.events, run) {
      StepPays(hash, s, step, run);
      assert ReservedSum(s.db.ledger, run) == GrantTotal(s.log, run);
      if turn.events == [] {
        assert s.log + turn.events == s.log;
      } else {
        assert turn.events == [turn.events[0]];
        GrantTotalAppend(s.log, turn.events[0], run);
      }
    }
  }

  ghost predicate DisturbanceLogged(s: State) {
    s.disturbed ==> exists e <- s.log :: e.Bound?
  }

  lemma DisturbanceKept(hash: Key -> int, s: State, step: Step)
    requires Enabled(hash, s, step) && DisturbanceLogged(s)
    ensures DisturbanceLogged(Apply(hash, s, step))
  {
    var events := TurnOf(hash, s, step).events;
    if Disturbs(s, step) {
      assert events[0].Bound? && events[0] in s.log + events;
    } else if s.disturbed {
      var e :| e in s.log && e.Bound?;
      assert e in s.log + events;
    }
  }

  /** Everything that holds of every reachable state. */
  ghost predicate Invariant(hash: Key -> int, start: Db, s: State) {
    && LocksOk(hash, s) && DataOk(s) && GrantsOk(s.log, s.db.rows) && IdsOk(s) && GrantsPaid(s)
    && Explained(start, s) && DisturbanceLogged(s) && s.db.budgets == start.budgets
  }

  lemma InvariantKept(hash: Key -> int, start: Db, s: State, step: Step)
    requires Invariant(hash, start, s) && Enabled(hash, s, step)
    ensures Invariant(hash, start, Apply(hash, s, step))
  {
    LocksKept(hash, s, step);
    DataKept(hash, s, step);
    GrantsKept(hash, s, step);
    IdsKept(hash, s, step);
    GrantsPaidKept(hash, s, step);
    ExplainedKept(hash, start, s, step);
    DisturbanceKept(hash, s, step);
    BudgetsFixed(hash, s, step);
  }

  lemma BudgetsFixed(hash: Key -> int, s: State, step: Step)
    requires Enabled(hash, s, step)
    ensures TurnOf(hash, s, step).db.budgets == s.db.budgets
  {
  }

  lemma InvariantAtStart(hash: Key -> int, budgets: map<RunKey, Option<GoalBudget>>)
    ensures Invariant(hash, Start(budgets).db, Start(budgets))
  {
    var s := Start(budgets);
    forall run: RunKey ensures ReservedSum(s.db.ledger, run) <= Ceiling(s.db.budgets, run) {}
  }

  lemma {:induction false} InvariantReached(
    hash: Key -> int, budgets: map<RunKey, Option<GoalBudget>>, steps: seq<Step>, s: State)
    requires Reaches(hash, budgets, steps, s)
    ensures Invariant(hash, Start(budgets).db, s)
    decreases |steps|
  {
    if steps == [] {
      InvariantAtStart(hash, budgets);
    } else {
      var last := |steps| - 1;
      var before: State :| Reaches(hash, budgets, steps[..last], before) && Enabled(hash, before, steps[last])
                           && s == Apply(hash, before, steps[last]);
      InvariantReached(hash, budgets, steps[..last], before);
      InvariantKept(hash, Start(budgets).db, before, steps[last]);
    }
  }

  // ---------------------------------------------------------------- theorems

  /** Safety of the budget, with other ledger writes at any moment: what reservations have put
      into the ledger of a Run is exactly what they were granted, and within the Goal limit. */
  lemma ReservationsWithinLimit(
    hash: Key -> int, budgets: map<RunKey, Option<GoalBudget>>, steps: seq<Step>, s: State, run: RunKey)
    requires Reaches(hash, budgets, steps, s)
    ensures GrantTotal(s.log, run) == ReservedSum(s.db.ledger, run) <= Ceiling(budgets, run)
  {
    InvariantReached(hash, budgets, steps, s);
    assert ReservedSum(s.db.ledger, run) <= Ceiling(s.db.budgets, run);
  }

  /** However many callers race, one idempotency key of one tenant is acquired at most once. */
  lemma KeyAcquiredOnce(
    hash: Key -> int, budgets: map<RunKey, Option<GoalBudget>>, steps: seq<Step>, s: State, i: nat, j: nat)
    requires Reaches(hash, budgets, steps, s)
    requires i < |s.log| && j < |s.log| && Granted(s.log[i]) && Granted(s.log[j])
    requires s.log[i].request.tenant == s.log[j].request.tenant && s.log[i].request.key == s.log[j].request.key
    ensures i == j
  {
    InvariantReached(hash, budgets, steps, s);
  }

  /** No reachable state has a cycle of waiting transactions, and none is stuck. */
  lemma DeadlockFree(
    hash: Key -> int, budgets: map<RunKey, Option<GoalBudget>>, steps: seq<Step>, s: State, chain: seq<nat>)
    requires Reaches(hash, budgets, steps, s) && WaitChain(hash, s, chain) && |chain| >= 2
    ensures forall i, j | 0 <= i < j < |chain| :: chain[i] != chain[j]
    ensures exists t <- s.txs :: Enabled(hash, s, NextStep(t, s.txs[t].pc))
  {
    InvariantReached(hash, budgets, steps, s);
    NoWaitCycle(hash, s, chain);
    assert WaitsFor(hash, s, chain[0], chain[1]);
    SomeoneMoves(hash, s);
  }

  /** Undisturbed executions are serializable: the committed tables, and every answer given,
      are those of running the logged calls one after the other. */
  lemma Serializable(
    hash: Key -> int, budgets: map<RunKey, Option<GoalBudget>>, steps: seq<Step>, s: State)
    requires Reaches(hash, budgets, steps, s) && !s.disturbed
    ensures s.db == Replay(Start(budgets).db, s.log) && Serial(Start(budgets).db, s.log)
  {
    InvariantReached(hash, budgets, steps, s);
  }

  /** The insert of a reservation meets the unique constraint only when code outside the
      gateway has taken the key meanwhile: two reservations never collide on it. */
  lemma UniqueConstraintOnlyFromOutside(
    hash: Key -> int, budgets: map<RunKey, Option<GoalBudget>>, steps: seq<Step>, s: State, t: nat)
    requires Reaches(hash, budgets, steps, s) && Enabled(hash, s, InsertRows(t))
    requires KeyOf(s.txs[t].request) in s.db.rows
    ensures s.disturbed && BoundRow(s.db.rows[KeyOf(s.txs[t].request)])
  {
    InvariantReached(hash, budgets, steps, s);
    assert TxOk(s.db, s.disturbed, s.txs[t]);
  }

  /** Every reservation fitted into the whole ledger of its Run when it was written, whatever other
      code had spent there: only a later outside entry can take a Run past its limit. */
  lemma EveryReservationFitted(
    hash: Key -> int, budgets: map<RunKey, Option<GoalBudget>>, steps: seq<Step>, s: State, i: nat)
    requires Reaches(hash, budgets, steps, s) && i < |s.db.ledger| && s.db.ledger[i].reference.ToolReservation?
    ensures RunSum(s.db.ledger[..i + 1], s.db.ledger[i].run) <= Ceiling(budgets, s.db.ledger[i].run)
  {
    InvariantReached(hash, budgets, steps, s);
    assert Fitted(s.db.ledger, s.db.budgets, i);
  }

  /** At a commit the sum read under the Run lock is still the sum of the whole ledger, and with the
      new row the whole ledger is within the limit, with other entries interleaved anyhow. */
  lemma WholeLedgerWithinLimitAtCommit(
    hash: Key -> int, budgets: map<RunKey, Option<GoalBudget>>, steps: seq<Step>, s: State, t: nat)
    requires Reaches(hash, budgets, steps, s) && Enabled(hash, s, Commit(t))
    ensures var request := s.txs[t].request;
            && s.txs[t].pc.used == RunSum(s.db.ledger, RunOf(request))
            && RunSum(Apply(hash, s, Commit(t)).db.ledger, RunOf(request)) == s.txs[t].pc.used + request.cost
               <= Ceiling(budgets, RunOf(request))
  {
    InvariantReached(hash, budgets, steps, s);
    assert TxOk(s.db, s.disturbed, s.txs[t]);
    CommitFits(s, t);
    assert Apply(hash, s, Commit(t)).db == Insert(s.db, s.txs[t].request, s.txs[t].id);
  }

  /** Outside ledger entries never disturb: as long as no key was bound from outside, the tables and
      every answer are those of the logged calls and entries made one after the other. */
  lemma SerializableWithOutsideEntries(
    hash: Key -> int, budgets: map<RunKey, Option<GoalBudget>>, steps: seq<Step>, s: State)
    requires Reaches(hash, budgets, steps, s) && forall e <- s.log :: !e.Bound?
    ensures s.db == Replay(Start(budgets).db, s.log) && Serial(Start(budgets).db, s.log)
  {
    InvariantReached(hash, budgets, steps, s);
  }

  // ---------------------------------------------------------------- a transaction alone

  /** Nobody is at work. */
  predicate Quiet(s: State) {
    s.txs == map[] && s.keyLocks == map[] && s.runLocks == map[]
  }

  /** The one open transaction has got this far, and holds the locks it has by then. */
  function OnlyAt(hash: Key -> int, s: State, t: nat, tx: Tx): State {
    s.(txs := map[t := tx],
       keyLocks := if HoldsKey(tx.pc) then map[LockOf(hash, tx) := t] else map[],
       runLocks := if HoldsRun(tx.pc) then map[RunOf(tx.request) := t] else map[])
  }

  function Ahead(pc: Pc): nat {
    match pc
    case Begun => 6
    case KeyLocked => 5
    case KeyFree => 4
    case RunLocked(_) => 3
    case Summed(_, _) => 2
    case Inserted(_, _) => 1
  }

  /** The transaction's next statements, one after the other, as long as it is there. */
  function RunOn(hash: Key -> int, s: State, t: nat): State
    decreases if t in s.txs then Ahead(s.txs[t].pc) else 0
  {
    if t in s.txs && Enabled(hash, s, NextStep(t, s.txs[t].pc)) then RunOn(hash, Apply(hash, s, NextStep(t, s.txs[t].pc)), t)
    else s
  }

  lemma RunsOn(hash: Key -> int, s: State, t: nat, tx: Tx, next: State)
    requires Enabled(hash, OnlyAt(hash, s, t, tx), NextStep(t, tx.pc))
    requires Apply(hash, OnlyAt(hash, s, t, tx), NextStep(t, tx.pc)) == next
    ensures RunOn(hash, OnlyAt(hash, s, t, tx), t) == RunOn(hash, next, t)
  {
  }

  /** The state in which the transaction has ended with this answer. */
  function AnsweredState(s: State, db: Db, request: Request, id: string, outcome: ReserveOutcome): State {
    s.(db := db, log := s.log + [Reserved(request, id, outcome)])
  }

  lemma CommitAlone(hash: Key -> int, s: State, t: nat, request: Request, id: string, limit: int, used: int)
    requires Quiet(s)
    ensures RunOn(hash, OnlyAt(hash, s, t, Tx(request, id, Inserted(limit, used))), t)
            == AnsweredState(s, Insert(s.db, request, id), request, id, Decided(Decision(Acquired, Some(id), None)))
  {
    var next := AnsweredState(s, Insert(s.db, request, id), request, id, Decided(Decision(Acquired, Some(id), None)));
    assert Apply(hash, OnlyAt(hash, s, t, Tx(request, id, Inserted(limit, used))), Commit(t)) == next;
    RunsOn(hash, s, t, Tx(request, id, Inserted(limit, used)), next);
  }

  lemma InsertAlone(hash: Key -> int, s: State, t: nat, request: Request, id: string, limit: int, used: int)
    requires Quiet(s) && KeyOf(request) !in s.db.rows
    ensures RunOn(hash, OnlyAt(hash, s, t, Tx(request, id, Summed(limit, used))), t) ==
            if request.cost <= 0 then AnsweredState(s, s.db, request, id, ConstraintViolation)
            else AnsweredState(s, Insert(s.db, request, id), request, id, Decided(Decision(Acquired, Some(id), None)))
  {
    var tx := Tx(request, id, Summed(limit, used));
    var next := if request.cost <= 0 then AnsweredState(s, s.db, request, id, ConstraintViolation)
                else OnlyAt(hash, s, t, Tx(request, id, Inserted(limit, used)));
    assert Apply(hash, OnlyAt(hash, s, t, tx), InsertRows(t)) == next;
    RunsOn(hash, s, t, tx, next);
    if request.cost > 0 { CommitAlone(hash, s, t, request, id, limit, used); }
  }

  lemma SumAlone(hash: Key -> int, s: State, t: nat, request: Request, id: string, limit: int)
    requires Quiet(s) && KeyOf(request) !in s.db.rows
    ensures RunOn(hash, OnlyAt(hash, s, t, Tx(request, id, RunLocked(limit))), t) ==
            if RunSum(s.db.ledger, RunOf(request)) + request.cost > limit
            then AnsweredState(s, s.db, request, id, Decided(Decision(BudgetExhausted, None, None)))
            else if request.cost <= 0 then AnsweredState(s, s.db, request, id, ConstraintViolation)
            else AnsweredState(s, Insert(s.db, request, id), request, id, Decided(Decision(Acquired, Some(id), None)))
  {
    var tx, used := Tx(request, id, RunLocked(limit)), RunSum(s.db.ledger, RunOf(request));
    var next := if used + request.cost > limit
                then AnsweredState(s, s.db, request, id, Decided(Decision(BudgetExhausted, None, None)))
                else OnlyAt(hash, s, t, Tx(request, id, Summed(limit, used)));
    assert Apply(hash, OnlyAt(hash, s, t, tx), SumLedger(t)) == next;
    RunsOn(hash, s, t, tx, next);
    if used + request.cost <= limit { InsertAlone(hash, s, t, request, id, limit, used); }
  }

  /** What the Run's row and its Goal say before any sum is read. */
  function RunChecked(db: Db, request: Request): Result<int, ReserveOutcome> {
    var run := RunOf(request);
    if run !in db.budgets then Err(RunMissing)
    else if db.budgets[run].None? then Err(GoalMissing)
    else if db.budgets[run].value.unit != COST_UNITS then Err(WrongUnit)
    else Ok(db.budgets[run].value.amount)
  }

  lemma LockRunAlone(hash: Key -> int, s: State, t: nat, request: Request, id: string)
    requires Quiet(s) && KeyOf(request) !in s.db.rows
    ensures RunOn(hash, OnlyAt(hash, s, t, Tx(request, id, KeyFree)), t)
            == AnsweredState(s, SqlReserve(s.db, request, id).0, request, id, SqlReserve(s.db, request, id).1)
  {
    var tx, checked := Tx(request, id, KeyFree), RunChecked(s.db, request);
    var next := if checked.Err? then AnsweredState(s, s.db, request, id, checked.error)
                else OnlyAt(hash, s, t, Tx(request, id, RunLocked(checked.value)));
    assert Apply(hash, OnlyAt(hash, s, t, tx), LockRun(t)) == next;
    RunsOn(hash, s, t, tx, next);
    if checked.Ok? { SumAlone(hash, s, t, request, id, checked.value); }
  }

  lemma ReadKeyAlone(hash: Key -> int, s: State, t: nat, request: Request, id: string)
    requires Quiet(s)
    ensures RunOn(hash, OnlyAt(hash, s, t, Tx(request, id, KeyLocked)), t)
            == AnsweredState(s, SqlReserve(s.db, request, id).0, request, id, SqlReserve(s.db, request, id).1)
  {
    var tx, known := Tx(request, id, KeyLocked), KeyOf(request) in s.db.rows;
    var next := if known then AnsweredState(s, s.db, request, id, Decided(ExistingDecision(s.db.rows[KeyOf(request)], request)))
                else OnlyAt(hash, s, t, Tx(request, id, KeyFree));
    assert Apply(hash, OnlyAt(hash, s, t, tx), ReadKey(t)) == next;
    RunsOn(hash, s, t, tx, next);
    if !known { LockRunAlone(hash, s, t, request, id); }
  }

  /** The statements of one transaction, run with no other open, are the whole `reserve`: it ends with the
      sequential answer and leaves its tables, and no lock. */
  lemma AloneIsReserve(hash: Key -> int, s: State, t: nat, request: Request, id: string)
    requires Quiet(s) && id !in s.issued
    ensures RunOn(hash, Apply(hash, s, Begin(t, request, id)), t)
            == AnsweredState(s.(issued := s.issued + {id}), SqlReserve(s.db, request, id).0, request, id,
                             SqlReserve(s.db, request, id).1)
  {
    var s', tx := s.(issued := s.issued + {id}), Tx(request, id, Begun);
    assert s'.log + [] == s'.log;
    assert Apply(hash, s, Begin(t, request, id)) == OnlyAt(hash, s', t, tx);
    assert Apply(hash, OnlyAt(hash, s', t, tx), LockKey(t)) == OnlyAt(hash, s', t, Tx(request, id, KeyLocked));
    RunsOn(hash, s', t, tx, OnlyAt(hash, s', t, Tx(request, id, KeyLocked)));
    ReadKeyAlone(hash, s', t, request, id);
  }

  // ---------------------------------------------------------------- the in-memory model

  function CallOf(e: Event): Call
    requires !FromOutside(e)
  {
    match e
    case Reserved(request, id, _) => CallReserve(request, id)
    case Finalized(tenant, id, receipt, _) => CallComplete(tenant, id, receipt)
  }

  function CallsOf(log: seq<Event>): (calls: seq<Call>)
    requires forall e <- log :: !FromOutside(e)
    ensures |calls| == |log|
  {
    seq(|log|, i requires 0 <= i < |log| => CallOf(log[i]))
  }

  lemma {:induction false} ReplayIsSqlRun(db: Db, log: seq<Event>)
    requires forall e <- log :: !FromOutside(e)
    ensures Replay(db, log) == SqlRun(db, CallsOf(log))
    decreases |log|
  {
    if log == [] {
      assert CallsOf(log) == [];
    } else {
      var before := log[..|log| - 1];
      ReplayIsSqlRun(db, before);
      assert CallsOf(log)[..|log| - 1] == CallsOf(before);
      assert CallsOf(log)[|log| - 1] == CallOf(log[|log| - 1]);
    }
  }

  /** The callers' side of `WellFormed`; fresh reservation ids are the store's own doing. */
  ghost predicate GatewayCallers(log: seq<Event>, runs: set<RunKey>, toolOf: string -> string) {
    && (forall e <- log :: !FromOutside(e))
    && (forall e <- log | e.Reserved? :: ReserveOk(CallOf(e), runs, toolOf))
    && (forall i, j | 0 <= i < j < |log| && log[i].Finalized? && log[j].Finalized? :: log[i].id != log[j].id)
    && (forall e <- log, f <- log | e.Reserved? && f.Finalized? && e.id == f.id :: e.request.tenant == f.tenant)
  }

  lemma LoggedCallsWellFormed(s: State, runs: set<RunKey>, toolOf: string -> string)
    requires IdsOk(s) && GatewayCallers(s.log, runs, toolOf)
    ensures WellFormed(CallsOf(s.log), runs, toolOf)
  {
    var calls := CallsOf(s.log);
    forall i | 0 <= i < |calls| ensures ReserveOk(calls[i], runs, toolOf) {
      assert s.log[i] in s.log;
    }
    forall i, j | 0 <= i < j < |calls| ensures Compatible(calls[i], calls[j]) {
      assert s.log[i] in s.log && s.log[j] in s.log;
    }
  }

  /** What an event answered, as an outcome of the corresponding call. */
  predicate SameAnswer(m: Memory, e: Event)
    requires Indexed(m)
  {
    match e
    case Reserved(request, id, outcome) => Agree(MemoryReserve(m, request, id).1, outcome)
    case Finalized(_, id, receipt, done) => MemoryComplete(m, id, receipt).1.Completed? <==> done.Completed?
    case _ => true
  }

  /** The in-memory reservations are a deterministic model of the concurrent database: in every
      execution driven by the gateway alone, each answer the database gave is the answer the
      in-memory model gives to the same calls made one at a time. */
  lemma ConcurrentAnswersAreInMemoryAnswers(
    hash: Key -> int, limit: int, runs: set<RunKey>, steps: seq<Step>, s: State, toolOf: string -> string, i: nat)
    requires Reaches(hash, EmptyDb(runs, limit).budgets, steps, s)
    requires GatewayCallers(s.log, runs, toolOf) && i < |s.log|
    ensures var m := MemoryRun(EmptyMemory(limit), CallsOf(s.log)[..i]);
            Indexed(m) && SameAnswer(m, s.log[i])
  {
    var budgets, calls := EmptyDb(runs, limit).budgets, CallsOf(s.log);
    InvariantReached(hash, budgets, steps, s);
    LoggedCallsWellFormed(s, runs, toolOf);
    MemoryModelsDatabase(limit, runs, calls, toolOf, i);
    LoggedAnswer(hash, budgets, steps, s, i);
    assert Start(budgets).db == EmptyDb(runs, limit);
    SameAnswers(MemoryRun(EmptyMemory(limit), calls[..i]), SqlRun(EmptyDb(runs, limit), calls[..i]), s.log[i]);
  }

  lemma SameAnswers(m: Memory, db: Db, e: Event)
    requires !FromOutside(e) && Indexed(m) && AnsweredAs(db, e) && StepAgrees(m, db, CallOf(e))
    ensures SameAnswer(m, e)
  {
  }

  /** With no event from outside, each answer is the one the sequential calls would have got. */
  lemma LoggedAnswer(
    hash: Key -> int, budgets: map<RunKey, Option<GoalBudget>>, steps: seq<Step>, s: State, i: nat)
    requires Reaches(hash, budgets, steps, s) && (forall e <- s.log :: !FromOutside(e)) && i < |s.log|
    ensures AnsweredAs(SqlRun(Start(budgets).db, CallsOf(s.log)[..i]), s.log[i])
  {
    SerializableWithOutsideEntries(hash, budgets, steps, s);
    SerialAnswer(Start(budgets).db, s.log, i);
  }

  lemma SerialAnswer(db: Db, log: seq<Event>, i: nat)
    requires Serial(db, log) && (forall e <- log :: !FromOutside(e)) && i < |log|
    ensures AnsweredAs(SqlRun(db, CallsOf(log)[..i]), log[i])
  {
    ReplayIsSqlRun(db, log[..i]);
    assert CallsOf(log[..i]) == CallsOf(log)[..i];
    assert AnsweredAs(Replay(db, log[..i]), log[i]);
  }

  lemma CallsDrawOnce(s: State, j: nat)
    requires IdsOk(s) && (forall e <- s.log :: !FromOutside(e)) && j <= |s.log|
    ensures DrawsOnce(CallsOf(s.log)[..j])
  {
  }

  lemma LoggedCallTook(db: Db, call: Call, e: Event)
    requires !FromOutside(e) && Granted(e) && call == CallOf(e) && AnsweredAs(db, e)
    ensures SqlReserve(db, call.request, call.id).1 == Decided(Decision(Acquired, Some(call.id), None))
  {
  }

  /** However calls race, once a request has acquired the key of a tenant, each later answer to that
      tenant and key tells of that request and of the first receipt given for it. */
  lemma RepeatedKeyAnswer(
    hash: Key -> int, budgets: map<RunKey, Option<GoalBudget>>, steps: seq<Step>, s: State, i: nat, j: nat)
    requires Reaches(hash, budgets, steps, s) && forall e <- s.log :: !FromOutside(e)
    requires i < j < |s.log| && Granted(s.log[i]) && s.log[j].Reserved?
    requires s.log[i].request.tenant == s.log[j].request.tenant && s.log[i].request.key == s.log[j].request.key
    ensures s.log[j].outcome ==
            Decided(SqlTold(s.log[i].request, s.log[i].id,
                            FirstReceipt(CallsOf(s.log)[i + 1..j], Some(s.log[j].request.tenant), s.log[i].id),
                            s.log[j].request))
  {
    IdsReached(hash, budgets, steps, s);
    CallsDrawOnce(s, j);
    LoggedAnswer(hash, budgets, steps, s, i);
    LoggedAnswer(hash, budgets, steps, s, j);
    RepeatedKeyInLog(Start(budgets).db, s.log, i, j);
  }

  lemma IdsReached(hash: Key -> int, budgets: map<RunKey, Option<GoalBudget>>, steps: seq<Step>, s: State)
    requires Reaches(hash, budgets, steps, s)
    ensures IdsOk(s)
  {
    InvariantReached(hash, budgets, steps, s);
  }

  lemma RepeatedKeyInLog(db: Db, log: seq<Event>, i: nat, j: nat)
    requires db.rows == map[] && (forall e <- log :: !FromOutside(e)) && i < j < |log|
    requires DrawsOnce(CallsOf(log)[..j]) && Granted(log[i]) && log[j].Reserved?
    requires AnsweredAs(SqlRun(db, CallsOf(log)[..i]), log[i]) && AnsweredAs(SqlRun(db, CallsOf(log)[..j]), log[j])
    requires SameKey(log[i].request, log[j].request)
    ensures log[j].outcome ==
            Decided(SqlTold(log[i].request, log[i].id,
                            FirstReceipt(CallsOf(log)[i + 1..j], Some(log[j].request.tenant), log[i].id), log[j].request))
  {
    var calls := CallsOf(log)[..j];
    assert calls[..i] == CallsOf(log)[..i] && calls[i] == CallOf(log[i]) && calls[i + 1..] == CallsOf(log)[i + 1..j];
    LoggedCallTook(SqlRun(db, calls[..i]), calls[i], log[i]);
    SqlKnownKeyAnswer(db, calls, i, log[j].request, log[j].id);
  }
}
