/** The PostgreSQL `reserve` transaction split into its statements and run concurrently.

    Every transaction takes the advisory lock of its key, looks the key up, locks its Run row,
    sums the ledger, inserts and commits, and may abort anywhere.  Between any two statements
    other transactions move, receipts are finalized, and code outside the gateway writes
    ledger rows and completed idempotency rows without taking either lock.  A ledger row refers
    to its Run by a foreign key, whose check waits for the Run row lock of a reservation.

    `hash` is the 64-bit hash PostgreSQL applies to the advisory lock name; nothing is assumed
    of it, so unrelated keys may share a lock. */
module ReservationConcurrency {
  import opened Basics
  import opened ReservationSpec

  /** How far a transaction has got. */
  datatype Pc =
    | Begun
    | KeyLocked
    | KeyFree
    | RunLocked(limit: int)
    | Summed(limit: int, used: int)
    | Inserted(limit: int, used: int)

  datatype Tx = Tx(request: Request, id: string, pc: Pc)

  /** What became visible, in the order in which it did. */
  datatype Event =
    | Reserved(request: Request, id: string, outcome: ReserveOutcome)
    | Finalized(tenant: string, id: string, receipt: Receipt, done: CompleteOutcome)
    | Spent(spent: LedgerRow)
    | Bound(key: Key, row: Row)

  /** `issued` holds every row id handed out.  `disturbed` says whether other code has written
      a row of a key that a reservation was working on. */
  datatype State = State(
    db: Db, txs: map<nat, Tx>, keyLocks: map<int, nat>, runLocks: map<RunKey, nat>,
    issued: set<string>, disturbed: bool, log: seq<Event>)

  datatype Step =
    | Begin(t: nat, request: Request, id: string)
    | LockKey(t: nat)
    | ReadKey(t: nat)
    | LockRun(t: nat)
    | SumLedger(t: nat)
    | InsertRows(t: nat)
    | Commit(t: nat)
    | Abort(t: nat)
    | Finalize(tenant: string, reservation: string, receipt: Receipt)
    | Spend(spent: LedgerRow)
    | Bind(key: Key, row: Row)

  function Start(budgets: map<RunKey, Option<GoalBudget>>): State {
    State(Db(map[], [], budgets), map[], map[], map[], {}, false, [])
  }

  function LockOf(hash: Key -> int, tx: Tx): int {
    hash(KeyOf(tx.request))
  }

  predicate At(s: State, t: nat, pc: Pc) {
    t in s.txs && s.txs[t].pc == pc
  }

  predicate HoldsKey(pc: Pc) {
    !pc.Begun?
  }

  predicate PastRead(pc: Pc) {
    !pc.Begun? && !pc.KeyLocked?
  }

  predicate HoldsRun(pc: Pc) {
    pc.RunLocked? || pc.Summed? || pc.Inserted?
  }

  /** Some transaction has inserted this key and not yet ended. */
  predicate Inserting(s: State, key: Key) {
    exists t <- s.txs :: s.txs[t].pc.Inserted? && KeyOf(s.txs[t].request) == key
  }

  predicate WorkingOn(s: State, key: Key) {
    exists t <- s.txs :: PastRead(s.txs[t].pc) && KeyOf(s.txs[t].request) == key
  }

  /** A row as code outside the gateway writes it: completed, without Run or tool version. */
  predicate BoundRow(row: Row) {
    row.run.None? && row.toolVersion.None? && row.status == RowCompleted && row.response.None?
  }

  predicate Enabled(hash: Key -> int, s: State, step: Step) {
    match step
    case Begin(t, request, id) => t !in s.txs && id !in s.issued
    case LockKey(t) => At(s, t, Begun) && LockOf(hash, s.txs[t]) !in s.keyLocks
    case ReadKey(t) => At(s, t, KeyLocked)
    case LockRun(t) => At(s, t, KeyFree) && RunOf(s.txs[t].request) !in s.runLocks
    case SumLedger(t) => t in s.txs && s.txs[t].pc.RunLocked?
    case InsertRows(t) => t in s.txs && s.txs[t].pc.Summed? && !Inserting(s, KeyOf(s.txs[t].request))
    case Commit(t) => t in s.txs && s.txs[t].pc.Inserted?
    case Abort(t) => t in s.txs
    case Finalize(_, _, _) => true
    case Spend(row) =>
      row.amount > 0 && row.reference.OtherReference? && row.run in s.db.budgets && row.run !in s.runLocks
    case Bind(key, row) => key !in s.db.rows && !Inserting(s, key) && BoundRow(row) && row.id !in s.issued
  }

  // ---------------------------------------------------------------- transitions

  /** What a step does to its own transaction and the locks. */
  datatype Shape = Still | Entered(tx: Tx) | Advanced(pc: Pc) | TookKey | TookRun(limit: int) | Ended

  /** A step: its effect on the transaction, the committed data after it, what became visible. */
  datatype Turn = Turn(shape: Shape, db: Db, events: seq<Event>)

  function Answer(s: State, tx: Tx, outcome: ReserveOutcome): Turn {
    Turn(Ended, s.db, [Reserved(tx.request, tx.id, outcome)])
  }

  function LockRunTurn(s: State, tx: Tx): Turn {
    var run := RunOf(tx.request);
    if run !in s.db.budgets then Answer(s, tx, RunMissing)
    else
      match s.db.budgets[run]
      case None => Answer(s, tx, GoalMissing)
      case Some(budget) =>
        if budget.unit != COST_UNITS then Answer(s, tx, WrongUnit) else Turn(TookRun(budget.amount), s.db, [])
  }

  function SumTurn(s: State, tx: Tx, limit: int): Turn {
    var used := RunSum(s.db.ledger, RunOf(tx.request));
    if used + tx.request.cost > limit then Answer(s, tx, Decided(Decision(BudgetExhausted, None, None)))
    else Turn(Advanced(Summed(limit, used)), s.db, [])
  }

  function InsertTurn(s: State, tx: Tx, limit: int, used: int): Turn {
    if KeyOf(tx.request) in s.db.rows then Turn(Ended, s.db, [])
    else if tx.request.cost <= 0 then Answer(s, tx, ConstraintViolation)
    else Turn(Advanced(Inserted(limit, used)), s.db, [])
  }

  function TurnOf(hash: Key -> int, s: State, step: Step): Turn
    requires Enabled(hash, s, step)
  {
    match step
    case Begin(_, request, id) => Turn(Entered(Tx(request, id, Begun)), s.db, [])
    case LockKey(_) => Turn(TookKey, s.db, [])
    case ReadKey(t) =>
      var tx := s.txs[t];
      if KeyOf(tx.request) in s.db.rows
      then Answer(s, tx, Decided(ExistingDecision(s.db.rows[KeyOf(tx.request)], tx.request)))
      else Turn(Advanced(KeyFree), s.db, [])
    case LockRun(t) => LockRunTurn(s, s.txs[t])
    case SumLedger(t) => SumTurn(s, s.txs[t], s.txs[t].pc.limit)
    case InsertRows(t) => InsertTurn(s, s.txs[t], s.txs[t].pc.limit, s.txs[t].pc.used)
    case Commit(t) =>
      var tx := s.txs[t];
      Answer(s, tx, Decided(Decision(Acquired, Some(tx.id), None))).(db := Insert(s.db, tx.request, tx.id))
    case Abort(_) => Turn(Ended, s.db, [])
    case Finalize(tenant, id, receipt) =>
      var (db, done) := SqlComplete(s.db, tenant, id, receipt);
      Turn(Still, db, [Finalized(tenant, id, receipt, done)])
    case Spend(row) => Turn(Still, s.db.(ledger := s.db.ledger + [row]), [Spent(row)])
    case Bind(key, row) => Turn(Still, s.db.(rows := s.db.rows[key := row]), [Bound(key, row)])
  }

  predicate SameHold(before: Pc, after: Pc) {
    HoldsKey(before) == HoldsKey(after) && HoldsRun(before) == HoldsRun(after)
  }

  predicate Allowed(hash: Key -> int, s: State, t: nat, shape: Shape) {
    match shape
    case Still => true
    case Entered(tx) => t !in s.txs && tx.pc == Begun
    case Advanced(pc) => t in s.txs && SameHold(s.txs[t].pc, pc)
    case TookKey => At(s, t, Begun) && LockOf(hash, s.txs[t]) !in s.keyLocks
    case TookRun(_) => At(s, t, KeyFree) && RunOf(s.txs[t].request) !in s.runLocks
    case Ended => t in s.txs
  }

  function Unlock<L>(locks: map<L, nat>, t: nat): map<L, nat> {
    map l | l in locks && locks[l] != t :: locks[l]
  }

  function TxsAfter(hash: Key -> int, s: State, t: nat, shape: Shape): map<nat, Tx>
    requires Allowed(hash, s, t, shape)
  {
    match shape
    case Still => s.txs
    case Entered(tx) => s.txs[t := tx]
    case Advanced(pc) => s.txs[t := s.txs[t].(pc := pc)]
    case TookKey => s.txs[t := s.txs[t].(pc := KeyLocked)]
    case TookRun(limit) => s.txs[t := s.txs[t].(pc := RunLocked(limit))]
    case Ended => s.txs - {t}
  }

  function KeyLocksAfter(hash: Key -> int, s: State, t: nat, shape: Shape): map<int, nat>
    requires Allowed(hash, s, t, shape)
  {
    if shape.TookKey? then s.keyLocks[LockOf(hash, s.txs[t]) := t]
    else if shape.Ended? then Unlock(s.keyLocks, t)
    else s.keyLocks
  }

  function RunLocksAfter(hash: Key -> int, s: State, t: nat, shape: Shape): map<RunKey, nat>
    requires Allowed(hash, s, t, shape)
  {
    if shape.TookRun? then s.runLocks[RunOf(s.txs[t].request) := t]
    else if shape.Ended? then Unlock(s.runLocks, t)
    else s.runLocks
  }

  function Mover(step: Step): nat {
    if step.Finalize? || step.Spend? || step.Bind? then 0 else step.t
  }

  function NewIds(step: Step): set<string> {
    match step
    case Begin(_, _, id) => {id}
    case Bind(_, row) => {row.id}
    case _ => {}
  }

  predicate Disturbs(s: State, step: Step) {
    step.Bind? && WorkingOn(s, step.key)
  }

  lemma TurnAllowed(hash: Key -> int, s: State, step: Step)
    requires Enabled(hash, s, step)
    ensures Allowed(hash, s, Mover(step), TurnOf(hash, s, step).shape)
  {
  }

  function Apply(hash: Key -> int, s: State, step: Step): State
    requires Enabled(hash, s, step)
  {
    TurnAllowed(hash, s, step);
    var t, turn := Mover(step), TurnOf(hash, s, step);
    State(turn.db,
          TxsAfter(hash, s, t, turn.shape), KeyLocksAfter(hash, s, t, turn.shape), RunLocksAfter(hash, s, t, turn.shape),
          s.issued + NewIds(step), s.disturbed || Disturbs(s, step), s.log + turn.events)
  }

  /** `s` is reached from the empty tables by the given steps, latest last. */
  ghost predicate Reaches(hash: Key -> int, budgets: map<RunKey, Option<GoalBudget>>, steps: seq<Step>, s: State)
    decreases |steps|
  {
    if steps == [] then s == Start(budgets)
    else
      var last := |steps| - 1;
      exists before: State ::
        Reaches(hash, budgets, steps[..last], before) && Enabled(hash, before, steps[last])
        && s == Apply(hash, before, steps[last])
  }

  // ---------------------------------------------------------------- locks

  /** A lock is held by exactly the transaction that has taken it and not yet ended. */
  ghost predicate KeyLocksOk(hash: Key -> int, txs: map<nat, Tx>, locks: map<int, nat>) {
    && (forall t <- txs | HoldsKey(txs[t].pc) :: LockOf(hash, txs[t]) in locks && locks[LockOf(hash, txs[t])] == t)
    && (forall l <- locks :: locks[l] in txs && HoldsKey(txs[locks[l]].pc) && LockOf(hash, txs[locks[l]]) == l)
  }

  ghost predicate RunLocksOk(txs: map<nat, Tx>, locks: map<RunKey, nat>) {
    && (forall t <- txs | HoldsRun(txs[t].pc) :: RunOf(txs[t].request) in locks && locks[RunOf(txs[t].request)] == t)
    && (forall r <- locks :: locks[r] in txs && HoldsRun(txs[locks[r]].pc) && RunOf(txs[locks[r]].request) == r)
  }

  ghost predicate LocksOk(hash: Key -> int, s: State) {
    KeyLocksOk(hash, s.txs, s.keyLocks) && RunLocksOk(s.txs, s.runLocks)
  }

  lemma KeyLocksKept(hash: Key -> int, s: State, t: nat, shape: Shape)
    requires Allowed(hash, s, t, shape) && KeyLocksOk(hash, s.txs, s.keyLocks)
    ensures KeyLocksOk(hash, TxsAfter(hash, s, t, shape), KeyLocksAfter(hash, s, t, shape))
  {
  }

  lemma RunLocksKept(hash: Key -> int, s: State, t: nat, shape: Shape)
    requires Allowed(hash, s, t, shape) && RunLocksOk(s.txs, s.runLocks)
    ensures RunLocksOk(TxsAfter(hash, s, t, shape), RunLocksAfter(hash, s, t, shape))
  {
  }

  lemma LocksKept(hash: Key -> int, s: State, step: Step)
    requires LocksOk(hash, s) && Enabled(hash, s, step)
    ensures LocksOk(hash, Apply(hash, s, step))
  {
    TurnAllowed(hash, s, step);
    KeyLocksKept(hash, s, Mover(step), TurnOf(hash, s, step).shape);
    RunLocksKept(hash, s, Mover(step), TurnOf(hash, s, step).shape);
  }

  // ---------------------------------------------------------------- waiting and deadlock

  /** Transaction `t` cannot go on before `u` gives up a lock. */
  predicate WaitsFor(hash: Key -> int, s: State, t: nat, u: nat) {
    && t in s.txs
    && ((s.txs[t].pc.Begun? && LockOf(hash, s.txs[t]) in s.keyLocks && s.keyLocks[LockOf(hash, s.txs[t])] == u)
        || (s.txs[t].pc.KeyFree? && RunOf(s.txs[t].request) in s.runLocks && s.runLocks[RunOf(s.txs[t].request)] == u))
  }

  /** Key first, Run second: the number of locks held. */
  function Rank(pc: Pc): nat {
    if HoldsRun(pc) then 2 else if HoldsKey(pc) then 1 else 0
  }

  lemma WaitingClimbs(hash: Key -> int, s: State, t: nat, u: nat)
    requires LocksOk(hash, s) && WaitsFor(hash, s, t, u)
    ensures u in s.txs && Rank(s.txs[t].pc) < Rank(s.txs[u].pc)
  {
  }

  ghost predicate WaitChain(hash: Key -> int, s: State, chain: seq<nat>) {
    forall i | 0 <= i < |chain| - 1 :: WaitsFor(hash, s, chain[i], chain[i + 1])
  }

  lemma {:induction false} ChainClimbs(hash: Key -> int, s: State, chain: seq<nat>, i: nat, j: nat)
    requires LocksOk(hash, s) && WaitChain(hash, s, chain) && i < j < |chain|
    ensures chain[i] in s.txs && chain[j] in s.txs
    ensures Rank(s.txs[chain[i]].pc) + (j - i) <= Rank(s.txs[chain[j]].pc)
    decreases j
  {
    assert WaitsFor(hash, s, chain[j - 1], chain[j]);
    WaitingClimbs(hash, s, chain[j - 1], chain[j]);
    if i < j - 1 { ChainClimbs(hash, s, chain, i, j - 1); }
  }

  /** No chain of waiting transactions is longer than three or returns to one of its members:
      taking the key lock before the Run lock rules out deadlock. */
  lemma NoWaitCycle(hash: Key -> int, s: State, chain: seq<nat>)
    requires LocksOk(hash, s) && WaitChain(hash, s, chain) && |chain| >= 2
    ensures |chain| <= 3
    ensures forall i, j | 0 <= i < j < |chain| :: chain[i] != chain[j]
  {
    ChainClimbs(hash, s, chain, 0, |chain| - 1);
    forall i, j | 0 <= i < j < |chain| ensures chain[i] != chain[j] {
      ChainClimbs(hash, s, chain, i, j);
    }
  }

  /** The statement a transaction is about to run. */
  function NextStep(t: nat, pc: Pc): Step {
    match pc
    case Begun => LockKey(t)
    case KeyLocked => ReadKey(t)
    case KeyFree => LockRun(t)
    case RunLocked(_) => SumLedger(t)
    case Summed(_, _) => InsertRows(t)
    case Inserted(_, _) => Commit(t)
  }

  lemma RunHolderMoves(hash: Key -> int, s: State, t: nat)
    requires LocksOk(hash, s) && t in s.txs && HoldsRun(s.txs[t].pc)
    ensures Enabled(hash, s, NextStep(t, s.txs[t].pc))
  {
    forall u | u in s.txs && s.txs[u].pc.Inserted? && s.txs[t].pc.Summed?
      ensures KeyOf(s.txs[u].request) != KeyOf(s.txs[t].request)
    {
      if KeyOf(s.txs[u].request) == KeyOf(s.txs[t].request) { assert false; }
    }
  }

  /** While any transaction is open, one of them can run its next statement. */
  lemma SomeoneMoves(hash: Key -> int, s: State)
    requires LocksOk(hash, s) && s.txs.Keys != {}
    ensures exists t <- s.txs :: Enabled(hash, s, NextStep(t, s.txs[t].pc))
  {
    var t :| t in s.txs;
    if exists u <- s.txs :: HoldsRun(s.txs[u].pc) {
      var u :| u in s.txs && HoldsRun(s.txs[u].pc);
      RunHolderMoves(hash, s, u);
    } else if exists u <- s.txs :: HoldsKey(s.txs[u].pc) {
      var u :| u in s.txs && HoldsKey(s.txs[u].pc);
      assert Enabled(hash, s, NextStep(u, s.txs[u].pc));
    } else {
      assert Enabled(hash, s, NextStep(t, s.txs[t].pc));
    }
  }

  // ---------------------------------------------------------------- sums over the ledger

  /** The part of a ledger written by reservations. */
  function Reservations(ledger: seq<LedgerRow>): seq<LedgerRow> {
    if ledger == [] then []
    else
      var last := ledger[|ledger| - 1];
      Reservations(ledger[..|ledger| - 1]) + (if last.reference.ToolReservation? then [last] else [])
  }

  function ReservedSum(ledger: seq<LedgerRow>, run: RunKey): int {
    RunSum(Reservations(ledger), run)
  }

  predicate PositiveRow(row: LedgerRow) {
    row.amount > 0
  }

  predicate Positive(ledger: seq<LedgerRow>) {
    forall row <- ledger :: PositiveRow(row)
  }

  lemma ReservedSumAppend(ledger: seq<LedgerRow>, row: LedgerRow, run: RunKey)
    ensures ReservedSum(ledger + [row], run)
            == ReservedSum(ledger, run) + (if row.reference.ToolReservation? then RowAmount(row, run) else 0)
  {
    assert (ledger + [row])[..|ledger|] == ledger;
    var before := Reservations(ledger);
    if row.reference.ToolReservation? {
      assert Reservations(ledger + [row]) == before + [row];
      RunSumAppend(before, row, run);
    } else {
      assert before + [] == before;
    }
  }

  lemma {:induction false} ReservedWithinAll(ledger: seq<LedgerRow>, run: RunKey)
    requires Positive(ledger)
    ensures 0 <= ReservedSum(ledger, run) <= RunSum(ledger, run)
    decreases |ledger|
  {
    if ledger != [] {
      var init, last := ledger[..|ledger| - 1], ledger[|ledger| - 1];
      assert ledger == init + [last] && PositiveRow(last);
      ReservedWithinAll(init, run);
      ReservedSumAppend(init, last, run);
    }
  }

  // ---------------------------------------------------------------- what each transaction knows

  /** What a Run may reserve at most. */
  function Ceiling(budgets: map<RunKey, Option<GoalBudget>>, run: RunKey): int {
    if run in budgets && budgets[run].Some? && budgets[run].value.amount > 0 then budgets[run].value.amount else 0
  }

  /** The key was absent when it was read, so a row found now came from outside. */
  predicate KeyKnown(db: Db, disturbed: bool, tx: Tx) {
    KeyOf(tx.request) in db.rows ==> disturbed && BoundRow(db.rows[KeyOf(tx.request)])
  }

  predicate LimitKnown(db: Db, tx: Tx, limit: int) {
    RunOf(tx.request) in db.budgets && db.budgets[RunOf(tx.request)] == Some(GoalBudget(COST_UNITS, limit))
  }

  /** The sum that was read is still the sum of everything in the Run's ledger. */
  predicate SumKnown(db: Db, tx: Tx, limit: int, used: int) {
    used == RunSum(db.ledger, RunOf(tx.request)) && used + tx.request.cost <= limit
  }

  ghost predicate TxOk(db: Db, disturbed: bool, tx: Tx) {
    match tx.pc
    case Begun => true
    case KeyLocked => true
    case KeyFree => KeyKnown(db, disturbed, tx)
    case RunLocked(limit) => KeyKnown(db, disturbed, tx) && LimitKnown(db, tx, limit)
    case Summed(limit, used) =>
      KeyKnown(db, disturbed, tx) && LimitKnown(db, tx, limit) && SumKnown(db, tx, limit, used)
    case Inserted(limit, used) =>
      KeyOf(tx.request) !in db.rows && tx.request.cost > 0
      && LimitKnown(db, tx, limit) && SumKnown(db, tx, limit, used)
  }

  /** When the i-th row, if a reservation's, was written, the whole ledger of its Run fitted. */
  predicate Fitted(ledger: seq<LedgerRow>, budgets: map<RunKey, Option<GoalBudget>>, i: nat)
    requires i < |ledger|
  {
    ledger[i].reference.ToolReservation? ==> RunSum(ledger[..i + 1], ledger[i].run) <= Ceiling(budgets, ledger[i].run)
  }

  ghost predicate LedgerOk(db: Db) {
    && Positive(db.ledger)
    && (forall run: RunKey :: ReservedSum(db.ledger, run) <= Ceiling(db.budgets, run))
    && (forall i | 0 <= i < |db.ledger| :: Fitted(db.ledger, db.budgets, i))
  }

  ghost predicate DataOk(s: State) {
    && LedgerOk(s.db)
    && (forall t <- s.txs :: TxOk(s.db, s.disturbed, s.txs[t]))
  }

  lemma InsertKeepsOther(db: Db, d: bool, tx: Tx, request: Request, id: string)
    requires TxOk(db, d, tx)
    requires PastRead(tx.pc) ==> KeyOf(tx.request) != KeyOf(request)
    requires HoldsRun(tx.pc) ==> RunOf(tx.request) != RunOf(request)
    ensures TxOk(Insert(db, request, id), d, tx)
  {
    RunSumAppend(db.ledger, ReservationEntry(request, id), RunOf(tx.request));
  }

  lemma SpendKeepsAny(db: Db, d: bool, tx: Tx, row: LedgerRow)
    requires TxOk(db, d, tx)
    requires HoldsRun(tx.pc) ==> RunOf(tx.request) != row.run
    ensures TxOk(db.(ledger := db.ledger + [row]), d, tx)
  {
    RunSumAppend(db.ledger, row, RunOf(tx.request));
  }

  lemma BindKeepsAny(db: Db, d: bool, d': bool, tx: Tx, key: Key, row: Row)
    requires TxOk(db, d, tx) && (d ==> d') && BoundRow(row)
    requires PastRead(tx.pc) && KeyOf(tx.request) == key ==> d' && !tx.pc.Inserted?
    ensures TxOk(db.(rows := db.rows[key := row]), d', tx)
  {
  }

  lemma FinalizeKeepsAny(db: Db, d: bool, tx: Tx, tenant: string, id: string, receipt: Receipt)
    requires TxOk(db, d, tx)
    ensures TxOk(SqlComplete(db, tenant, id, receipt).0, d, tx)
  {
    var db' := SqlComplete(db, tenant, id, receipt).0;
    assert db'.rows.Keys == db.rows.Keys && db'.ledger == db.ledger && db'.budgets == db.budgets;
    if PastRead(tx.pc) && KeyOf(tx.request) in db.rows {
      assert KeyOf(tx.request) !in PendingKeys(db, tenant, id);
    }
  }

  /** Only a commit, a finalization or outside code changes the committed tables. */
  lemma StatementsKeepData(hash: Key -> int, s: State, step: Step)
    requires Enabled(hash, s, step) && !step.Commit? && !step.Finalize? && !step.Spend? && !step.Bind?
    ensures TurnOf(hash, s, step).db == s.db && !Disturbs(s, step)
  {
  }

  lemma OthersKept(hash: Key -> int, s: State, step: Step, u: nat)
    requires LocksOk(hash, s) && DataOk(s) && Enabled(hash, s, step) && u in s.txs
    requires step.Finalize? || step.Spend? || step.Bind? || u != step.t
    ensures TxOk(TurnOf(hash, s, step).db, s.disturbed || Disturbs(s, step), s.txs[u])
  {
    var tx := s.txs[u];
    assert TxOk(s.db, s.disturbed, tx);
    if !step.Commit? && !step.Finalize? && !step.Spend? && !step.Bind? {
      StatementsKeepData(hash, s, step);
      return;
    }
    match step {
      case Commit(t) => InsertKeepsOther(s.db, s.disturbed, tx, s.txs[t].request, s.txs[t].id);
      case Finalize(tenant, id, receipt) => FinalizeKeepsAny(s.db, s.disturbed, tx, tenant, id, receipt);
      case Spend(row) => SpendKeepsAny(s.db, s.disturbed, tx, row);
      case Bind(key, row) =>
        if PastRead(tx.pc) && KeyOf(tx.request) == key {
          assert WorkingOn(s, key);
          assert tx.pc.Inserted? ==> Inserting(s, key);
        }
        BindKeepsAny(s.db, s.disturbed, s.disturbed || Disturbs(s, step), tx, key, row);
      case _ =>
    }
  }

  lemma MoverKept(hash: Key -> int, s: State, step: Step)
    requires DataOk(s) && Enabled(hash, s, step)
    requires !(step.Finalize? || step.Spend? || step.Bind?)
    ensures step.t in Apply(hash, s, step).txs ==>
              TxOk(s.db, s.disturbed, Apply(hash, s, step).txs[step.t])
  {
    if step.t in s.txs {
      assert TxOk(s.db, s.disturbed, s.txs[step.t]);
    }
  }

  /** A commit leaves the whole ledger of its Run, whoever wrote it, within the Goal limit. */
  lemma CommitFits(s: State, t: nat)
    requires DataOk(s) && t in s.txs && s.txs[t].pc.Inserted?
    ensures var request := s.txs[t].request;
            var after := Insert(s.db, request, s.txs[t].id).ledger;
            RunSum(after, RunOf(request)) == RunSum(s.db.ledger, RunOf(request)) + request.cost
            <= Ceiling(s.db.budgets, RunOf(request))
  {
    var tx := s.txs[t];
    assert TxOk(s.db, s.disturbed, tx);
    RunSumAppend(s.db.ledger, ReservationEntry(tx.request, tx.id), RunOf(tx.request));
    ReservedWithinAll(s.db.ledger, RunOf(tx.request));
  }

  lemma CommitWithinCeiling(s: State, t: nat, run: RunKey)
    requires DataOk(s) && t in s.txs && s.txs[t].pc.Inserted?
    ensures ReservedSum(Insert(s.db, s.txs[t].request, s.txs[t].id).ledger, run) <= Ceiling(s.db.budgets, run)
  {
    var tx := s.txs[t];
    assert TxOk(s.db, s.disturbed, tx);
    CommitFits(s, t);
    assert Positive(s.db.ledger + [ReservationEntry(tx.request, tx.id)]);
    ReservedWithinAll(s.db.ledger + [ReservationEntry(tx.request, tx.id)], run);
    ReservedSumAppend(s.db.ledger, ReservationEntry(tx.request, tx.id), run);
    assert ReservedSum(s.db.ledger, run) <= Ceiling(s.db.budgets, run);
  }

  lemma AppendKeepsFitted(ledger: seq<LedgerRow>, budgets: map<RunKey, Option<GoalBudget>>, row: LedgerRow)
    requires forall i | 0 <= i < |ledger| :: Fitted(ledger, budgets, i)
    requires row.reference.ToolReservation? ==> RunSum(ledger + [row], row.run) <= Ceiling(budgets, row.run)
    ensures forall i | 0 <= i < |ledger + [row]| :: Fitted(ledger + [row], budgets, i)
  {
    var longer := ledger + [row];
    forall i | 0 <= i < |longer| ensures Fitted(longer, budgets, i) {
      if i < |ledger| {
        assert longer[..i + 1] == ledger[..i + 1];
        assert Fitted(ledger, budgets, i);
      } else {
        assert longer[..i + 1] == longer;
      }
    }
  }

  lemma FittedKept(hash: Key -> int, s: State, step: Step)
    requires DataOk(s) && Enabled(hash, s, step)
    ensures var db' := TurnOf(hash, s, step).db;
            forall i | 0 <= i < |db'.ledger| :: Fitted(db'.ledger, db'.budgets, i)
  {
    match step {
      case Commit(t) =>
        CommitFits(s, t);
        AppendKeepsFitted(s.db.ledger, s.db.budgets, ReservationEntry(s.txs[t].request, s.txs[t].id));
      case Spend(row) => AppendKeepsFitted(s.db.ledger, s.db.budgets, row);
      case _ =>
    }
  }

  lemma LedgerKept(hash: Key -> int, s: State, step: Step)
    requires DataOk(s) && Enabled(hash, s, step)
    ensures LedgerOk(TurnOf(hash, s, step).db)
  {
    var db' := TurnOf(hash, s, step).db;
    assert db'.budgets == s.db.budgets;
    FittedKept(hash, s, step);
    forall run: RunKey ensures ReservedSum(db'.ledger, run) <= Ceiling(db'.budgets, run) {
      assert ReservedSum(s.db.ledger, run) <= Ceiling(s.db.budgets, run);
      if step.Commit? { CommitWithinCeiling(s, step.t, run); }
      if step.Spend? { ReservedSumAppend(s.db.ledger, step.spent, run); }
    }
    if step.Commit? { assert TxOk(s.db, s.disturbed, s.txs[step.t]); }
  }

  lemma DataKept(hash: Key -> int, s: State, step: Step)
    requires LocksOk(hash, s) && DataOk(s) && Enabled(hash, s, step)
    ensures DataOk(Apply(hash, s, step))
  {
    var s' := Apply(hash, s, step);
    TurnAllowed(hash, s, step);
    LedgerKept(hash, s, step);
    forall u | u in s'.txs ensures TxOk(s'.db, s'.disturbed, s'.txs[u]) {
      if step.Finalize? || step.Spend? || step.Bind? || u != step.t {
        OthersKept(hash, s, step, u);
      } else {
        MoverKept(hash, s, step);
      }
    }
  }
}
