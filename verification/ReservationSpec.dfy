/** Execution reservations as values: the in-memory model and one PostgreSQL transaction.

    Both bind an idempotency key and reserve budget in one indivisible operation.  The
    functions here say what one call does to the state; `ReservationStores` proves that the
    mutable classes compute them, `ReservationSimulation` compares the two, and
    `ReservationConcurrency` splits the SQL transaction into its separate statements. */
module ReservationSpec {
  import opened Basics

  datatype ReceiptStatus = Rejected | Accepted | Succeeded | Failed | Unknown

  datatype Receipt = Receipt(externalId: string, status: ReceiptStatus, output: seq<(string, string)>)

  datatype Request = Request(
    tenant: string, run: string, action: string, toolName: string, toolVersion: string,
    key: string, digest: string, cost: int)

  datatype DecisionStatus = Acquired | Cached | InProgress | OutcomeUnknown | Conflict | BudgetExhausted

  datatype Decision = Decision(status: DecisionStatus, reservation: Option<string>, receipt: Option<Receipt>)

  datatype CompleteOutcome = Completed | UnknownReservation | AlreadyFinal

  datatype Key = Key(tenant: string, key: string)

  datatype RunKey = RunKey(tenant: string, run: string)

  function KeyOf(request: Request): Key {
    Key(request.tenant, request.key)
  }

  function RunOf(request: Request): RunKey {
    RunKey(request.tenant, request.run)
  }

  // ---------------------------------------------------------------- in-memory model

  datatype Record = Record(request: Request, id: string, receipt: Option<Receipt>)

  /** `ids` is the index by reservation id; it names the key whose record carries that id. */
  datatype Memory = Memory(limit: int, used: map<RunKey, int>, records: map<Key, Record>, ids: map<string, Key>)

  function EmptyMemory(limit: int): Memory {
    Memory(limit, map[], map[], map[])
  }

  function Used(m: Memory, run: RunKey): int {
    if run in m.used then m.used[run] else 0
  }

  function KnownDecision(record: Record, request: Request): Decision {
    if record.request.digest != request.digest then Decision(Conflict, None, None)
    else if record.receipt.None? then Decision(InProgress, None, None)
    else if record.receipt.value.status in {Accepted, Unknown} then Decision(OutcomeUnknown, Some(record.id), None)
    else Decision(Cached, Some(record.id), record.receipt)
  }

  function MemoryReserve(m: Memory, request: Request, id: string): (Memory, Decision) {
    var key, run := KeyOf(request), RunOf(request);
    if key in m.records then (m, KnownDecision(m.records[key], request))
    else if Used(m, run) + request.cost > m.limit then (m, Decision(BudgetExhausted, None, None))
    else
      (Memory(m.limit, m.used[run := Used(m, run) + request.cost],
              m.records[key := Record(request, id, None)], m.ids[id := key]),
       Decision(Acquired, Some(id), None))
  }

  /** The two dictionaries of the in-memory model describe the same records. */
  predicate Indexed(m: Memory) {
    && (forall k <- m.records :: KeyOf(m.records[k].request) == k && m.records[k].id in m.ids && m.ids[m.records[k].id] == k)
    && (forall id <- m.ids :: m.ids[id] in m.records && m.records[m.ids[id]].id == id)
  }

  function MemoryComplete(m: Memory, id: string, receipt: Receipt): (Memory, CompleteOutcome)
    requires Indexed(m)
  {
    if id !in m.ids then (m, UnknownReservation)
    else
      var record := m.records[m.ids[id]];
      if record.receipt.Some? && record.receipt.value != receipt then (m, AlreadyFinal)
      else (m.(records := m.records[m.ids[id] := record.(receipt := Some(receipt))]), Completed)
  }

  // ---------------------------------------------------------------- PostgreSQL rows

  datatype RowStatus = Pending | RowAccepted | RowCompleted | RowFailed | RowUnknown

  datatype Response = Response(output: seq<(string, string)>, status: ReceiptStatus)

  /** A row of `idempotency_records`.  Rows written by other code have no run or tool version. */
  datatype Row = Row(
    id: string, run: Option<string>, toolVersion: Option<string>, digest: string,
    externalId: Option<string>, status: RowStatus, response: Option<Response>)

  datatype Reference = ToolReservation(id: string) | OtherReference(text: string)

  datatype LedgerRow = LedgerRow(run: RunKey, amount: int, unit: string, reference: Reference)

  datatype GoalBudget = GoalBudget(unit: string, amount: int)

  /** `budgets` joins Runs to their Goal: a Run may exist while its Goal contract does not. */
  datatype Db = Db(rows: map<Key, Row>, ledger: seq<LedgerRow>, budgets: map<RunKey, Option<GoalBudget>>)

  datatype ReserveOutcome =
    | Decided(decision: Decision)
    | RunMissing
    | GoalMissing
    | WrongUnit
    | ConstraintViolation

  const COST_UNITS := "cost_units"

  function RowAmount(row: LedgerRow, run: RunKey): int {
    if row.run == run && row.unit == COST_UNITS then row.amount else 0
  }

  /** What the Run has used: every ledger row in cost units, whoever wrote it. */
  function RunSum(ledger: seq<LedgerRow>, run: RunKey): int {
    if ledger == [] then 0
    else RunSum(ledger[..|ledger| - 1], run) + RowAmount(ledger[|ledger| - 1], run)
  }

  lemma RunSumAppend(ledger: seq<LedgerRow>, row: LedgerRow, run: RunKey)
    ensures RunSum(ledger + [row], run) == RunSum(ledger, run) + RowAmount(row, run)
  {
    assert (ledger + [row])[..|ledger|] == ledger;
  }

  function RowStatusOf(status: ReceiptStatus): RowStatus {
    match status
    case Succeeded => RowCompleted
    case Failed => RowFailed
    case Rejected => RowFailed
    case Unknown => RowUnknown
    case Accepted => RowAccepted
  }

  function StoredExternalId(text: string): Option<string> {
    if text == "" then None else Some(text)
  }

  function ExistingDecision(row: Row, request: Request): Decision {
    if row.digest != request.digest then Decision(Conflict, None, None)
    else if row.toolVersion !in {None, Some(request.toolVersion)} then Decision(Conflict, None, None)
    else if row.status == Pending then Decision(InProgress, Some(row.id), None)
    else if row.status in {RowUnknown, RowAccepted} then Decision(OutcomeUnknown, Some(row.id), None)
    else
      var status := if row.status == RowCompleted then Succeeded else Failed;
      var external := if row.externalId.Some? then row.externalId.value else "";
      var output := if row.response.Some? then row.response.value.output else [];
      Decision(Cached, Some(row.id), Some(Receipt(external, status, output)))
  }

  function PendingRow(request: Request, id: string): Row {
    Row(id, Some(request.run), Some(request.toolVersion), request.digest, None, Pending, None)
  }

  function ReservationEntry(request: Request, id: string): LedgerRow {
    LedgerRow(RunOf(request), request.cost, COST_UNITS, ToolReservation(id))
  }

  function Insert(db: Db, request: Request, id: string): Db {
    db.(rows := db.rows[KeyOf(request) := PendingRow(request, id)],
        ledger := db.ledger + [ReservationEntry(request, id)])
  }

  /** One whole `reserve` transaction run without interference. */
  function SqlReserve(db: Db, request: Request, id: string): (Db, ReserveOutcome) {
    var key, run := KeyOf(request), RunOf(request);
    if key in db.rows then (db, Decided(ExistingDecision(db.rows[key], request)))
    else if run !in db.budgets then (db, RunMissing)
    else if db.budgets[run].None? then (db, GoalMissing)
    else if db.budgets[run].value.unit != COST_UNITS then (db, WrongUnit)
    else if RunSum(db.ledger, run) + request.cost > db.budgets[run].value.amount then
      (db, Decided(Decision(BudgetExhausted, None, None)))
    else if request.cost <= 0 then (db, ConstraintViolation)
    else (Insert(db, request, id), Decided(Decision(Acquired, Some(id), None)))
  }

  /** The rows the UPDATE of `complete` matches; the primary key leaves at most one. */
  function PendingKeys(db: Db, tenant: string, id: string): set<Key> {
    set k | k in db.rows && k.tenant == tenant && db.rows[k].id == id && db.rows[k].status == Pending
  }

  function FinalRow(row: Row, receipt: Receipt): Row {
    row.(status := RowStatusOf(receipt.status), externalId := StoredExternalId(receipt.externalId),
         response := Some(Response(receipt.output, receipt.status)))
  }

  function SqlComplete(db: Db, tenant: string, id: string, receipt: Receipt): (Db, CompleteOutcome) {
    var matched := PendingKeys(db, tenant, id);
    if matched == {} then (db, AlreadyFinal)
    else
      (db.(rows := map k | k in db.rows :: if k in matched then FinalRow(db.rows[k], receipt) else db.rows[k]),
       Completed)
  }
}
