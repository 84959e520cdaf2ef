/** The in-memory reservations against the SQL ones: when they agree, exactly, and that over
    any well-formed sequence of calls they agree throughout. */
module ReservationSimulation {
  import opened Basics
  import opened ReservationSpec

  // ---------------------------------------------------------------- the simulation relation

  predicate SameReservation(record: Record, row: Row) {
    && row.id == record.id
    && row.run == Some(record.request.run)
    && row.toolVersion == Some(record.request.toolVersion)
    && row.digest == record.request.digest
    && (if record.receipt.None? then row.status == Pending
        else
          && row.status == RowStatusOf(record.receipt.value.status)
          && row.externalId == StoredExternalId(record.receipt.value.externalId)
          && row.response == Some(Response(record.receipt.value.output, record.receipt.value.status)))
  }

  /** Same keys, matching records, the same use per Run, and every Run budgeted with the
      in-memory limit in cost units. */
  ghost predicate Simulates(m: Memory, db: Db) {
    && Indexed(m)
    && SameRecords(m.records, db.rows)
    && SameUse(m, db.ledger)
    && SameLimit(m.limit, db.budgets)
  }

  ghost predicate SameRecords(records: map<Key, Record>, rows: map<Key, Row>) {
    && records.Keys == rows.Keys
    && (forall k <- records :: SameReservation(records[k], rows[k]))
  }

  ghost predicate SameUse(m: Memory, ledger: seq<LedgerRow>) {
    forall r: RunKey {:trigger RunSum(ledger, r)} :: Used(m, r) == RunSum(ledger, r)
  }

  ghost predicate SameLimit(limit: int, budgets: map<RunKey, Option<GoalBudget>>) {
    forall r <- budgets :: budgets[r] == Some(GoalBudget(COST_UNITS, limit))
  }

  /** The same receipt, except that SQL gives back a rejected call as a failed one. */
  predicate SameReceipt(fromMemory: Option<Receipt>, fromSql: Option<Receipt>) {
    match (fromMemory, fromSql)
    case (None, None) => true
    case (Some(a), Some(b)) =>
      && a.externalId == b.externalId
      && a.output == b.output
      && b.status == (if a.status == Rejected then Failed else a.status)
    case _ => false
  }

  /** Same status and receipt; the reservation is named alike except that only SQL names it
      while the first call is still running. */
  predicate Agree(fromMemory: Decision, fromSql: ReserveOutcome) {
    && fromSql.Decided?
    && fromMemory.status == fromSql.decision.status
    && SameReceipt(fromMemory.receipt, fromSql.decision.receipt)
    && (fromMemory.status != InProgress ==> fromMemory.reservation == fromSql.decision.reservation)
  }

  /** The one case the two `reserve` operations decide differently: the key is known with the
      same digest but for another tool version, which only SQL compares. */
  predicate OtherToolVersion(m: Memory, request: Request) {
    KeyOf(request) in m.records
    && m.records[KeyOf(request)].request.digest == request.digest
    && m.records[KeyOf(request)].request.toolVersion != request.toolVersion
  }

  /** The two cases the `complete` operations treat differently: SQL refuses another tenant's
      name for an open reservation, and refuses to repeat an identical receipt. */
  predicate DifferentFinalization(m: Memory, tenant: string, id: string, receipt: Receipt)
    requires Indexed(m)
  {
    id in m.ids &&
    var record := m.records[m.ids[id]];
    if record.receipt.None? then record.request.tenant != tenant else record.receipt == Some(receipt)
  }

  // ---------------------------------------------------------------- single calls

  lemma KnownDecisionsAgreeExactly(record: Record, row: Row, request: Request)
    requires SameReservation(record, row)
    ensures Agree(KnownDecision(record, request), Decided(ExistingDecision(row, request)))
            <==> !(record.request.digest == request.digest && record.request.toolVersion != request.toolVersion)
  {
    if record.receipt.Some? {
      var stored := StoredExternalId(record.receipt.value.externalId);
      assert (if stored.Some? then stored.value else "") == record.receipt.value.externalId;
    }
  }

  lemma InsertKeepsUse(m: Memory, ledger: seq<LedgerRow>, request: Request, id: string)
    requires SameUse(m, ledger)
    ensures SameUse(m.(used := m.used[RunOf(request) := Used(m, RunOf(request)) + request.cost]),
                    ledger + [ReservationEntry(request, id)])
  {
    var m' := m.(used := m.used[RunOf(request) := Used(m, RunOf(request)) + request.cost]);
    forall r: RunKey ensures Used(m', r) == RunSum(ledger + [ReservationEntry(request, id)], r) {
      RunSumAppend(ledger, ReservationEntry(request, id), r);
      assert Used(m, r) == RunSum(ledger, r);
    }
  }

  lemma IndexedAfterReserve(m: Memory, request: Request, id: string)
    requires Indexed(m) && id !in m.ids
    ensures Indexed(MemoryReserve(m, request, id).0)
  {
  }

  lemma IndexedAfterComplete(m: Memory, id: string, receipt: Receipt)
    requires Indexed(m)
    ensures Indexed(MemoryComplete(m, id, receipt).0)
  {
  }

  lemma SameUseOf(m: Memory, m': Memory, ledger: seq<LedgerRow>)
    requires SameUse(m, ledger) && m'.used == m.used
    ensures SameUse(m', ledger)
  {
    forall r: RunKey ensures Used(m', r) == RunSum(ledger, r) {
      assert Used(m, r) == RunSum(ledger, r);
    }
  }

  lemma InsertSimulates(m: Memory, db: Db, request: Request, id: string)
    requires Simulates(m, db) && id !in m.ids
    requires KeyOf(request) !in m.records && Used(m, RunOf(request)) + request.cost <= m.limit
    ensures Simulates(MemoryReserve(m, request, id).0, Insert(db, request, id))
  {
    var m' := MemoryReserve(m, request, id).0;
    IndexedAfterReserve(m, request, id);
    InsertKeepsUse(m, db.ledger, request, id);
    SameUseOf(m.(used := m'.used), m', Insert(db, request, id).ledger);
  }

  /** Both `reserve` operations agree if and only if the tool versions do not differ, and
      either way the simulation goes on. */
  lemma ReserveAgreesExactly(m: Memory, db: Db, request: Request, id: string)
    requires Simulates(m, db)
    requires request.cost > 0 && RunOf(request) in db.budgets && id !in m.ids
    ensures Simulates(MemoryReserve(m, request, id).0, SqlReserve(db, request, id).0)
    ensures Agree(MemoryReserve(m, request, id).1, SqlReserve(db, request, id).1)
            <==> !OtherToolVersion(m, request)
  {
    var key, run := KeyOf(request), RunOf(request);
    if key in m.records {
      KnownDecisionsAgreeExactly(m.records[key], db.rows[key], request);
    } else {
      assert Used(m, run) == RunSum(db.ledger, run);
      if Used(m, run) + request.cost <= m.limit { InsertSimulates(m, db, request, id); }
    }
  }

  /** An entry other code has written is unknown to the in-memory store: from then on a new key is
      decided alike if and only if the entry does not use up what the request still needs. */
  lemma OutsideEntryAgreesExactly(m: Memory, db: Db, entry: LedgerRow, request: Request, id: string)
    requires Simulates(m, db) && KeyOf(request) !in m.records && id !in m.ids
    requires request.cost > 0 && RunOf(request) in db.budgets && entry.run == RunOf(request) && entry.unit == COST_UNITS
    requires entry.amount > 0
    ensures var needed := Used(m, RunOf(request)) + request.cost;
            Agree(MemoryReserve(m, request, id).1, SqlReserve(db.(ledger := db.ledger + [entry]), request, id).1)
            <==> !(needed <= m.limit < needed + entry.amount)
  {
    var run := RunOf(request);
    RunSumAppend(db.ledger, entry, run);
    assert SameUse(m, db.ledger) && Used(m, run) == RunSum(db.ledger, run);
    assert SameLimit(m.limit, db.budgets) && db.budgets[run] == Some(GoalBudget(COST_UNITS, m.limit));
    NewKeyDecisions(m, db.(ledger := db.ledger + [entry]), request, id);
  }

  /** A new key is decided by the two sums alone. */
  lemma NewKeyDecisions(m: Memory, db: Db, request: Request, id: string)
    requires KeyOf(request) !in m.records && KeyOf(request) !in db.rows && request.cost > 0
    requires RunOf(request) in db.budgets && db.budgets[RunOf(request)] == Some(GoalBudget(COST_UNITS, m.limit))
    ensures Agree(MemoryReserve(m, request, id).1, SqlReserve(db, request, id).1)
            <==> (Used(m, RunOf(request)) + request.cost > m.limit <==> RunSum(db.ledger, RunOf(request)) + request.cost > m.limit)
  {
  }

  /** The single row that carries a known, open reservation. */
  lemma PendingKeyOfRecord(m: Memory, db: Db, tenant: string, id: string)
    requires Simulates(m, db)
    ensures PendingKeys(db, tenant, id) ==
            if id in m.ids && m.records[m.ids[id]].receipt.None? && m.ids[id].tenant == tenant
            then {m.ids[id]} else {}
  {
    forall k | k in PendingKeys(db, tenant, id)
      ensures id in m.ids && m.ids[id] == k && m.records[k].receipt.None?
    {
      assert SameReservation(m.records[k], db.rows[k]);
    }
    if id in m.ids && m.records[m.ids[id]].receipt.None? && m.ids[id].tenant == tenant {
      var k := m.ids[id];
      assert SameReservation(m.records[k], db.rows[k]);
      assert k in PendingKeys(db, tenant, id);
    }
  }

  lemma CompleteSameRecords(m: Memory, db: Db, tenant: string, id: string, receipt: Receipt)
    requires Indexed(m) && SameRecords(m.records, db.rows)
    requires id in m.ids && m.records[m.ids[id]].receipt.None? && PendingKeys(db, tenant, id) == {m.ids[id]}
    ensures SameRecords(MemoryComplete(m, id, receipt).0.records, SqlComplete(db, tenant, id, receipt).0.rows)
  {
    var records', rows' := MemoryComplete(m, id, receipt).0.records, SqlComplete(db, tenant, id, receipt).0.rows;
    assert records'.Keys == rows'.Keys;
    forall k | k in records' ensures SameReservation(records'[k], rows'[k]) {
      assert SameReservation(m.records[k], db.rows[k]);
    }
  }

  /** Both `complete` operations succeed together or fail together if and only if neither
      difference applies, and then the simulation goes on. */
  lemma CompleteAgreesExactly(m: Memory, db: Db, tenant: string, id: string, receipt: Receipt)
    requires Simulates(m, db)
    ensures (MemoryComplete(m, id, receipt).1.Completed? <==> SqlComplete(db, tenant, id, receipt).1.Completed?)
            <==> !DifferentFinalization(m, tenant, id, receipt)
    ensures !DifferentFinalization(m, tenant, id, receipt) ==>
              Simulates(MemoryComplete(m, id, receipt).0, SqlComplete(db, tenant, id, receipt).0)
  {
    PendingKeyOfRecord(m, db, tenant, id);
    IndexedAfterComplete(m, id, receipt);
    SameUseOf(m, MemoryComplete(m, id, receipt).0, db.ledger);
    if SqlComplete(db, tenant, id, receipt).1.Completed? {
      CompleteSameRecords(m, db, tenant, id, receipt);
    }
  }

  /** An open reservation is finalized in another tenant's name. */
  predicate OtherTenantsName(m: Memory, tenant: string, id: string)
    requires Indexed(m)
  {
    id in m.ids && m.records[m.ids[id]].receipt.None? && m.records[m.ids[id]].request.tenant != tenant
  }

  /** `complete` keeps the simulation if and only if it does not finalize an open reservation in
      another tenant's name: repeating a receipt is answered differently but changes neither store. */
  lemma CompleteKeepsSimulationExactly(m: Memory, db: Db, tenant: string, id: string, receipt: Receipt)
    requires Simulates(m, db)
    ensures Simulates(MemoryComplete(m, id, receipt).0, SqlComplete(db, tenant, id, receipt).0)
            <==> !OtherTenantsName(m, tenant, id)
  {
    var m', db' := MemoryComplete(m, id, receipt).0, SqlComplete(db, tenant, id, receipt).0;
    CompleteAgreesExactly(m, db, tenant, id, receipt);
    PendingKeyOfRecord(m, db, tenant, id);
    if OtherTenantsName(m, tenant, id) {
      var k := m.ids[id];
      assert db'.rows == db.rows && m'.records[k].receipt == Some(receipt);
      assert SameReservation(m.records[k], db.rows[k]) && !SameReservation(m'.records[k], db'.rows[k]);
    } else if DifferentFinalization(m, tenant, id, receipt) {
      assert m'.records == m.records && db'.rows == db.rows;
      IndexedAfterComplete(m, id, receipt);
      SameUseOf(m, m', db.ledger);
    }
  }

  /** A reservation is finalized at most once: after a `complete` that went through, another for the
      same reservation, by whoever and with whatever receipt, is refused and changes nothing. */
  lemma FinalizedOnce(db: Db, tenant: string, id: string, first: Receipt, other: string, second: Receipt)
    requires forall k <- db.rows, l <- db.rows | db.rows[k].id == db.rows[l].id :: k == l
    requires SqlComplete(db, tenant, id, first).1.Completed?
    ensures var after := SqlComplete(db, tenant, id, first).0;
            !SqlComplete(after, other, id, second).1.Completed? && SqlComplete(after, other, id, second).0 == after
  {
    var after := SqlComplete(db, tenant, id, first).0;
    forall k | k in after.rows ensures k !in PendingKeys(after, other, id) {
      assert after.rows[k].id == db.rows[k].id;
    }
    assert PendingKeys(after, other, id) == {};
  }

  /** What a receipt leaves in the row of its reservation, and in no other. */
  lemma ReceiptIsStored(db: Db, tenant: string, id: string, receipt: Receipt, k: Key)
    requires k in db.rows
    ensures var open := k.tenant == tenant && db.rows[k].id == id && db.rows[k].status == Pending;
            var row := SqlComplete(db, tenant, id, receipt).0.rows[k];
            if open then
              && row.id == id && row.run == db.rows[k].run && row.digest == db.rows[k].digest
              && row.toolVersion == db.rows[k].toolVersion
              && row.externalId == (if receipt.externalId == "" then None else Some(receipt.externalId))
              && row.response == Some(Response(receipt.output, receipt.status))
              && row.status == (match receipt.status
                                case Succeeded => RowCompleted
                                case Failed => RowFailed
                                case Rejected => RowFailed
                                case Accepted => RowAccepted
                                case Unknown => RowUnknown)
            else row == db.rows[k]
  {
    assert k in PendingKeys(db, tenant, id) <==> k.tenant == tenant && db.rows[k].id == id && db.rows[k].status == Pending;
  }

  // ---------------------------------------------------------------- whole sequences of calls

  datatype Call =
    | CallReserve(request: Request, id: string)
    | CallComplete(tenant: string, id: string, receipt: Receipt)

  function MemoryStep(m: Memory, call: Call): Memory
    requires Indexed(m)
  {
    match call
    case CallReserve(request, id) => MemoryReserve(m, request, id).0
    case CallComplete(_, id, receipt) => MemoryComplete(m, id, receipt).0
  }

  function SqlStep(db: Db, call: Call): Db {
    match call
    case CallReserve(request, id) => SqlReserve(db, request, id).0
    case CallComplete(tenant, id, receipt) => SqlComplete(db, tenant, id, receipt).0
  }

  predicate StepAgrees(m: Memory, db: Db, call: Call)
    requires Indexed(m)
  {
    match call
    case CallReserve(request, id) => Agree(MemoryReserve(m, request, id).1, SqlReserve(db, request, id).1)
    case CallComplete(tenant, id, receipt) =>
      MemoryComplete(m, id, receipt).1.Completed? <==> SqlComplete(db, tenant, id, receipt).1.Completed?
  }

  function SqlRun(db: Db, calls: seq<Call>): Db
    decreases |calls|
  {
    if calls == [] then db else SqlStep(SqlRun(db, calls[..|calls| - 1]), calls[|calls| - 1])
  }

  function MemoryRun(m: Memory, calls: seq<Call>): Memory
    decreases |calls|
  {
    if calls == [] then m
    else
      var before := MemoryRun(m, calls[..|calls| - 1]);
      if Indexed(before) then MemoryStep(before, calls[|calls| - 1]) else before
  }

  /** Call number `i` of the sequence is answered alike by both. */
  ghost predicate AnswersAgreeAt(limit: int, runs: set<RunKey>, calls: seq<Call>, i: nat)
    requires i < |calls|
  {
    var m := MemoryRun(EmptyMemory(limit), calls[..i]);
    Indexed(m) && StepAgrees(m, SqlRun(EmptyDb(runs, limit), calls[..i]), calls[i])
  }

  predicate ReserveOk(call: Call, runs: set<RunKey>, toolOf: string -> string) {
    call.CallReserve? ==>
      && call.request.cost > 0
      && RunOf(call.request) in runs
      && call.request.toolVersion == toolOf(call.request.digest)
  }

  /** What the callers of the gateway do: positive costs on known Runs, a digest that fixes the
      tool version, fresh reservation ids, one `complete` per reservation, under its tenant. */
  ghost predicate WellFormed(calls: seq<Call>, runs: set<RunKey>, toolOf: string -> string) {
    && (forall i | 0 <= i < |calls| :: ReserveOk(calls[i], runs, toolOf))
    && (forall i, j | 0 <= i < j < |calls| :: Compatible(calls[i], calls[j]))
  }

  /** What the calls already made have left behind, relative to the calls still to come. */
  ghost predicate Ready(m: Memory, calls: seq<Call>, toolOf: string -> string) {
    && Indexed(m)
    && (forall k <- m.records :: m.records[k].request.toolVersion == toolOf(m.records[k].request.digest))
    && (forall i | 0 <= i < |calls| :: CallReady(m, calls[i]))
  }

  ghost predicate CallReady(m: Memory, call: Call)
    requires Indexed(m)
  {
    match call
    case CallReserve(_, id) => id !in m.ids
    case CallComplete(tenant, id, _) =>
      id in m.ids ==> m.records[m.ids[id]].receipt.None? && m.records[m.ids[id]].request.tenant == tenant
  }

  /** Two calls of a well-formed sequence, the first of them earlier. */
  predicate Compatible(first: Call, second: Call) {
    match (first, second)
    case (CallReserve(request, a), CallComplete(tenant, b, _)) => a == b ==> request.tenant == tenant
    case (CallComplete(tenant, a, _), CallReserve(request, b)) => a == b ==> request.tenant == tenant
    case _ => first.id != second.id
  }

  lemma ReadyAfter(m: Memory, first: Call, second: Call)
    requires Indexed(m) && CallReady(m, first) && CallReady(m, second) && Compatible(first, second)
    ensures Indexed(MemoryStep(m, first)) && CallReady(MemoryStep(m, first), second)
  {
    match first {
      case CallReserve(request, id) => IndexedAfterReserve(m, request, id);
      case CallComplete(_, id, receipt) => IndexedAfterComplete(m, id, receipt);
    }
  }

  lemma ReadyStep(m: Memory, calls: seq<Call>, runs: set<RunKey>, toolOf: string -> string)
    requires calls != [] && WellFormed(calls, runs, toolOf) && Ready(m, calls, toolOf)
    ensures Ready(MemoryStep(m, calls[0]), calls[1..], toolOf)
    ensures WellFormed(calls[1..], runs, toolOf)
  {
    var rest, m' := calls[1..], MemoryStep(m, calls[0]);
    assert CallReady(m, calls[0]);
    match calls[0] {
      case CallReserve(request, id) => IndexedAfterReserve(m, request, id);
      case CallComplete(_, id, receipt) => IndexedAfterComplete(m, id, receipt);
    }
    forall i | 0 <= i < |rest| ensures CallReady(m', rest[i]) {
      assert rest[i] == calls[i + 1];
      assert CallReady(m, calls[i + 1]) && Compatible(calls[0], calls[i + 1]);
      ReadyAfter(m, calls[0], rest[i]);
    }
    assert ReserveOk(calls[0], runs, toolOf);
  }

  lemma ReserveStepSimulates(m: Memory, db: Db, call: Call, runs: set<RunKey>, toolOf: string -> string)
    requires Simulates(m, db) && runs <= db.budgets.Keys && call.CallReserve?
    requires ReserveOk(call, runs, toolOf) && Ready(m, [call], toolOf)
    ensures StepAgrees(m, db, call) && Simulates(MemoryStep(m, call), SqlStep(db, call))
    ensures SqlStep(db, call).budgets == db.budgets
  {
    assert CallReady(m, [call][0]);
    ReserveAgreesExactly(m, db, call.request, call.id);
  }

  lemma CompleteStepSimulates(m: Memory, db: Db, call: Call)
    requires Simulates(m, db) && call.CallComplete? && Indexed(m) && CallReady(m, call)
    ensures StepAgrees(m, db, call) && Simulates(MemoryStep(m, call), SqlStep(db, call))
    ensures SqlStep(db, call).budgets == db.budgets
  {
    CompleteAgreesExactly(m, db, call.tenant, call.id, call.receipt);
  }

  lemma StepSimulates(m: Memory, db: Db, calls: seq<Call>, runs: set<RunKey>, toolOf: string -> string)
    requires Simulates(m, db) && runs <= db.budgets.Keys
    requires calls != [] && WellFormed(calls, runs, toolOf) && Ready(m, calls, toolOf)
    ensures StepAgrees(m, db, calls[0])
    ensures Simulates(MemoryStep(m, calls[0]), SqlStep(db, calls[0]))
    ensures SqlStep(db, calls[0]).budgets == db.budgets
  {
    assert CallReady(m, calls[0]) && ReserveOk(calls[0], runs, toolOf);
    if calls[0].CallReserve? {
      ReserveStepSimulates(m, db, calls[0], runs, toolOf);
    } else {
      CompleteStepSimulates(m, db, calls[0]);
    }
  }

  lemma {:induction false} SimulatesAfter(
    limit: int, runs: set<RunKey>, calls: seq<Call>, toolOf: string -> string, i: nat)
    requires WellFormed(calls, runs, toolOf) && i <= |calls|
    ensures var m, db := MemoryRun(EmptyMemory(limit), calls[..i]), SqlRun(EmptyDb(runs, limit), calls[..i]);
            && Simulates(m, db) && db.budgets == EmptyDb(runs, limit).budgets
            && WellFormed(calls[i..], runs, toolOf) && Ready(m, calls[i..], toolOf)
  {
    if i == 0 {
      assert calls[..0] == [] && calls[0..] == calls;
    } else {
      SimulatesAfter(limit, runs, calls, toolOf, i - 1);
      var m, db := MemoryRun(EmptyMemory(limit), calls[..i - 1]), SqlRun(EmptyDb(runs, limit), calls[..i - 1]);
      assert calls[..i][..i - 1] == calls[..i - 1];
      assert calls[i - 1..][0] == calls[i - 1] && calls[i - 1..][1..] == calls[i..];
      StepSimulates(m, db, calls[i - 1..], runs, toolOf);
      ReadyStep(m, calls[i - 1..], runs, toolOf);
    }
  }

  function EmptyDb(runs: set<RunKey>, limit: int): Db {
    Db(map[], [], map r | r in runs :: Some(GoalBudget(COST_UNITS, limit)))
  }

  /** The in-memory reservations are a faithful model of the database: in every well-formed
      sequence of calls each call gets the same answer, rejected receipts coming back as failed. */
  lemma MemoryModelsDatabase(limit: int, runs: set<RunKey>, calls: seq<Call>, toolOf: string -> string, i: nat)
    requires WellFormed(calls, runs, toolOf) && i < |calls|
    ensures AnswersAgreeAt(limit, runs, calls, i)
  {
    SimulatesAfter(limit, runs, calls, toolOf, i);
    assert calls[i..][0] == calls[i];
    StepSimulates(MemoryRun(EmptyMemory(limit), calls[..i]), SqlRun(EmptyDb(runs, limit), calls[..i]),
                  calls[i..], runs, toolOf);
  }

  // ---------------------------------------------------------------- conservation

  /** What the answers of the database say was acquired for one Run. */
  function AcquiredCost(db: Db, calls: seq<Call>, run: RunKey): int
    decreases |calls|
  {
    if calls == [] then 0
    else
      var before := calls[..|calls| - 1];
      AcquiredCost(db, before, run) + GrantedCost(SqlRun(db, before), calls[|calls| - 1], run)
  }

  function GrantedCost(db: Db, call: Call, run: RunKey): int {
    if call.CallReserve? && RunKey(call.request.tenant, call.request.run) == run
       && SqlReserve(db, call.request, call.id).1 == Decided(Decision(Acquired, Some(call.id), None))
    then call.request.cost else 0
  }

  predicate WithinBudget(db: Db, run: RunKey) {
    run in db.budgets && db.budgets[run].Some? ==> RunSum(db.ledger, run) <= db.budgets[run].value.amount
  }

  lemma StepConservesBudget(db: Db, call: Call, run: RunKey)
    ensures SqlStep(db, call).budgets == db.budgets
    ensures RunSum(SqlStep(db, call).ledger, run) == RunSum(db.ledger, run) + GrantedCost(db, call, run)
    ensures WithinBudget(db, run) ==> WithinBudget(SqlStep(db, call), run)
  {
    if call.CallReserve? { RunSumAppend(db.ledger, ReservationEntry(call.request, call.id), run); }
  }

  /** Budget is conserved over any sequence of calls whatsoever: what a Run has used grows by
      exactly the costs of its acquired answers and never passes the Goal limit. */
  lemma {:induction false} BudgetConserved(db: Db, calls: seq<Call>, run: RunKey)
    ensures RunSum(SqlRun(db, calls).ledger, run) == RunSum(db.ledger, run) + AcquiredCost(db, calls, run)
    ensures WithinBudget(db, run) ==> WithinBudget(SqlRun(db, calls), run)
    decreases |calls|
  {
    if calls != [] {
      var before := calls[..|calls| - 1];
      BudgetConserved(db, before, run);
      StepConservesBudget(SqlRun(db, before), calls[|calls| - 1], run);
    }
  }
}
