/** The two reservation stores as mutable objects, each call proved to compute the functions of
    `ReservationSpec`. */
module ReservationStores {
  import opened Basics
  import opened ReservationSpec
  import opened ReservationSimulation

  predicate Listed(cells: seq<Record>, records: map<Key, nat>, byId: map<string, nat>, i: nat)
    requires i < |cells|
  {
    && KeyOf(cells[i].request) in records && records[KeyOf(cells[i].request)] == i
    && cells[i].id in byId && byId[cells[i].id] == i
  }

  /** Each dictionary finds exactly the cells, under their key and under their id. */
  ghost predicate Coherent(cells: seq<Record>, records: map<Key, nat>, byId: map<string, nat>) {
    && (forall k <- records :: records[k] < |cells| && KeyOf(cells[records[k]].request) == k)
    && (forall id <- byId :: byId[id] < |cells| && cells[byId[id]].id == id)
    && (forall i | 0 <= i < |cells| :: Listed(cells, records, byId, i))
  }

  function RecordsOf(cells: seq<Record>, records: map<Key, nat>): map<Key, Record>
    requires forall k <- records :: records[k] < |cells|
  {
    map k | k in records :: cells[records[k]]
  }

  function IdsOf(cells: seq<Record>, byId: map<string, nat>): map<string, Key>
    requires forall id <- byId :: byId[id] < |cells|
  {
    map id | id in byId :: KeyOf(cells[byId[id]].request)
  }

  lemma CoherentIsIndexed(limit: int, used: map<RunKey, int>, cells: seq<Record>, records: map<Key, nat>, byId: map<string, nat>)
    requires Coherent(cells, records, byId)
    ensures Indexed(Memory(limit, used, RecordsOf(cells, records), IdsOf(cells, byId)))
  {
    var m := Memory(limit, used, RecordsOf(cells, records), IdsOf(cells, byId));
    forall k | k in m.records
      ensures KeyOf(m.records[k].request) == k && m.records[k].id in m.ids && m.ids[m.records[k].id] == k
    {
      assert Listed(cells, records, byId, records[k]);
    }
    forall id | id in m.ids ensures m.ids[id] in m.records && m.records[m.ids[id]].id == id {
      assert Listed(cells, records, byId, byId[id]);
    }
  }

  /** Entering a new cell in both dictionaries. */
  lemma CoherentAfterAdd(cells: seq<Record>, records: map<Key, nat>, byId: map<string, nat>, r: Record)
    requires Coherent(cells, records, byId) && KeyOf(r.request) !in records && r.id !in byId
    ensures var cells', records', byId' := cells + [r], records[KeyOf(r.request) := |cells|], byId[r.id := |cells|];
            && Coherent(cells', records', byId')
            && RecordsOf(cells', records') == RecordsOf(cells, records)[KeyOf(r.request) := r]
            && IdsOf(cells', byId') == IdsOf(cells, byId)[r.id := KeyOf(r.request)]
  {
    AddKeepsCoherent(cells, records, byId, r);
  }

  lemma AddKeepsCoherent(cells: seq<Record>, records: map<Key, nat>, byId: map<string, nat>, r: Record)
    requires Coherent(cells, records, byId) && KeyOf(r.request) !in records && r.id !in byId
    ensures Coherent(cells + [r], records[KeyOf(r.request) := |cells|], byId[r.id := |cells|])
  {
    var cells', records', byId' := cells + [r], records[KeyOf(r.request) := |cells|], byId[r.id := |cells|];
    forall i | 0 <= i < |cells'| ensures Listed(cells', records', byId', i) {
      if i < |cells| { assert Listed(cells, records, byId, i); }
    }
  }

  /** Writing a receipt through one cell is seen under its key and no other. */
  lemma CoherentAfterReceipt(cells: seq<Record>, records: map<Key, nat>, byId: map<string, nat>, i: nat, receipt: Receipt)
    requires Coherent(cells, records, byId) && i < |cells|
    ensures var r := cells[i].(receipt := Some(receipt));
            && Coherent(cells[i := r], records, byId)
            && RecordsOf(cells[i := r], records) == RecordsOf(cells, records)[KeyOf(r.request) := r]
            && IdsOf(cells[i := r], byId) == IdsOf(cells, byId)
  {
    var r := cells[i].(receipt := Some(receipt));
    var cells' := cells[i := r];
    assert Listed(cells, records, byId, i);
    forall j | 0 <= j < |cells'| ensures Listed(cells', records, byId, j) {
      assert Listed(cells, records, byId, j);
    }
  }

  /** Both dictionaries refer to shared, mutable records: `cells` holds the records, and the
      dictionaries hold positions in it. */
  class InMemoryReservations {
    const limit: int
    var used: map<RunKey, int>
    var cells: seq<Record>
    var records: map<Key, nat>
    var byId: map<string, nat>

    ghost predicate Valid()
      reads this
    {
      Coherent(cells, records, byId)
    }

    ghost function View(): Memory
      requires Valid()
      reads this
    {
      Memory(limit, used, RecordsOf(cells, records), IdsOf(cells, byId))
    }

    constructor (limit: int)
      ensures Valid() && View() == EmptyMemory(limit)
    {
      this.limit := limit;
      used, cells, records, byId := map[], [], map[], map[];
    }

    /** The answer for a key already reserved. */
    method Known(existing: Record, request: Request) returns (decision: Decision)
      ensures decision == KnownDecision(existing, request)
    {
      if existing.request.digest != request.digest { return Decision(Conflict, None, None); }
      if existing.receipt.None? { return Decision(InProgress, None, None); }
      if existing.receipt.value.status == Accepted || existing.receipt.value.status == Unknown {
        return Decision(OutcomeUnknown, Some(existing.id), None);
      }
      return Decision(Cached, Some(existing.id), existing.receipt);
    }

    /** `id` is the UUID drawn for the reservation. */
    method Reserve(request: Request, id: string) returns (decision: Decision)
      requires Valid() && id !in byId
      modifies this
      ensures Valid()
      ensures View() == MemoryReserve(old(View()), request, id).0
      ensures decision == MemoryReserve(old(View()), request, id).1
      ensures decision.status == Acquired <==>
                Key(request.tenant, request.key) !in old(View()).records
                && Used(old(View()), RunKey(request.tenant, request.run)) + request.cost <= limit
    {
      var key := KeyOf(request);
      if key in records {
        decision := Known(cells[records[key]], request);
        return;
      }
      var usageKey := RunOf(request);
      var usage := if usageKey in used then used[usageKey] else 0;
      if usage + request.cost > limit { return Decision(BudgetExhausted, None, None); }
      Enter(request, id);
      used := used[usageKey := usage + request.cost];
      decision := Decision(Acquired, Some(id), None);
    }

    /** Puts a new record into both dictionaries. */
    method Enter(request: Request, id: string)
      requires Valid() && KeyOf(request) !in records && id !in byId
      modifies `cells, `records, `byId
      ensures Valid()
      ensures View() == old(View()).(records := old(View()).records[KeyOf(request) := Record(request, id, None)],
                                     ids := old(View()).ids[id := KeyOf(request)])
    {
      CoherentAfterAdd(cells, records, byId, Record(request, id, None));
      records := records[KeyOf(request) := |cells|];
      byId := byId[id := |cells|];
      cells := cells + [Record(request, id, None)];
    }

    /** Writes through the record found by id, which `Reserve` then finds by key. */
    method Complete(tenant: string, id: string, receipt: Receipt) returns (outcome: CompleteOutcome)
      requires Valid()
      modifies `cells
      ensures Valid() && Indexed(old(View()))
      ensures View() == MemoryComplete(old(View()), id, receipt).0
      ensures outcome == MemoryComplete(old(View()), id, receipt).1
    {
      CoherentIsIndexed(limit, used, cells, records, byId);
      if id !in byId { return UnknownReservation; }
      var i := byId[id];
      assert Listed(cells, records, byId, i);
      if cells[i].receipt.Some? && cells[i].receipt.value != receipt { return AlreadyFinal; }
      CoherentAfterReceipt(cells, records, byId, i, receipt);
      cells := cells[i := cells[i].(receipt := Some(receipt))];
      outcome := Completed;
    }
  }

  class PostgresReservations {
    const budgets: map<RunKey, Option<GoalBudget>>
    var rows: map<Key, Row>
    var ledger: seq<LedgerRow>

    ghost function View(): Db
      reads this
    {
      Db(rows, ledger, budgets)
    }

    constructor (budgets: map<RunKey, Option<GoalBudget>>)
      ensures View() == Db(map[], [], budgets)
    {
      this.budgets := budgets;
      rows, ledger := map[], [];
    }

    /** SUM(amount) over the rows of the Run in cost units. */
    method SumUsed(run: RunKey) returns (used: int)
      ensures used == RunSum(ledger, run)
    {
      used := 0;
      for i := 0 to |ledger|
        invariant used == RunSum(ledger[..i], run)
      {
        RunSumAppend(ledger[..i], ledger[i], run);
        assert ledger[..i + 1] == ledger[..i] + [ledger[i]];
        if ledger[i].run == run && ledger[i].unit == COST_UNITS { used := used + ledger[i].amount; }
      }
      assert ledger[..|ledger|] == ledger;
    }

    /** One transaction without interference; a raised error commits nothing. */
    method Reserve(request: Request, id: string) returns (outcome: ReserveOutcome)
      modifies this
      ensures (View(), outcome) == SqlReserve(old(View()), request, id)
      ensures outcome.Decided? && outcome.decision.status == Acquired <==>
                && Key(request.tenant, request.key) !in old(rows) && RunKey(request.tenant, request.run) in budgets
                && budgets[RunKey(request.tenant, request.run)].Some?
                && budgets[RunKey(request.tenant, request.run)].value.unit == "cost_units" && request.cost > 0
                && RunSum(old(ledger), RunKey(request.tenant, request.run)) + request.cost
                   <= budgets[RunKey(request.tenant, request.run)].value.amount
    {
      var key, run := KeyOf(request), RunOf(request);
      if key in rows { return Decided(ExistingDecision(rows[key], request)); }
      if run !in budgets { return RunMissing; }
      match budgets[run] {
        case None => return GoalMissing;
        case Some(budget) =>
          if budget.unit != COST_UNITS { return WrongUnit; }
          var used := SumUsed(run);
          if used + request.cost > budget.amount { return Decided(Decision(BudgetExhausted, None, None)); }
          if request.cost <= 0 { return ConstraintViolation; }
          rows := rows[key := PendingRow(request, id)];
          ledger := ledger + [ReservationEntry(request, id)];
          outcome := Decided(Decision(Acquired, Some(id), None));
      }
    }

    method Complete(tenant: string, id: string, receipt: Receipt) returns (outcome: CompleteOutcome)
      modifies this
      ensures (View(), outcome) == SqlComplete(old(View()), tenant, id, receipt)
    {
      var matched := set k | k in rows && k.tenant == tenant && rows[k].id == id && rows[k].status == Pending;
      assert matched == PendingKeys(View(), tenant, id);
      if matched == {} { return AlreadyFinal; }
      rows := map k | k in rows :: if k in matched then FinalRow(rows[k], receipt) else rows[k];
      outcome := Completed;
    }
  }
}
