/** What a `reserve` is answered, told from the calls made before it and not from the tables.

    The tenant and the idempotency key of a request decide whether it is new.  A new one is decided by
    the budget of its Run; for any other the answer depends on what the first one carried and on the
    first receipt given for it. */
module ReservationAnswers {
  import opened Basics
  import opened ReservationSpec
  import opened ReservationSimulation

  predicate SameKey(a: Request, b: Request) {
    a.tenant == b.tenant && a.key == b.key
  }

  /** The receipt of the first `complete` of the reservation, under the tenant if one is given. */
  function FirstReceipt(calls: seq<Call>, tenant: Option<string>, id: string): Option<Receipt> {
    if calls == [] then None
    else
      var earlier, last := FirstReceipt(calls[..|calls| - 1], tenant, id), calls[|calls| - 1];
      if earlier.Some? then earlier
      else if last.CallComplete? && last.id == id && (tenant.None? || tenant == Some(last.tenant)) then Some(last.receipt)
      else None
  }

  /** No reservation in the calls is given this id. */
  predicate DrawsOthers(calls: seq<Call>, id: string) {
    forall i | 0 <= i < |calls| && calls[i].CallReserve? :: calls[i].id != id
  }

  /** Reservation ids are drawn once. */
  predicate DrawsOnce(calls: seq<Call>) {
    forall i, j | 0 <= i < j < |calls| && calls[i].CallReserve? && calls[j].CallReserve? :: calls[i].id != calls[j].id
  }

  // ---------------------------------------------------------------- the database

  /** Call number `i` has acquired the key of the request. */
  predicate SqlTook(db: Db, calls: seq<Call>, i: nat, request: Request)
    requires i < |calls|
  {
    && calls[i].CallReserve? && SameKey(calls[i].request, request)
    && SqlReserve(SqlRun(db, calls[..i]), calls[i].request, calls[i].id).1
       == Decided(Decision(Acquired, Some(calls[i].id), None))
  }

  function RowAfter(first: Request, id: string, receipt: Option<Receipt>): Row {
    if receipt.None? then PendingRow(first, id) else FinalRow(PendingRow(first, id), receipt.value)
  }

  /** The one row with this id. */
  predicate RowIs(db: Db, key: Key, row: Row) {
    key in db.rows && db.rows[key] == row && forall k <- db.rows | db.rows[k].id == row.id :: k == key
  }

  lemma SqlStepKeepsRow(db: Db, first: Request, id: string, receipt: Option<Receipt>, call: Call)
    requires RowIs(db, KeyOf(first), RowAfter(first, id, receipt)) && DrawsOthers([call], id)
    ensures var next := if receipt.Some? then receipt else FirstReceipt([call], Some(first.tenant), id);
            RowIs(SqlStep(db, call), KeyOf(first), RowAfter(first, id, next))
  {
    assert [call][0] == call && [call][..0] == [];
    if call.CallComplete? && call.id == id {
      var matched := PendingKeys(db, call.tenant, id);
      assert matched == if receipt.None? && call.tenant == first.tenant then {KeyOf(first)} else {};
    }
  }

  lemma FirstReceiptNext(calls: seq<Call>, call: Call, tenant: Option<string>, id: string)
    ensures FirstReceipt(calls + [call], tenant, id) ==
            if FirstReceipt(calls, tenant, id).Some? then FirstReceipt(calls, tenant, id)
            else FirstReceipt([call], tenant, id)
  {
    assert (calls + [call])[..|calls|] == calls && [call][..0] == [];
  }

  lemma {:induction false} SqlRunKeepsRow(db: Db, first: Request, id: string, calls: seq<Call>)
    requires RowIs(db, KeyOf(first), PendingRow(first, id)) && DrawsOthers(calls, id)
    ensures RowIs(SqlRun(db, calls), KeyOf(first), RowAfter(first, id, FirstReceipt(calls, Some(first.tenant), id)))
    decreases |calls|
  {
    if calls != [] {
      var n := |calls| - 1;
      assert calls == calls[..n] + [calls[n]];
      SqlRunKeepsRow(db, first, id, calls[..n]);
      SqlStepKeepsRow(SqlRun(db, calls[..n]), first, id, FirstReceipt(calls[..n], Some(first.tenant), id), calls[n]);
      FirstReceiptNext(calls[..n], calls[n], Some(first.tenant), id);
    }
  }

  /** No row carries an id that was not drawn. */
  lemma {:induction false} SqlIdsDrawn(db: Db, calls: seq<Call>, id: string)
    requires db.rows == map[] && DrawsOthers(calls, id)
    ensures forall k <- SqlRun(db, calls).rows :: SqlRun(db, calls).rows[k].id != id
    decreases |calls|
  {
    if calls != [] {
      var n := |calls| - 1;
      SqlIdsDrawn(db, calls[..n], id);
      assert calls[n].CallReserve? ==> calls[n].id != id;
    }
  }

  lemma {:induction false} SqlRunSplit(db: Db, calls: seq<Call>, more: seq<Call>)
    ensures SqlRun(db, calls + more) == SqlRun(SqlRun(db, calls), more)
    decreases |more|
  {
    var all := calls + more;
    if more == [] {
      assert all == calls;
    } else {
      var n := |more| - 1;
      SqlRunSplit(db, calls, more[..n]);
      assert all[..|all| - 1] == calls + more[..n] && all[|all| - 1] == more[n];
    }
  }

  /** What a request with the key of an earlier one is told: a conflict if digest or tool version
      differ; else still running, unknown, or the first receipt, a rejected one given back as failed. */
  function SqlTold(first: Request, id: string, receipt: Option<Receipt>, request: Request): Decision {
    if request.digest != first.digest || request.toolVersion != first.toolVersion then Decision(Conflict, None, None)
    else
      match receipt
      case None => Decision(InProgress, Some(id), None)
      case Some(Receipt(external, Rejected, output)) => Decision(Cached, Some(id), Some(Receipt(external, Failed, output)))
      case Some(Receipt(_, Succeeded, _)) => Decision(Cached, Some(id), receipt)
      case Some(Receipt(_, Failed, _)) => Decision(Cached, Some(id), receipt)
      case Some(_) => Decision(OutcomeUnknown, Some(id), None)
  }

  lemma SqlRowTells(first: Request, id: string, receipt: Option<Receipt>, request: Request)
    ensures ExistingDecision(RowAfter(first, id, receipt), request) == SqlTold(first, id, receipt, request)
  {
    if receipt.Some? {
      var external := StoredExternalId(receipt.value.externalId);
      assert (if external.Some? then external.value else "") == receipt.value.externalId;
    }
  }

  /** The answer to a request whose tenant and key an earlier call has acquired. */
  lemma SqlKnownKeyAnswer(db: Db, calls: seq<Call>, i: nat, request: Request, id: string)
    requires db.rows == map[] && DrawsOnce(calls) && i < |calls| && SqlTook(db, calls, i, request)
    ensures SqlReserve(SqlRun(db, calls), request, id).1 ==
            Decided(SqlTold(calls[i].request, calls[i].id,
                            FirstReceipt(calls[i + 1..], Some(request.tenant), calls[i].id), request))
  {
    var receipt := FirstReceipt(calls[i + 1..], Some(request.tenant), calls[i].id);
    SqlRowOfCall(db, calls, i, request);
    SqlRowTells(calls[i].request, calls[i].id, receipt, request);
  }

  lemma SqlRowOfCall(db: Db, calls: seq<Call>, i: nat, request: Request)
    requires db.rows == map[] && DrawsOnce(calls) && i < |calls| && SqlTook(db, calls, i, request)
    ensures RowIs(SqlRun(db, calls), KeyOf(request),
                  RowAfter(calls[i].request, calls[i].id, FirstReceipt(calls[i + 1..], Some(request.tenant), calls[i].id)))
  {
    var first, own, upTo := calls[i].request, calls[i].id, calls[..i + 1];
    SqlIdsDrawn(db, calls[..i], own);
    assert upTo[..|upTo| - 1] == calls[..i] && upTo[|upTo| - 1] == calls[i];
    SqlInserts(SqlRun(db, calls[..i]), first, own);
    assert calls == upTo + calls[i + 1..];
    SqlRunSplit(db, upTo, calls[i + 1..]);
    SqlRunKeepsRow(SqlRun(db, upTo), first, own, calls[i + 1..]);
  }

  lemma SqlInserts(db: Db, request: Request, id: string)
    requires SqlReserve(db, request, id).1 == Decided(Decision(Acquired, Some(id), None))
    requires forall k <- db.rows :: db.rows[k].id != id
    ensures RowIs(SqlStep(db, CallReserve(request, id)), KeyOf(request), PendingRow(request, id))
  {
  }

  /** The answer to a request whose tenant and key nobody has acquired: whether its Run and Goal are
      there, and what the Run has acquired leaves room for its cost. */
  lemma SqlNewKeyAnswer(db: Db, calls: seq<Call>, request: Request, id: string)
    requires db.rows == map[] && forall i | 0 <= i < |calls| :: !SqlTook(db, calls, i, request)
    ensures var run := RunKey(request.tenant, request.run);
            SqlReserve(SqlRun(db, calls), request, id).1 ==
            if run !in db.budgets then RunMissing
            else if db.budgets[run].None? then GoalMissing
            else if db.budgets[run].value.unit != "cost_units" then WrongUnit
            else if RunSum(db.ledger, run) + AcquiredCost(db, calls, run) + request.cost > db.budgets[run].value.amount then
              Decided(Decision(BudgetExhausted, None, None))
            else if request.cost <= 0 then ConstraintViolation
            else Decided(Decision(Acquired, Some(id), None))
  {
    SqlKeysTaken(db, calls, request);
    SqlBudgetsStay(db, calls);
    BudgetConserved(db, calls, RunKey(request.tenant, request.run));
  }

  lemma {:induction false} SqlBudgetsStay(db: Db, calls: seq<Call>)
    ensures SqlRun(db, calls).budgets == db.budgets
    decreases |calls|
  {
    if calls != [] { SqlBudgetsStay(db, calls[..|calls| - 1]); }
  }

  lemma {:induction false} SqlKeysTaken(db: Db, calls: seq<Call>, request: Request)
    requires db.rows == map[] && forall i | 0 <= i < |calls| :: !SqlTook(db, calls, i, request)
    ensures KeyOf(request) !in SqlRun(db, calls).rows
    decreases |calls|
  {
    if calls != [] {
      var n := |calls| - 1;
      forall i | 0 <= i < n ensures !SqlTook(db, calls[..n], i, request) {
        assert calls[..n][..i] == calls[..i] && calls[..n][i] == calls[i];
        assert !SqlTook(db, calls, i, request);
      }
      SqlKeysTaken(db, calls[..n], request);
      assert !SqlTook(db, calls, n, request);
    }
  }

  // ---------------------------------------------------------------- the in-memory store

  /** Call number `i` has acquired the key of the request. */
  predicate MemoryTook(limit: int, calls: seq<Call>, i: nat, request: Request)
    requires i < |calls|
  {
    calls[i].CallReserve? && SameKey(calls[i].request, request) && MemoryAcquires(MemoryAfter(limit, calls[..i]), calls[i])
  }

  predicate MemoryAcquires(m: Memory, call: Call)
    requires call.CallReserve?
  {
    MemoryReserve(m, call.request, call.id).1 == Decision(Acquired, Some(call.id), None)
  }

  function MemoryAfter(limit: int, calls: seq<Call>): Memory {
    MemoryRun(EmptyMemory(limit), calls)
  }

  predicate Drawn(calls: seq<Call>, id: string) {
    exists i | 0 <= i < |calls| :: calls[i].CallReserve? && calls[i].id == id
  }

  lemma MemoryStepDraws(m: Memory, calls: seq<Call>, call: Call)
    requires Indexed(m) && (forall id <- m.ids :: Drawn(calls, id)) && DrawsOnce(calls + [call])
    ensures Indexed(MemoryStep(m, call)) && forall id <- MemoryStep(m, call).ids :: Drawn(calls + [call], id)
    ensures call.CallReserve? ==> call.id !in m.ids
  {
    var longer := calls + [call];
    assert longer[|calls|] == call;
    forall id | Drawn(calls, id) ensures Drawn(longer, id) && (call.CallReserve? ==> call.id != id) {
      var i :| 0 <= i < |calls| && calls[i].CallReserve? && calls[i].id == id;
      assert longer[i] == calls[i];
    }
    if call.CallReserve? {
      IndexedAfterReserve(m, call.request, call.id);
    } else {
      IndexedAfterComplete(m, call.id, call.receipt);
    }
  }

  /** The store after one call more. */
  lemma {:induction false} MemoryAfterNext(limit: int, calls: seq<Call>)
    requires DrawsOnce(calls)
    ensures Indexed(MemoryAfter(limit, calls)) && forall id <- MemoryAfter(limit, calls).ids :: Drawn(calls, id)
    ensures calls != [] ==>
              var n := |calls| - 1;
              Indexed(MemoryAfter(limit, calls[..n])) && MemoryAfter(limit, calls) == MemoryStep(MemoryAfter(limit, calls[..n]), calls[n])
    decreases |calls|
  {
    if calls != [] {
      var n := |calls| - 1;
      assert calls == calls[..n] + [calls[n]];
      MemoryAfterNext(limit, calls[..n]);
      MemoryStepDraws(MemoryAfter(limit, calls[..n]), calls[..n], calls[n]);
    }
  }

  predicate RecordIs(m: Memory, key: Key, r: Record) {
    key in m.records && m.records[key] == r
  }

  lemma MemoryStepKeepsRecord(m: Memory, key: Key, r: Record, call: Call)
    requires Indexed(m) && RecordIs(m, key, r) && (call.CallReserve? ==> call.id != r.id)
    ensures RecordIs(MemoryStep(m, call), key,
                     r.(receipt := if r.receipt.Some? then r.receipt else FirstReceipt([call], None, r.id)))
  {
    assert [call][..0] == [] && [call][0] == call;
  }

  lemma MemoryEnters(m: Memory, call: Call)
    requires Indexed(m) && call.CallReserve? && MemoryAcquires(m, call)
    ensures RecordIs(MemoryStep(m, call), KeyOf(call.request), Record(call.request, call.id, None))
  {
  }

  /** The record of a call that has acquired its key, with the first receipt given for it. */
  lemma {:induction false} MemoryRecordOfCall(limit: int, calls: seq<Call>, i: nat, request: Request)
    requires DrawsOnce(calls) && i < |calls| && MemoryTook(limit, calls, i, request)
    ensures RecordIs(MemoryAfter(limit, calls), KeyOf(request),
                     Record(calls[i].request, calls[i].id, FirstReceipt(calls[i + 1..], None, calls[i].id)))
    decreases |calls|
  {
    var n := |calls| - 1;
    MemoryAfterNext(limit, calls);
    if i < n {
      assert calls[..n][..i] == calls[..i] && calls[..n][i] == calls[i];
      MemoryRecordOfCall(limit, calls[..n], i, request);
      assert calls[i].CallReserve? && (calls[n].CallReserve? ==> calls[n].id != calls[i].id);
      MemoryRecordNext(MemoryAfter(limit, calls[..n]), KeyOf(request), calls, i);
    } else {
      assert calls[i + 1..] == [];
      MemoryEnters(MemoryAfter(limit, calls[..n]), calls[n]);
    }
  }

  lemma MemoryRecordNext(m: Memory, key: Key, calls: seq<Call>, i: nat)
    requires Indexed(m) && i < |calls| - 1 && calls[i].CallReserve?
    requires calls[|calls| - 1].CallReserve? ==> calls[|calls| - 1].id != calls[i].id
    requires RecordIs(m, key, Record(calls[i].request, calls[i].id,
                                     FirstReceipt(calls[..|calls| - 1][i + 1..], None, calls[i].id)))
    ensures RecordIs(MemoryStep(m, calls[|calls| - 1]), key,
                     Record(calls[i].request, calls[i].id, FirstReceipt(calls[i + 1..], None, calls[i].id)))
  {
    var n := |calls| - 1;
    var rest := calls[..n][i + 1..];
    assert calls[i + 1..] == rest + [calls[n]];
    FirstReceiptNext(rest, calls[n], None, calls[i].id);
    MemoryStepKeepsRecord(m, key, Record(calls[i].request, calls[i].id, FirstReceipt(rest, None, calls[i].id)), calls[n]);
  }

  /** What the in-memory store tells: no tool version is compared, the running reservation is not named,
      and a rejected receipt stays rejected. */
  function MemoryTold(first: Request, id: string, receipt: Option<Receipt>, request: Request): Decision {
    if request.digest != first.digest then Decision(Conflict, None, None)
    else
      match receipt
      case None => Decision(InProgress, None, None)
      case Some(Receipt(_, Accepted, _)) => Decision(OutcomeUnknown, Some(id), None)
      case Some(Receipt(_, Unknown, _)) => Decision(OutcomeUnknown, Some(id), None)
      case Some(_) => Decision(Cached, Some(id), receipt)
  }

  /** The answer to a request whose tenant and key an earlier call has acquired; the receipt may have
      been given under any tenant's name. */
  lemma MemoryKnownKeyAnswer(limit: int, calls: seq<Call>, i: nat, request: Request, id: string)
    requires DrawsOnce(calls) && i < |calls| && MemoryTook(limit, calls, i, request)
    ensures MemoryReserve(MemoryAfter(limit, calls), request, id).1 ==
            MemoryTold(calls[i].request, calls[i].id, FirstReceipt(calls[i + 1..], None, calls[i].id), request)
  {
    MemoryRecordOfCall(limit, calls, i, request);
    MemoryRecordTells(MemoryAfter(limit, calls),
                      Record(calls[i].request, calls[i].id, FirstReceipt(calls[i + 1..], None, calls[i].id)), request, id);
  }

  lemma MemoryRecordTells(m: Memory, r: Record, request: Request, id: string)
    requires RecordIs(m, KeyOf(request), r)
    ensures MemoryReserve(m, request, id).1 == MemoryTold(r.request, r.id, r.receipt, request)
  {
  }

  /** What the answers of the in-memory store say was acquired for one Run. */
  function MemoryAcquiredCost(limit: int, calls: seq<Call>, tenant: string, run: string): int
    decreases |calls|
  {
    if calls == [] then 0
    else
      var n := |calls| - 1;
      MemoryAcquiredCost(limit, calls[..n], tenant, run) + MemoryGrantedCost(MemoryAfter(limit, calls[..n]), calls[n], tenant, run)
  }

  function MemoryGrantedCost(m: Memory, call: Call, tenant: string, run: string): int {
    if call.CallReserve? && call.request.tenant == tenant && call.request.run == run && MemoryAcquires(m, call)
    then call.request.cost else 0
  }

  /** And a request whose tenant and key nobody has acquired is decided by what its Run has acquired. */
  lemma MemoryNewKeyAnswer(limit: int, calls: seq<Call>, request: Request, id: string)
    requires DrawsOnce(calls) && forall i | 0 <= i < |calls| :: !MemoryTook(limit, calls, i, request)
    ensures MemoryReserve(MemoryAfter(limit, calls), request, id).1 ==
            if MemoryAcquiredCost(limit, calls, request.tenant, request.run) + request.cost > limit
            then Decision(BudgetExhausted, None, None)
            else Decision(Acquired, Some(id), None)
  {
    MemoryKeysTaken(limit, calls, request);
    MemoryUseIsAcquired(limit, calls, request.tenant, request.run);
    NewKeyTells(MemoryAfter(limit, calls), request, id);
  }

  lemma NewKeyTells(m: Memory, request: Request, id: string)
    requires KeyOf(request) !in m.records
    ensures MemoryReserve(m, request, id).1 ==
            if Used(m, RunKey(request.tenant, request.run)) + request.cost > m.limit then Decision(BudgetExhausted, None, None)
            else Decision(Acquired, Some(id), None)
  {
  }

  lemma MemoryStepTakes(m: Memory, call: Call, request: Request)
    requires Indexed(m) && KeyOf(request) !in m.records
    requires call.CallReserve? && SameKey(call.request, request) ==> !MemoryAcquires(m, call)
    ensures KeyOf(request) !in MemoryStep(m, call).records
  {
  }

  lemma {:induction false} MemoryKeysTaken(limit: int, calls: seq<Call>, request: Request)
    requires DrawsOnce(calls) && forall i | 0 <= i < |calls| :: !MemoryTook(limit, calls, i, request)
    ensures KeyOf(request) !in MemoryAfter(limit, calls).records
    decreases |calls|
  {
    if calls != [] {
      var n := |calls| - 1;
      MemoryAfterNext(limit, calls);
      forall i | 0 <= i < n ensures !MemoryTook(limit, calls[..n], i, request) {
        assert calls[..n][..i] == calls[..i] && calls[..n][i] == calls[i];
        assert !MemoryTook(limit, calls, i, request);
      }
      MemoryKeysTaken(limit, calls[..n], request);
      assert !MemoryTook(limit, calls, n, request);
      MemoryStepTakes(MemoryAfter(limit, calls[..n]), calls[n], request);
    }
  }

  lemma MemoryStepUses(m: Memory, call: Call, tenant: string, run: string)
    requires Indexed(m)
    ensures MemoryStep(m, call).limit == m.limit
    ensures Used(MemoryStep(m, call), RunKey(tenant, run)) == Used(m, RunKey(tenant, run)) + MemoryGrantedCost(m, call, tenant, run)
  {
  }

  lemma {:induction false} MemoryUseIsAcquired(limit: int, calls: seq<Call>, tenant: string, run: string)
    requires DrawsOnce(calls)
    ensures Used(MemoryAfter(limit, calls), RunKey(tenant, run)) == MemoryAcquiredCost(limit, calls, tenant, run)
    ensures MemoryAfter(limit, calls).limit == limit
    decreases |calls|
  {
    if calls != [] {
      var n := |calls| - 1;
      MemoryAfterNext(limit, calls);
      MemoryUseIsAcquired(limit, calls[..n], tenant, run);
      MemoryStepUses(MemoryAfter(limit, calls[..n]), calls[n], tenant, run);
    }
  }
}
