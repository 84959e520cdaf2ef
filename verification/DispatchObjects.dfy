/** `poll_once` and `reconcile_once` as loops over mutable stores.

    `network` says, call by call, what becomes of the start calls. */
module DispatchObjects {
  import opened Basics
  import opened DispatchSpec

  // ---------------------------------------------------------------- one call at a time

  datatype World = World(events: map<string, EventRow>, executions: Executions)

  function Mark(events: map<string, EventRow>, event: string): map<string, EventRow> {
    if event in events && !events[event].published then events[event := events[event].(published := true)] else events
  }

  function DispatchOne(world: World, control: Control, request: Request, delivery: Delivery): World {
    var (executions, ok) := Start(world.executions, control, request.command, delivery);
    World(if ok then Mark(world.events, request.event) else world.events, executions)
  }

  function DispatchAll(world: World, control: Control, requests: seq<Request>, network: seq<Delivery>): World
    requires |network| == |requests|
  {
    if requests == [] then world
    else
      var n := |requests| - 1;
      DispatchOne(DispatchAll(world, control, requests[..n], network[..n]), control, requests[n], network[n])
  }

  /** Whether start call number `i` of the pass succeeded. */
  predicate Succeeds(world: World, control: Control, requests: seq<Request>, network: seq<Delivery>, i: nat)
    requires |network| == |requests| && i < |requests|
  {
    Start(DispatchAll(world, control, requests[..i], network[..i]).executions, control, requests[i].command, network[i]).1
  }

  datatype Kind = RunningWorkflowWithInactiveRun | MissingWorkflow | ClosedWorkflowWithActiveRun

  datatype Finding = Finding(ref: RunRef, kind: Kind, recovered: bool)

  function ReconcileOne(executions: Executions, control: Control, item: Item, delivery: Delivery)
    : (Executions, seq<Finding>)
  {
    var place := PlaceOf(control, item.command);
    if !Active(item.status) then
      (executions,
       if place in executions && executions[place] == Running
       then [Finding(item.command.ref, RunningWorkflowWithInactiveRun, false)] else [])
    else if place !in executions then
      var (after, ok) := Start(executions, control, item.command, delivery);
      (after, [Finding(item.command.ref, MissingWorkflow, ok)])
    else if executions[place] != Running then
      (executions, [Finding(item.command.ref, ClosedWorkflowWithActiveRun, false)])
    else (executions, [])
  }

  function ReconcileAll(executions: Executions, control: Control, items: seq<Item>, network: seq<Delivery>)
    : (Executions, seq<Finding>)
    requires |network| == |items|
  {
    if items == [] then (executions, [])
    else
      var n := |items| - 1;
      var (before, findings) := ReconcileAll(executions, control, items[..n], network[..n]);
      var (after, more) := ReconcileOne(before, control, items[n], network[n]);
      (after, findings + more)
  }

  // ---------------------------------------------------------------- what a pass achieves

  /** The events whose own start call succeeded. */
  function StartedEvents(world: World, control: Control, requests: seq<Request>, network: seq<Delivery>): set<string>
    requires |network| == |requests|
  {
    set i | 0 <= i < |requests| && Succeeds(world, control, requests, network, i) :: requests[i].event
  }

  lemma StartedEventsSplit(world: World, control: Control, requests: seq<Request>, network: seq<Delivery>)
    requires |network| == |requests| && requests != []
    ensures var n := |requests| - 1;
            StartedEvents(world, control, requests, network)
            == StartedEvents(world, control, requests[..n], network[..n])
               + (if Succeeds(world, control, requests, network, n) then {requests[n].event} else {})
  {
    var n := |requests| - 1;
    var init, net := requests[..n], network[..n];
    forall i | 0 <= i < n
      ensures Succeeds(world, control, requests, network, i) == Succeeds(world, control, init, net, i)
    {
      assert requests[..i] == init[..i] && network[..i] == net[..i];
    }
    forall e ensures e in StartedEvents(world, control, requests, network) <==>
      e in StartedEvents(world, control, init, net) || (Succeeds(world, control, requests, network, n) && e == requests[n].event)
    {
      if e in StartedEvents(world, control, init, net) {
        var i :| 0 <= i < n && Succeeds(world, control, init, net, i) && init[i].event == e;
        assert Succeeds(world, control, requests, network, i) && requests[i].event == e;
      }
    }
  }

  /** A pass publishes exactly the events whose own start call succeeded; no execution is lost. */
  lemma {:induction false} PassPublishesExactlyStarted(
    world: World, control: Control, requests: seq<Request>, network: seq<Delivery>)
    requires |network| == |requests|
    requires forall r <- requests :: r.event in world.events
    ensures var after := DispatchAll(world, control, requests, network);
            && after.events.Keys == world.events.Keys
            && (forall e <- after.events :: after.events[e].ref == world.events[e].ref
                  && (after.events[e].published
                      <==> world.events[e].published || e in StartedEvents(world, control, requests, network)))
            && (forall p <- world.executions :: p in after.executions && after.executions[p] == world.executions[p])
    decreases |requests|
  {
    if requests != [] {
      var n := |requests| - 1;
      assert requests[n] in requests && forall r <- requests[..n] :: r in requests;
      PassPublishesExactlyStarted(world, control, requests[..n], network[..n]);
      StartedEventsSplit(world, control, requests, network);
    }
  }

  /** Where a start call succeeded there is an execution, then and at the end of the pass. */
  lemma {:induction false} StartedHasExecution(
    world: World, control: Control, requests: seq<Request>, network: seq<Delivery>, i: nat)
    requires |network| == |requests| && i < |requests| && Succeeds(world, control, requests, network, i)
    ensures PlaceOf(control, requests[i].command) in DispatchAll(world, control, requests, network).executions
    decreases |requests|
  {
    var n := |requests| - 1;
    if i < n {
      assert requests[..n][..i] == requests[..i] && network[..n][..i] == network[..i];
      StartedHasExecution(world, control, requests[..n], network[..n], i);
    }
  }

  lemma ReconcileOneRecovers(executions: Executions, control: Control, item: Item)
    requires Accepts(control, item.command)
    ensures var (after, findings) := ReconcileOne(executions, control, item, Delivered);
            var place := PlaceOf(control, item.command);
            && after == (if item.status in {"pending", "running", "awaiting_evidence"} && place !in executions then executions[place := Running] else executions)
            && forall f <- findings :: f.kind == MissingWorkflow ==> f.recovered
  {
  }

  /** After a pass in which every start call goes through, each active Run that was read has its
      workflow, and nothing that was there has changed. */
  lemma {:induction false} ReconciliationRecovers(
    executions: Executions, control: Control, items: seq<Item>, network: seq<Delivery>)
    requires |network| == |items|
    requires forall d <- network :: d == Delivered
    requires forall item <- items :: Accepts(control, item.command)
    ensures var (after, findings) := ReconcileAll(executions, control, items, network);
            && (forall p <- executions :: p in after && after[p] == executions[p])
            && (forall item <- items | item.status in {"pending", "running", "awaiting_evidence"} ::
                  PlaceOf(control, item.command) in after)
            && (forall p <- after :: p in executions || exists item <- items ::
                  item.status in {"pending", "running", "awaiting_evidence"} && p == Place(control.namespace, item.command.ref))
            && (forall f <- findings :: f.kind == MissingWorkflow ==> f.recovered)
    decreases |items|
  {
    if items != [] {
      var n := |items| - 1;
      assert items == items[..n] + [items[n]] && items[n] in items && network[n] in network;
      assert forall d <- network[..n] :: d in network;
      ReconciliationRecovers(executions, control, items[..n], network[..n]);
      ReconcileOneRecovers(ReconcileAll(executions, control, items[..n], network[..n]).0, control, items[n]);
    }
  }

  /** Reconciling again what has just been reconciled finds nothing missing and starts nothing. */
  lemma {:induction false} ReconciliationSettles(executions: Executions, control: Control, items: seq<Item>, network: seq<Delivery>)
    requires |network| == |items|
    requires forall item <- items | item.status in {"pending", "running", "awaiting_evidence"} ::
               PlaceOf(control, item.command) in executions
    ensures var (after, findings) := ReconcileAll(executions, control, items, network);
            after == executions && forall f <- findings :: f.kind != MissingWorkflow
    decreases |items|
  {
    if items != [] {
      var n := |items| - 1;
      assert items == items[..n] + [items[n]] && items[n] in items;
      ReconciliationSettles(executions, control, items[..n], network[..n]);
    }
  }

  /** When a Run read by the reconciler is reported, and how. */
  predicate Reports(executions: Executions, control: Control, item: Item, delivery: Delivery, f: Finding) {
    var place, active := Place(control.namespace, item.command.ref), item.status in {"pending", "running", "awaiting_evidence"};
    && f.ref == item.command.ref
    && match f.kind
       case RunningWorkflowWithInactiveRun =>
         !active && place in executions && executions[place] == Running && !f.recovered
       case MissingWorkflow =>
         active && place !in executions
         && f.recovered == (Accepts(control, item.command) && delivery == Delivered)
       case ClosedWorkflowWithActiveRun =>
         active && place in executions && executions[place] == Closed && !f.recovered
  }

  lemma {:induction false} ReconcileElsewhere(
    executions: Executions, control: Control, items: seq<Item>, network: seq<Delivery>, p: Place)
    requires |network| == |items| && forall item <- items :: PlaceOf(control, item.command) != p
    ensures var after := ReconcileAll(executions, control, items, network).0;
            (p in after <==> p in executions) && (p in executions ==> after[p] == executions[p])
    decreases |items|
  {
    if items != [] {
      var n := |items| - 1;
      assert items == items[..n] + [items[n]];
      ReconcileElsewhere(executions, control, items[..n], network[..n], p);
    }
  }

  lemma ReportsOne(executions: Executions, control: Control, item: Item, delivery: Delivery, f: Finding)
    ensures f in ReconcileOne(executions, control, item, delivery).1 <==> Reports(executions, control, item, delivery, f)
  {
  }

  /** Over Runs read once each, the findings are exactly what the workflows present at the start of
      the pass call for. */
  lemma {:induction false} FindingsExactly(
    executions: Executions, control: Control, items: seq<Item>, network: seq<Delivery>, f: Finding)
    requires |network| == |items|
    requires forall i, j | 0 <= i < j < |items| :: items[i].command.ref != items[j].command.ref
    ensures f in ReconcileAll(executions, control, items, network).1
            <==> exists i | 0 <= i < |items| :: Reports(executions, control, items[i], network[i], f)
    decreases |items|
  {
    if items != [] {
      var n := |items| - 1;
      var before := ReconcileAll(executions, control, items[..n], network[..n]).0;
      FindingsExactly(executions, control, items[..n], network[..n], f);
      ReconcileElsewhere(executions, control, items[..n], network[..n], PlaceOf(control, items[n].command));
      ReportsOne(before, control, items[n], network[n], f);
      assert Reports(before, control, items[n], network[n], f) <==> Reports(executions, control, items[n], network[n], f);
      forall i | 0 <= i < n
        ensures Reports(executions, control, items[i], network[i], f)
                <==> Reports(executions, control, items[..n][i], network[..n][i], f) {}
    }
  }

  // ---------------------------------------------------------------- the loops

  /** The requests of the events that have one, in the order of the events. */
  function Requested(runs: map<RunRef, RunRow>, events: map<string, EventRow>, pending: seq<string>): seq<Request>
    requires forall e <- pending :: e in events
  {
    if pending == [] then []
    else
      var n := |pending| - 1;
      var request := LoadRequest(runs, pending[n], events[pending[n]].ref);
      Requested(runs, events, pending[..n]) + (if request.Ok? then [request.value] else [])
  }

  /** The request asks for the very Run of its event, which is known and not finished, and its tier. */
  predicate AsksFor(runs: map<RunRef, RunRow>, row: EventRow, r: Request) {
    && row.ref in runs && runs[row.ref].status !in {"succeeded", "failed", "cancelled"}
    && r.command.ref == row.ref && r.command.tier == runs[row.ref].tier
  }

  lemma LoadsExactly(runs: map<RunRef, RunRow>, event: string, row: EventRow, r: Request)
    ensures LoadRequest(runs, event, row.ref) == Ok(r) <==> r.event == event && AsksFor(runs, row, r)
  {
  }

  /** Each event is asked to be started as it should and as often as it is pending; the rest is not. */
  lemma {:induction false} RequestedExactly(
    runs: map<RunRef, RunRow>, events: map<string, EventRow>, pending: seq<string>, r: Request)
    requires forall e <- pending :: e in events
    ensures multiset(Requested(runs, events, pending))[r] ==
            if r.event in pending && AsksFor(runs, events[r.event], r) then multiset(pending)[r.event] else 0
    decreases |pending|
  {
    if pending != [] {
      var n := |pending| - 1;
      assert pending == pending[..n] + [pending[n]];
      RequestedExactly(runs, events, pending[..n], r);
      LoadsExactly(runs, pending[n], events[pending[n]], r);
    }
  }

  class Store {
    var runs: map<RunRef, RunRow>
    var events: map<string, EventRow>

    constructor ()
      ensures runs == map[] && events == map[]
    {
      runs, events := map[], map[];
    }

    /** Loads the request of each pending event in turn; exactly the events whose Run is missing or
        finished are published instead. */
    method ListPending(pending: seq<string>) returns (requests: seq<Request>)
      requires forall e <- pending :: e in events && !events[e].published
      modifies `events
      ensures |requests| <= |pending| && events.Keys == old(events).Keys
      ensures forall e <- events :: events[e] == old(events)[e].(published := events[e].published)
      ensures forall e <- events :: e !in pending ==> events[e] == old(events)[e]
      ensures forall e <- pending :: events[e].published <==>
                !(events[e].ref in runs && runs[events[e].ref].status !in {"succeeded", "failed", "cancelled"})
      ensures requests == Requested(runs, old(events), pending)
    {
      requests := [];
      for i := 0 to |pending|
        invariant |requests| <= i && events.Keys == old(events).Keys
        invariant forall e <- events :: events[e] == old(events)[e].(published := events[e].published)
        invariant forall e <- events :: e !in pending[..i] ==> events[e] == old(events)[e]
        invariant forall e <- pending[..i] :: events[e].published <==> LoadRequest(runs, e, events[e].ref).Err?
        invariant requests == Requested(runs, old(events), pending[..i])
      {
        var event := pending[i];
        assert pending[..i + 1] == pending[..i] + [event] && pending[..i + 1][..i] == pending[..i];
        match LoadRequest(runs, event, events[event].ref) {
          case Ok(request) => requests := requests + [request];
          case Err(_) => events := events[event := events[event].(published := true)];
        }
      }
      assert pending[..|pending|] == pending;
    }

    method MarkDispatched(event: string)
      modifies `events
      ensures events == Mark(old(events), event)
    {
      if event in events && !events[event].published {
        events := events[event := events[event].(published := true)];
      }
    }
  }

  class WorkflowControl {
    const control: Control
    var executions: Executions

    constructor (control: Control)
      ensures this.control == control && executions == map[]
    {
      this.control := control;
      executions := map[];
    }

    method StartWorkflow(command: Command, delivery: Delivery) returns (ok: bool)
      modifies `executions
      ensures (executions, ok) == Start(old(executions), control, command, delivery)
    {
      if control.tenant.Some? && control.tenant != Some(command.ref.tenant) { return false; }
      if control.pool.Some? && control.pool != Some(PoolOf(command.tier)) { return false; }
      if delivery == NotDelivered { return false; }
      var place := PlaceOf(control, command);
      ok := delivery == Delivered;
      if place in executions {
        ok := ok && executions[place] == Running;
      } else {
        executions := executions[place := Running];
      }
    }
  }

  lemma DispatchNext(world: World, control: Control, requests: seq<Request>, network: seq<Delivery>, i: nat)
    requires |network| == |requests| && i < |requests|
    ensures DispatchAll(world, control, requests[..i + 1], network[..i + 1])
            == DispatchOne(DispatchAll(world, control, requests[..i], network[..i]), control, requests[i], network[i])
  {
    assert requests[..i + 1][..i] == requests[..i] && network[..i + 1][..i] == network[..i];
  }

  function Below(n: nat, p: nat -> bool): set<nat> {
    set i: nat | i < n && p(i)
  }

  lemma BelowNext(n: nat, p: nat -> bool)
    ensures |Below(n + 1, p)| == |Below(n, p)| + (if p(n) then 1 else 0)
  {
    if p(n) {
      assert Below(n + 1, p) == Below(n, p) + {n};
    } else {
      assert Below(n + 1, p) == Below(n, p);
    }
  }

  function SuccessTest(world: World, control: Control, requests: seq<Request>, network: seq<Delivery>): nat -> bool
    requires |network| == |requests|
  {
    (i: nat) => i < |requests| && Succeeds(world, control, requests, network, i)
  }

  /** Which of the first n start calls of the pass succeeded. */
  function SuccessfulCalls(world: World, control: Control, requests: seq<Request>, network: seq<Delivery>, n: nat): set<nat>
    requires |network| == |requests| && n <= |requests|
  {
    Below(n, SuccessTest(world, control, requests, network))
  }

  lemma SuccessfulCallsNext(world: World, control: Control, requests: seq<Request>, network: seq<Delivery>, n: nat)
    requires |network| == |requests| && n < |requests|
    ensures |SuccessfulCalls(world, control, requests, network, n + 1)|
            == |SuccessfulCalls(world, control, requests, network, n)|
               + (if Succeeds(world, control, requests, network, n) then 1 else 0)
  {
    BelowNext(n, SuccessTest(world, control, requests, network));
  }

  lemma {:induction false} SuccessfulCallsBounded(world: World, control: Control, requests: seq<Request>, network: seq<Delivery>, n: nat)
    requires |network| == |requests| && n <= |requests|
    ensures |SuccessfulCalls(world, control, requests, network, n)| <= n
  {
    if n > 0 {
      SuccessfulCallsBounded(world, control, requests, network, n - 1);
      SuccessfulCallsNext(world, control, requests, network, n - 1);
    }
  }

  /** Whatever a pass newly published has been started, then and at its end. */
  lemma PublishedWasStarted(world: World, control: Control, requests: seq<Request>, network: seq<Delivery>, e: string)
    returns (i: nat)
    requires |network| == |requests| && forall r <- requests :: r.event in world.events
    requires var after := DispatchAll(world, control, requests, network);
             e in after.events && after.events[e].published && !(e in world.events && world.events[e].published)
    ensures i < |requests| && requests[i].event == e
    ensures PlaceOf(control, requests[i].command) in DispatchAll(world, control, requests, network).executions
  {
    PassPublishesExactlyStarted(world, control, requests, network);
    i :| i < |requests| && Succeeds(world, control, requests, network, i) && requests[i].event == e;
    StartedHasExecution(world, control, requests, network, i);
  }

  /** A pass starts only what it was asked to. */
  lemma {:induction false} PassStartsOnlyRequests(
    world: World, control: Control, requests: seq<Request>, network: seq<Delivery>, p: Place) returns (r: Request)
    requires |network| == |requests| && p !in world.executions
    requires p in DispatchAll(world, control, requests, network).executions
    ensures r in requests && p == Place(control.namespace, r.command.ref)
    decreases |requests|
  {
    var n := |requests| - 1;
    if p in DispatchAll(world, control, requests[..n], network[..n]).executions {
      r := PassStartsOnlyRequests(world, control, requests[..n], network[..n], p);
    } else {
      r := requests[n];
    }
  }

  /** One dispatcher pass over the requests already loaded. */
  method DispatchLoop(store: Store, workflows: WorkflowControl, requests: seq<Request>, network: seq<Delivery>)
    returns (dispatched: nat)
    requires |network| == |requests|
    modifies store`events, workflows`executions
    ensures World(store.events, workflows.executions)
            == DispatchAll(World(old(store.events), old(workflows.executions)), workflows.control, requests, network)
    ensures dispatched == |SuccessfulCalls(World(old(store.events), old(workflows.executions)), workflows.control,
                                           requests, network, |requests|)|
  {
    ghost var world, control := World(store.events, workflows.executions), workflows.control;
    dispatched := 0;
    for i := 0 to |requests|
      invariant World(store.events, workflows.executions) == DispatchAll(world, control, requests[..i], network[..i])
      invariant dispatched == |SuccessfulCalls(world, control, requests, network, i)|
    {
      DispatchNext(world, control, requests, network, i);
      SuccessfulCallsNext(world, control, requests, network, i);
      var ok := workflows.StartWorkflow(requests[i].command, network[i]);
      if ok {
        store.MarkDispatched(requests[i].event);
        dispatched := dispatched + 1;
      }
    }
    assert requests[..|requests|] == requests && network[..|network|] == network;
  }

  /** `poll_once`: whatever it publishes had no Run to start, or has been started. */
  method PollOnce(store: Store, workflows: WorkflowControl, pending: seq<string>, network: seq<Delivery>)
    returns (dispatched: nat)
    requires |network| == |pending| && forall e <- pending :: e in store.events && !store.events[e].published
    modifies store`events, workflows`executions
    ensures store.events.Keys == old(store.events).Keys && dispatched <= |pending|
    ensures forall e <- store.events | store.events[e].published && !old(store.events)[e].published ::
              e in pending
              && (store.events[e].ref !in store.runs
                  || store.runs[store.events[e].ref].status in {"succeeded", "failed", "cancelled"}
                  || Place(workflows.control.namespace, store.events[e].ref) in workflows.executions)
    ensures forall e <- pending | store.events[e].ref !in store.runs
                                  || store.runs[store.events[e].ref].status in {"succeeded", "failed", "cancelled"} ::
              store.events[e].published
    ensures forall p <- old(workflows.executions) :: p in workflows.executions
    ensures forall p <- workflows.executions | p !in old(workflows.executions) ::
              exists e <- pending :: store.events[e].ref == p.ref && p.ref in store.runs
                                     && store.runs[p.ref].status !in {"succeeded", "failed", "cancelled"}
  {
    var requests := store.ListPending(pending);
    forall r | r in requests ensures r.event in store.events {
      RequestedExactly(store.runs, old(store.events), pending, r);
    }
    var calls := network[..|requests|];
    ghost var world := World(store.events, workflows.executions);
    dispatched := DispatchLoop(store, workflows, requests, calls);
    ghost var control := workflows.control;
    PassPublishesExactlyStarted(world, control, requests, calls);
    SuccessfulCallsBounded(world, control, requests, calls, |requests|);
    forall p | p in workflows.executions && p !in world.executions
      ensures exists e <- pending :: store.events[e].ref == p.ref && p.ref in store.runs
                                     && store.runs[p.ref].status !in {"succeeded", "failed", "cancelled"} {
      var r := PassStartsOnlyRequests(world, control, requests, calls, p);
      RequestedExactly(store.runs, old(store.events), pending, r);
      assert r.event in pending && store.events[r.event].ref == p.ref;
    }
    forall e | e in store.events && store.events[e].published && !world.events[e].published
      ensures e in pending && Place(control.namespace, store.events[e].ref) in workflows.executions
    {
      var i := PublishedWasStarted(world, control, requests, calls, e);
      RequestedExactly(store.runs, old(store.events), pending, requests[i]);
    }
  }

  /** `reconcile_once`: observe every Run, start what is missing, report what is inconsistent. */
  method ReconcileOnce(workflows: WorkflowControl, items: seq<Item>, network: seq<Delivery>)
    returns (findings: seq<Finding>)
    requires |network| == |items|
    modifies workflows`executions
    ensures (workflows.executions, findings) == ReconcileAll(old(workflows.executions), workflows.control, items, network)
  {
    findings := [];
    for i := 0 to |items|
      invariant (workflows.executions, findings)
                == ReconcileAll(old(workflows.executions), workflows.control, items[..i], network[..i])
    {
      assert items[..i + 1][..i] == items[..i] && network[..i + 1][..i] == network[..i];
      var item := items[i];
      var place := PlaceOf(workflows.control, item.command);
      var exists_, running := place in workflows.executions, place in workflows.executions && workflows.executions[place] == Running;
      if !Active(item.status) {
        if running { findings := findings + [Finding(item.command.ref, RunningWorkflowWithInactiveRun, false)]; }
      } else if !exists_ {
        var ok := workflows.StartWorkflow(item.command, network[i]);
        findings := findings + [Finding(item.command.ref, MissingWorkflow, ok)];
      } else if !running {
        findings := findings + [Finding(item.command.ref, ClosedWorkflowWithActiveRun, false)];
      }
      assert findings + [] == findings;
    }
    assert items[..|items|] == items && network[..|network|] == network;
  }
}
