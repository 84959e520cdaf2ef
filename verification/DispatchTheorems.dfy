/** What holds of every interleaving of dispatchers, reconcilers and crashes. */
module DispatchTheorems {
  import opened Basics
  import opened DispatchSpec
  import opened DispatchProtocol

  // ---------------------------------------------------------------- invariants

  predicate CommandKnown(runs: map<RunRef, RunRow>, command: Command) {
    command.ref in runs && runs[command.ref].tier == command.tier
  }

  predicate RequestKnown(s: State, request: Request) {
    && CommandKnown(s.runs, request.command)
    && request.event in s.events && s.events[request.event].ref == request.command.ref
  }

  /** Some namespace has an execution for this Run. */
  predicate HasExecution(executions: Executions, ref: RunRef) {
    exists place <- executions :: place.ref == ref
  }

  ghost predicate WorkerKnows(s: State, worker: Worker) {
    match worker
    case Idle => true
    case Dispatching(requests) => forall r <- requests :: RequestKnown(s, r)
    case Marking(event, rest) =>
      event in s.events && HasExecution(s.executions, s.events[event].ref) && forall r <- rest :: RequestKnown(s, r)
    case Reconciling(items) => forall i <- items :: CommandKnown(s.runs, i.command)
    case Recovering(item, others) =>
      CommandKnown(s.runs, item.command) && forall i <- others :: CommandKnown(s.runs, i.command)
  }

  ghost predicate WorkersKnow(s: State) {
    forall w <- s.workers :: WorkerKnows(s, s.workers[w])
  }

  /** Every execution lives where some worker accepts its Run. */
  ghost predicate PlaceJustified(controls: Controls, runs: map<RunRef, RunRow>, place: Place) {
    place.ref in runs
    && exists w <- controls :: controls[w].namespace == place.namespace
                               && Accepts(controls[w], Command(place.ref, runs[place.ref].tier))
  }

  ghost predicate ExecutionsOk(controls: Controls, s: State) {
    && (forall place <- s.executions :: PlaceJustified(controls, s.runs, place))
    && (forall place :: place in s.created <==> place in s.executions)
    && (forall i, j | 0 <= i < j < |s.created| :: s.created[i] != s.created[j])
  }

  /** A published event is in the log exactly once, and marked as started only with a workflow. */
  ghost predicate LogOk(s: State) {
    && (forall p <- s.log :: p.event in s.events && s.events[p.event] == EventRow(p.ref, true))
    && (forall p <- s.log | p.why == Started :: HasExecution(s.executions, p.ref))
    && (forall i, j | 0 <= i < j < |s.log| :: s.log[i].event != s.log[j].event)
    && (forall e <- s.events | s.events[e].published :: exists p <- s.log :: p.event == e)
  }

  // ---------------------------------------------------------------- reading the pending events

  lemma {:induction false} PendingSound(s: State, pending: seq<string>)
    requires forall e <- pending :: e in s.events
    requires forall i, j | 0 <= i < j < |pending| :: pending[i] != pending[j]
    ensures var (requests, skipped) := Pending(s, pending);
            && (forall r <- requests :: r.event in pending && RequestKnown(s, r) && !Terminal(s.runs[r.command.ref].status))
            && (forall p <- skipped :: p.event in pending && s.events[p.event].ref == p.ref
                                       && LoadRequest(s.runs, p.event, p.ref) == Err(p.why))
            && (forall i, j | 0 <= i < j < |skipped| :: skipped[i].event != skipped[j].event)
    decreases |pending|
  {
    if pending != [] {
      var init, last := pending[..|pending| - 1], pending[|pending| - 1];
      PendingSound(s, init);
      assert last !in init;
    }
  }

  lemma {:induction false} PendingCovers(s: State, pending: seq<string>, e: string)
    requires e in pending && forall f <- pending :: f in s.events
    ensures var (requests, skipped) := Pending(s, pending);
            (exists r <- requests :: r.event == e) || (exists p <- skipped :: p.event == e)
    decreases |pending|
  {
    var init, last := pending[..|pending| - 1], pending[|pending| - 1];
    var (requests, skipped) := Pending(s, init);
    var (requests', skipped') := Pending(s, pending);
    if e == last {
      match LoadRequest(s.runs, last, s.events[last].ref)
      case Ok(request) => assert requests'[|requests|] == request;
      case Err(why) => assert skipped'[|skipped|].event == last;
    } else {
      assert e in init;
      PendingCovers(s, init, e);
      assert forall r <- requests :: r in requests';
      assert forall p <- skipped :: p in skipped';
    }
  }

  /** Reading the pending events finds, for exactly the events whose Run is known and not finished, a
      request for that Run and its tier, and for each of the others why there is none. */
  lemma PendingExact(s: State, pending: seq<string>, e: string)
    requires forall e <- pending :: e in s.events
    requires forall i, j | 0 <= i < j < |pending| :: pending[i] != pending[j]
    requires e in pending
    ensures var (requests, skipped) := Pending(s, pending);
            var ref := s.events[e].ref;
            if ref in s.runs && s.runs[ref].status !in {"succeeded", "failed", "cancelled"} then
              && Request(e, Command(ref, s.runs[ref].tier)) in requests
              && (forall r <- requests | r.event == e :: r.command.ref == ref && r.command.tier == s.runs[ref].tier)
              && (forall p <- skipped :: p.event != e)
            else
              && (forall r <- requests :: r.event != e)
              && Publication(e, ref, if ref in s.runs then RunTerminal(s.runs[ref].status) else RunMissing) in skipped
  {
    PendingSound(s, pending);
    PendingCovers(s, pending, e);
    var (requests, skipped) := Pending(s, pending);
    var ref := s.events[e].ref;
    if ref in s.runs && s.runs[ref].status !in {"succeeded", "failed", "cancelled"} {
      forall p | p in skipped ensures p.event != e {
        assert LoadRequest(s.runs, p.event, p.ref) == Err(p.why);
      }
      var r :| r in requests && r.event == e;
      assert r == Request(e, Command(ref, s.runs[ref].tier));
    } else {
      forall r | r in requests ensures r.event != e {
        assert !Terminal(s.runs[r.command.ref].status) && r.command.ref == s.events[r.event].ref;
      }
      var p :| p in skipped && p.event == e;
      assert LoadRequest(s.runs, p.event, p.ref) == Err(p.why);
    }
  }

  // ---------------------------------------------------------------- steps keep the invariants

  /** Runs, tiers, events and executions are never lost, and publication is never undone. */
  ghost predicate Grows(s: State, s': State) {
    && (forall r <- s.runs :: r in s'.runs && s'.runs[r].tier == s.runs[r].tier)
    && (forall e <- s.events :: e in s'.events && s'.events[e].ref == s.events[e].ref
                                && (s.events[e].published ==> s'.events[e].published))
    && (forall place <- s.executions :: place in s'.executions)
  }

  lemma StepGrows(controls: Controls, s: State, step: Step)
    requires Enabled(controls, s, step)
    ensures Grows(s, Apply(controls, s, step))
  {
  }

  lemma StillKnows(s: State, s': State, worker: Worker)
    requires Grows(s, s') && WorkerKnows(s, worker)
    ensures WorkerKnows(s', worker)
  {
    if worker.Marking? {
      var place :| place in s.executions && place.ref == s.events[worker.event].ref;
      assert place in s'.executions;
    }
  }

  lemma StartSucceeds(s: State, control: Control, command: Command, delivery: Delivery)
    ensures Start(s.executions, control, command, delivery).1 ==>
              PlaceOf(control, command) in StartFor(s, control, command, delivery).executions
              && HasExecution(StartFor(s, control, command, delivery).executions, command.ref)
  {
  }

  /** The worker that moved knows its new queue. */
  lemma MoverKnows(controls: Controls, s: State, step: Step)
    requires Enabled(controls, s, step) && WorkersKnow(s)
    requires step.ReadPending? || step.StartNext? || step.MarkDispatched? || step.ReadRuns? || step.Observe?
             || step.StartMissing? || step.Crash?
    ensures WorkerKnows(s, Apply(controls, s, step).workers[step.w])
            || (step.StartNext? && WorkerKnows(Apply(controls, s, step), Apply(controls, s, step).workers[step.w]))
  {
    assert WorkerKnows(s, s.workers[step.w]);
    match step {
      case ReadPending(w, pending) => PendingSound(s, pending);
      case StartNext(w, delivery) =>
        var request := s.workers[w].requests[0];
        assert request in s.workers[w].requests && RequestKnown(s, request);
        StartSucceeds(s, controls[w], request.command, delivery);
        forall r | r in s.workers[w].requests[1..] ensures RequestKnown(s, r) && RequestKnown(Apply(controls, s, step), r) {
          assert r in s.workers[w].requests;
        }
      case Observe(w) =>
        var item := s.workers[w].items[0];
        assert item in s.workers[w].items;
      case _ =>
    }
  }

  lemma WorkersKept(controls: Controls, s: State, step: Step)
    requires Enabled(controls, s, step) && WorkersKnow(s)
    ensures WorkersKnow(Apply(controls, s, step))
  {
    var s' := Apply(controls, s, step);
    StepGrows(controls, s, step);
    forall w | w in s'.workers ensures WorkerKnows(s', s'.workers[w]) {
      if w in s.workers && s'.workers[w] == s.workers[w] {
        assert WorkerKnows(s, s.workers[w]);
        StillKnows(s, s', s.workers[w]);
      } else {
        MoverKnows(controls, s, step);
        if WorkerKnows(s, s'.workers[w]) { StillKnows(s, s', s'.workers[w]); }
      }
    }
  }

  lemma StillJustified(controls: Controls, runs: map<RunRef, RunRow>, runs': map<RunRef, RunRow>, place: Place)
    requires PlaceJustified(controls, runs, place)
    requires place.ref in runs' && runs'[place.ref].tier == runs[place.ref].tier
    ensures PlaceJustified(controls, runs', place)
  {
  }

  lemma StartKeepsExecutions(controls: Controls, s: State, w: nat, command: Command, delivery: Delivery)
    requires ExecutionsOk(controls, s) && w in controls && CommandKnown(s.runs, command)
    ensures ExecutionsOk(controls, StartFor(s, controls[w], command, delivery))
  {
    var s' := StartFor(s, controls[w], command, delivery);
    var place := PlaceOf(controls[w], command);
    if s'.executions != s.executions {
      assert place !in s.executions && s'.created == s.created + [place];
      assert PlaceJustified(controls, s.runs, place);
      assert place !in s.created;
    } else {
      assert s'.created == s.created;
    }
  }

  lemma RunsKeepExecutions(controls: Controls, s: State, s': State)
    requires ExecutionsOk(controls, s) && s'.executions == s.executions && s'.created == s.created
    requires forall r <- s.runs :: r in s'.runs && s'.runs[r].tier == s.runs[r].tier
    ensures ExecutionsOk(controls, s')
  {
    forall place | place in s'.executions ensures PlaceJustified(controls, s'.runs, place) {
      StillJustified(controls, s.runs, s'.runs, place);
    }
  }

  lemma StartingKeepsExecutions(controls: Controls, s: State, w: nat, delivery: Delivery)
    requires Enabled(controls, s, StartNext(w, delivery)) && WorkerKnows(s, s.workers[w]) && ExecutionsOk(controls, s)
    ensures ExecutionsOk(controls, Apply(controls, s, StartNext(w, delivery)))
  {
    assert s.workers[w].requests[0] in s.workers[w].requests;
    StartKeepsExecutions(controls, s, w, s.workers[w].requests[0].command, delivery);
  }

  lemma ExecutionsKept(controls: Controls, s: State, step: Step)
    requires Enabled(controls, s, step) && WorkersKnow(s) && ExecutionsOk(controls, s)
    ensures ExecutionsOk(controls, Apply(controls, s, step))
  {
    var s' := Apply(controls, s, step);
    match step {
      case StartNext(w, delivery) =>
        assert WorkerKnows(s, s.workers[w]);
        StartingKeepsExecutions(controls, s, w, delivery);
      case StartMissing(w, delivery) =>
        assert WorkerKnows(s, s.workers[w]);
        StartKeepsExecutions(controls, s, w, s.workers[w].item.command, delivery);
      case AddRun(_, _) => RunsKeepExecutions(controls, s, s');
      case SetStatus(_, _) => RunsKeepExecutions(controls, s, s');
      case _ =>
    }
  }

  lemma LogAppend(s: State, s': State, added: seq<Publication>)
    requires LogOk(s) && Grows(s, s') && s'.log == s.log + added
    requires forall e <- s'.events :: s'.events[e].published ==>
               (e in s.events && s.events[e].published) || exists p <- added :: p.event == e
    requires forall p <- added :: p.event in s.events && s.events[p.event] == EventRow(p.ref, false)
                                  && p.event in s'.events && s'.events[p.event].published
    requires forall p <- added | p.why == Started :: HasExecution(s'.executions, p.ref)
    requires forall i, j | 0 <= i < j < |added| :: added[i].event != added[j].event
    ensures LogOk(s')
  {
    forall p | p in s'.log && p.why == Started ensures HasExecution(s'.executions, p.ref) {
      if p in s.log {
        var place :| place in s.executions && place.ref == p.ref;
        assert place in s'.executions;
      }
    }
    forall i, j | 0 <= i < j < |s'.log| ensures s'.log[i].event != s'.log[j].event {
      if i < |s.log| { assert s.log[i] in s.log; }
      if j >= |s.log| { assert added[j - |s.log|] in added; }
    }
    forall e | e in s'.events && s'.events[e].published ensures exists p <- s'.log :: p.event == e {
      if e in s.events && s.events[e].published {
        var p :| p in s.log && p.event == e;
        assert p in s'.log;
      } else {
        var p :| p in added && p.event == e;
        assert p in s'.log;
      }
    }
  }

  lemma ReadingKeepsLog(controls: Controls, s: State, w: nat, pending: seq<string>)
    requires Enabled(controls, s, ReadPending(w, pending)) && LogOk(s)
    ensures LogOk(Apply(controls, s, ReadPending(w, pending)))
  {
    var s' := Apply(controls, s, ReadPending(w, pending));
    var skipped := Pending(s, pending).1;
    StepGrows(controls, s, ReadPending(w, pending));
    PendingSound(s, pending);
    assert s'.events == Publish(s.events, set p <- skipped :: p.event) && s'.log == s.log + skipped;
    LogAppend(s, s', skipped);
  }

  lemma MarkingKeepsLog(controls: Controls, s: State, w: nat)
    requires Enabled(controls, s, MarkDispatched(w)) && WorkerKnows(s, s.workers[w]) && LogOk(s)
    ensures LogOk(Apply(controls, s, MarkDispatched(w)))
  {
    var s' := Apply(controls, s, MarkDispatched(w));
    var event := s.workers[w].event;
    if !s.events[event].published {
      StepGrows(controls, s, MarkDispatched(w));
      LogAppend(s, s', [Publication(event, s.events[event].ref, Started)]);
    }
  }

  /** The other steps publish nothing. */
  lemma OthersKeepLog(controls: Controls, s: State, step: Step)
    requires Enabled(controls, s, step) && LogOk(s) && !step.ReadPending? && !step.MarkDispatched?
    ensures LogOk(Apply(controls, s, step))
  {
    var s' := Apply(controls, s, step);
    StepGrows(controls, s, step);
    assert s'.log == s.log + [];
    assert forall e <- s'.events :: s'.events[e].published ==> e in s.events && s.events[e].published;
    LogAppend(s, s', []);
  }

  lemma LogKept(controls: Controls, s: State, step: Step)
    requires Enabled(controls, s, step) && WorkersKnow(s) && LogOk(s)
    ensures LogOk(Apply(controls, s, step))
  {
    if step.ReadPending? {
      ReadingKeepsLog(controls, s, step.w, step.pending);
    } else if step.MarkDispatched? {
      assert WorkerKnows(s, s.workers[step.w]);
      MarkingKeepsLog(controls, s, step.w);
    } else {
      OthersKeepLog(controls, s, step);
    }
  }

  lemma {:induction false} InvariantReached(controls: Controls, steps: seq<Step>, s: State)
    requires Reaches(controls, steps, s)
    ensures WorkersKnow(s) && ExecutionsOk(controls, s) && LogOk(s)
    decreases |steps|
  {
    if steps != [] {
      var last := |steps| - 1;
      var before: State :| Reaches(controls, steps[..last], before) && Enabled(controls, before, steps[last])
                           && s == Apply(controls, before, steps[last]);
      InvariantReached(controls, steps[..last], before);
      WorkersKept(controls, before, steps[last]);
      ExecutionsKept(controls, before, steps[last]);
      LogKept(controls, before, steps[last]);
    }
  }

  // ---------------------------------------------------------------- theorems

  /** Whatever two workers would both start a Run, they would start it in the same namespace. */
  ghost predicate OneNamespacePerRun(controls: Controls) {
    forall a <- controls, b <- controls, command: Command ::
      Accepts(controls[a], command) && Accepts(controls[b], command) ==> controls[a].namespace == controls[b].namespace
  }

  ghost predicate AtMostOneExecution(s: State) {
    forall i, j | 0 <= i < |s.created| && 0 <= j < |s.created| && s.created[i].ref == s.created[j].ref :: i == j
  }

  lemma OneExecution(controls: Controls, steps: seq<Step>, s: State)
    requires Reaches(controls, steps, s) && OneNamespacePerRun(controls)
    ensures AtMostOneExecution(s)
  {
    InvariantReached(controls, steps, s);
    forall i, j | 0 <= i < |s.created| && 0 <= j < |s.created| && s.created[i].ref == s.created[j].ref
      ensures i == j
    {
      var p, q := s.created[i], s.created[j];
      assert p in s.created && q in s.created && PlaceJustified(controls, s.runs, p) && PlaceJustified(controls, s.runs, q);
      assert p == q;
    }
  }

  lemma ReachesNext(controls: Controls, steps: seq<Step>, s: State, step: Step)
    requires Reaches(controls, steps, s) && Enabled(controls, s, step)
    ensures Reaches(controls, steps + [step], Apply(controls, s, step))
  {
    assert (steps + [step])[..|steps|] == steps;
  }

  /** One idle worker reconciles one active Run that has no execution in its namespace. */
  lemma Reconciled(controls: Controls, steps: seq<Step>, s: State, w: nat, command: Command)
    returns (steps': seq<Step>, s': State)
    requires Reaches(controls, steps, s) && w in controls && w in s.workers && s.workers[w] == Idle
    requires command.ref in s.runs && s.runs[command.ref] == RunRow("pending", command.tier)
    requires Accepts(controls[w], command) && PlaceOf(controls[w], command) !in s.executions
    ensures Reaches(controls, steps', s')
    ensures s' == s.(executions := s.executions[PlaceOf(controls[w], command) := Running],
                     created := s.created + [PlaceOf(controls[w], command)],
                     workers := s.workers[w := Reconciling([])])
  {
    var item := Item(command, "pending");
    var s1, s2 := Set(s, w, Reconciling([item])), Set(s, w, Recovering(item, []));
    ReadsOne(controls, s, w, command);
    ReachesNext(controls, steps, s, ReadRuns(w, [command.ref]));
    ObservesOne(controls, s, w, item);
    ReachesNext(controls, steps + [ReadRuns(w, [command.ref])], s1, Observe(w));
    StartsOne(controls, s, w, item);
    ReachesNext(controls, steps + [ReadRuns(w, [command.ref])] + [Observe(w)], s2, StartMissing(w, Delivered));
    steps' := steps + [ReadRuns(w, [command.ref])] + [Observe(w)] + [StartMissing(w, Delivered)];
    s' := Apply(controls, s2, StartMissing(w, Delivered));
  }

  lemma ReadsOne(controls: Controls, s: State, w: nat, command: Command)
    requires w in controls && w in s.workers && s.workers[w] == Idle
    requires command.ref in s.runs && s.runs[command.ref] == RunRow("pending", command.tier)
    requires Accepts(controls[w], command)
    ensures Enabled(controls, s, ReadRuns(w, [command.ref]))
    ensures Apply(controls, s, ReadRuns(w, [command.ref])) == Set(s, w, Reconciling([Item(command, "pending")]))
  {
    assert Items(s.runs, [command.ref]) == [Item(command, "pending")];
  }

  lemma ObservesOne(controls: Controls, s: State, w: nat, item: Item)
    requires w in controls && Active(item.status) && PlaceOf(controls[w], item.command) !in s.executions
    ensures Enabled(controls, Set(s, w, Reconciling([item])), Observe(w))
    ensures Apply(controls, Set(s, w, Reconciling([item])), Observe(w)) == Set(s, w, Recovering(item, []))
  {
    assert s.workers[w := Reconciling([item])][w := Recovering(item, [])] == s.workers[w := Recovering(item, [])];
    assert [item][1..] == [];
  }

  lemma StartsOne(controls: Controls, s: State, w: nat, item: Item)
    requires w in controls && Accepts(controls[w], item.command) && PlaceOf(controls[w], item.command) !in s.executions
    ensures var place, before := PlaceOf(controls[w], item.command), Set(s, w, Recovering(item, []));
            && Enabled(controls, before, StartMissing(w, Delivered))
            && Apply(controls, before, StartMissing(w, Delivered))
               == s.(executions := s.executions[place := Running], created := s.created + [place],
                     workers := s.workers[w := Reconciling([])])
  {
    assert s.workers[w := Recovering(item, [])][w := Reconciling([])] == s.workers[w := Reconciling([])];
    assert s.executions[PlaceOf(controls[w], item.command) := Running] != s.executions;
  }

  /** Two workers that accept the same Run in different namespaces do execute it twice. */
  lemma TwoExecutions(controls: Controls, a: nat, b: nat, command: Command) returns (steps: seq<Step>, s: State)
    requires a in controls && b in controls && controls[a].namespace != controls[b].namespace
    requires Accepts(controls[a], command) && Accepts(controls[b], command)
    ensures Reaches(controls, steps, s) && !AtMostOneExecution(s)
  {
    var s0 := Initially(controls);
    var add := AddRun(command.ref, RunRow("pending", command.tier));
    ReachesNext(controls, [], s0, add);
    var s1 := Apply(controls, s0, add);
    steps, s := Reconciled(controls, [] + [add], s1, a, command);
    steps, s := Reconciled(controls, steps, s, b, command);
    assert s.created == [PlaceOf(controls[a], command), PlaceOf(controls[b], command)];
    assert s.created[0].ref == s.created[1].ref;
  }

  /** No interleaving starts a Run twice if and only if no two workers accept one Run in
      different namespaces. */
  lemma OneExecutionExactly(controls: Controls)
    ensures OneNamespacePerRun(controls)
            <==> forall steps: seq<Step>, s: State | Reaches(controls, steps, s) :: AtMostOneExecution(s)
  {
    if OneNamespacePerRun(controls) {
      forall steps: seq<Step>, s: State | Reaches(controls, steps, s) ensures AtMostOneExecution(s) {
        OneExecution(controls, steps, s);
      }
    } else {
      var a, b, command: Command :| a in controls && b in controls
        && Accepts(controls[a], command) && Accepts(controls[b], command)
        && controls[a].namespace != controls[b].namespace;
      var steps, s := TwoExecutions(controls, a, b, command);
      assert Reaches(controls, steps, s) && !AtMostOneExecution(s);
    }
  }

  /** Workers bound to a tenant and a pool, each pool with a namespace of its own, meet that. */
  lemma BoundPoolsAreEnough(controls: Controls, namespaceOf: (string, Pool) -> string)
    requires forall w <- controls ::
               controls[w].tenant.Some? && controls[w].pool.Some?
               && controls[w].namespace == namespaceOf(controls[w].tenant.value, controls[w].pool.value)
    ensures OneNamespacePerRun(controls)
  {
  }

  /** An event is published at most once, and only when a workflow of its Run has been started
      or, as it was read, its Run was missing or terminal. */
  lemma PublishedOnlyForReason(controls: Controls, steps: seq<Step>, s: State, event: string)
    requires Reaches(controls, steps, s) && event in s.events && s.events[event].published
    ensures exists i | 0 <= i < |s.log| ::
              && s.log[i].event == event
              && (s.log[i].why == Started ==> HasExecution(s.executions, s.events[event].ref))
              && forall j | 0 <= j < |s.log| && s.log[j].event == event :: j == i
  {
    InvariantReached(controls, steps, s);
    var p :| p in s.log && p.event == event;
    var i :| 0 <= i < |s.log| && s.log[i] == p;
    assert s.events[p.event] == EventRow(p.ref, true);
  }

  /** The reason recorded for an event published unstarted was true in the state it was read in. */
  lemma ReasonTrueWhenRead(controls: Controls, s: State, step: Step, p: Publication)
    requires Enabled(controls, s, step)
    requires p in Apply(controls, s, step).log && p !in s.log && p.why != Started
    ensures if p.ref in s.runs
            then p.why == RunTerminal(s.runs[p.ref].status) && s.runs[p.ref].status in {"succeeded", "failed", "cancelled"}
            else p.why == RunMissing
  {
    if step.ReadPending? { PendingSound(s, step.pending); }
  }

  /** The start call for the event's Run will be answered with a running workflow. */
  predicate Startable(executions: Executions, place: Place) {
    place !in executions || executions[place] == Running
  }

  lemma PollReads(controls: Controls, s: State, w: nat, event: string)
    requires w in controls && w in s.workers && s.workers[w] == Idle
    requires event in s.events && !s.events[event].published && s.events[event].ref in s.runs
    requires !Terminal(s.runs[s.events[event].ref].status) && InScope(controls[w], s.events[event].ref.tenant)
    ensures Enabled(controls, s, ReadPending(w, [event]))
    ensures var command := Command(s.events[event].ref, s.runs[s.events[event].ref].tier);
            Apply(controls, s, ReadPending(w, [event])) == Set(s, w, Dispatching([Request(event, command)]))
  {
    var command := Command(s.events[event].ref, s.runs[s.events[event].ref].tier);
    assert [event][..0] == [];
    assert Pending(s, []) == ([], []) && [] + [Request(event, command)] == [Request(event, command)];
    assert Pending(s, [event]) == ([Request(event, command)], []);
    var none: set<string> := {};
    assert (set p <- Pending(s, [event]).1 :: p.event) == none;
    assert Publish(s.events, none) == s.events && s.log + [] == s.log;
  }

  /** A poll that reads an unpublished event of a live Run, and whose start call is delivered,
      publishes the event if and only if the Run has no workflow yet or a running one; it then has
      a workflow.  Where the workflow has closed the start is rejected and the event stays. */
  lemma PollPublishesExactly(controls: Controls, s: State, w: nat, event: string)
    requires w in controls && w in s.workers && s.workers[w] == Idle
    requires event in s.events && !s.events[event].published && s.events[event].ref in s.runs
    requires var ref := s.events[event].ref;
             s.runs[ref].status !in {"succeeded", "failed", "cancelled"} && Accepts(controls[w], Command(ref, s.runs[ref].tier))
    ensures Enabled(controls, s, ReadPending(w, [event]))
    ensures var place := Place(controls[w].namespace, s.events[event].ref);
            var s1 := Apply(controls, s, ReadPending(w, [event]));
            && Enabled(controls, s1, StartNext(w, Delivered))
            && var s2 := Apply(controls, s1, StartNext(w, Delivered));
            && (Enabled(controls, s2, MarkDispatched(w)) <==> Startable(s.executions, place))
            && (!Startable(s.executions, place) ==> s2 == Set(s, w, Dispatching([])))
            && (Startable(s.executions, place) ==>
                  var s3 := Apply(controls, s2, MarkDispatched(w));
                  s3.events[event].published && place in s3.executions && s3.executions[place] == Running)
  {
    PollReads(controls, s, w, event);
    var command := Command(s.events[event].ref, s.runs[s.events[event].ref].tier);
    var s1 := Set(s, w, Dispatching([Request(event, command)]));
    var s2 := Apply(controls, s1, StartNext(w, Delivered));
    if !Startable(s.executions, PlaceOf(controls[w], command)) {
      assert [Request(event, command)][1..] == [] && s.created + [] == s.created;
      assert s2.workers == s1.workers[w := Dispatching([])] == s.workers[w := Dispatching([])];
    }
  }

  // ---------------------------------------------------------------- a closed workflow

  ghost predicate Leads(controls: Controls, s: State, steps: seq<Step>, s': State)
    decreases |steps|
  {
    if steps == [] then s' == s
    else
      var last := |steps| - 1;
      exists before: State ::
        Leads(controls, s, steps[..last], before) && Enabled(controls, before, steps[last])
        && s' == Apply(controls, before, steps[last])
  }

  /** Wherever a worker would start the event's Run, its workflow has closed, and no worker is
      about to mark the event. */
  ghost predicate ClosedFor(controls: Controls, s: State, event: string) {
    && event in s.events && s.events[event].ref in s.runs
    && (forall w <- controls | Accepts(controls[w], Command(s.events[event].ref, s.runs[s.events[event].ref].tier)) ::
          Place(controls[w].namespace, s.events[event].ref) in s.executions
          && s.executions[Place(controls[w].namespace, s.events[event].ref)] == Closed)
    && (forall w <- s.workers | s.workers[w].Marking? :: s.workers[w].event != event)
  }

  /** Closed executions stay closed. */
  lemma ClosedStays(controls: Controls, s: State, step: Step, place: Place)
    requires Enabled(controls, s, step) && place in s.executions && s.executions[place] == Closed
    ensures place in Apply(controls, s, step).executions && Apply(controls, s, step).executions[place] == Closed
  {
  }

  /** A start call for that event is rejected, whoever makes it. */
  lemma ClosedIsRejected(controls: Controls, s: State, w: nat, delivery: Delivery, event: string)
    requires Enabled(controls, s, StartNext(w, delivery)) && WorkerKnows(s, s.workers[w]) && ClosedFor(controls, s, event)
    requires s.workers[w].requests[0].event == event
    ensures Apply(controls, s, StartNext(w, delivery)).workers[w].Dispatching?
  {
    assert RequestKnown(s, s.workers[w].requests[0]);
  }

  lemma NobodyMarks(controls: Controls, s: State, step: Step, event: string)
    requires Enabled(controls, s, step) && WorkersKnow(s) && ClosedFor(controls, s, event)
    ensures forall w <- Apply(controls, s, step).workers | Apply(controls, s, step).workers[w].Marking? ::
              Apply(controls, s, step).workers[w].event != event
  {
    if step.StartNext? {
      assert WorkerKnows(s, s.workers[step.w]);
      if s.workers[step.w].requests[0].event == event { ClosedIsRejected(controls, s, step.w, step.delivery, event); }
    }
  }

  lemma StepKeepsClosed(controls: Controls, s: State, step: Step, event: string)
    requires Enabled(controls, s, step) && WorkersKnow(s) && ClosedFor(controls, s, event)
    ensures ClosedFor(controls, Apply(controls, s, step), event)
  {
    var s' := Apply(controls, s, step);
    StepGrows(controls, s, step);
    NobodyMarks(controls, s, step, event);
    forall w <- controls | Accepts(controls[w], Command(s'.events[event].ref, s'.runs[s'.events[event].ref].tier))
      ensures Place(controls[w].namespace, s'.events[event].ref) in s'.executions
      ensures s'.executions[Place(controls[w].namespace, s'.events[event].ref)] == Closed
    {
      ClosedStays(controls, s, step, Place(controls[w].namespace, s.events[event].ref));
    }
  }

  lemma StepStartsNothing(controls: Controls, s: State, step: Step, event: string, p: Publication)
    requires Enabled(controls, s, step) && ClosedFor(controls, s, event)
    requires p in Apply(controls, s, step).log && p !in s.log && p.event == event
    ensures p.why != Started
  {
    if step.ReadPending? {
      PendingSound(s, step.pending);
    }
  }

  /** Once a Run's workflow has closed an event of that Run is never again published as started, in
      whatever way the execution goes on: it can only be published when its Run is read as terminal. */
  lemma {:induction false} ClosedIsNeverStarted(
    controls: Controls, steps: seq<Step>, s: State, more: seq<Step>, s': State, event: string, p: Publication)
    requires Reaches(controls, steps, s) && Leads(controls, s, more, s') && ClosedFor(controls, s, event)
    requires p in s'.log && p !in s.log && p.event == event
    ensures p.why.RunTerminal?
    decreases |more|
  {
    var last := |more| - 1;
    var before: State :| Leads(controls, s, more[..last], before) && Enabled(controls, before, more[last])
                         && s' == Apply(controls, before, more[last]);
    LeadsKeeps(controls, steps, s, more[..last], before, event);
    if p in before.log {
      ClosedIsNeverStarted(controls, steps, s, more[..last], before, event, p);
    } else {
      StepStartsNothing(controls, before, more[last], event, p);
      ReasonTrueWhenRead(controls, before, more[last], p);
      PublishedRef(controls, before, more[last], p);
    }
  }

  /** A publication names the Run its event refers to. */
  lemma PublishedRef(controls: Controls, s: State, step: Step, p: Publication)
    requires Enabled(controls, s, step) && p in Apply(controls, s, step).log && p !in s.log
    ensures p.event in s.events && p.ref == s.events[p.event].ref
  {
    if step.ReadPending? { PendingSound(s, step.pending); }
  }

  lemma {:induction false} LeadsKeeps(
    controls: Controls, steps: seq<Step>, s: State, more: seq<Step>, s': State, event: string)
    requires Reaches(controls, steps, s) && Leads(controls, s, more, s') && ClosedFor(controls, s, event)
    ensures WorkersKnow(s') && ClosedFor(controls, s', event)
    decreases |more|
  {
    if more == [] {
      InvariantReached(controls, steps, s);
    } else {
      var last := |more| - 1;
      var before: State :| Leads(controls, s, more[..last], before) && Enabled(controls, before, more[last])
                           && s' == Apply(controls, before, more[last]);
      LeadsKeeps(controls, steps, s, more[..last], before, event);
      WorkersKept(controls, before, more[last]);
      StepKeepsClosed(controls, before, more[last], event);
    }
  }

  /** The reconciler is about to start only Runs it read as pending, running or awaiting evidence. */
  lemma {:induction false} RecoversOnlyActive(controls: Controls, steps: seq<Step>, s: State, w: nat)
    requires Reaches(controls, steps, s) && w in s.workers && s.workers[w].Recovering?
    ensures s.workers[w].item.status in {"pending", "running", "awaiting_evidence"}
    decreases |steps|
  {
    if steps != [] {
      var last := |steps| - 1;
      var before: State :| Reaches(controls, steps[..last], before) && Enabled(controls, before, steps[last])
                           && s == Apply(controls, before, steps[last]);
      if w in before.workers && before.workers[w] == s.workers[w] {
        RecoversOnlyActive(controls, steps[..last], before, w);
      } else {
        StepRecoversOnlyActive(controls, before, steps[last], w);
      }
    }
  }

  lemma StepRecoversOnlyActive(controls: Controls, s: State, step: Step, w: nat)
    requires Enabled(controls, s, step) && w in Apply(controls, s, step).workers
    requires var worker := Apply(controls, s, step).workers[w];
             worker.Recovering? && (w in s.workers ==> worker != s.workers[w])
    ensures Apply(controls, s, step).workers[w].item.status in {"pending", "running", "awaiting_evidence"}
  {
  }

  /** And it passes over none of them that has no execution in its namespace. */
  lemma ObservesExactly(controls: Controls, s: State, w: nat)
    requires Enabled(controls, s, Observe(w))
    ensures var item, after := s.workers[w].items[0], Apply(controls, s, Observe(w));
            after.workers[w].Recovering? <==>
            && item.status in {"pending", "running", "awaiting_evidence"}
            && Place(controls[w].namespace, item.command.ref) !in s.executions
  {
  }
}
