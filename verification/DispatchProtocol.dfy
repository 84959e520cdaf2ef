/** Any number of dispatchers and reconcilers at work at once, each of which may crash between
    any two of its calls, against Runs, events and workflows that change meanwhile. */
module DispatchProtocol {
  import opened Basics
  import opened DispatchSpec

  datatype Worker =
    | Idle
    | Dispatching(requests: seq<Request>)
    | Marking(event: string, rest: seq<Request>)
    | Reconciling(items: seq<Item>)
    | Recovering(item: Item, others: seq<Item>)

  datatype Publication = Publication(event: string, ref: RunRef, why: Why)

  /** `created` lists the executions created and `log` the publications, oldest first. */
  datatype State = State(
    runs: map<RunRef, RunRow>, events: map<string, EventRow>, executions: Executions,
    workers: map<nat, Worker>, created: seq<Place>, log: seq<Publication>)

  datatype Step =
    | AddRun(ref: RunRef, row: RunRow)
    | SetStatus(ref: RunRef, status: string)
    | AddEvent(event: string, ref: RunRef)
    | CloseWorkflow(place: Place)
    | ReadPending(w: nat, pending: seq<string>)
    | StartNext(w: nat, delivery: Delivery)
    | MarkDispatched(w: nat)
    | ReadRuns(w: nat, refs: seq<RunRef>)
    | Observe(w: nat)
    | StartMissing(w: nat, delivery: Delivery)
    | Crash(w: nat)

  type Controls = map<nat, Control>

  function Initially(controls: Controls): State {
    State(map[], map[], map[], map w | w in controls :: Idle, [], [])
  }

  predicate InScope(control: Control, tenant: string) {
    control.tenant.None? || control.tenant == Some(tenant)
  }

  predicate Enabled(controls: Controls, s: State, step: Step) {
    match step
    case AddRun(ref, _) => ref !in s.runs
    case SetStatus(ref, _) => ref in s.runs
    case AddEvent(event, _) => event !in s.events
    case CloseWorkflow(place) => place in s.executions
    case ReadPending(w, pending) =>
      w in controls && w in s.workers && s.workers[w] == Idle
      && (forall e <- pending :: e in s.events && !s.events[e].published && InScope(controls[w], s.events[e].ref.tenant))
      && (forall i, j | 0 <= i < j < |pending| :: pending[i] != pending[j])
    case StartNext(w, _) =>
      w in controls && w in s.workers && s.workers[w].Dispatching? && s.workers[w].requests != []
    case MarkDispatched(w) => w in s.workers && s.workers[w].Marking?
    case ReadRuns(w, refs) =>
      w in controls && w in s.workers && s.workers[w] == Idle
      && forall r <- refs :: r in s.runs && InScope(controls[w], r.tenant)
    case Observe(w) =>
      w in controls && w in s.workers && s.workers[w].Reconciling? && s.workers[w].items != []
    case StartMissing(w, _) => w in controls && w in s.workers && s.workers[w].Recovering?
    case Crash(w) => w in s.workers
  }

  /** Reading the pending events marks those at once whose Run is missing or terminal. */
  function Pending(s: State, pending: seq<string>): (seq<Request>, seq<Publication>)
    requires forall e <- pending :: e in s.events
  {
    if pending == [] then ([], [])
    else
      var last := pending[|pending| - 1];
      var (requests, skipped) := Pending(s, pending[..|pending| - 1]);
      match LoadRequest(s.runs, last, s.events[last].ref)
      case Ok(request) => (requests + [request], skipped)
      case Err(why) => (requests, skipped + [Publication(last, s.events[last].ref, why)])
  }

  function Publish(events: map<string, EventRow>, published: set<string>): map<string, EventRow> {
    map e | e in events :: if e in published then events[e].(published := true) else events[e]
  }

  function Items(runs: map<RunRef, RunRow>, refs: seq<RunRef>): seq<Item>
    requires forall r <- refs :: r in runs
  {
    seq(|refs|, i requires 0 <= i < |refs| => Item(Command(refs[i], runs[refs[i]].tier), runs[refs[i]].status))
  }

  function Set(s: State, w: nat, worker: Worker): State {
    s.(workers := s.workers[w := worker])
  }

  /** A start call on behalf of some worker. */
  function StartFor(s: State, control: Control, command: Command, delivery: Delivery): State {
    var (executions, _) := Start(s.executions, control, command, delivery);
    s.(executions := executions,
       created := s.created + (if executions == s.executions then [] else [PlaceOf(control, command)]))
  }

  function Apply(controls: Controls, s: State, step: Step): State
    requires Enabled(controls, s, step)
  {
    match step
    case AddRun(ref, row) => s.(runs := s.runs[ref := row])
    case SetStatus(ref, status) => s.(runs := s.runs[ref := s.runs[ref].(status := status)])
    case AddEvent(event, ref) => s.(events := s.events[event := EventRow(ref, false)])
    case CloseWorkflow(place) => s.(executions := s.executions[place := Closed])
    case ReadPending(w, pending) =>
      var (requests, skipped) := Pending(s, pending);
      Set(s, w, Dispatching(requests))
      .(events := Publish(s.events, set p <- skipped :: p.event), log := s.log + skipped)
    case StartNext(w, delivery) =>
      var request, rest := s.workers[w].requests[0], s.workers[w].requests[1..];
      var (_, ok) := Start(s.executions, controls[w], request.command, delivery);
      Set(StartFor(s, controls[w], request.command, delivery), w,
          if ok then Marking(request.event, rest) else Dispatching(rest))
    case MarkDispatched(w) =>
      var event, rest := s.workers[w].event, s.workers[w].rest;
      if event in s.events && !s.events[event].published then
        Set(s, w, Dispatching(rest))
        .(events := Publish(s.events, {event}), log := s.log + [Publication(event, s.events[event].ref, Started)])
      else Set(s, w, Dispatching(rest))
    case ReadRuns(w, refs) => Set(s, w, Reconciling(Items(s.runs, refs)))
    case Observe(w) =>
      var item, rest := s.workers[w].items[0], s.workers[w].items[1..];
      if !Active(item.status) || PlaceOf(controls[w], item.command) in s.executions then Set(s, w, Reconciling(rest))
      else Set(s, w, Recovering(item, rest))
    case StartMissing(w, delivery) =>
      var item, rest := s.workers[w].item, s.workers[w].others;
      Set(StartFor(s, controls[w], item.command, delivery), w, Reconciling(rest))
    case Crash(w) => Set(s, w, Idle)
  }

  ghost predicate Reaches(controls: Controls, steps: seq<Step>, s: State)
    decreases |steps|
  {
    if steps == [] then s == Initially(controls)
    else
      var last := |steps| - 1;
      exists before: State ::
        Reaches(controls, steps[..last], before) && Enabled(controls, before, steps[last])
        && s == Apply(controls, before, steps[last])
  }
}
