/** What a Goal Run does next and what it returns, told from the record of its signals and Activities.

    Nothing here mentions where the workflow is: the last scheduled Activity, the signals received in
    the present run and the result that comes back decide what follows. */
module GoalRunOutcomes {
  import opened Basics
  import opened GoalRunSpec
  import GoalRunTheorems

  // ---------------------------------------------------------------- the record of the present run

  /** The Activity last scheduled in the present run. */
  function LastScheduled(log: seq<Event>): Option<Activity> {
    if log == [] then None
    else
      match log[|log| - 1]
      case Scheduled(activity) => Some(activity)
      case ContinuedAsNew => None
      case _ => LastScheduled(log[..|log| - 1])
  }

  /** The reason of the last cancel signal of the present run, if there was one. */
  function CancelAsked(log: seq<Event>): Option<string> {
    if log == [] then None
    else
      match log[|log| - 1]
      case Received(Cancel(reason)) => Some(if reason == "" then "cancelled_by_user" else reason)
      case ContinuedAsNew => None
      case _ => CancelAsked(log[..|log| - 1])
  }

  function TakeOverAsked(log: seq<Event>): Option<string> {
    if log == [] then None
    else
      match log[|log| - 1]
      case Received(TakeOver(reason)) => Some(if reason == "" then "manual_takeover" else reason)
      case ContinuedAsNew => None
      case _ => TakeOverAsked(log[..|log| - 1])
  }

  /** Whether the last of the pause and resume signals of the present run was a pause. */
  predicate PauseAsked(log: seq<Event>) {
    log != [] &&
    match log[|log| - 1]
    case Received(Pause) => true
    case Received(Resume) => false
    case ContinuedAsNew => false
    case _ => PauseAsked(log[..|log| - 1])
  }

  /** The last decided approval of the present run that has not been loaded since. */
  function ApprovalAsked(log: seq<Event>): Option<string> {
    if log == [] then None
    else
      match log[|log| - 1]
      case Received(ApprovalDecided(id)) => if id == "" then ApprovalAsked(log[..|log| - 1]) else Some(id)
      case Scheduled(LoadApproval(_)) => None
      case ContinuedAsNew => None
      case _ => ApprovalAsked(log[..|log| - 1])
  }

  /** The resume signals of the present run. */
  function Resumes(log: seq<Event>): nat {
    if log == [] then 0
    else
      match log[|log| - 1]
      case Received(Resume) => Resumes(log[..|log| - 1]) + 1
      case ContinuedAsNew => 0
      case _ => Resumes(log[..|log| - 1])
  }

  ghost predicate Remembers(w: Workflow, log: seq<Event>) {
    && w.cancelReason == CancelAsked(log)
    && w.takeoverReason == TakeOverAsked(log)
    && w.paused == PauseAsked(log)
    && w.resumeGeneration == Resumes(log)
    && w.approvalId == ApprovalAsked(log)
  }

  /** What the workflow awaits is what it scheduled last. */
  predicate Awaits(pc: Pc, last: Option<Activity>) {
    match pc
    case Preparing => last == Some(PrepareRun)
    case LoadingApproval(id) => last == Some(LoadApproval(id))
    case Executing => last == Some(ExecuteRun)
    case Evaluating => last == Some(EvaluateRun)
    case Cancelling => last.Some? && last.value.CancelRun?
    case TakingOver => last.Some? && last.value.TakeOverRun?
    case Rejecting => last.Some? && last.value.RejectRun?
    case PausedAt(AtStart) => last in {None, Some(PrepareRun)}
    case PausedAt(AfterExecute) => last == Some(ExecuteRun)
    case PausedAt(AtProgress) => last == Some(EvaluateRun)
    case AwaitingProgress(_) => last == Some(EvaluateRun)
    case _ => true
  }

  /** What `current_phase` shows. */
  predicate ShowsPhase(w: Workflow) {
    match w.pc
    case Created => w.phase == "pending"
    case Preparing => w.phase == "planning"
    case PausedAt(_) => w.phase == "paused"
    case AwaitingApproval => w.phase in {"awaiting_approval", "paused"}
    case LoadingApproval(_) => w.phase in {"awaiting_approval", "paused"}
    case Executing => w.phase == "executing"
    case Evaluating => w.phase == "evaluating"
    case AwaitingProgress(_) => w.phase == "waiting_for_progress"
    case Cancelling => w.phase == "cancelling"
    case TakingOver => w.phase == "taking_over"
    case Rejecting => w.phase == "rejecting"
    case Returned(value) => w.phase == value
    case _ => true
  }

  ghost predicate Inv(c: Chain) {
    Remembers(c.w, c.log) && Awaits(c.w.pc, LastScheduled(c.log)) && ShowsPhase(c.w) && c.w.pc != ContinuingAsNew
  }

  // ---------------------------------------------------------------- one event more

  lemma EventAdded(log: seq<Event>, e: Event)
    ensures LastScheduled(log + [e]) ==
            if e.Scheduled? then Some(e.activity) else if e == ContinuedAsNew then None else LastScheduled(log)
    ensures e.Received? || e == ContinuedAsNew
            || (CancelAsked(log + [e]) == CancelAsked(log) && TakeOverAsked(log + [e]) == TakeOverAsked(log)
                && PauseAsked(log + [e]) == PauseAsked(log) && Resumes(log + [e]) == Resumes(log))
    ensures e == ContinuedAsNew ==>
              CancelAsked(log + [e]) == None && TakeOverAsked(log + [e]) == None && !PauseAsked(log + [e])
              && Resumes(log + [e]) == 0
    ensures !e.Received? ==>
              ApprovalAsked(log + [e]) ==
              if e == ContinuedAsNew || (e.Scheduled? && e.activity.LoadApproval?) then None else ApprovalAsked(log)
  {
    assert (log + [e])[..|log|] == log;
  }

  lemma SignalAdded(w: Workflow, log: seq<Event>, signal: Signal)
    requires Remembers(w, log)
    ensures Remembers(Signalled(w, signal), log + [Received(signal)])
  {
    assert (log + [Received(signal)])[..|log|] == log;
  }

  /** The state and record after a turn that adds these events. */
  ghost predicate Follows(log: seq<Event>, turn: Turn) {
    if turn.w.pc == ContinuingAsNew then turn.events == [ContinuedAsNew]
    else Remembers(turn.w, log + turn.events) && Awaits(turn.w.pc, LastScheduled(log + turn.events)) && ShowsPhase(turn.w)
  }

  lemma OneEventFollows(log: seq<Event>, w: Workflow, turn: Turn)
    requires Remembers(w, log) && |turn.events| <= 1 && turn.w.pc != ContinuingAsNew && ShowsPhase(turn.w)
    requires turn.w.cancelReason == w.cancelReason && turn.w.takeoverReason == w.takeoverReason && turn.w.paused == w.paused
    requires turn.w.resumeGeneration == w.resumeGeneration
    requires turn.w.approvalId ==
             if turn.events != [] && turn.events[0].Scheduled? && turn.events[0].activity.LoadApproval? then None else w.approvalId
    requires turn.events != [] ==> !turn.events[0].Received? && turn.events[0] != ContinuedAsNew
    requires Awaits(turn.w.pc, if turn.events != [] && turn.events[0].Scheduled? then Some(turn.events[0].activity)
                               else LastScheduled(log))
    ensures Follows(log, turn)
  {
    if turn.events == [] {
      assert log + turn.events == log;
    } else {
      assert turn.events == [turn.events[0]];
      EventAdded(log, turn.events[0]);
    }
  }

  lemma GateFollows(command: GoalRunInput, log: seq<Event>, w: Workflow, gate: Gate)
    requires Remembers(w, log) && Awaits(PausedAt(gate), LastScheduled(log))
    requires gate == AtApproval ==> Awaits(w.pc, LastScheduled(log)) && ShowsPhase(w) && w.pc != ContinuingAsNew
    requires gate == AtApproval ==> w.phase in {"awaiting_approval", "paused"}
    ensures Follows(log, ApplyControl(command, w, gate))
  {
    var turn := ApplyControl(command, w, gate);
    if turn.w.pc != ContinuingAsNew { OneEventFollows(log, w, turn); }
  }

  lemma LoadedFollows(log: seq<Event>, w: Workflow, id: string, status: string)
    requires Remembers(w, log) && w.phase in {"awaiting_approval", "paused"}
    ensures Follows(log, ApprovalLoaded(w, id, status))
  {
    var turn, loaded, rest := ApprovalLoaded(w, id, status), Loaded(id, status), AfterLoading(status);
    EventAdded(log, loaded);
    LoadedDecides(w, id, status);
    assert log + ([loaded] + rest) == log + [loaded] + rest;
    OneEventFollows(log + [loaded], w, Turn(turn.w, rest));
  }

  lemma CompletedFollows(c: Chain, result: string)
    requires Inv(c) && AwaitsActivity(c.w.pc)
    ensures Follows(c.log, ActivityCompleted(c.command, c.w, result))
  {
    if c.w.pc.Preparing? {
      GateFollows(c.command, c.log, c.w, AtStart);
    } else if c.w.pc.LoadingApproval? {
      LoadedFollows(c.log, c.w, c.w.pc.approvalId, result);
    } else if c.w.pc.Executing? {
      GateFollows(c.command, c.log, c.w, AfterExecute);
    } else {
      OneEventFollows(c.log, c.w, ActivityCompleted(c.command, c.w, result));
    }
  }

  lemma WokenFollows(c: Chain)
    requires Inv(c) && MayWake(c.w)
    ensures Follows(c.log, Advance(c.command, c.w, Woken))
  {
    match c.w.pc
    case PausedAt(gate) => GateFollows(c.command, c.log, c.w, gate);
    case AwaitingApproval => GateFollows(c.command, c.log, c.w, AtApproval);
    case AwaitingProgress(_) => GateFollows(c.command, c.log, c.w, AtProgress);
  }

  lemma ProceedFollows(c: Chain, input: Input)
    requires Inv(c) && Possible(c, Proceed(input)) && (input == TaskStarted ==> LastScheduled(c.log) == None)
    ensures Follows(c.log, Advance(c.command, c.w, input))
  {
    match input
    case TaskStarted =>
      if c.command.continuationCount == 0 {
        OneEventFollows(c.log, c.w, Begin(c.command, c.w));
      } else {
        GateFollows(c.command, c.log, c.w, AtStart);
      }
    case Completed(result) => CompletedFollows(c, result);
    case Failed => OneEventFollows(c.log, c.w, Advance(c.command, c.w, input));
    case TimedOut => OneEventFollows(c.log, c.w, Advance(c.command, c.w, input));
    case Woken => WokenFollows(c);
  }

  /** A run that has not begun has scheduled nothing. */
  predicate BegunOrBare(c: Chain) {
    c.w.pc == Created ==> LastScheduled(c.log) == None
  }

  lemma StepKeeps(c: Chain, step: Step)
    requires Inv(c) && BegunOrBare(c) && Possible(c, step)
    ensures Inv(After(c, step)) && BegunOrBare(After(c, step))
  {
    match step
    case Deliver(signal) =>
      SignalAdded(c.w, c.log, signal);
      EventAdded(c.log, Received(signal));
    case Proceed(input) =>
      ProceedFollows(c, input);
      EventAdded(c.log, ContinuedAsNew);
      NeverCreatedAgain(c, input);
  }

  lemma NeverCreatedAgain(c: Chain, input: Input)
    requires Possible(c, Proceed(input))
    ensures Advance(c.command, c.w, input).w.pc != Created
  {
  }

  lemma {:induction false} InvariantReached(first: GoalRunInput, steps: seq<Step>, c: Chain)
    requires Reaches(first, steps, c)
    ensures Inv(c) && BegunOrBare(c)
    decreases |steps|
  {
    if steps != [] {
      var last := |steps| - 1;
      var before: Chain :| Reaches(first, steps[..last], before) && Possible(before, steps[last])
                           && c == After(before, steps[last]);
      InvariantReached(first, steps[..last], before);
      StepKeeps(before, steps[last]);
    }
  }

  // ---------------------------------------------------------------- what is returned

  /** The value returned when the Activity completes with this result. */
  predicate Outcome(activity: Option<Activity>, result: string, value: string) {
    match activity
    case Some(EvaluateRun) => value == result && (value == "succeeded" || value == "failed" || value == "cancelled")
    case Some(CancelRun(_)) => value == "cancelled"
    case Some(TakeOverRun(_)) => value == "taken_over"
    case Some(RejectRun(_)) => value == "rejected"
    case _ => false
  }

  /** A run returns a value exactly when an Activity completes, and that Activity decides the value: an
      evaluation returns its own result, if that is one of three, and a cancel, takeover or reject
      Activity its outcome. */
  lemma ReturnsExactly(first: GoalRunInput, steps: seq<Step>, c: Chain, step: Step, value: string)
    requires Reaches(first, steps, c) && Possible(c, step) && !Finished(c.w.pc)
    ensures After(c, step).w.pc == Returned(value) <==>
            step.Proceed? && step.input.Completed? && Outcome(LastScheduled(c.log), step.input.result, value)
  {
    InvariantReached(first, steps, c);
    match step
    case Deliver(signal) => SignalsReturnNothing(c.w, signal);
    case Proceed(input) =>
      ReturnSurvives(c, input, value);
      if input.Completed? {
        CompletionReturns(c, input.result, value);
      } else {
        OthersReturnNothing(c, input);
      }
  }

  lemma SignalsReturnNothing(w: Workflow, signal: Signal)
    ensures Signalled(w, signal).pc == w.pc
  {
  }

  lemma ReturnSurvives(c: Chain, input: Input, value: string)
    requires Accepts(c.w, input)
    ensures After(c, Proceed(input)).w.pc == Returned(value) <==> Advance(c.command, c.w, input).w.pc == Returned(value)
  {
  }

  lemma GateReturnsNothing(command: GoalRunInput, w: Workflow, gate: Gate)
    requires !w.pc.Returned?
    ensures !ApplyControl(command, w, gate).w.pc.Returned?
  {
  }

  lemma OthersReturnNothing(c: Chain, input: Input)
    requires Accepts(c.w, input) && !input.Completed?
    ensures !Advance(c.command, c.w, input).w.pc.Returned?
  {
    match input
    case TaskStarted => GateReturnsNothing(c.command, c.w, AtStart);
    case Woken =>
      GateReturnsNothing(c.command, c.w, if c.w.pc.PausedAt? then c.w.pc.gate else if c.w.pc.AwaitingApproval? then AtApproval else AtProgress);
    case _ =>
  }

  lemma CompletionReturns(c: Chain, result: string, value: string)
    requires Awaits(c.w.pc, LastScheduled(c.log)) && AwaitsActivity(c.w.pc)
    ensures Advance(c.command, c.w, Completed(result)).w.pc == Returned(value) <==> Outcome(LastScheduled(c.log), result, value)
  {
    GateReturnsNothing(c.command, c.w, AtStart);
    GateReturnsNothing(c.command, c.w, AfterExecute);
    AwaitsWhatWasScheduled(c.w.pc, LastScheduled(c.log));
  }

  lemma AwaitsWhatWasScheduled(pc: Pc, last: Option<Activity>)
    requires Awaits(pc, last) && AwaitsActivity(pc)
    ensures last.Some? && (pc == Evaluating <==> last.value == EvaluateRun)
    ensures pc == Cancelling <==> last.value.CancelRun?
    ensures pc == TakingOver <==> last.value.TakeOverRun?
    ensures pc == Rejecting <==> last.value.RejectRun?
    ensures last.value.LoadApproval? ==> pc == LoadingApproval(last.value.approvalId)
  {
  }

  /** An evaluation with any other result makes the run wait for a resume that comes after it. */
  lemma OtherResultsWait(first: GoalRunInput, steps: seq<Step>, c: Chain, result: string)
    requires Reaches(first, steps, c) && c.w.pc == Evaluating
    requires result != "succeeded" && result != "failed" && result != "cancelled"
    ensures LastScheduled(c.log) == Some(EvaluateRun)
    ensures var next := After(c, Proceed(Completed(result)));
            next == c.(w := next.w) && next.w.pc == AwaitingProgress(Resumes(c.log)) && next.w.phase == "waiting_for_progress"
  {
    InvariantReached(first, steps, c);
    assert c.log + [] == c.log;
  }

  // ---------------------------------------------------------------- what is scheduled

  /** A loaded approval lets the run execute, rejects it, or makes it wait for another. */
  lemma ApprovalDecides(first: GoalRunInput, steps: seq<Step>, c: Chain, id: string, status: string)
    requires Reaches(first, steps, c) && Possible(c, Proceed(Completed(status))) && LastScheduled(c.log) == Some(LoadApproval(id))
    ensures var next := After(c, Proceed(Completed(status)));
            && next.log == c.log + [Loaded(id, status)] + AfterLoading(status)
            && (next.w.pc == AwaitingApproval <==> status != "approved" && status != "rejected" && status != "expired")
  {
    InvariantReached(first, steps, c);
    AwaitsWhatWasScheduled(c.w.pc, LastScheduled(c.log));
    LoadedDecides(c.w, id, status);
    assert c.log + ([Loaded(id, status)] + AfterLoading(status)) == c.log + [Loaded(id, status)] + AfterLoading(status);
  }

  function AfterLoading(status: string): seq<Event> {
    if status == "approved" then [Scheduled(ExecuteRun)]
    else if status == "rejected" then [Scheduled(RejectRun("approval_rejected"))]
    else if status == "expired" then [Scheduled(RejectRun("approval_expired"))]
    else []
  }

  lemma LoadedDecides(w: Workflow, id: string, status: string)
    ensures var turn := ApprovalLoaded(w, id, status);
            && turn.events == [Loaded(id, status)] + AfterLoading(status) && turn.w.pc != ContinuingAsNew
            && (turn.w.pc == AwaitingApproval <==> status != "approved" && status != "rejected" && status != "expired")
  {
    if status == "rejected" { assert "approval_" + status == "approval_rejected"; }
    if status == "expired" { assert "approval_" + status == "approval_expired"; }
  }

  /** A turn that looks at the control signals: the run begins again, an Activity before a gate has
      completed, or a wait is over. */
  predicate LooksAtControl(c: Chain, input: Input) {
    || (input == TaskStarted && c.command.continuationCount != 0)
    || (input.Completed? && LastScheduled(c.log) in {Some(PrepareRun), Some(ExecuteRun)})
    || input == Woken
  }

  /** Cancelling goes before a takeover, a takeover before a pause, and each carries the reason last
      given for it in the present run. */
  lemma ControlDecides(first: GoalRunInput, steps: seq<Step>, c: Chain, input: Input)
    requires Reaches(first, steps, c) && Possible(c, Proceed(input)) && LooksAtControl(c, input)
    ensures var next := After(c, Proceed(input));
            if CancelAsked(c.log).Some? then next.log == c.log + [Scheduled(CancelRun(CancelAsked(c.log).value))]
            else if TakeOverAsked(c.log).Some? then next.log == c.log + [Scheduled(TakeOverRun(TakeOverAsked(c.log).value))]
            else if PauseAsked(c.log) then next.log == c.log && next.w.pc.PausedAt? && next.w.phase == "paused"
            else PassesOn(c, input, next)
  {
    InvariantReached(first, steps, c);
    assert c.log + [] == c.log;
    if ControlPending(c.w) {
      PendingDecides(c, input);
    } else {
      NoneDecides(c, input);
    }
  }

  lemma PendingDecides(c: Chain, input: Input)
    requires Inv(c) && Possible(c, Proceed(input)) && LooksAtControl(c, input) && ControlPending(c.w)
    ensures var next := After(c, Proceed(input));
            if c.w.cancelReason.Some? then next.log == c.log + [Scheduled(CancelRun(c.w.cancelReason.value))]
            else if c.w.takeoverReason.Some? then next.log == c.log + [Scheduled(TakeOverRun(c.w.takeoverReason.value))]
            else next.log == c.log && next.w.pc.PausedAt? && next.w.phase == "paused"
  {
    assert c.log + [] == c.log;
  }

  lemma NoneDecides(c: Chain, input: Input)
    requires Inv(c) && BegunOrBare(c) && Possible(c, Proceed(input)) && LooksAtControl(c, input) && !ControlPending(c.w)
    ensures PassesOn(c, input, After(c, Proceed(input)))
  {
    assert c.log + [] == c.log;
  }

  /** What a run with no control pending does next. */
  predicate PassesOn(c: Chain, input: Input, next: Chain) {
    if !c.w.pc.PausedAt? && !c.w.pc.AwaitingApproval? && !c.w.pc.AwaitingProgress? then
      if LastScheduled(c.log) == Some(ExecuteRun) then next.log == c.log + [Scheduled(EvaluateRun)] else Starts(c, next)
    else
      match c.w.pc
      case PausedAt(AtStart) => Starts(c, next)
      case PausedAt(AfterExecute) => next.log == c.log + [Scheduled(EvaluateRun)]
      case PausedAt(AtProgress) => Continues(c, next)
      case AwaitingProgress(_) => Continues(c, next)
      case _ =>
        match ApprovalAsked(c.log)
        case Some(id) => next.log == c.log + [Scheduled(LoadApproval(id))]
        case None => next == c.(log := c.log + [TaskFailed])
  }

  /** The run awaits its approval or, needing none, executes. */
  predicate Starts(c: Chain, next: Chain) {
    if c.command.requiresApproval
    then next.log == c.log && next.w.pc == AwaitingApproval && next.w.phase == "awaiting_approval"
    else next.log == c.log + [Scheduled(ExecuteRun)]
  }

  /** The run is continued as a new one, approved and counted, unless the limit is reached. */
  predicate Continues(c: Chain, next: Chain) {
    if c.command.continuationCount >= c.command.maxContinuations
    then next.log == c.log + [Scheduled(RejectRun("continue_as_new_limit_exhausted"))]
    else
      && next.command == c.command.(requiresApproval := false, continuationCount := c.command.continuationCount + 1)
      && next.w == Workflow(None, None, None, false, 0, "pending", Created)
      && next.log == c.log + [ContinuedAsNew]
  }

  /** The other ends of an await: a first run prepares, a deadline rejects whatever is awaited, and a
      failing Activity ends the run. */
  lemma OtherEndsDecide(first: GoalRunInput, steps: seq<Step>, c: Chain, input: Input)
    requires Reaches(first, steps, c) && Possible(c, Proceed(input))
    ensures input == TaskStarted && c.command.continuationCount == 0 ==>
              After(c, Proceed(input)).log == c.log + [Scheduled(PrepareRun)]
    ensures input == TimedOut ==>
              After(c, Proceed(input)).log == c.log + [Scheduled(RejectRun("goal_business_deadline_expired"))]
    ensures input == Failed ==> After(c, Proceed(input)) == c.(w := c.w.(pc := ActivityFailed))
  {
    assert c.log + [] == c.log;
  }

  /** When a wait may end: a pause on a resume, cancel or takeover; the approval wait on an approval or
      any control signal; the progress wait on a resume since the evaluation or any control signal. */
  lemma WakesExactly(first: GoalRunInput, steps: seq<Step>, c: Chain)
    requires Reaches(first, steps, c)
    ensures Possible(c, Proceed(Woken)) <==>
            var terminal := CancelAsked(c.log).Some? || TakeOverAsked(c.log).Some?;
            match c.w.pc
            case PausedAt(_) => terminal || !PauseAsked(c.log)
            case AwaitingApproval => terminal || PauseAsked(c.log) || ApprovalAsked(c.log).Some?
            case AwaitingProgress(observed) => terminal || PauseAsked(c.log) || Resumes(c.log) > observed
            case _ => false
  {
    InvariantReached(first, steps, c);
  }

  /** No unfinished run is stuck: one that has not begun can, the deadline can end every wait, and every
      Activity, which no deadline of the workflow ends, can complete with any result or fail. */
  lemma NeverStuck(first: GoalRunInput, steps: seq<Step>, c: Chain, result: string)
    requires Reaches(first, steps, c) && !Finished(c.w.pc)
    ensures match c.w.pc
            case Created => Possible(c, Proceed(TaskStarted))
            case PausedAt(_) => Possible(c, Proceed(TimedOut))
            case AwaitingApproval => Possible(c, Proceed(TimedOut))
            case AwaitingProgress(_) => Possible(c, Proceed(TimedOut))
            case _ =>
              && LastScheduled(c.log).Some? && Possible(c, Proceed(Completed(result))) && Possible(c, Proceed(Failed))
              && !Possible(c, Proceed(TimedOut)) && !Possible(c, Proceed(TaskStarted))
  {
    InvariantReached(first, steps, c);
  }

  /** What `current_phase` shows in every reachable state. */
  lemma PhaseShown(first: GoalRunInput, steps: seq<Step>, c: Chain)
    requires Reaches(first, steps, c)
    ensures ShowsPhase(c.w)
  {
    InvariantReached(first, steps, c);
  }
}
