/** What holds of every continue-as-new chain of GoalRunWorkflow, for every signal schedule. */
module GoalRunTheorems {
  import opened Basics
  import opened GoalRunSpec

  predicate IsExecute(e: Event) { e == Scheduled(ExecuteRun) }
  predicate IsEvaluate(e: Event) { e == Scheduled(EvaluateRun) }
  predicate IsPrepare(e: Event) { e == Scheduled(PrepareRun) }
  predicate IsContinue(e: Event) { e == ContinuedAsNew }
  predicate IsResume(e: Event) { e == Received(Resume) }
  predicate IsApproved(e: Event) { e.Loaded? && e.status == "approved" }
  predicate IsTerminal(e: Event) { e.Received? && (e.signal.Cancel? || e.signal.TakeOver?) }

  function EventsOf(c: Chain, step: Step): seq<Event>
    requires Possible(c, step)
  {
    match step
    case Deliver(signal) => [Received(signal)]
    case Proceed(input) => Advance(c.command, c.w, input).events
  }

  lemma LogGrows(c: Chain, step: Step)
    requires Possible(c, step)
    ensures After(c, step).log == c.log + EventsOf(c, step)
    ensures |EventsOf(c, step)| <= 2
    ensures |EventsOf(c, step)| == 2 ==> EventsOf(c, step)[0].Loaded?
  {
    if step.Proceed? { AdvanceAtMostTwo(c.command, c.w, step.input); }
  }

  lemma ControlAtMostOne(command: GoalRunInput, w: Workflow, gate: Gate)
    ensures |ApplyControl(command, w, gate).events| <= 1
  {
  }

  lemma LoadedAtMostTwo(w: Workflow, id: string, status: string)
    ensures 1 <= |ApprovalLoaded(w, id, status).events| <= 2 && ApprovalLoaded(w, id, status).events[0].Loaded?
  {
  }

  lemma AdvanceAtMostTwo(command: GoalRunInput, w: Workflow, input: Input)
    requires Accepts(w, input)
    ensures |Advance(command, w, input).events| <= 2
    ensures |Advance(command, w, input).events| == 2 ==> Advance(command, w, input).events[0].Loaded?
  {
    match input
    case TaskStarted => ControlAtMostOne(command, w, AtStart);
    case Completed(result) =>
      match w.pc {
        case LoadingApproval(id) => LoadedAtMostTwo(w, id, result);
        case Preparing => ControlAtMostOne(command, w, AtStart);
        case Executing => ControlAtMostOne(command, w, AfterExecute);
        case _ =>
      }
    case Failed =>
    case TimedOut =>
    case Woken =>
      match w.pc {
        case PausedAt(gate) => ControlAtMostOne(command, w, gate);
        case AwaitingApproval => ControlAtMostOne(command, w, AtApproval);
        case AwaitingProgress(_) => ControlAtMostOne(command, w, AtProgress);
      }
  }

  lemma CountStep(c: Chain, step: Step, p: Event -> bool)
    requires Possible(c, step)
    ensures var events := EventsOf(c, step);
            Count(After(c, step).log, p) == Count(c.log, p)
              + (if |events| >= 1 && p(events[0]) then 1 else 0) + (if |events| == 2 && p(events[1]) then 1 else 0)
  {
    LogGrows(c, step);
    var events := EventsOf(c, step);
    if events == [] {
      assert c.log + events == c.log;
    } else if |events| == 1 {
      assert (c.log + events)[..|c.log|] == c.log;
    } else {
      var log' := c.log + events;
      assert log'[..|log'| - 1] == c.log + [events[0]];
      assert (c.log + [events[0]])[..|c.log|] == c.log;
    }
  }

  // ---------------------------------------------------------------- single steps

  /** Nothing is evaluated, continued or loaded, and no takeover begun, past a pending control
      signal; an execution is only if the signal came in while the approval was being loaded. */
  lemma GatesHold(c: Chain, input: Input)
    requires Possible(c, Proceed(input))
    ensures var events := Advance(c.command, c.w, input).events;
            && (Scheduled(EvaluateRun) in events ==> !ControlPending(c.w))
            && (ContinuedAsNew in events ==> !ControlPending(c.w))
            && ((exists id :: Scheduled(LoadApproval(id)) in events) ==> !ControlPending(c.w))
            && ((exists r :: Scheduled(TakeOverRun(r)) in events) ==> c.w.cancelReason.None?)
            && (Scheduled(ExecuteRun) in events && ControlPending(c.w)
                <==> c.w.pc.LoadingApproval? && input == Completed("approved") && ControlPending(c.w))
  {
  }

  lemma GateFailsExactly(command: GoalRunInput, w: Workflow, gate: Gate)
    ensures TaskFailed in ApplyControl(command, w, gate).events
            <==> gate == AtApproval && !ControlPending(w) && w.approvalId.None?
    ensures TaskFailed in ApplyControl(command, w, gate).events ==> ApplyControl(command, w, gate).w == w
  {
  }

  /** The assertion on the approval id fails exactly when a pause taken while awaiting approval
      ends with neither an approval nor a control signal; the state is then left as it was. */
  lemma AssertionFailsExactly(c: Chain, input: Input)
    requires Possible(c, Proceed(input))
    ensures TaskFailed in Advance(c.command, c.w, input).events
            <==> input == Woken && c.w.pc == PausedAt(AtApproval) && !ControlPending(c.w) && c.w.approvalId.None?
    ensures TaskFailed in Advance(c.command, c.w, input).events ==> Advance(c.command, c.w, input).w == c.w
  {
    GateFailsExactly(c.command, c.w, AtStart);
    GateFailsExactly(c.command, c.w, AfterExecute);
    GateFailsExactly(c.command, c.w, AtProgress);
    GateFailsExactly(c.command, c.w, AtApproval);
  }

  lemma ReachesNext(first: GoalRunInput, steps: seq<Step>, c: Chain, step: Step)
    requires Reaches(first, steps, c) && Possible(c, step)
    ensures Reaches(first, steps + [step], After(c, step))
  {
    assert (steps + [step])[..|steps|] == steps;
  }

  // ---------------------------------------------------------------- approval

  /** Before the approval of a run that needs one. */
  predicate BeforeExecution(pc: Pc) {
    || pc.Created? || pc.Preparing? || pc.AwaitingApproval? || pc.LoadingApproval?
    || (pc.PausedAt? && (pc.gate.AtStart? || pc.gate.AtApproval?))
  }

  predicate Closing(pc: Pc) {
    pc.Cancelling? || pc.TakingOver? || pc.Rejecting? || pc.ActivityFailed? || pc.Returned?
  }

  ghost predicate ExecutionsApproved(log: seq<Event>) {
    forall i | 0 <= i < |log| && IsExecute(log[i]) :: exists j | 0 <= j < i :: IsApproved(log[j])
  }

  ghost predicate ApprovalInvariant(c: Chain) {
    && ExecutionsApproved(c.log)
    && ((exists e <- c.log :: IsApproved(e))
        || (c.command.requiresApproval && (BeforeExecution(c.w.pc) || Closing(c.w.pc))))
  }

  /** The first two gates of such a run schedule no execution. */
  lemma ControlBeforeApproval(command: GoalRunInput, w: Workflow, gate: Gate)
    requires command.requiresApproval && (gate == AtStart || gate == AtApproval) && BeforeExecution(w.pc)
    ensures var turn := ApplyControl(command, w, gate);
            && |turn.events| <= 1 && (|turn.events| == 1 ==> !IsExecute(turn.events[0]) && !turn.events[0].Loaded?)
            && (BeforeExecution(turn.w.pc) || Closing(turn.w.pc))
  {
  }

  lemma ApprovalStep(c: Chain, step: Step)
    requires Possible(c, step) && (BeforeExecution(c.w.pc) || Closing(c.w.pc)) && c.command.requiresApproval
    ensures var events, c' := EventsOf(c, step), After(c, step);
            if |events| == 2 && IsApproved(events[0]) then IsExecute(events[1])
            else
              && (|events| >= 1 ==> !IsExecute(events[0]) && !IsApproved(events[0]))
              && (|events| == 2 ==> !IsExecute(events[1]) && !IsApproved(events[1]))
              && c'.command == c.command && (BeforeExecution(c'.w.pc) || Closing(c'.w.pc))
  {
    if step.Proceed? {
      match step.input
      case TaskStarted => ControlBeforeApproval(c.command, c.w, AtStart);
      case Completed(_) => if c.w.pc.Preparing? { ControlBeforeApproval(c.command, c.w, AtStart); }
      case Failed =>
      case TimedOut =>
      case Woken =>
        if c.w.pc.PausedAt? { ControlBeforeApproval(c.command, c.w, c.w.pc.gate); }
        if c.w.pc.AwaitingApproval? { ControlBeforeApproval(c.command, c.w, AtApproval); }
    }
  }

  lemma ApprovalKept(c: Chain, step: Step)
    requires Possible(c, step) && ApprovalInvariant(c)
    ensures ApprovalInvariant(After(c, step))
  {
    LogGrows(c, step);
    var events, log' := EventsOf(c, step), After(c, step).log;
    if exists e <- c.log :: IsApproved(e) {
      ApprovedStays(c.log, log');
    } else {
      ApprovalStep(c, step);
      assert forall i | 0 <= i < |c.log| :: c.log[i] in c.log && !IsExecute(c.log[i]);
      if |events| == 2 && IsApproved(events[0]) {
        assert log'[|c.log|] == events[0] && events[0] in log';
      }
      forall i | 0 <= i < |log'| && IsExecute(log'[i]) ensures exists j | 0 <= j < i :: IsApproved(log'[j]) {
        assert i >= |c.log| && log'[i] == events[i - |c.log|] && log'[i] in events;
        assert IsApproved(log'[|c.log|]);
      }
    }
  }

  lemma ApprovedStays(log: seq<Event>, log': seq<Event>)
    requires log <= log' && exists e <- log :: IsApproved(e)
    requires forall i | 0 <= i < |log| && IsExecute(log[i]) :: exists j | 0 <= j < i :: IsApproved(log[j])
    ensures exists e <- log' :: IsApproved(e)
    ensures forall i | 0 <= i < |log'| && IsExecute(log'[i]) :: exists j | 0 <= j < i :: IsApproved(log'[j])
  {
    var j :| 0 <= j < |log| && IsApproved(log[j]);
    assert log'[j] == log[j] && log'[j] in log';
    forall i | 0 <= i < |log'| && IsExecute(log'[i]) ensures exists k | 0 <= k < i :: IsApproved(log'[k]) {
      if i < |log| {
        assert IsExecute(log[i]);
        var k :| 0 <= k < i && IsApproved(log[k]);
        assert IsApproved(log'[k]);
      } else {
        assert IsApproved(log'[j]);
      }
    }
  }

  /** In a chain whose first command requires approval every execution, in whichever run of the
      chain, comes after an approval was loaded as approved, although later runs no longer ask. */
  lemma {:induction false} ExecutionNeedsApproval(first: GoalRunInput, steps: seq<Step>, c: Chain)
    requires Reaches(first, steps, c) && first.requiresApproval
    ensures ApprovalInvariant(c)
    decreases |steps|
  {
    if steps != [] {
      var last := |steps| - 1;
      var before: Chain :| Reaches(first, steps[..last], before) && Possible(before, steps[last])
                           && c == After(before, steps[last]);
      ExecutionNeedsApproval(first, steps[..last], before);
      ApprovalKept(before, steps[last]);
    }
  }

  // ---------------------------------------------------------------- counting

  /** Resume signals not yet spent on a continuation. */
  predicate ResumesCover(w: Workflow, continues: nat, resumes: nat) {
    match w.pc
    case AwaitingProgress(observed) => observed <= w.resumeGeneration && continues + (w.resumeGeneration - observed) <= resumes
    case PausedAt(AtProgress) => continues <= resumes && (w.paused || continues + 1 <= resumes)
    case _ => continues <= resumes
  }

  ghost predicate CountsOk(first: GoalRunInput, c: Chain) {
    var executes, continues := Count(c.log, IsExecute), Count(c.log, IsContinue);
    && c.command.continuationCount == first.continuationCount + continues
    && c.command.maxContinuations == first.maxContinuations
    && (continues > 0 ==> c.command.continuationCount <= first.maxContinuations)
    && executes <= continues + (if BeforeExecution(c.w.pc) then 0 else 1)
    && ResumesCover(c.w, continues, Count(c.log, IsResume))
    && c.w.pc != ContinuingAsNew
  }

  predicate Is(events: seq<Event>, p: Event -> bool) {
    (|events| >= 1 && p(events[0])) || (|events| == 2 && p(events[1]))
  }

  lemma ControlCounts(command: GoalRunInput, w: Workflow, gate: Gate)
    requires w.pc != ContinuingAsNew
    ensures var turn := ApplyControl(command, w, gate);
            && (Is(turn.events, IsExecute) ==> gate == AtStart && turn.w.pc == Executing)
            && (Is(turn.events, IsContinue) <==> turn.w.pc == ContinuingAsNew)
            && (Is(turn.events, IsContinue) ==> gate == AtProgress && command.continuationCount < command.maxContinuations)
            && (BeforeExecution(turn.w.pc) ==> gate == AtStart || gate == AtApproval)
            && !Is(turn.events, IsResume) && |turn.events| <= 1
  {
  }

  lemma CompletedCounts(command: GoalRunInput, w: Workflow, result: string)
    requires AwaitsActivity(w.pc)
    ensures var turn := ActivityCompleted(command, w, result);
            && (Is(turn.events, IsExecute) ==> BeforeExecution(w.pc) && turn.w.pc == Executing)
            && !Is(turn.events, IsContinue) && turn.w.pc != ContinuingAsNew
            && (BeforeExecution(turn.w.pc) ==> BeforeExecution(w.pc))
            && !Is(turn.events, IsResume)
            && (|turn.events| == 2 ==> turn.events[0].Loaded?)
  {
    match w.pc
    case Preparing => ControlCounts(command, w, AtStart);
    case Executing => ControlCounts(command, w, AfterExecute);
    case _ =>
  }

  /** What a turn can add, and what it then leaves the workflow waiting for. */
  lemma ProceedCounts(c: Chain, input: Input)
    requires Possible(c, Proceed(input)) && c.w.pc != ContinuingAsNew
    ensures var turn := Advance(c.command, c.w, input);
            && (Is(turn.events, IsExecute) ==> BeforeExecution(c.w.pc) && turn.w.pc == Executing)
            && (Is(turn.events, IsContinue) <==> turn.w.pc == ContinuingAsNew)
            && (Is(turn.events, IsContinue) ==> !BeforeExecution(c.w.pc) && c.command.continuationCount < c.command.maxContinuations)
            && (BeforeExecution(turn.w.pc) ==> BeforeExecution(c.w.pc))
            && !Is(turn.events, IsResume)
            && (|turn.events| == 2 ==> turn.events[0].Loaded?)
  {
    match input
    case TaskStarted => ControlCounts(c.command, c.w, AtStart);
    case Completed(result) => CompletedCounts(c.command, c.w, result);
    case Failed =>
    case TimedOut =>
    case Woken =>
      match c.w.pc {
        case PausedAt(gate) => ControlCounts(c.command, c.w, gate);
        case AwaitingApproval => ControlCounts(c.command, c.w, AtApproval);
        case AwaitingProgress(_) => ControlCounts(c.command, c.w, AtProgress);
      }
  }

  lemma ControlResumes(command: GoalRunInput, w: Workflow, gate: Gate, continues: nat, resumes: nat)
    requires continues <= resumes && (gate == AtProgress && !w.paused ==> continues + 1 <= resumes)
    ensures var turn := ApplyControl(command, w, gate);
            if turn.w.pc == ContinuingAsNew && w.pc != ContinuingAsNew then continues + 1 <= resumes
            else turn.w.pc == w.pc || ResumesCover(turn.w, continues, resumes)
  {
  }

  lemma ProceedResumes(c: Chain, input: Input, continues: nat, resumes: nat)
    requires Possible(c, Proceed(input)) && ResumesCover(c.w, continues, resumes)
    ensures var turn := Advance(c.command, c.w, input);
            if turn.w.pc == ContinuingAsNew && c.w.pc != ContinuingAsNew then continues + 1 <= resumes
            else ResumesCover(turn.w, continues, resumes)
  {
    match input
    case TaskStarted => ControlResumes(c.command, c.w, AtStart, continues, resumes);
    case Completed(_) =>
      ControlResumes(c.command, c.w, AtStart, continues, resumes);
      ControlResumes(c.command, c.w, AfterExecute, continues, resumes);
    case Failed =>
    case TimedOut =>
    case Woken =>
  }

  lemma SignalResumes(w: Workflow, signal: Signal, continues: nat, resumes: nat)
    requires ResumesCover(w, continues, resumes)
    ensures Signalled(w, signal).pc == w.pc
    ensures ResumesCover(Signalled(w, signal), continues, resumes + (if signal == Resume then 1 else 0))
  {
  }

  lemma DeliveryKeepsCounts(first: GoalRunInput, c: Chain, signal: Signal)
    requires Possible(c, Deliver(signal)) && CountsOk(first, c)
    ensures CountsOk(first, After(c, Deliver(signal)))
  {
    DeliveryCount(c, signal, IsExecute);
    DeliveryCount(c, signal, IsContinue);
    DeliveryCount(c, signal, IsResume);
    SignalResumes(c.w, signal, Count(c.log, IsContinue), Count(c.log, IsResume));
  }

  lemma DeliveryCount(c: Chain, signal: Signal, p: Event -> bool)
    requires Possible(c, Deliver(signal))
    ensures Count(After(c, Deliver(signal)).log, p) == Count(c.log, p) + (if p(Received(signal)) then 1 else 0)
  {
    CountStep(c, Deliver(signal), p);
  }

  /** What a turn adds to a count: its own events of that kind, of which there is at most one. */
  lemma ProceedCount(c: Chain, input: Input, p: Event -> bool)
    requires Possible(c, Proceed(input)) && forall e: Event :: e.Loaded? ==> !p(e)
    ensures Count(After(c, Proceed(input)).log, p)
            == Count(c.log, p) + (if Is(Advance(c.command, c.w, input).events, p) then 1 else 0)
  {
    CountStep(c, Proceed(input), p);
    AdvanceAtMostTwo(c.command, c.w, input);
  }

  lemma ProceedKeepsCounts(first: GoalRunInput, c: Chain, input: Input)
    requires Possible(c, Proceed(input)) && CountsOk(first, c)
    ensures CountsOk(first, After(c, Proceed(input)))
  {
    ProceedCount(c, input, IsExecute);
    ProceedCount(c, input, IsContinue);
    ProceedCount(c, input, IsResume);
    ProceedCounts(c, input);
    ProceedResumes(c, input, Count(c.log, IsContinue), Count(c.log, IsResume));
    CountsFollow(first, c, Advance(c.command, c.w, input), After(c, Proceed(input)));
  }

  /** The bookkeeping of one turn, whatever the turn did. */
  lemma CountsFollow(first: GoalRunInput, c: Chain, turn: Turn, c': Chain)
    requires CountsOk(first, c)
    requires c'.command == (if turn.w.pc == ContinuingAsNew then Continued(c.command) else c.command)
    requires c'.w == (if turn.w.pc == ContinuingAsNew then Fresh else turn.w)
    requires Count(c'.log, IsExecute) == Count(c.log, IsExecute) + (if Is(turn.events, IsExecute) then 1 else 0)
    requires Count(c'.log, IsContinue) == Count(c.log, IsContinue) + (if Is(turn.events, IsContinue) then 1 else 0)
    requires Count(c'.log, IsResume) == Count(c.log, IsResume)
    requires Is(turn.events, IsExecute) ==> BeforeExecution(c.w.pc) && turn.w.pc == Executing
    requires Is(turn.events, IsContinue) <==> turn.w.pc == ContinuingAsNew
    requires Is(turn.events, IsContinue) ==>
               !BeforeExecution(c.w.pc) && c.command.continuationCount < c.command.maxContinuations
    requires BeforeExecution(turn.w.pc) ==> BeforeExecution(c.w.pc)
    requires if turn.w.pc == ContinuingAsNew then Count(c.log, IsContinue) + 1 <= Count(c.log, IsResume)
             else ResumesCover(turn.w, Count(c.log, IsContinue), Count(c.log, IsResume))
    ensures CountsOk(first, c')
  {
  }

  lemma CountsKept(first: GoalRunInput, c: Chain, step: Step)
    requires Possible(c, step) && CountsOk(first, c)
    ensures CountsOk(first, After(c, step))
  {
    match step
    case Deliver(signal) => DeliveryKeepsCounts(first, c, signal);
    case Proceed(input) => ProceedKeepsCounts(first, c, input);
  }

  lemma {:induction false} CountsHold(first: GoalRunInput, steps: seq<Step>, c: Chain)
    requires Reaches(first, steps, c)
    ensures CountsOk(first, c)
    decreases |steps|
  {
    if steps != [] {
      var last := |steps| - 1;
      var before: Chain :| Reaches(first, steps[..last], before) && Possible(before, steps[last])
                           && c == After(before, steps[last]);
      CountsHold(first, steps[..last], before);
      CountsKept(first, before, steps[last]);
    }
  }

  function Remaining(first: GoalRunInput): nat {
    if first.maxContinuations > first.continuationCount then first.maxContinuations - first.continuationCount else 0
  }

  /** A chain continues as new at most as often as its limit leaves and as resume signals came
      in, and executes at most once more than that. */
  lemma ChainIsBounded(first: GoalRunInput, steps: seq<Step>, c: Chain)
    requires Reaches(first, steps, c)
    ensures Count(c.log, IsContinue) <= Remaining(first)
    ensures Count(c.log, IsExecute) <= Remaining(first) + 1
    ensures Count(c.log, IsExecute) <= 1 + Count(c.log, IsResume)
  {
    CountsHold(first, steps, c);
  }

  // ---------------------------------------------------------------- preparation and results

  ghost predicate PreparedInFirstRun(log: seq<Event>) {
    forall i | 0 <= i < |log| && IsPrepare(log[i]) :: Count(log[..i], IsContinue) == 0
  }

  predicate ResultShown(w: Workflow) {
    w.pc.Returned? ==> w.phase == w.pc.value
                       && w.pc.value in {"succeeded", "failed", "cancelled", "taken_over", "rejected"}
  }

  lemma ProceedPrepares(c: Chain, input: Input)
    requires Possible(c, Proceed(input))
    ensures var turn := Advance(c.command, c.w, input);
            && (Is(turn.events, IsPrepare) <==> input == TaskStarted && c.command.continuationCount == 0)
            && (Is(turn.events, IsPrepare) ==> |turn.events| == 1)
            && (ResultShown(c.w) ==> ResultShown(turn.w))
  {
  }

  lemma PreparedKept(c: Chain, step: Step)
    requires Possible(c, step) && PreparedInFirstRun(c.log)
    requires Count(c.log, IsContinue) > 0 ==> c.command.continuationCount != 0
    ensures PreparedInFirstRun(After(c, step).log)
  {
    LogGrows(c, step);
    var log', events := After(c, step).log, EventsOf(c, step);
    if step.Proceed? { ProceedPrepares(c, step.input); }
    forall i | 0 <= i < |log'| && IsPrepare(log'[i]) ensures Count(log'[..i], IsContinue) == 0 {
      if i < |c.log| {
        assert log'[..i] == c.log[..i];
      } else {
        assert log'[i] == events[i - |c.log|];
        assert log'[..|c.log|] == c.log;
      }
    }
  }

  /** `prepare_run` belongs to the first run of a chain, and what a run returns is its phase. */
  lemma {:induction false} PreparedOnceAndResultShown(first: GoalRunInput, steps: seq<Step>, c: Chain)
    requires Reaches(first, steps, c) && first.continuationCount >= 0
    ensures PreparedInFirstRun(c.log) && ResultShown(c.w)
    decreases |steps|
  {
    if steps != [] {
      var last := |steps| - 1;
      var before: Chain :| Reaches(first, steps[..last], before) && Possible(before, steps[last])
                           && c == After(before, steps[last]);
      PreparedOnceAndResultShown(first, steps[..last], before);
      CountsHold(first, steps[..last], before);
      PreparedKept(before, steps[last]);
      if steps[last].Proceed? { ProceedPrepares(before, steps[last].input); }
    }
  }

  // ---------------------------------------------------------------- after a cancel or takeover

  predicate HasTerminal(log: seq<Event>) {
    exists e <- log :: IsTerminal(e)
  }

  /** Events satisfying `p` that come after some cancel or takeover signal. */
  function Since(log: seq<Event>, p: Event -> bool): nat {
    if log == [] then 0
    else
      var before := log[..|log| - 1];
      Since(before, p) + (if HasTerminal(before) && p(log[|log| - 1]) then 1 else 0)
  }

  predicate IsForward(e: Event) {
    IsEvaluate(e) || IsContinue(e) || (e.Scheduled? && e.activity.LoadApproval?)
  }

  predicate MayHaveExecuted(pc: Pc) {
    pc.Executing? || pc.Cancelling? || pc.TakingOver? || pc.Returned? || pc.ActivityFailed?
  }

  ghost predicate TerminalOk(c: Chain) {
    HasTerminal(c.log) ==>
      && TerminalRequested(c.w)
      && Since(c.log, IsForward) == 0
      && Since(c.log, IsExecute) <= (if MayHaveExecuted(c.w.pc) then 1 else 0)
  }

  lemma SinceAppend(log: seq<Event>, e: Event, p: Event -> bool)
    ensures HasTerminal(log + [e]) <==> HasTerminal(log) || IsTerminal(e)
    ensures Since(log + [e], p) == Since(log, p) + (if HasTerminal(log) && p(e) then 1 else 0)
  {
    assert (log + [e])[..|log|] == log;
    assert forall f <- log :: f in log + [e];
    assert e in log + [e];
  }

  lemma SinceStep(c: Chain, step: Step, p: Event -> bool)
    requires Possible(c, step)
    ensures var events := EventsOf(c, step);
            && (HasTerminal(After(c, step).log) <==> HasTerminal(c.log) || Is(events, IsTerminal))
            && (HasTerminal(c.log) ==>
                  Since(After(c, step).log, p) == Since(c.log, p)
                    + (if |events| >= 1 && p(events[0]) then 1 else 0) + (if |events| == 2 && p(events[1]) then 1 else 0))
            && (!HasTerminal(c.log) && |events| <= 1 ==> Since(After(c, step).log, p) == Since(c.log, p))
  {
    LogGrows(c, step);
    var events := EventsOf(c, step);
    if events == [] {
      assert c.log + events == c.log;
    } else {
      SinceAppend(c.log, events[0], p);
      if |events| == 1 {
        assert events == [events[0]];
      } else {
        SinceAppend(c.log + [events[0]], events[1], p);
        assert c.log + events == c.log + [events[0]] + [events[1]];
      }
    }
  }

  lemma {:induction false} NothingSinceNothing(log: seq<Event>, p: Event -> bool)
    requires !HasTerminal(log)
    ensures Since(log, p) == 0
    decreases |log|
  {
    if log != [] {
      assert forall e <- log[..|log| - 1] :: e in log;
      NothingSinceNothing(log[..|log| - 1], p);
    }
  }

  /** What a turn may do once a cancel or takeover has been asked for. */
  predicate StaysTerminal(w: Workflow, turn: Turn) {
    && TerminalRequested(turn.w) && turn.w.pc != ContinuingAsNew
    && !Is(turn.events, IsForward)
    && (Is(turn.events, IsExecute) ==> w.pc.LoadingApproval? && turn.w.pc.Executing?)
    && (MayHaveExecuted(w.pc) ==> MayHaveExecuted(turn.w.pc))
    && (|turn.events| == 2 ==> !IsExecute(turn.events[0]))
  }

  lemma ControlUnderTerminal(command: GoalRunInput, w: Workflow, gate: Gate)
    ensures !Is(ApplyControl(command, w, gate).events, IsTerminal)
    ensures TerminalRequested(w) ==> StaysTerminal(w, ApplyControl(command, w, gate))
  {
  }

  lemma CompletedUnderTerminal(command: GoalRunInput, w: Workflow, result: string)
    requires AwaitsActivity(w.pc)
    ensures !Is(ActivityCompleted(command, w, result).events, IsTerminal)
    ensures TerminalRequested(w) ==> StaysTerminal(w, ActivityCompleted(command, w, result))
  {
    ControlUnderTerminal(command, w, AtStart);
    ControlUnderTerminal(command, w, AfterExecute);
  }

  lemma ProceedUnderTerminal(c: Chain, input: Input)
    requires Possible(c, Proceed(input))
    ensures !Is(Advance(c.command, c.w, input).events, IsTerminal)
    ensures TerminalRequested(c.w) ==> StaysTerminal(c.w, Advance(c.command, c.w, input))
  {
    match input
    case TaskStarted => ControlUnderTerminal(c.command, c.w, AtStart);
    case Completed(result) => CompletedUnderTerminal(c.command, c.w, result);
    case Failed =>
    case TimedOut =>
    case Woken =>
      ControlUnderTerminal(c.command, c.w, if c.w.pc.PausedAt? then c.w.pc.gate
                                           else if c.w.pc.AwaitingApproval? then AtApproval else AtProgress);
  }

  lemma TerminalKept(c: Chain, step: Step)
    requires Possible(c, step) && TerminalOk(c)
    ensures TerminalOk(After(c, step))
  {
    SinceStep(c, step, IsForward);
    SinceStep(c, step, IsExecute);
    if !HasTerminal(c.log) {
      NothingSinceNothing(c.log, IsForward);
      NothingSinceNothing(c.log, IsExecute);
    }
    if step.Proceed? { ProceedUnderTerminal(c, step.input); }
  }

  /** After a cancel or takeover signal nothing more is approved, evaluated or continued, and
      at most one execution is still scheduled: the one whose approval was being loaded. */
  lemma {:induction false} ControlIsFinal(first: GoalRunInput, steps: seq<Step>, c: Chain)
    requires Reaches(first, steps, c)
    ensures Since(c.log, IsForward) == 0 && Since(c.log, IsExecute) <= 1
    ensures HasTerminal(c.log) ==> TerminalRequested(c.w)
    ensures TerminalOk(c)
    decreases |steps|
  {
    if steps != [] {
      var last := |steps| - 1;
      var before: Chain :| Reaches(first, steps[..last], before) && Possible(before, steps[last])
                           && c == After(before, steps[last]);
      ControlIsFinal(first, steps[..last], before);
      TerminalKept(before, steps[last]);
    }
    if !HasTerminal(c.log) {
      NothingSinceNothing(c.log, IsForward);
      NothingSinceNothing(c.log, IsExecute);
    }
  }

  ghost predicate Leads(c: Chain, steps: seq<Step>, c': Chain)
    decreases |steps|
  {
    if steps == [] then c' == c
    else
      var last := |steps| - 1;
      exists before: Chain ::
        Leads(c, steps[..last], before) && Possible(before, steps[last]) && c' == After(before, steps[last])
  }

  /** How many more awaits a run asked to cancel can still end. */
  function AwaitsLeft(pc: Pc): nat {
    match pc
    case Created => 5
    case Preparing => 2
    case PausedAt(_) => 2
    case AwaitingApproval => 2
    case LoadingApproval(_) => 3
    case Executing => 2
    case Evaluating => 3
    case AwaitingProgress(_) => 2
    case Cancelling => 1
    case TakingOver => 1
    case Rejecting => 1
    case Returned(_) => 0
    case ActivityFailed => 0
    case ContinuingAsNew => 0
  }

  /** Where a run that was at `origin` when asked to cancel may get to. */
  predicate Obeys(origin: Pc, pc: Pc) {
    && !pc.ContinuingAsNew?
    && (pc.TakingOver? ==> origin.TakingOver?)
    && (pc.Evaluating? ==> origin.Evaluating?)
    && (pc.Returned? ==>
          || pc.value == "cancelled" || pc.value == "rejected"
          || (origin.TakingOver? && pc.value == "taken_over")
          || (origin.Evaluating? && (pc.value == "succeeded" || pc.value == "failed")))
  }

  lemma CancelTurn(command: GoalRunInput, w: Workflow, input: Input, origin: Pc)
    requires Accepts(w, input) && w.cancelReason.Some? && Obeys(origin, w.pc)
    ensures var turn := Advance(command, w, input);
            && turn.w.cancelReason == w.cancelReason && Obeys(origin, turn.w.pc)
            && AwaitsLeft(turn.w.pc) < AwaitsLeft(w.pc)
  {
  }

  lemma CancelStep(c: Chain, step: Step, origin: Pc)
    requires Possible(c, step) && c.w.cancelReason.Some? && Obeys(origin, c.w.pc)
    ensures var after := After(c, step);
            && after.command == c.command && after.w.cancelReason.Some? && Obeys(origin, after.w.pc)
            && (if step.Proceed? then 1 else 0) + AwaitsLeft(after.w.pc) <= AwaitsLeft(c.w.pc)
  {
    match step
    case Deliver(_) =>
    case Proceed(input) => CancelTurn(c.command, c.w, input, origin);
  }

  function Awaits(steps: seq<Step>): nat {
    if steps == [] then 0 else Awaits(steps[..|steps| - 1]) + (if steps[|steps| - 1].Proceed? then 1 else 0)
  }

  /** Once a run has been asked to cancel it never continues as new; whatever happens, it ends after
      at most five more awaits; and it ends cancelled, rejected or by a failing Activity, unless a
      takeover or an evaluation was under way, whose outcome then stands. */
  lemma {:induction false} CancelIsObeyed(c: Chain, steps: seq<Step>, c': Chain)
    requires c.w.cancelReason.Some? && !Finished(c.w.pc) && c.w.pc != ContinuingAsNew
    requires Leads(c, steps, c')
    ensures c'.command == c.command && c'.w.cancelReason.Some? && Obeys(c.w.pc, c'.w.pc)
    ensures Awaits(steps) + AwaitsLeft(c'.w.pc) <= AwaitsLeft(c.w.pc) <= 5
    decreases |steps|
  {
    if steps != [] {
      var last := |steps| - 1;
      var before: Chain :| Leads(c, steps[..last], before) && Possible(before, steps[last])
                           && c' == After(before, steps[last]);
      CancelIsObeyed(c, steps[..last], before);
      CancelStep(before, steps[last], c.w.pc);
    }
  }

  /** And it can always go on: until it has ended some await can end. */
  lemma CancelCanGoOn(c: Chain)
    requires c.w.cancelReason.Some? && !Finished(c.w.pc) && c.w.pc != ContinuingAsNew
    ensures exists input :: Possible(c, Proceed(input))
  {
    var input := if c.w.pc == Created then TaskStarted else if AwaitsActivity(c.w.pc) then Completed("done") else Woken;
    assert Possible(c, Proceed(input));
  }

  // ---------------------------------------------------------------- two schedules worth knowing

  /** The run of a command that needs approval, up to its approval wait. */
  lemma ToApprovalWait(first: GoalRunInput) returns (steps: seq<Step>, c: Chain)
    requires first.requiresApproval && first.continuationCount == 0
    ensures Reaches(first, steps, c)
    ensures c.command == first && c.w == Fresh.(phase := "awaiting_approval", pc := AwaitingApproval)
  {
    ReachesNext(first, [], StartOf(first), Proceed(TaskStarted));
    var c1 := After(StartOf(first), Proceed(TaskStarted));
    ReachesNext(first, [] + [Proceed(TaskStarted)], c1, Proceed(Completed("planned")));
    c := After(c1, Proceed(Completed("planned")));
    steps := [] + [Proceed(TaskStarted)] + [Proceed(Completed("planned"))];
  }

  /** Pausing and resuming while approval is awaited reaches the failing assertion, and a later
      approval lets the very same wait go on. */
  lemma PauseResumeFailsTheTask(first: GoalRunInput) returns (steps: seq<Step>, c: Chain)
    requires first.requiresApproval && first.continuationCount == 0
    ensures Reaches(first, steps, c) && Possible(c, Proceed(Woken))
    ensures TaskFailed in Advance(c.command, c.w, Woken).events
    ensures var approved := Signalled(c.w, ApprovalDecided("approval"));
            Accepts(approved, Woken) && Advance(c.command, approved, Woken).w.pc == LoadingApproval("approval")
  {
    var s0, c0 := ToApprovalWait(first);
    ReachesNext(first, s0, c0, Deliver(Pause));
    var c1 := After(c0, Deliver(Pause));
    ReachesNext(first, s0 + [Deliver(Pause)], c1, Proceed(Woken));
    var c2 := After(c1, Proceed(Woken));
    ReachesNext(first, s0 + [Deliver(Pause)] + [Proceed(Woken)], c2, Deliver(Resume));
    c := After(c2, Deliver(Resume));
    steps := s0 + [Deliver(Pause)] + [Proceed(Woken)] + [Deliver(Resume)];
  }

  lemma ToApprovalLoad(first: GoalRunInput) returns (steps: seq<Step>, c: Chain)
    requires first.requiresApproval && first.continuationCount == 0
    ensures Reaches(first, steps, c)
    ensures c.command == first && c.w == Fresh.(phase := "awaiting_approval", pc := LoadingApproval("a"))
  {
    var s0, c0 := ToApprovalWait(first);
    var decided := Deliver(ApprovalDecided("a"));
    ReachesNext(first, s0, c0, decided);
    var c1 := After(c0, decided);
    ReachesNext(first, s0 + [decided], c1, Proceed(Woken));
    steps, c := s0 + [decided] + [Proceed(Woken)], After(c1, Proceed(Woken));
  }

  /** A cancel that comes in while the approval is loaded does not stop the execution. */
  lemma CancelDuringLoadStillExecutes(first: GoalRunInput) returns (steps: seq<Step>, c: Chain)
    requires first.requiresApproval && first.continuationCount == 0
    ensures Reaches(first, steps, c)
    ensures c.w.pc == Executing && c.w.cancelReason == Some("stop") && Since(c.log, IsExecute) == 1
  {
    var s1, c1 := ToCancelDuringLoad(first);
    var approved := Proceed(Completed("approved"));
    ReachesNext(first, s1, c1, approved);
    steps, c := s1 + [approved], After(c1, approved);
    ControlIsFinal(first, steps, c);
    SinceStep(c1, approved, IsExecute);
  }

  lemma ToCancelDuringLoad(first: GoalRunInput) returns (steps: seq<Step>, c: Chain)
    requires first.requiresApproval && first.continuationCount == 0
    ensures Reaches(first, steps, c) && HasTerminal(c.log)
    ensures c.w.pc == LoadingApproval("a") && c.w.cancelReason == Some("stop")
  {
    var s0, c0 := ToApprovalLoad(first);
    var cancel := Deliver(Cancel("stop"));
    ReachesNext(first, s0, c0, cancel);
    steps, c := s0 + [cancel], After(c0, cancel);
    SinceAppend(c0.log, Received(Cancel("stop")), IsExecute);
  }
}
