/** GoalRunWorkflow as the structured program it is: a run method with its loops and its recursion,
    signal handlers that change the fields at any await, and a service that wakes it.

    The program runs against a script of signals and of ends of awaits, and is proved to go through
    exactly the states of the program-counter machine of `GoalRunSpec`, event by event. */
module GoalRunObject {
  import opened Basics
  import opened GoalRunSpec
  import GoalRunTheorems

  // ---------------------------------------------------------------- the machine on a script

  /** The machine driven by a script; what cannot happen at its place in the script is ignored. */
  function Play(c: Chain, script: seq<Step>): Chain {
    if script == [] then c
    else
      var before, step := Play(c, script[..|script| - 1]), script[|script| - 1];
      if Possible(before, step) then After(before, step) else before
  }

  lemma PlayNext(c: Chain, script: seq<Step>, i: nat)
    requires i < |script|
    ensures var before := Play(c, script[..i]);
            Play(c, script[..i + 1]) == if Possible(before, script[i]) then After(before, script[i]) else before
  {
    assert script[..i + 1][..i] == script[..i];
  }

  /** The i-th step of the script leads from one state of the machine to the next. */
  predicate Link(states: seq<Chain>, script: seq<Step>, i: nat)
    requires |states| == |script| + 1 && i < |script|
  {
    states[i + 1] == if Possible(states[i], script[i]) then After(states[i], script[i]) else states[i]
  }

  predicate Follows(states: seq<Chain>, script: seq<Step>) {
    |states| == |script| + 1 && forall i | 0 <= i < |script| :: Link(states, script, i)
  }

  /** The states the machine goes through. */
  ghost function Course(c: Chain, script: seq<Step>): (states: seq<Chain>)
    ensures Follows(states, script) && states[0] == c && states[|script|] == Play(c, script)
  {
    var states := seq(|script| + 1, i requires 0 <= i <= |script| => Play(c, script[..i]));
    assert forall i | 0 <= i < |script| :: Link(states, script, i) by {
      forall i | 0 <= i < |script| ensures Link(states, script, i) { PlayNext(c, script, i); }
    }
    assert script[..|script|] == script;
    states
  }

  lemma {:induction false} FinishedStays(states: seq<Chain>, script: seq<Step>, i: nat)
    requires Follows(states, script) && i <= |script| && Finished(states[i].w.pc)
    ensures states[|script|] == states[i]
    decreases |script| - i
  {
    if i < |script| {
      assert Link(states, script, i);
      FinishedStays(states, script, i + 1);
    }
  }

  /** Whatever the script, the machine ends in a reachable state of the chain. */
  lemma {:induction false} PlayedIsReachable(first: GoalRunInput, script: seq<Step>) returns (steps: seq<Step>)
    ensures Reaches(first, steps, Play(StartOf(first), script))
    decreases |script|
  {
    if script == [] {
      return [];
    }
    var before, step := Play(StartOf(first), script[..|script| - 1]), script[|script| - 1];
    steps := PlayedIsReachable(first, script[..|script| - 1]);
    if Possible(before, step) {
      GoalRunTheorems.ReachesNext(first, steps, before, step);
      steps := steps + [step];
    }
  }

  /** And every reachable state is where some script leads. */
  lemma {:induction false} ReachedIsPlayed(first: GoalRunInput, steps: seq<Step>, c: Chain)
    requires Reaches(first, steps, c)
    ensures Play(StartOf(first), steps) == c
    decreases |steps|
  {
    if steps != [] {
      var last := |steps| - 1;
      var before: Chain :| Reaches(first, steps[..last], before) && Possible(before, steps[last])
                           && c == After(before, steps[last]);
      ReachedIsPlayed(first, steps[..last], before);
    }
  }

  /** The chain once the rest of the present turn is done. */
  function Settled(command: GoalRunInput, log: seq<Event>, rest: Turn): Chain {
    if rest.w.pc == ContinuingAsNew then Chain(Continued(command), Fresh, log + rest.events)
    else Chain(command, rest.w, log + rest.events)
  }

  // ---------------------------------------------------------------- the program

  datatype Wait = Woke | Expired | WaitStopped

  /** How `_apply_control` or the approval wait ends: let through, with a terminal phase, or not at all
      because an Activity failed or nothing more happens. */
  datatype Control = Cleared | Terminal(phase: string) | Stopped

  datatype Outcome = ReturnedPhase(phase: string) | ContinuesAsNew | RunStopped

  class GoalRunWorkflow {
    const command: GoalRunInput
    const script: seq<Step>
    ghost const states: seq<Chain>

    var approvalId: Option<string>
    var cancelReason: Option<string>
    var takeoverReason: Option<string>
    var paused: bool
    var resumeGeneration: nat
    var phase: string

    /** The await at which the program last was, how far the script is, and what was recorded. */
    var pc: Pc
    var at: nat
    var log: seq<Event>

    function View(): Workflow
      reads this
    {
      Workflow(approvalId, cancelReason, takeoverReason, paused, resumeGeneration, phase, pc)
    }

    /** The machine is where the program will be once it has done the rest of its turn. */
    ghost predicate Owes(rest: Turn)
      reads this
    {
      at < |states| && states[at] == Settled(command, log, rest)
    }

    /** The script is used up, and the machine is where the program is. */
    ghost predicate Ended()
      reads this
    {
      at == |script| < |states| && states[at] == Chain(command, View(), log)
    }

    constructor (command: GoalRunInput, script: seq<Step>, at: nat, log: seq<Event>, ghost states: seq<Chain>)
      requires at < |states| && states[at] == Chain(command, Fresh, log)
      ensures this.command == command && this.script == script && this.states == states && this.at == at
      ensures View() == Fresh && Owes(Turn(Fresh, []))
    {
      this.command, this.script, this.states, this.at, this.log := command, script, states, at, log;
      approvalId, cancelReason, takeoverReason := None, None, None;
      paused, resumeGeneration, phase, pc := false, 0, "pending", Created;
      new;
      assert log + [] == log;
    }

    /** The five signal handlers. */
    method Handle(signal: Signal)
      modifies `approvalId, `cancelReason, `takeoverReason, `paused, `resumeGeneration
      ensures View() == Signalled(old(View()), signal)
    {
      match signal
      case ApprovalDecided(id) => if id != "" { approvalId := Some(id); }
      case Cancel(reason) => cancelReason := Some(OrDefault(reason, "cancelled_by_user"));
      case Pause => paused := true;
      case Resume =>
        paused := false;
        resumeGeneration := resumeGeneration + 1;
      case TakeOver(reason) => takeoverReason := Some(OrDefault(reason, "manual_takeover"));
    }

    /** Records an event of the present turn. */
    method Record(e: Event, ghost rest: Turn)
      requires rest.events != [] && rest.events[0] == e && Owes(rest)
      modifies `log
      ensures Owes(rest.(events := rest.events[1..]))
    {
      assert log + rest.events == (log + [e]) + rest.events[1..];
      log := log + [e];
    }

    /** A signal that comes in while the program is suspended. */
    method Receive(signal: Signal)
      requires Follows(states, script) && at < |script| && script[at] == Deliver(signal)
      requires Owes(Turn(View(), [])) && !Finished(pc) && pc != ContinuingAsNew
      modifies this
      ensures at == old(at) + 1 && pc == old(pc) && phase == old(phase) && Owes(Turn(View(), []))
    {
      assert log + [] == log;
      assert Link(states, script, at);
      at := at + 1;
      Handle(signal);
      log := log + [Received(signal)];
      assert log + [] == log;
    }

    /** Suspends the program until its await ends; signals are handled meanwhile. */
    method Suspend(next: Pc, condition: Workflow -> bool) returns (input: Option<Input>)
      requires Follows(states, script)
      requires Owes(Turn(View().(pc := next), [])) && !Finished(next) && next != ContinuingAsNew
      requires forall w: Workflow | w.pc == next :: condition(w) <==> MayWake(w)
      modifies this
      ensures pc == next && phase == old(phase) && old(at) <= at <= |script|
      ensures input.None? ==> Ended()
      ensures input.Some? ==> at > old(at) && Accepts(View(), input.value) && Owes(Advance(command, View(), input.value))
    {
      pc := next;
      while at < |script|
        invariant pc == next && phase == old(phase) && old(at) <= at
        invariant Owes(Turn(View(), []))
        decreases |script| - at
      {
        match script[at] {
          case Deliver(signal) => Receive(signal);
          case Proceed(input') =>
            assert log + [] == log;
            assert Link(states, script, at);
            at := at + 1;
            if Ends(input', condition) {
              return Some(input');
            }
        }
      }
      assert log + [] == log;
      input := None;
    }

    /** Whether the await ends in this way now. */
    predicate Ends(input: Input, condition: Workflow -> bool)
      reads this
    {
      match input
      case TaskStarted => pc == Created
      case Completed(_) => AwaitsActivity(pc)
      case Failed => AwaitsActivity(pc)
      case Woken => condition(View())
      case TimedOut => pc.PausedAt? || pc.AwaitingApproval? || pc.AwaitingProgress?
    }

    /** A workflow that has ended takes no notice of the rest of the script. */
    method Finish()
      requires Follows(states, script)
      requires Owes(Turn(View(), [])) && Finished(pc)
      modifies `at
      ensures Ended()
    {
      assert log + [] == log;
      FinishedStays(states, script, at);
      at := |script|;
    }

    method ReturnPhase(value: string)
      requires Follows(states, script)
      requires Owes(Return(View(), value))
      modifies `phase, `pc, `at
      ensures Ended() && pc == Returned(value) && phase == value
    {
      phase := value;
      pc := Returned(value);
      Finish();
    }

    /** `workflow.execute_activity`; a failure ends the run. */
    method ExecuteActivity(activity: Activity, next: Pc) returns (result: Option<string>)
      requires Follows(states, script)
      requires AwaitsActivity(next) && Owes(Turn(View().(pc := next), [Scheduled(activity)]))
      modifies this
      ensures old(at) <= at <= |script|
      ensures result.None? ==> Ended()
      ensures result.Some? ==> at > old(at) && pc == next && Owes(ActivityCompleted(command, View(), result.value))
    {
      Record(Scheduled(activity), Turn(View().(pc := next), [Scheduled(activity)]));
      var input := Suspend(next, _ => false);
      if input.None? {
        return None;
      }
      if input.value.Failed? {
        pc := ActivityFailed;
        Finish();
        return None;
      }
      result := Some(input.value.result);
    }

    /** `workflow.wait_condition` with the remaining time as its timeout. */
    method WaitCondition(next: Pc, condition: Workflow -> bool) returns (wait: Wait)
      requires Follows(states, script)
      requires next.PausedAt? || next.AwaitingApproval? || next.AwaitingProgress?
      requires Owes(Turn(View().(pc := next), []))
      requires forall w: Workflow | w.pc == next :: condition(w) <==> MayWake(w)
      modifies this
      ensures old(at) <= at <= |script| && pc == next && phase == old(phase)
      ensures wait == WaitStopped ==> Ended()
      ensures wait != WaitStopped ==> at > old(at)
      ensures wait == Woke ==> MayWake(View()) && Owes(Advance(command, View(), Woken))
      ensures wait == Expired ==> Owes(Expire(View()))
    {
      var input := Suspend(next, condition);
      wait := if input.None? then WaitStopped else if input.value.TimedOut? then Expired else Woke;
    }

    /** The phase in which a concluding Activity leaves the run. */
    static function PhaseAfter(next: Pc): string {
      if next.Cancelling? then "cancelled" else if next.TakingOver? then "taken_over" else "rejected"
    }

    /** Schedules a concluding Activity and returns the phase it leaves. */
    method Conclude(activity: Activity, during: string, next: Pc) returns (control: Control)
      requires Follows(states, script) && (next.Cancelling? || next.TakingOver? || next.Rejecting?)
      requires Owes(Turn(View().(phase := during, pc := next), [Scheduled(activity)]))
      modifies this
      ensures Ended() && control != Cleared
      ensures control.Terminal? ==> control.phase == PhaseAfter(next) && pc == Returned(control.phase) && phase == control.phase
    {
      phase := during;
      var done := ExecuteActivity(activity, next);
      if done.None? {
        return Stopped;
      }
      ReturnPhase(PhaseAfter(next));
      control := Terminal(PhaseAfter(next));
    }

    method RejectRunWith(reason: string) returns (control: Control)
      requires Follows(states, script)
      requires Owes(Reject(View(), reason))
      modifies this
      ensures Ended() && control != Cleared
      ensures control.Terminal? ==> pc == Returned(control.phase) && phase == control.phase
    {
      control := Conclude(RejectRun(reason), "rejecting", Rejecting);
    }

    method ExpireRun() returns (control: Control)
      requires Follows(states, script)
      requires Owes(Expire(View()))
      modifies this
      ensures Ended() && control != Cleared
      ensures control.Terminal? ==> pc == Returned(control.phase) && phase == control.phase
    {
      control := RejectRunWith("goal_business_deadline_expired");
    }

    /** One wait of the pause loop. */
    method PauseOnce(gate: Gate) returns (control: Control)
      requires Follows(states, script) && Owes(Turn(View().(phase := "paused", pc := PausedAt(gate)), []))
      modifies this
      ensures old(at) <= at <= |script|
      ensures control == Cleared ==>
                at > old(at) && pc == PausedAt(gate) && phase == "paused" && Owes(ApplyControl(command, View(), gate))
      ensures control != Cleared ==> Ended()
      ensures control.Terminal? ==> pc == Returned(control.phase) && phase == control.phase
    {
      phase := "paused";
      var wait := WaitCondition(PausedAt(gate), (w: Workflow) => !w.paused || TerminalRequested(w));
      if wait == WaitStopped {
        return Stopped;
      }
      if wait == Expired {
        control := ExpireRun();
        return;
      }
      control := Cleared;
    }

    /** `_apply_control` at one of its four places: cancellation before takeover before pause.  A
        workflow task that failed is retried from the await it was woken from, inside the pause. */
    method ApplyControlAt(gate: Gate, retried: bool) returns (control: Control)
      requires Follows(states, script)
      requires !retried ==> Owes(ApplyControl(command, View(), gate))
      requires retried ==> pc == PausedAt(gate) && phase == "paused" && !TerminalRequested(View()) && Owes(Turn(View(), []))
      modifies this
      ensures old(at) <= at <= |script|
      ensures control == Cleared ==>
                && !ControlPending(View()) && Owes(PassGate(command, View(), gate))
                && ((View() == old(View()) && !retried) || (at > old(at) && pc == PausedAt(gate) && phase == "paused"))
      ensures control != Cleared ==> Ended()
      ensures control.Terminal? ==> pc == Returned(control.phase) && phase == control.phase
      decreases |script| - at
    {
      if !retried && cancelReason.Some? {
        control := Conclude(CancelRun(cancelReason.value), "cancelling", Cancelling);
        return;
      }
      if !retried && takeoverReason.Some? {
        control := Conclude(TakeOverRun(takeoverReason.value), "taking_over", TakingOver);
        return;
      }
      var again := retried;
      while paused || again
        invariant old(at) <= at <= |script| && !TerminalRequested(View())
        invariant again ==> retried && pc == PausedAt(gate) && phase == "paused" && Owes(Turn(View(), []))
        invariant !again ==> Owes(ApplyControl(command, View(), gate))
        invariant (View() == old(View()) && again == retried) || (at > old(at) && pc == PausedAt(gate) && phase == "paused" && !again)
        decreases |script| - at
      {
        again := false;
        control := PauseOnce(gate);
        if control != Cleared {
          return;
        }
        if TerminalRequested(View()) {
          control := ApplyControlAt(gate, false);
          return;
        }
      }
      control := Cleared;
    }

    /** Control and the assertion on the approval id after a wake-up of the approval wait.  Where the
        assertion fails the workflow task fails and is retried from the pause. */
    method PassApprovalGate() returns (control: Control)
      requires Follows(states, script)
      requires Owes(ApplyControl(command, View(), AtApproval)) && (approvalId.Some? || ControlPending(View()))
      modifies this
      ensures old(at) <= at <= |script|
      ensures control == Cleared ==> approvalId.Some? && Owes(PassGate(command, View(), AtApproval))
      ensures control != Cleared ==> Ended()
      ensures control.Terminal? ==> pc == Returned(control.phase) && phase == control.phase
    {
      control := ApplyControlAt(AtApproval, false);
      while control == Cleared && approvalId.None?
        invariant old(at) <= at <= |script|
        invariant control == Cleared ==> !ControlPending(View()) && Owes(PassGate(command, View(), AtApproval))
        invariant control == Cleared && approvalId.None? ==> pc == PausedAt(AtApproval) && phase == "paused"
        invariant control != Cleared ==> Ended()
        invariant control.Terminal? ==> pc == Returned(control.phase) && phase == control.phase
        decreases |script| - at, control == Cleared
      {
        Record(TaskFailed, Turn(View(), [TaskFailed]));
        control := ApplyControlAt(AtApproval, true);
      }
    }

    /** Loads one approval; an outcome that is neither approved nor final means another round. */
    method ReviewApproval() returns (control: Control, again: bool)
      requires Follows(states, script)
      requires approvalId.Some? && Owes(PassGate(command, View(), AtApproval))
      modifies this
      ensures old(at) <= at <= |script|
      ensures again ==> at > old(at) && Owes(Turn(View().(pc := AwaitingApproval), []))
      ensures !again && control == Cleared ==> Owes(Execute(View()))
      ensures !again && control != Cleared ==> Ended()
      ensures !again && control.Terminal? ==> pc == Returned(control.phase) && phase == control.phase
    {
      var id := approvalId.value;
      approvalId := None;
      var status := ExecuteActivity(LoadApproval(id), LoadingApproval(id));
      if status.None? {
        return Stopped, false;
      }
      Record(Loaded(id, status.value), ApprovalLoaded(View(), id, status.value));
      if status.value == "approved" {
        return Cleared, false;
      }
      if status.value == "rejected" || status.value == "expired" {
        control := RejectRunWith("approval_" + status.value);
        return control, false;
      }
      control, again := Cleared, true;
    }

    /** Waits until there is an approval id and no control is pending. */
    method AwaitApprovalId() returns (control: Control)
      requires Follows(states, script) && Owes(Turn(View().(pc := AwaitingApproval), []))
      modifies this
      ensures old(at) <= at <= |script|
      ensures control == Cleared ==> approvalId.Some? && Owes(PassGate(command, View(), AtApproval))
      ensures control != Cleared ==> Ended()
      ensures control.Terminal? ==> pc == Returned(control.phase) && phase == control.phase
    {
      var wait := WaitCondition(AwaitingApproval, (w: Workflow) =>
        w.approvalId.Some? || w.cancelReason.Some? || w.takeoverReason.Some? || w.paused);
      if wait == WaitStopped {
        return Stopped;
      }
      if wait == Expired {
        control := ExpireRun();
        return;
      }
      control := PassApprovalGate();
    }

    /** `_await_authoritative_approval`. */
    method AwaitAuthoritativeApproval() returns (control: Control)
      requires Follows(states, script)
      requires Owes(Turn(View().(phase := "awaiting_approval", pc := AwaitingApproval), []))
      modifies this
      ensures old(at) <= at <= |script|
      ensures control == Cleared ==> Owes(Execute(View()))
      ensures control != Cleared ==> Ended()
      ensures control.Terminal? ==> pc == Returned(control.phase) && phase == control.phase
    {
      phase := "awaiting_approval";
      while true
        invariant old(at) <= at <= |script|
        invariant Owes(Turn(View().(pc := AwaitingApproval), []))
        decreases |script| - at
      {
        control := AwaitApprovalId();
        if control != Cleared {
          return;
        }
        var again;
        control, again := ReviewApproval();
        if !again {
          return;
        }
      }
    }

    /** `run`. */
    method Run() returns (outcome: Outcome)
      requires Follows(states, script)
      requires View() == Fresh && Owes(Turn(Fresh, []))
      modifies this
      ensures old(at) <= at <= |script|
      ensures outcome == ContinuesAsNew ==>
                at > old(at) && states[at] == Chain(Continued(command), Fresh, log)
      ensures outcome != ContinuesAsNew ==> Ended()
      ensures outcome.ReturnedPhase? ==> pc == Returned(outcome.phase) && phase == outcome.phase
    {
      var task := Suspend(Created, _ => false);
      if task.None? {
        return RunStopped;
      }
      if command.continuationCount == 0 {
        phase := "planning";
        var planned := ExecuteActivity(PrepareRun, Preparing);
        if planned.None? {
          return RunStopped;
        }
      }
      var control := ApplyControlAt(AtStart, false);
      if control != Cleared {
        return Over(control);
      }
      if command.requiresApproval {
        control := AwaitAuthoritativeApproval();
        if control != Cleared {
          return Over(control);
        }
      }
      outcome := RunExecution();
    }

    /** `run` from the execution on. */
    method RunExecution() returns (outcome: Outcome)
      requires Follows(states, script)
      requires Owes(Execute(View()))
      modifies this
      ensures old(at) <= at <= |script|
      ensures outcome == ContinuesAsNew ==>
                at > old(at) && states[at] == Chain(Continued(command), Fresh, log)
      ensures outcome != ContinuesAsNew ==> Ended()
      ensures outcome.ReturnedPhase? ==> pc == Returned(outcome.phase) && phase == outcome.phase
    {
      phase := "executing";
      var executed := ExecuteActivity(ExecuteRun, Executing);
      if executed.None? {
        return RunStopped;
      }
      var control := ApplyControlAt(AfterExecute, false);
      if control != Cleared {
        return Over(control);
      }
      phase := "evaluating";
      var result := ExecuteActivity(EvaluateRun, Evaluating);
      if result.None? {
        return RunStopped;
      }
      if result.value == "succeeded" || result.value == "failed" || result.value == "cancelled" {
        ReturnPhase(result.value);
        return ReturnedPhase(result.value);
      }
      outcome := AwaitProgress();
    }

    /** `run` from the progress wait on. */
    method AwaitProgress() returns (outcome: Outcome)
      requires Follows(states, script)
      requires Owes(Turn(View().(phase := "waiting_for_progress", pc := AwaitingProgress(resumeGeneration)), []))
      modifies this
      ensures old(at) <= at <= |script|
      ensures outcome == ContinuesAsNew ==> at > old(at) && states[at] == Chain(Continued(command), Fresh, log)
      ensures outcome != ContinuesAsNew ==> Ended()
      ensures outcome.ReturnedPhase? ==> pc == Returned(outcome.phase) && phase == outcome.phase
    {
      phase := "waiting_for_progress";
      var observed := resumeGeneration;
      var wait := WaitCondition(AwaitingProgress(observed), (w: Workflow) =>
        w.resumeGeneration > observed || w.cancelReason.Some? || w.takeoverReason.Some? || w.paused);
      if wait == WaitStopped {
        return RunStopped;
      }
      var control;
      if wait == Expired {
        control := ExpireRun();
        return Over(control);
      }
      control := ApplyControlAt(AtProgress, false);
      if control != Cleared {
        return Over(control);
      }
      outcome := ContinueOrReject();
    }

    /** The continuation limit. */
    method ContinueOrReject() returns (outcome: Outcome)
      requires Follows(states, script) && Owes(PassGate(command, View(), AtProgress))
      modifies this
      ensures old(at) <= at <= |script|
      ensures outcome == ContinuesAsNew ==> states[at] == Chain(Continued(command), Fresh, log)
      ensures outcome != ContinuesAsNew ==> Ended()
      ensures outcome.ReturnedPhase? ==> pc == Returned(outcome.phase) && phase == outcome.phase
    {
      if command.continuationCount >= command.maxContinuations {
        var control := RejectRunWith("continue_as_new_limit_exhausted");
        return Over(control);
      }
      Record(ContinuedAsNew, PassGate(command, View(), AtProgress));
      assert log + [] == log;
      outcome := ContinuesAsNew;
    }

    function Over(control: Control): Outcome
      requires control != Cleared
    {
      if control.Terminal? then ReturnedPhase(control.phase) else RunStopped
    }
  }

  /** A whole continue-as-new chain: the program, started again with the continued command as often
      as it asks, records exactly what the machine records and ends exactly where the machine ends. */
  method ExecuteChain(first: GoalRunInput, script: seq<Step>) returns (w: Workflow, log: seq<Event>)
    ensures Play(StartOf(first), script).w == w && Play(StartOf(first), script).log == log
    ensures first.requiresApproval ==> GoalRunTheorems.ExecutionsApproved(log)
    ensures Count(log, GoalRunTheorems.IsExecute) <= GoalRunTheorems.Remaining(first) + 1
  {
    ghost var states := Course(StartOf(first), script);
    var run := new GoalRunWorkflow(first, script, 0, [], states);
    var outcome := run.Run();
    while outcome == ContinuesAsNew
      invariant run.script == script && run.states == states && run.at <= |script| && fresh(run)
      invariant outcome == ContinuesAsNew ==> states[run.at] == Chain(Continued(run.command), Fresh, run.log)
      invariant outcome != ContinuesAsNew ==> run.Ended()
      decreases outcome == ContinuesAsNew, |script| - run.at
    {
      run := new GoalRunWorkflow(Continued(run.command), script, run.at, run.log, states);
      outcome := run.Run();
    }
    w, log := run.View(), run.log;
    ghost var steps := PlayedIsReachable(first, script);
    if first.requiresApproval { GoalRunTheorems.ExecutionNeedsApproval(first, steps, Play(StartOf(first), script)); }
    GoalRunTheorems.ChainIsBounded(first, steps, Play(StartOf(first), script));
  }
}
