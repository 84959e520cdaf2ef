/** GoalRunWorkflow as a state machine.

    The durable workflow runs until it awaits something: an Activity, or a condition over its
    own fields with a deadline.  One `Advance` is everything it does from the end of one await
    to the start of the next; signals are delivered only in between, any number of them. */
module GoalRunSpec {
  import opened Basics

  datatype GoalRunInput = GoalRunInput(
    tenant: string, goal: string, run: string, deadline: int,
    requiresApproval: bool, riskTier: string, continuationCount: int, maxContinuations: int)

  function Continued(command: GoalRunInput): GoalRunInput {
    command.(requiresApproval := false, continuationCount := command.continuationCount + 1)
  }

  datatype Signal =
    | ApprovalDecided(approvalId: string)
    | Cancel(reason: string)
    | Pause
    | Resume
    | TakeOver(reason: string)

  datatype Activity =
    | PrepareRun
    | LoadApproval(approvalId: string)
    | ExecuteRun
    | EvaluateRun
    | CancelRun(reason: string)
    | TakeOverRun(reason: string)
    | RejectRun(reason: string)

  /** The four places where control signals are applied. */
  datatype Gate = AtStart | AtApproval | AfterExecute | AtProgress

  /** What the workflow is awaiting, or how it has ended. */
  datatype Pc =
    | Created
    | Preparing
    | PausedAt(gate: Gate)
    | AwaitingApproval
    | LoadingApproval(approvalId: string)
    | Executing
    | Evaluating
    | AwaitingProgress(observed: nat)
    | Cancelling
    | TakingOver
    | Rejecting
    | Returned(value: string)
    | ActivityFailed
    | ContinuingAsNew

  datatype Workflow = Workflow(
    approvalId: Option<string>, cancelReason: Option<string>, takeoverReason: Option<string>,
    paused: bool, resumeGeneration: nat, phase: string, pc: Pc)

  datatype Event =
    | Received(signal: Signal)
    | Scheduled(activity: Activity)
    | Loaded(approvalId: string, status: string)
    | TaskFailed
    | ContinuedAsNew

  /** How an await ends. */
  datatype Input = TaskStarted | Completed(result: string) | Failed | Woken | TimedOut

  const Fresh := Workflow(None, None, None, false, 0, "pending", Created)

  function OrDefault(text: string, default: string): string {
    if text == "" then default else text
  }

  function Signalled(w: Workflow, signal: Signal): Workflow {
    match signal
    case ApprovalDecided(id) => if id == "" then w else w.(approvalId := Some(id))
    case Cancel(reason) => w.(cancelReason := Some(OrDefault(reason, "cancelled_by_user")))
    case Pause => w.(paused := true)
    case Resume => w.(paused := false, resumeGeneration := w.resumeGeneration + 1)
    case TakeOver(reason) => w.(takeoverReason := Some(OrDefault(reason, "manual_takeover")))
  }

  predicate TerminalRequested(w: Workflow) {
    w.cancelReason.Some? || w.takeoverReason.Some?
  }

  predicate ControlPending(w: Workflow) {
    TerminalRequested(w) || w.paused
  }

  predicate Finished(pc: Pc) {
    pc.Returned? || pc.ActivityFailed?
  }

  /** The condition a waiting workflow is woken by. */
  predicate MayWake(w: Workflow) {
    match w.pc
    case PausedAt(_) => !w.paused || TerminalRequested(w)
    case AwaitingApproval => w.approvalId.Some? || ControlPending(w)
    case AwaitingProgress(observed) => w.resumeGeneration > observed || ControlPending(w)
    case _ => false
  }

  predicate AwaitsActivity(pc: Pc) {
    pc.Preparing? || pc.LoadingApproval? || pc.Executing? || pc.Evaluating? || pc.Cancelling? || pc.TakingOver? || pc.Rejecting?
  }

  predicate Accepts(w: Workflow, input: Input) {
    match input
    case TaskStarted => w.pc == Created
    case Completed(_) => AwaitsActivity(w.pc)
    case Failed => AwaitsActivity(w.pc)
    case Woken => MayWake(w)
    case TimedOut => w.pc.PausedAt? || w.pc.AwaitingApproval? || w.pc.AwaitingProgress?
  }

  /** A state of the workflow and what was recorded on the way there. */
  datatype Turn = Turn(w: Workflow, events: seq<Event>)

  function Reject(w: Workflow, reason: string): Turn {
    Turn(w.(phase := "rejecting", pc := Rejecting), [Scheduled(RejectRun(reason))])
  }

  function Expire(w: Workflow): Turn {
    Reject(w, "goal_business_deadline_expired")
  }

  function Execute(w: Workflow): Turn {
    Turn(w.(phase := "executing", pc := Executing), [Scheduled(ExecuteRun)])
  }

  /** The code after a gate that lets the workflow through. */
  function PassGate(command: GoalRunInput, w: Workflow, gate: Gate): Turn {
    match gate
    case AtStart =>
      if command.requiresApproval then Turn(w.(phase := "awaiting_approval", pc := AwaitingApproval), [])
      else Execute(w)
    case AtApproval =>
      if w.approvalId.None? then Turn(w, [TaskFailed])
      else
        var id := w.approvalId.value;
        Turn(w.(approvalId := None, pc := LoadingApproval(id)), [Scheduled(LoadApproval(id))])
    case AfterExecute => Turn(w.(phase := "evaluating", pc := Evaluating), [Scheduled(EvaluateRun)])
    case AtProgress =>
      if command.continuationCount >= command.maxContinuations
      then Reject(w, "continue_as_new_limit_exhausted")
      else Turn(w.(pc := ContinuingAsNew), [ContinuedAsNew])
  }

  /** Cancellation before takeover before pause. */
  function ApplyControl(command: GoalRunInput, w: Workflow, gate: Gate): Turn {
    if w.cancelReason.Some? then
      Turn(w.(phase := "cancelling", pc := Cancelling), [Scheduled(CancelRun(w.cancelReason.value))])
    else if w.takeoverReason.Some? then
      Turn(w.(phase := "taking_over", pc := TakingOver), [Scheduled(TakeOverRun(w.takeoverReason.value))])
    else if w.paused then Turn(w.(phase := "paused", pc := PausedAt(gate)), [])
    else PassGate(command, w, gate)
  }

  function Begin(command: GoalRunInput, w: Workflow): Turn {
    if command.continuationCount == 0
    then Turn(w.(phase := "planning", pc := Preparing), [Scheduled(PrepareRun)])
    else ApplyControl(command, w, AtStart)
  }

  function Return(w: Workflow, value: string): Turn {
    Turn(w.(phase := value, pc := Returned(value)), [])
  }

  function ApprovalLoaded(w: Workflow, id: string, status: string): Turn {
    var next :=
      if status == "approved" then Execute(w)
      else if status == "rejected" || status == "expired" then Reject(w, "approval_" + status)
      else Turn(w.(pc := AwaitingApproval), []);
    next.(events := [Loaded(id, status)] + next.events)
  }

  function Evaluated(w: Workflow, result: string): Turn {
    if result == "succeeded" || result == "failed" || result == "cancelled" then Return(w, result)
    else Turn(w.(phase := "waiting_for_progress", pc := AwaitingProgress(w.resumeGeneration)), [])
  }

  function ActivityCompleted(command: GoalRunInput, w: Workflow, result: string): Turn
    requires AwaitsActivity(w.pc)
  {
    match w.pc
    case Preparing => ApplyControl(command, w, AtStart)
    case LoadingApproval(id) => ApprovalLoaded(w, id, result)
    case Executing => ApplyControl(command, w, AfterExecute)
    case Evaluating => Evaluated(w, result)
    case Cancelling => Return(w, "cancelled")
    case TakingOver => Return(w, "taken_over")
    case Rejecting => Return(w, "rejected")
  }

  /** From the end of one await to the start of the next.  A wake-up that reaches the assertion
      on the approval id fails the workflow task: nothing changes, and the task is retried when
      more signals have come in. */
  function Advance(command: GoalRunInput, w: Workflow, input: Input): Turn
    requires Accepts(w, input)
  {
    match input
    case TaskStarted => Begin(command, w)
    case Completed(result) => ActivityCompleted(command, w, result)
    case Failed => Turn(w.(pc := ActivityFailed), [])
    case TimedOut => Expire(w)
    case Woken =>
      match w.pc
      case PausedAt(gate) => ApplyControl(command, w, gate)
      case AwaitingApproval => ApplyControl(command, w, AtApproval)
      case AwaitingProgress(_) => ApplyControl(command, w, AtProgress)
  }

  // ---------------------------------------------------------------- the continue-as-new chain

  /** The run now executing and everything recorded since the first run began. */
  datatype Chain = Chain(command: GoalRunInput, w: Workflow, log: seq<Event>)

  datatype Step = Deliver(signal: Signal) | Proceed(input: Input)

  predicate Possible(c: Chain, step: Step) {
    match step
    case Deliver(_) => !Finished(c.w.pc)
    case Proceed(input) => Accepts(c.w, input)
  }

  function After(c: Chain, step: Step): Chain
    requires Possible(c, step)
  {
    match step
    case Deliver(signal) => Chain(c.command, Signalled(c.w, signal), c.log + [Received(signal)])
    case Proceed(input) =>
      var turn := Advance(c.command, c.w, input);
      if turn.w.pc == ContinuingAsNew then Chain(Continued(c.command), Fresh, c.log + turn.events)
      else Chain(c.command, turn.w, c.log + turn.events)
  }

  function StartOf(command: GoalRunInput): Chain {
    Chain(command, Fresh, [])
  }

  ghost predicate Reaches(first: GoalRunInput, steps: seq<Step>, c: Chain)
    decreases |steps|
  {
    if steps == [] then c == StartOf(first)
    else
      var last := |steps| - 1;
      exists before: Chain ::
        Reaches(first, steps[..last], before) && Possible(before, steps[last]) && c == After(before, steps[last])
  }

  function Count(log: seq<Event>, p: Event -> bool): nat {
    if log == [] then 0 else Count(log[..|log| - 1], p) + (if p(log[|log| - 1]) then 1 else 0)
  }
}
