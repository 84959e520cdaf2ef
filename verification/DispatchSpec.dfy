/** Starting one workflow per Run: the outbox dispatcher, the reconciler and the workflow
    service, as values. */
module DispatchSpec {
  import opened Basics

  datatype RunRef = RunRef(tenant: string, run: string)

  /** The risk tier comes from the Goal contract and does not change; the status does. */
  datatype RunRow = RunRow(status: string, tier: string)

  datatype Command = Command(ref: RunRef, tier: string)

  /** A Run as the reconciler read it. */
  datatype Item = Item(command: Command, status: string)

  datatype Pool = ReadPool | WritePool | HighRiskPool

  /** Tiers are compared trimmed and in lower case; `normalized` does that. */
  function PoolOf(normalized: string): Pool {
    if normalized == "critical" || normalized == "high" then HighRiskPool
    else if normalized == "medium" || normalized == "write" then WritePool
    else ReadPool
  }

  /** A worker's connection: its Temporal namespace, and the tenant and pool it is bound to. */
  datatype Control = Control(namespace: string, tenant: Option<string>, pool: Option<Pool>)

  predicate Accepts(control: Control, command: Command) {
    && (control.tenant.None? || control.tenant == Some(command.ref.tenant))
    && (control.pool.None? || control.pool == Some(PoolOf(command.tier)))
  }

  datatype Execution = Running | Closed

  /** The workflow id is fixed by tenant and Run; ids are unique per namespace only. */
  datatype Place = Place(namespace: string, ref: RunRef)

  type Executions = map<Place, Execution>

  /** What the network makes of a start call: it arrives, its answer is lost, or it never gets there. */
  datatype Delivery = Delivered | AnswerLost | NotDelivered

  function PlaceOf(control: Control, command: Command): Place {
    Place(control.namespace, command.ref)
  }

  /** `start`: refuse foreign work, create the execution unless the id was ever used, and take an
      execution still running for one's own.  False means the caller sees an exception. */
  function Start(executions: Executions, control: Control, command: Command, delivery: Delivery): (Executions, bool) {
    if !Accepts(control, command) || delivery == NotDelivered then (executions, false)
    else
      var place := PlaceOf(control, command);
      if place in executions then (executions, executions[place] == Running && delivery == Delivered)
      else (executions[place := Running], delivery == Delivered)
  }

  /** When a start call is answered with success, and what it leaves, over the fields of the worker's
      connection and of the command. */
  lemma StartExactly(executions: Executions, control: Control, command: Command, delivery: Delivery)
    ensures var high, write := command.tier in {"critical", "high"}, command.tier in {"medium", "write"};
            var pool := if high then HighRiskPool else if write then WritePool else ReadPool;
            var taken := control.tenant in {None, Some(command.ref.tenant)} && control.pool in {None, Some(pool)};
            var place := Place(control.namespace, command.ref);
            var (after, ok) := Start(executions, control, command, delivery);
            && after == (if taken && delivery != NotDelivered && place !in executions then executions[place := Running]
                         else executions)
            && (ok <==> taken && delivery == Delivered && (place in executions ==> executions[place] == Running))
  {
  }

  predicate Terminal(status: string) {
    status == "succeeded" || status == "failed" || status == "cancelled"
  }

  predicate Active(status: string) {
    status == "pending" || status == "running" || status == "awaiting_evidence"
  }

  /** An outbox event that requests a Run. */
  datatype EventRow = EventRow(ref: RunRef, published: bool)

  datatype Request = Request(event: string, command: Command)

  /** Why an event was marked published. */
  datatype Why = Started | RunMissing | RunTerminal(status: string)

  /** The request of an event, unless its Run is missing or terminal when read. */
  function LoadRequest(runs: map<RunRef, RunRow>, event: string, ref: RunRef): Result<Request, Why> {
    if ref !in runs then Err(RunMissing)
    else if Terminal(runs[ref].status) then Err(RunTerminal(runs[ref].status))
    else Ok(Request(event, Command(ref, runs[ref].tier)))
  }
}
