# Autonoesis: verified model of the governed execution core

Autonoesis runs goals under governance. A tool call first reserves budget and an idempotency key;
a durable workflow per Run waits for approval, executes, evaluates and obeys cancel, pause and
takeover signals; a dispatcher and a reconciler start one workflow per Run; an outbox and an inbox
carry messages; an authoritative store keeps memory, audit chains, optimistic versions and evidence.
This project models those parts in Dafny and proves what they promise over every run and every
interleaving.

Run `dafny verify dfyconfig.toml` to check everything.

## How it is organised

| files | what they hold |
|---|---|
| `ReservationSpec`, `ReservationSimulation`, `ReservationAnswers`, `ReservationStores` | in-memory and SQL reservations as values, when they agree, what each request is answered after any calls, and the mutable classes that compute them |
| `ReservationConcurrency`, `ReservationTheorems` | the SQL transaction split into statements, with locks, aborts and writes from elsewhere |
| `GoalRunSpec`, `GoalRunTheorems`, `GoalRunOutcomes`, `GoalRunObject` | the workflow as a program counter with signals at every await, over whole continue-as-new chains, what each end of an await leads to, and the workflow as the structured program with fields, loops and recursion, proved to be that machine |
| `DispatchSpec`, `DispatchProtocol`, `DispatchTheorems`, `DispatchObjects` | starting one workflow per Run, with lost answers and crashes between start and mark |
| `DeliveryProtocol`, `DeliveryObjects` | outbox, relay and inbox |
| `MemoryDeletion`, `MemoryConcurrency` | transitive deletion over an arbitrary graph, with its ledger, alone and with the statements of many deletions interleaved |
| `AuditChain`, `AuditTransactions` | the per-tenant audit chain and concurrent transactions that append to it |
| `VersionedSaves` | saves under an optimistic version |
| `PackResolution`, `PackStore` | the goal-type index of installed capability packs |
| `EvidenceSpec`, `EvidenceObjects` | the versioned object store with retention and the evidence store over it |
| `JsonTree`, `TrialCodec`, `SnapshotCodec` | JSON codecs |
| `PlatformSwitch`, `PlatformListing`, `TenantSwitches` | kill switches, and the platform switch's audit listing |
| `ApprovalLatency` | pairing decisions with requests, and the 95th percentile |
| `Basics`, `Ordering` | options and results; the order of strings and of versions |

State that the program updates in place is a class whose methods are proved to compute functions of
the old state; what the program promises is then proved of those functions. Protocols are state
machines: `Enabled` says when a step may happen, `Apply` what it does, `Reaches` that a state is
reached by a sequence of steps, and the theorems quantify over all of these.  Where a promise depends
on how calls are scheduled, the machine is run under a `Guard`, any rule for which step may happen in
which state, and the theorem says for which guards the promise holds in every run.

## Where the code does not do what one might expect

Each of these is a lemma with a concrete run, beside a theorem that says exactly when the promise holds.

- The in-memory reservations are called a model of the database, yet they ignore the tool version and
  the tenant given to `complete`, and accept a repeated receipt (`ReserveAgreesExactly`,
  `CompleteAgreesExactly`, `CompleteKeepsSimulationExactly`).
- Pausing and resuming while approval is awaited reaches the assertion on the approval id
  (`AssertionFailsExactly`, `PauseResumeFailsTheTask`); a cancel during the approval load does not stop
  the execution (`GatesHold`, `CancelDuringLoadStillExecutes`).
- Two workers in different namespaces that both accept a Run execute it twice, which the shared
  dispatcher kept for migrations makes possible (`OneExecutionExactly`, `TwoExecutions`).
- An event of a live Run whose workflow has closed is not, as the comment at `dispatcher.py:265-266`
  has it, dealt with by a later poll: every start is rejected and the event stays unpublished
  (`PollPublishesExactly`, `ClosedIsNeverStarted`).
- Deleting a memory selects the live records without locking them, so two overlapping deletions write
  two delete rows for one record and count it twice (`OneDeleteRowExactly`, `DeletedTwice`).
- Saving a candidate or deployment derives the expected version, so two transitions before one save
  would overwrite another client's save; every caller makes exactly one (`NothingLostExactly`,
  `TwoTransitionsLoseAnUpdate`).
- Storing the same evidence again with a longer retention does not extend it
  (`StoredIsKeptExactly`, `LaterRetentionIsIgnored`).
- The platform switch's audit listing is ordered by clock readings taken before the transaction, so it
  need not be the history nor replay (`ListingIsHistoryExactly`, `ListingReplaysExactly`,
  `ListingNeedNotReplay`).
- Two concurrent deactivations of a tenant switch may read the same row, leaving the target blocked
  (`BalanceExactly`, `DeactivationsCanCollide`).

## Model

| member | source | states |
|---|---|---|
| `ReservationSimulation.KnownDecisionsAgreeExactly` | `packages/adapters/src/autonoesis_adapters/execution_gateway.py:435-453` | On a known key both stores give the same decision if and only if the request does not carry the known digest under another tool version, which only SQL compares |
| `ReservationSimulation.ReserveAgreesExactly` | `packages/adapters/src/autonoesis_adapters/execution_gateway.py:243-269` | From related states both `reserve` calls agree exactly when the tool versions do not differ; the states stay related either way |
| `ReservationSimulation.CompleteAgreesExactly` | `packages/adapters/src/autonoesis_adapters/execution_gateway.py:271-277` | From related states both `complete` calls succeed or fail together exactly when SQL is given the right tenant and the receipt does not repeat a stored one; the states then stay related |
| `ReservationSimulation.CompleteKeepsSimulationExactly` | `packages/adapters/src/autonoesis_adapters/execution_gateway.py:406-432` | The states stay related after `complete` if and only if it does not finalize an open reservation in another tenant's name |
| `ReservationSimulation.FinalizedOnce` | `packages/adapters/src/autonoesis_adapters/execution_gateway.py:416-432` | After a `complete` that went through, every other one for that reservation, by whoever and with whatever receipt, is refused and changes nothing |
| `ReservationSimulation.ReceiptIsStored` | `packages/adapters/src/autonoesis_adapters/execution_gateway.py:406-432` | A receipt is stored, with its own status and text, in the one open row of its reservation and tenant, whose status follows from it, and in no other |
| `ReservationSimulation.OutsideEntryAgreesExactly` | `packages/adapters/src/autonoesis_adapters/execution_gateway.py:358-369` | After other code has written to a Run's ledger, which the in-memory store does not see, a new key is decided alike if and only if that entry does not use up what the request still needs |
| `ReservationSimulation.SimulatesAfter` | `packages/adapters/src/autonoesis_adapters/execution_gateway.py:233-277` | After every prefix of a well-formed sequence of calls the two stores are still related |
| `ReservationSimulation.MemoryModelsDatabase` | `packages/adapters/src/autonoesis_adapters/execution_gateway.py:233-234` | Every call of every well-formed sequence gets the same answer from both stores, a rejected receipt coming back as failed |
| `ReservationSimulation.StepConservesBudget` | `packages/adapters/src/autonoesis_adapters/execution_gateway.py:358-369` | One call adds to a Run exactly the cost of an acquired answer and never takes it past its limit |
| `ReservationSimulation.BudgetConserved` | `packages/adapters/src/autonoesis_adapters/execution_gateway.py:358-403` | Over any sequence of calls the use of a Run grows by exactly the costs acquired and never passes the Goal limit |
| `ReservationAnswers.SqlKnownKeyAnswer` | `packages/adapters/src/autonoesis_adapters/execution_gateway.py:312-333` | After any calls, a request whose tenant and key an earlier call acquired is never acquired: it conflicts if digest or tool version differ, else it is in progress before the first receipt under its tenant, and afterwards unknown or cached as that receipt says |
| `ReservationAnswers.SqlNewKeyAnswer` | `packages/adapters/src/autonoesis_adapters/execution_gateway.py:336-403` | A request whose tenant and key no earlier call acquired is told that Run or Goal is missing or counted in another unit, or is acquired if and only if its positive cost fits what the Run's acquired costs leave of the Goal limit |
| `ReservationAnswers.MemoryKnownKeyAnswer` | `packages/adapters/src/autonoesis_adapters/execution_gateway.py:243-259` | The in-memory store answers such a request with a conflict if the digest differs, else by the first receipt given for the reservation under whatever tenant |
| `ReservationAnswers.MemoryNewKeyAnswer` | `packages/adapters/src/autonoesis_adapters/execution_gateway.py:260-269` | And a request with a new tenant and key is acquired if and only if its cost fits what the Run's acquired costs leave of the limit |
| `ReservationConcurrency.NoWaitCycle` | `packages/adapters/src/autonoesis_adapters/execution_gateway.py:315-345` | Transactions waiting for each other form no chain longer than three and no cycle: the key lock is always taken before the Run lock |
| `ReservationConcurrency.SomeoneMoves` | `packages/adapters/src/autonoesis_adapters/execution_gateway.py:309-404` | While any transaction is open some transaction can run its next statement |
| `ReservationConcurrency.LocksKept` | `packages/adapters/src/autonoesis_adapters/execution_gateway.py:315-345` | Every statement leaves each lock held by exactly the one open transaction that took it |
| `ReservationConcurrency.DataKept` | `packages/adapters/src/autonoesis_adapters/execution_gateway.py:309-404` | Every statement, outside write or abort keeps what each open transaction has read true of the committed tables |
| `ReservationConcurrency.CommitWithinCeiling` | `packages/adapters/src/autonoesis_adapters/execution_gateway.py:358-404` | A commit leaves the reservations of every Run within its Goal limit |
| `ReservationTheorems.StepIsOneCall` | `packages/adapters/src/autonoesis_adapters/execution_gateway.py:309-404` | An undisturbed statement makes at most one call visible, and that call is a whole sequential one on the committed tables |
| `ReservationTheorems.ReservationsWithinLimit` | `packages/adapters/src/autonoesis_adapters/execution_gateway.py:358-403` | In every reachable state of every interleaving a Run's reservation rows sum to exactly what was granted and to at most the Goal limit, whatever else writes to the ledger |
| `ReservationTheorems.KeyAcquiredOnce` | `packages/adapters/src/autonoesis_adapters/execution_gateway.py:312-333` | However many callers race, requests with the same tenant field and the same idempotency key field are acquired at most once between them |
| `ReservationTheorems.RepeatedKeyAnswer` | `packages/adapters/src/autonoesis_adapters/execution_gateway.py:312-333` | However calls race, once a request has acquired its tenant and key every later answer to them tells of that request and of the first receipt given for it |
| `ReservationTheorems.AloneIsReserve` | `packages/adapters/src/autonoesis_adapters/execution_gateway.py:309-404` | The statements of one transaction, run with no other open, can all be run and end in the sequential answer, its tables and no lock |
| `ReservationTheorems.DeadlockFree` | `packages/adapters/src/autonoesis_adapters/execution_gateway.py:315-345` | No reachable state has a cycle of waiting transactions, and some transaction can always move |
| `ReservationTheorems.Serializable` | `packages/adapters/src/autonoesis_adapters/execution_gateway.py:288-289` | Executions in which no open transaction was disturbed from outside are serializable: tables and answers are those of the logged calls made one after the other |
| `ReservationTheorems.SerializableWithOutsideEntries` | `packages/adapters/src/autonoesis_adapters/execution_gateway.py:336-369` | Ledger entries written by other code never disturb: unless a key is bound from outside, tables and answers are those of the calls and entries made one after the other |
| `ReservationTheorems.WholeLedgerWithinLimitAtCommit` | `packages/adapters/src/autonoesis_adapters/execution_gateway.py:336-403` | At every commit of every interleaving the sum that was read is still the sum of the Run's whole ledger, and with the new row the whole ledger is within the Goal limit |
| `ReservationTheorems.EveryReservationFitted` | `packages/adapters/src/autonoesis_adapters/execution_gateway.py:358-403` | Every reservation row in every reachable ledger fitted, with everything written before it by whoever, into the Goal limit of its Run |
| `ReservationTheorems.UniqueConstraintOnlyFromOutside` | `packages/adapters/src/autonoesis_adapters/execution_gateway.py:312-314` | The insert meets the unique constraint only when other code bound the key meanwhile; two reservations never do |
| `ReservationTheorems.ConcurrentAnswersAreInMemoryAnswers` | `packages/adapters/src/autonoesis_adapters/execution_gateway.py:233-234` | Every answer of every interleaving driven by the gateway alone is the answer of the in-memory store to the same calls made one at a time |
| `ReservationStores.InMemoryReservations.Reserve` | `packages/adapters/src/autonoesis_adapters/execution_gateway.py:243-269` | The method on shared records and two dictionaries computes the value model's new state and decision, and acquires exactly when tenant and key are new and the cost fits |
| `ReservationStores.InMemoryReservations.Complete` | `packages/adapters/src/autonoesis_adapters/execution_gateway.py:271-277` | A receipt written through the record found by id is the one found by key, and nothing else changes |
| `ReservationStores.PostgresReservations.SumUsed` | `packages/adapters/src/autonoesis_adapters/execution_gateway.py:358-367` | The sum of the Run's ledger rows in cost units |
| `ReservationStores.PostgresReservations.Reserve` | `packages/adapters/src/autonoesis_adapters/execution_gateway.py:309-404` | The whole transaction, run alone, computes the value model's tables and outcome, errors committing nothing, and acquires exactly when tenant and key are new, Run and Goal are there and the positive cost fits |
| `ReservationStores.CoherentAfterReceipt` | `packages/adapters/src/autonoesis_adapters/execution_gateway.py:227-230` | Writing through one shared record is seen under its key and no other |
| `GoalRunTheorems.GatesHold` | `apps/worker/src/autonoesis_worker/workflows.py:181-229` | No evaluation, continuation or approval load is scheduled past pending control and no takeover past a cancel; an execution is, exactly when the control came in while the approval was loading |
| `GoalRunTheorems.AssertionFailsExactly` | `apps/worker/src/autonoesis_worker/workflows.py:145-165` | The assertion on the approval id fails exactly when a pause taken at the approval wait ends with neither approval nor cancel nor takeover; the state is then unchanged |
| `GoalRunTheorems.PauseResumeFailsTheTask` | `apps/worker/src/autonoesis_worker/workflows.py:147-165` | A concrete signal schedule that reaches the failing assertion, and a later approval that rescues the run |
| `GoalRunTheorems.ExecutionNeedsApproval` | `apps/worker/src/autonoesis_worker/workflows.py:87-100` | In every chain whose first command requires approval each `execute_run`, in whichever run, follows a `load_approval` that returned approved |
| `GoalRunTheorems.ApprovalKept` | `apps/worker/src/autonoesis_worker/contracts.py:18-23` | One turn or signal keeps that, although `continued` clears the approval flag |
| `GoalRunTheorems.CountsHold` | `apps/worker/src/autonoesis_worker/workflows.py:121-143` | The continuation count, executions and unspent resume signals stay in balance over every chain |
| `GoalRunTheorems.ChainIsBounded` | `apps/worker/src/autonoesis_worker/workflows.py:138-143` | A chain continues at most as often as its limit leaves, executes at most once more than that, and at most once more than resume signals came in |
| `GoalRunTheorems.PreparedOnceAndResultShown` | `apps/worker/src/autonoesis_worker/workflows.py:72-85` | `prepare_run` is scheduled only in the first run of a chain, and every returned value is the final phase |
| `GoalRunTheorems.ControlIsFinal` | `apps/worker/src/autonoesis_worker/workflows.py:181-213` | After a cancel or takeover signal nothing is approved, evaluated or continued, and at most one execution is still scheduled |
| `GoalRunTheorems.CancelIsObeyed` | `apps/worker/src/autonoesis_worker/workflows.py:181-197` | Over every continuation a run asked to cancel never continues as new, ends after at most five more awaits, and ends cancelled, rejected or by a failing Activity unless a takeover or an evaluation was under way |
| `GoalRunTheorems.CancelDuringLoadStillExecutes` | `apps/worker/src/autonoesis_worker/workflows.py:167-176` | A concrete schedule in which a cancel during `load_approval` does not stop `execute_run` |
| `GoalRunOutcomes.ReturnsExactly` | `apps/worker/src/autonoesis_worker/workflows.py:104-118` | In every reachable state a run returns a value exactly when an Activity completes: an evaluation its own result, if that is succeeded, failed or cancelled, a cancel, takeover or reject Activity cancelled, taken_over or rejected, and no other Activity anything |
| `GoalRunOutcomes.OtherResultsWait` | `apps/worker/src/autonoesis_worker/workflows.py:116-135` | An evaluation with any other result makes the run wait for a resume that comes after it |
| `GoalRunOutcomes.ApprovalDecides` | `apps/worker/src/autonoesis_worker/workflows.py:166-179` | A loaded approval lets the run execute if approved, has it rejected under its own reason if rejected or expired, and otherwise makes it wait for another |
| `GoalRunOutcomes.ControlDecides` | `apps/worker/src/autonoesis_worker/workflows.py:181-213` | Wherever control is looked at, the last cancel signal of the run, with its reason or the default, goes before the last takeover signal, that before a pause; with none of them the run goes on to its next Activity, its continuation or its limit |
| `GoalRunOutcomes.OtherEndsDecide` | `apps/worker/src/autonoesis_worker/workflows.py:72-82` | A first run prepares; a deadline rejects the run whatever it waits for; a failing Activity ends it |
| `GoalRunOutcomes.WakesExactly` | `apps/worker/src/autonoesis_worker/workflows.py:120-129` | A wait can end exactly when the signals of the run say so: a pause on a resume, cancel or takeover, the approval wait on an approval or any control signal, the progress wait on a later resume or any control signal |
| `GoalRunOutcomes.NeverStuck` | `apps/worker/src/autonoesis_worker/workflows.py:68-143` | In every reachable unfinished state the run can go on: it can begin, the deadline can end whatever it waits for, or its Activity can complete with any result or fail |
| `GoalRunOutcomes.PhaseShown` | `apps/worker/src/autonoesis_worker/workflows.py:64-66` | The phase shown in every reachable state is the one of what the run awaits or has returned |
| `GoalRunObject.PlayedIsReachable` | `apps/worker/src/autonoesis_worker/workflows.py:68-143` | Whatever signals and ends of awaits a script brings, the program-counter machine ends in a reachable state of the chain |
| `GoalRunObject.ReachedIsPlayed` | `apps/worker/src/autonoesis_worker/workflows.py:68-143` | Every reachable state of the chain is where some script leads |
| `GoalRunObject.GoalRunWorkflow.ApplyControlAt` | `apps/worker/src/autonoesis_worker/workflows.py:181-226` | The pause loop and the recursion of `_apply_control`, on the fields and against any script, let the run through only with no control pending and otherwise end where the machine ends |
| `GoalRunObject.GoalRunWorkflow.AwaitAuthoritativeApproval` | `apps/worker/src/autonoesis_worker/workflows.py:145-179` | The approval loop with its wait, assertion and load comes back only to execute, or ends where the machine ends |
| `GoalRunObject.GoalRunWorkflow.Run` | `apps/worker/src/autonoesis_worker/workflows.py:68-143` | The structured run method goes through exactly the machine's states, and returns, stops or continues as new exactly where the machine does |
| `GoalRunObject.ExecuteChain` | `apps/worker/src/autonoesis_worker/workflows.py:68-143` | For every script the program, started again as often as it continues as new, records exactly the machine's events and ends in its state; so every execution was approved and executions are bounded |
| `DispatchTheorems.PendingExact` | `apps/worker/src/autonoesis_worker/dispatcher.py:99-113` | Reading the pending events yields a request for exactly the events whose Run is known and neither succeeded, failed nor cancelled, for that very Run and its tier, and a true reason for each of the others |
| `DispatchTheorems.OneExecution` | `apps/worker/src/autonoesis_worker/dispatcher.py:221-236` | Under any interleaving of pollers, reconcilers, lost answers and crashes each Run has at most one execution, when no two workers accept it in different namespaces |
| `DispatchTheorems.TwoExecutions` | `apps/worker/src/autonoesis_worker/dispatcher.py:181-185` | Otherwise two workers do execute it twice, by a concrete run |
| `DispatchTheorems.OneExecutionExactly` | `apps/worker/src/autonoesis_worker/dispatcher.py:207-236` | At most one execution in every interleaving if and only if no two workers accept one Run in different namespaces |
| `DispatchTheorems.BoundPoolsAreEnough` | `apps/worker/src/autonoesis_worker/dispatcher.py:222-226` | Workers bound to tenant and pool, with a namespace for each, meet that condition |
| `DispatchTheorems.ExecutionsKept` | `apps/worker/src/autonoesis_worker/dispatcher.py:221-236` | Every step keeps each execution in a namespace where some worker accepts its Run, and creates none twice |
| `DispatchTheorems.LogKept` | `apps/worker/src/autonoesis_worker/dispatcher.py:99-122` | Every step publishes an event at most once and marks one as started only with an execution present |
| `DispatchTheorems.PublishedOnlyForReason` | `apps/worker/src/autonoesis_worker/dispatcher.py:99-122` | A published event was published once, and its Run's workflow was started or the Run was missing or terminal |
| `DispatchTheorems.ReasonTrueWhenRead` | `apps/worker/src/autonoesis_worker/dispatcher.py:153-175` | The reason for which an event was published unstarted was true in the state in which it was read |
| `DispatchTheorems.PollPublishesExactly` | `apps/worker/src/autonoesis_worker/dispatcher.py:260-270` | In every state, a poll that reads an event of a live Run and whose start is delivered publishes it if and only if the Run has no workflow yet or a running one, and then it has a running one |
| `DispatchTheorems.ClosedIsNeverStarted` | `apps/worker/src/autonoesis_worker/dispatcher.py:228-236` | Once a Run's workflow has closed, in no continuation is an event of the Run published as started; only a terminal Run publishes it |
| `DispatchTheorems.RecoversOnlyActive` | `apps/worker/src/autonoesis_worker/dispatcher.py:278-300` | In every reachable state a reconciler is about to start only a Run it read as pending, running or awaiting evidence |
| `DispatchTheorems.ObservesExactly` | `apps/worker/src/autonoesis_worker/dispatcher.py:281-300` | And it is about to start one exactly if the Run was read so and has no execution in its namespace |
| `DispatchSpec.StartExactly` | `apps/worker/src/autonoesis_worker/dispatcher.py:221-236` | A start call succeeds, and creates an execution, exactly when tenant and risk tier are those the worker is bound to, the call gets through and the id is unused or, for success, still running |
| `DispatchObjects.PassPublishesExactlyStarted` | `apps/worker/src/autonoesis_worker/dispatcher.py:260-270` | A pass publishes exactly the events whose own start call succeeded and loses no execution |
| `DispatchObjects.StartedHasExecution` | `apps/worker/src/autonoesis_worker/dispatcher.py:228-236` | Where a start call succeeded there is an execution at the end of the pass |
| `DispatchObjects.ReconciliationRecovers` | `apps/worker/src/autonoesis_worker/dispatcher.py:278-325` | When every start call goes through, each active Run read has its workflow afterwards, only such workflows are new, and every missing one is reported recovered |
| `DispatchObjects.ReconciliationSettles` | `apps/worker/src/autonoesis_worker/dispatcher.py:278-325` | Reconciling again finds nothing missing and starts nothing |
| `DispatchObjects.FindingsExactly` | `apps/worker/src/autonoesis_worker/dispatcher.py:281-325` | Over Runs read once each a finding is reported if and only if the Run's status and its workflow, as they were when the pass began, call for it |
| `DispatchObjects.Store.ListPending` | `apps/worker/src/autonoesis_worker/dispatcher.py:85-113` | The loop publishes exactly the events whose Run is missing or succeeded, failed or cancelled, and returns the requests of the others in order |
| `DispatchObjects.RequestedExactly` | `apps/worker/src/autonoesis_worker/dispatcher.py:153-180` | Among the requests returned each event asks for its own Run, known and not finished, and its tier, as often as it is pending; nothing else is asked for |
| `DispatchObjects.DispatchLoop` | `apps/worker/src/autonoesis_worker/dispatcher.py:261-270` | The loop over loaded requests computes the specified pass and counts its successes |
| `DispatchObjects.PollOnce` | `apps/worker/src/autonoesis_worker/dispatcher.py:260-270` | Whatever a poll publishes had no Run to start or has been started, every event of a missing or finished Run is published, no Run read as succeeded, failed or cancelled is started, and no execution is lost |
| `DispatchObjects.ReconcileOnce` | `apps/worker/src/autonoesis_worker/dispatcher.py:278-325` | The reconciliation loop computes the specified executions and findings |
| `DeliveryProtocol.EffectExactlyOnce` | `packages/adapters/src/autonoesis_adapters/outbox.py:107-148` | Over every run with redelivery, rollbacks and crashes a message's effect is committed at most once, exactly if the inbox has it, and only for an outbox row |
| `DeliveryProtocol.PublishedWasHanded` | `packages/adapters/src/autonoesis_adapters/outbox.py:79-92` | No row is marked published whose message was not handed to the publisher |
| `DeliveryProtocol.HandlerRunsAccounted` | `packages/adapters/src/autonoesis_adapters/outbox.py:129-146` | Every handler run was committed, rolled back, or is the one now awaiting its commit |
| `DeliveryProtocol.ReceiveProcesses` | `packages/adapters/src/autonoesis_adapters/outbox.py:107-148` | A message handed over, not in the inbox and held by nobody can be checked, claimed, handled and committed by any idle consumer, and then is in the inbox with its effect; rolled back it is not |
| `DeliveryProtocol.KnownIsPassedOver` | `packages/adapters/src/autonoesis_adapters/outbox.py:117-123` | A message in the inbox is passed over without any change, however often it is delivered |
| `DeliveryProtocol.LateClaimIsDropped` | `packages/adapters/src/autonoesis_adapters/outbox.py:129-141` | A message that another consumer committed after the check is dropped at the claim |
| `DeliveryProtocol.InboxKept` | `packages/adapters/src/autonoesis_adapters/outbox.py:117-148` | Every step keeps the claim of a message with one open transaction and apart from the committed inbox |
| `DeliveryProtocol.HandedOverKept` | `packages/adapters/src/autonoesis_adapters/outbox.py:59-94` | Every step keeps each published or marked row backed by a hand-over |
| `DeliveryProtocol.RollsBackAnywhere` | `packages/adapters/src/autonoesis_adapters/outbox.py:64-92` | A poll or a consumer can be rolled back wherever it is, which gives up its claim and leaves inbox and outbox |
| `DeliveryProtocol.PublishedIsNotReadAgain` | `packages/adapters/src/autonoesis_adapters/outbox.py:66-77` | A published row stays published in every continuation and no later poll reads it again |
| `DeliveryObjects.PassMarksExactlyAccepted` | `packages/adapters/src/autonoesis_adapters/outbox.py:79-94` | A relay pass marks and counts exactly the rows the publisher accepted |
| `DeliveryObjects.PollIsPass` | `packages/adapters/src/autonoesis_adapters/outbox.py:59-94` | A poll of the protocol, row by row and committed, marks the rows and hands over the messages that the relay's pass does; rolled back it marks none |
| `DeliveryObjects.OutboxRelay.PollAndPublish` | `packages/adapters/src/autonoesis_adapters/outbox.py:59-94` | The relay loop computes the specified pass |
| `DeliveryObjects.InboxConsumer.Receive` | `packages/adapters/src/autonoesis_adapters/outbox.py:107-148` | A known message changes nothing; a new one leaves row and effect together, or neither when the handler fails |
| `MemoryDeletion.Affected` | `packages/adapters/src/autonoesis_adapters/persistence.py:846-853` | The recursive query ends on every graph, cyclic ones included, with exactly the ids reachable from the root within the tenant |
| `MemoryDeletion.MemoryStore.DeleteMemory` | `packages/adapters/src/autonoesis_adapters/persistence.py:839-901` | Run alone, exactly the reachable live records of the tenant are deleted with their projections and one ledger entry each, everything else unchanged, and their number is returned |
| `MemoryDeletion.MemoryStore.AddMemory` | `packages/adapters/src/autonoesis_adapters/persistence.py:792-829` | A stable record with a new id is added with its write entry; otherwise nothing changes |
| `MemoryDeletion.DeleteEntries` | `packages/adapters/src/autonoesis_adapters/persistence.py:888-900` | The loop writes one delete entry for each deleted id and no other |
| `MemoryDeletion.RepeatDeletesNothing` | `packages/adapters/src/autonoesis_adapters/persistence.py:872-873` | Deleting the same root again returns 0 and changes nothing |
| `MemoryDeletion.NothingReachableSurvives` | `packages/adapters/src/autonoesis_adapters/persistence.py:843-887` | No record reachable from the root is live afterwards, and none that was live keeps a projection |
| `MemoryConcurrency.OneDeleteRowExactly` | `packages/adapters/src/autonoesis_adapters/persistence.py:859-901` | However calls are scheduled, statement by statement, no memory gets a second delete row in any run if and only if no run has two deletions in flight that selected the same record |
| `MemoryConcurrency.DeletedTwice` | `packages/adapters/src/autonoesis_adapters/persistence.py:859-881` | A concrete run of two overlapping calls for one record: two delete rows, and the record is counted twice |
| `MemoryConcurrency.SerialForTenantIsEnough` | `packages/adapters/src/autonoesis_adapters/persistence.py:842-843` | Beginning a deletion only when no other of its tenant is in flight meets that condition |
| `MemoryConcurrency.AnswersAddUpExactly` | `packages/adapters/src/autonoesis_adapters/persistence.py:872-901` | In every reachable state the numbers returned add up to at least the number of deleted memories, and to exactly that if and only if none has a second delete row |
| `MemoryConcurrency.LedgerTellsRecords` | `packages/adapters/src/autonoesis_adapters/persistence.py:792-837` | Under any schedule each memory has one write row, and the memories listed are exactly those written and never deleted |
| `MemoryConcurrency.StepKeeps` | `packages/adapters/src/autonoesis_adapters/persistence.py:792-901` | Every statement, commit and rollback keeps ledger and records in step and the numbers returned equal to the delete rows |
| `MemoryConcurrency.UpdatesStayApart` | `packages/adapters/src/autonoesis_adapters/persistence.py:874-881` | However deletions are scheduled, no two that have updated records and not ended share one |
| `MemoryConcurrency.LateProjectionStays` | `packages/adapters/src/autonoesis_adapters/persistence.py:882-887` | A deletion takes away the index projections it found, and not one made before it commits |
| `MemoryConcurrency.AloneIsDeleteMemory` | `packages/adapters/src/autonoesis_adapters/persistence.py:839-901` | The statements of a deletion run with no other in flight are the whole `delete_memory` of the store |
| `AuditChain.VerifyAuditChain` | `packages/application/src/autonoesis_application/platform.py:96-114` | Verification accepts exactly the non-empty chains numbered from 1 and linked from 64 zeros |
| `AuditChain.ChainExactly` | `packages/application/src/autonoesis_application/platform.py:96-114` | A chain is rows numbered 1, 2, 3 that each carry the digest of the one before, the first 64 zeros, and their own digest over number, previous digest, event and time |
| `AuditChain.HeadFixesHistory` | `packages/application/src/autonoesis_application/platform.py:69-93` | Short of a digest collision two verified chains with the same last digest are the same chain |
| `AuditChain.LatestIsLast` | `packages/adapters/src/autonoesis_adapters/persistence.py:2337-2350` | On a chain the row with the highest sequence is the last one |
| `AuditChain.NextRowExtends` | `packages/adapters/src/autonoesis_adapters/persistence.py:2329-2370` | The row built from the latest one extends its tenant's chain by a valid link |
| `AuditTransactions.CommitKeepsOthers` | `packages/adapters/src/autonoesis_adapters/persistence.py:2332-2336` | A commit cuts off no other open transaction: those of the same tenant hold no rows, because of the lock |
| `AuditTransactions.StepKeeps` | `packages/adapters/src/autonoesis_adapters/persistence.py:2319-2392` | Every statement, commit and rollback keeps all chains and the outbox in step |
| `AuditTransactions.NumbersDiffer` | `infra/migrations/versions/0005_trusted_evidence_chain.py:126-128` | No two sequenced rows of one tenant carry the same number, so the unique constraint is never met |
| `AuditTransactions.AuditTrailSound` | `packages/adapters/src/autonoesis_adapters/persistence.py:2319-2392` | In every reachable state each tenant's committed sequenced rows are one verified chain numbered 1 to n, and the outbox rows carry number and digest of the committed audit rows one to one, in order |
| `AuditTransactions.RowsLinkBack` | `packages/adapters/src/autonoesis_adapters/persistence.py:2329-2370` | In every reachable state each committed row carries the number after, and the digest of, the last row of its tenant before it, or number 1 and 64 zeros |
| `AuditTransactions.AloneIsRecorded` | `packages/adapters/src/autonoesis_adapters/persistence.py:2319-2392` | An event recorded by a transaction alone ends committed as the next row of its tenant's chain with its outbox row, and the lock is given up; rolled back it leaves everything as it was |
| `AuditTransactions.AuditSession.SelectLatest` | `packages/adapters/src/autonoesis_adapters/persistence.py:2337-2350` | The row the descending query finds |
| `AuditTransactions.AuditSession.InsertAudit` | `packages/adapters/src/autonoesis_adapters/persistence.py:2329-2370` | One row is appended, numbered and linked after the tenant's latest |
| `AuditTransactions.AuditSession.AddAuditAndOutbox` | `packages/adapters/src/autonoesis_adapters/persistence.py:2319-2327` | The tenant's chain grows by one valid link, announced in the outbox; all chains stay valid |
| `VersionedSaves.NoUpdateLost` | `packages/adapters/src/autonoesis_adapters/persistence.py:700-736` | For any number of clients reading, changing and saving, each row ends as the fold of exactly the committed transitions in commit order, its version counting them |
| `VersionedSaves.TwoTransitionsLoseAnUpdate` | `packages/adapters/src/autonoesis_adapters/persistence.py:1805-1814` | Where two transitions may precede a save that derives the expected version, a concrete run overwrites somebody else's save; derived saves alone are enough for it |
| `VersionedSaves.NothingLostExactly` | `packages/adapters/src/autonoesis_adapters/persistence.py:1805-1867` | For tables with derived or with explicit versions: no update is ever lost if and only if no call that derives the expected version is made after two or more transitions |
| `VersionedSaves.SavesExactly` | `packages/adapters/src/autonoesis_adapters/persistence.py:2193-2228` | Where nothing can be lost, a save goes through exactly if nobody saved the row since the client read it, and otherwise is told of the conflict and changes nothing |
| `VersionedSaves.StepKeeps` | `packages/adapters/src/autonoesis_adapters/persistence.py:2193-2228` | Every read, transition and save keeps each copy no newer than its row and equal to it at the same version |
| `VersionedSaves.VersionedTable.SaveCopy` | `packages/adapters/src/autonoesis_adapters/persistence.py:2193-2219` | A client's copy is saved if and only if nobody saved the row since the client read it; the row stays the accumulation of the committed saves, none of them lost |
| `Ordering.VersionsTotallyOrdered` | `packages/capability/src/autonoesis_capability/manifest.py:312-358` | Version comparison mirrors, ties only equal keys, and is transitive |
| `Ordering.VersionsOrderedExactly` | `packages/capability/src/autonoesis_capability/manifest.py:311-358` | The order is that of major, minor and patch number; among these alike a release is above its prereleases, which go by the first identifier that differs, numbers below texts and a proper prefix first |
| `Ordering.StringsOrderedExactly` | `packages/adapters/src/autonoesis_adapters/persistence_codec.py:308-309` | Texts go by the first code point that differs, a proper prefix first |
| `Ordering.SortedIsUnique` | `packages/adapters/src/autonoesis_adapters/persistence_codec.py:308-309` | A set of strings has one sorted sequence, however it is computed |
| `Ordering.SortStrings` | `packages/adapters/src/autonoesis_adapters/memory.py:174-174` | Sorting by insertion yields that sequence |
| `PackResolution.ScanFindsGreatest` | `packages/adapters/src/autonoesis_adapters/memory.py:160-171` | The scan finds the greatest eligible version, if there is one |
| `PackResolution.ChosenVersion` | `packages/adapters/src/autonoesis_adapters/memory.py:160-171` | A pinned pack shows the pinned version if it is installed and listable and nothing otherwise; an unpinned one a listable version that no other is above in that order |
| `PackResolution.ChosenExactly` | `packages/adapters/src/autonoesis_adapters/memory.py:160-171` | A tenant sees exactly the version that is installed, not disabled or revoked, and pinned, or without a pin above all installed before it and below none |
| `PackResolution.IndexTells` | `packages/adapters/src/autonoesis_adapters/memory.py:156-176` | A right index has an entry exactly for the goal types that a visible version defines, and the entry is what the last such pack, by the code points of its id, says last |
| `PackResolution.RevokedNeverReturns` | `packages/adapters/src/autonoesis_adapters/memory.py:178-182` | Over any history of operations a version once revoked is never visible again, whatever is installed, enabled or pinned afterwards |
| `PackResolution.OthersKeepIndex` | `packages/adapters/src/autonoesis_adapters/memory.py:172-176` | A tenant whose packs did not change keeps a right index |
| `PackResolution.IndexIsDetermined` | `packages/adapters/src/autonoesis_adapters/memory.py:156-176` | The specification of the index admits one index only |
| `PackStore.PackRegistry.ResolvePacks` | `packages/adapters/src/autonoesis_adapters/memory.py:160-171` | The first loop finds the visible version of every pack |
| `PackStore.PackRegistry.DropTenant` | `packages/adapters/src/autonoesis_adapters/memory.py:172-173` | The second loop removes the tenant's entries and no others |
| `PackStore.PackRegistry.OverlayPacks` | `packages/adapters/src/autonoesis_adapters/memory.py:174-176` | The third loop leaves for each goal type the offer of the last pack that makes one |
| `PackStore.PackRegistry.RefreshTenant` | `packages/adapters/src/autonoesis_adapters/memory.py:156-176` | Afterwards the tenant's index is what its packs, states and pins say, and no other tenant's entries changed |
| `PackStore.PackRegistry.InstallPack` | `packages/adapters/src/autonoesis_adapters/memory.py:131-152` | A new version is added last and can be used at once, the same content again changes nothing, other content is refused; the index stays right for every tenant |
| `PackStore.PackRegistry.SetPackEnabled` | `packages/adapters/src/autonoesis_adapters/memory.py:204-225` | The state is set, revocation kept, a fact recorded, and the index stays right for every tenant |
| `PackStore.PackRegistry.RevokePack` | `packages/adapters/src/autonoesis_adapters/memory.py:227-243` | The version is revoked and disabled and no longer visible, and the index stays right for every tenant |
| `PackStore.PackRegistry.SetStableChannel` | `packages/adapters/src/autonoesis_adapters/memory.py:245-258` | From then on the pack shows the pinned version or none, and the index stays right for every tenant |
| `PackStore.PackRegistry.GetGoalType` | `packages/adapters/src/autonoesis_adapters/memory.py:292-299` | The tenant's own entry, from the last pack that offers it, else the built-in one, else not found |
| `EvidenceSpec.RunKeeps` | `packages/adapters/src/autonoesis_adapters/evidence_store.py:228-270` | Any sequence of object operations keeps latest pointers live, content and retention over the same objects, and version numbers distinct |
| `EvidenceSpec.VersionsAreForever` | `packages/adapters/src/autonoesis_adapters/evidence_store.py:234-270` | A version is either still the bytes and retention it was created with or gone, and once gone never comes back |
| `EvidenceSpec.KeptExactly` | `packages/adapters/src/autonoesis_adapters/evidence_store.py:260-270` | No sequence of operations before a time can remove an object, if and only if its registered retention reaches that time |
| `EvidenceSpec.StoreThenRetrieve` | `packages/adapters/src/autonoesis_adapters/evidence_store.py:159-191` | Stored bytes come back unchanged under the returned descriptor until their object is deleted, and never after |
| `EvidenceSpec.StoresExactly` | `packages/adapters/src/autonoesis_adapters/evidence_store.py:159-182` | Content is accepted exactly if it has the descriptor's digest and size and the descriptor's place is its own key; it then is the latest version of that key, new bytes retained as asked, and nothing else changes |
| `EvidenceSpec.RetrievesExactly` | `packages/adapters/src/autonoesis_adapters/evidence_store.py:184-191` | Bytes are returned exactly if they are the version the descriptor stands for, at its own key, and have its digest |
| `EvidenceSpec.RemovesExactly` | `packages/adapters/src/autonoesis_adapters/evidence_store.py:193-206` | A version is removed exactly if the descriptor stands for it, it is live, and both the descriptor's own retention and the registered one are over; otherwise nothing changes |
| `EvidenceSpec.StoredIsKeptExactly` | `packages/adapters/src/autonoesis_adapters/evidence_store.py:159-182` | A stored artifact is safe until its descriptor's retention if and only if its bytes were new or already retained that long |
| `EvidenceSpec.LaterRetentionIsIgnored` | `packages/adapters/src/autonoesis_adapters/evidence_store.py:244-246` | A concrete artifact stored a second time with a longer retention, which deleting it by its first descriptor removes too early |
| `EvidenceSpec.StoreKeepsOneVersion` | `packages/adapters/src/autonoesis_adapters/evidence_store.py:159-182` | Short of a digest collision, storing evidence never makes a second live version of a key |
| `EvidenceSpec.RemoveKeepsOneVersion` | `packages/adapters/src/autonoesis_adapters/evidence_store.py:193-206` | Nor does deleting it |
| `EvidenceSpec.OneVersionThroughout` | `packages/adapters/src/autonoesis_adapters/evidence_store.py:159-206` | After any sequence of evidence store calls, short of a digest collision among what was offered, each key has at most one live version, stored under its own digest |
| `EvidenceSpec.DescribedIsFoundExactly` | `packages/adapters/src/autonoesis_adapters/evidence_store.py:137-157` | A described artifact is located again under its own descriptor if and only if bucket and key have no character that splits a URL |
| `EvidenceSpec.KeysNeverShared` | `packages/adapters/src/autonoesis_adapters/evidence_store.py:148-148` | Of tenant and evidence ids of equal length, as UUID texts are, equal keys mean the same tenant, evidence id and digest |
| `EvidenceObjects.InMemoryObjectStore.Put` | `packages/adapters/src/autonoesis_adapters/evidence_store.py:234-254` | The method computes the specified state and answer and keeps the store valid |
| `EvidenceObjects.InMemoryObjectStore.Delete` | `packages/adapters/src/autonoesis_adapters/evidence_store.py:260-270` | Removal only of a live version past its retention, with every refusal |
| `EvidenceObjects.MinioEvidenceStore.Store` | `packages/adapters/src/autonoesis_adapters/evidence_store.py:159-182` | Mismatched content is refused; otherwise the content is put under its own key |
| `EvidenceObjects.MinioEvidenceStore.RetrieveVerified` | `packages/adapters/src/autonoesis_adapters/evidence_store.py:184-191` | Bytes are returned only if they have the descriptor's digest |
| `EvidenceObjects.MinioEvidenceStore.Delete` | `packages/adapters/src/autonoesis_adapters/evidence_store.py:193-206` | Refused before the descriptor's retention, else the object delete |
| `JsonTree.EachInverts` | `packages/adapters/src/autonoesis_adapters/persistence_codec.py:296-315` | A list decoded item by item gives the items back, for any length |
| `JsonTree.SortedTextsInvert` | `packages/adapters/src/autonoesis_adapters/persistence_codec.py:308-309` | A set written as a sorted list is read back as the same set |
| `TrialCodec.GraderInverts` | `packages/adapters/src/autonoesis_adapters/persistence_codec.py:777-788` | Decoding an encoded grader result gives it back, whatever the defaults |
| `TrialCodec.OlderGraderDecodes` | `packages/adapters/src/autonoesis_adapters/persistence_codec.py:813-826` | A grader result stored without some of the later keys is read as deterministic, without score, verdict or evidence, its status following from the verdict |
| `TrialCodec.CaseInverts` | `packages/adapters/src/autonoesis_adapters/persistence_codec.py:762-790` | Likewise a case result with its grader results |
| `TrialCodec.TrialRoundTrip` | `packages/adapters/src/autonoesis_adapters/persistence_codec.py:753-849` | Decoding the stored row of any trial that can be constructed gives the trial back for every choice of decoder defaults, so no default is ever used |
| `TrialCodec.StoredTrialsDiffer` | `packages/adapters/src/autonoesis_adapters/persistence_codec.py:793-849` | With the defaults the program has, every stored trial is read back, and different trials are stored differently |
| `SnapshotCodec.OlderFactDecodes` | `packages/adapters/src/autonoesis_adapters/persistence_codec.py:346-369` | A fact stored without some of the later keys is read as internal, strict, of the row's tenant, its source being its own authority, and with nothing allowed or visible |
| `SnapshotCodec.FactInverts` | `packages/adapters/src/autonoesis_adapters/persistence_codec.py:295-313` | Decoding an encoded environment fact gives it back, whatever the defaults |
| `SnapshotCodec.SnapshotRoundTrip` | `packages/adapters/src/autonoesis_adapters/persistence_codec.py:293-394` | Decoding the stored row of any snapshot that can be constructed gives the snapshot back for every choice of decoder defaults |
| `SnapshotCodec.StoredSnapshotsDiffer` | `packages/adapters/src/autonoesis_adapters/persistence_codec.py:340-394` | With the defaults the program has, every stored snapshot is read back, and different snapshots are stored differently |
| `PlatformSwitch.PlatformSwitchSound` | `packages/adapters/src/autonoesis_adapters/kill_switch_store.py:196-287` | Under any interleaving at most one platform switch is active, the audit log in commit order strictly alternates activating and deactivating the same switch, and replaying it rebuilds every row |
| `PlatformSwitch.CallsFindExactly` | `packages/adapters/src/autonoesis_adapters/kill_switch_store.py:203-260` | An activation is refused exactly while a switch is active; a deactivation takes an active switch nobody has locked and finds none only if none is active |
| `PlatformListing.ListingIsHistoryExactly` | `packages/adapters/src/autonoesis_adapters/kill_switch_store.py:289-304` | However calls are scheduled: every listing is the history, if and only if every listing replays, if and only if every commit carries a reading listed after that of the commit before |
| `PlatformListing.ListingReplaysExactly` | `packages/adapters/src/autonoesis_adapters/kill_switch_store.py:289-304` | The listing of a reachable log can be replayed if and only if the recorded active periods run forwards and do not overlap; it then ends in the same switch as the history |
| `PlatformListing.ReadingAfterCommitIsEnough` | `packages/adapters/src/autonoesis_adapters/kill_switch_store.py:203-203` | Reading the clock with no other call in flight, and past the last reading, meets the condition |
| `PlatformListing.ListingNeedNotReplay` | `packages/adapters/src/autonoesis_adapters/kill_switch_store.py:203-203` | A concrete run whose listing does not replay: an activation read the clock before a deactivation and committed after it |
| `PlatformListing.ListingSorts` | `packages/adapters/src/autonoesis_adapters/kill_switch_store.py:294-297` | The ordered query returns what the log holds, by time and id |
| `PlatformSwitch.SqlPlatformKillSwitchStore.Activate` | `packages/adapters/src/autonoesis_adapters/kill_switch_store.py:196-239` | Refused exactly while a switch is active; otherwise row and audit entry are added together |
| `PlatformSwitch.SqlPlatformKillSwitchStore.Deactivate` | `packages/adapters/src/autonoesis_adapters/kill_switch_store.py:241-287` | The active switch is deactivated and recorded, or nothing changes when there is none |
| `TenantSwitches.BalanceExactly` | `packages/adapters/src/autonoesis_adapters/kill_switch_store.py:114-159` | However calls are scheduled, in every run each target has as many active rows as activations less deactivations if and only if no run has two deactivations in flight that read the same row |
| `TenantSwitches.ActiveRowsBalance` | `packages/adapters/src/autonoesis_adapters/kill_switch_store.py:78-159` | In every reachable state active rows are never fewer than activations less deactivations, and exactly that many if and only if no row was deactivated twice |
| `TenantSwitches.LockingReadIsEnough` | `packages/adapters/src/autonoesis_adapters/kill_switch_store.py:122-131` | Reading a row only while no other deactivation in flight has read it meets the condition |
| `TenantSwitches.DeactivationsCanCollide` | `packages/adapters/src/autonoesis_adapters/kill_switch_store.py:122-149` | A concrete run of two activations and two successful deactivations that leaves the target blocked |
| `TenantSwitches.BlockedExactly` | `packages/adapters/src/autonoesis_adapters/kill_switch_store.py:47-76` | When no two deactivations in flight read the same row, in every reachable state a query is blocked if and only if the platform switch is on or a tenant, agent, tool, operation, provider or pack that it gives was activated more often than deactivated |
| `TenantSwitches.BlockedByRows` | `packages/adapters/src/autonoesis_adapters/kill_switch_store.py:47-76` | A query is blocked exactly by the platform switch or by an active row of the tenant whose dimension and target are what the query gives for tenant, agent, tool, operation, provider or pack |
| `TenantSwitches.SqlKillSwitchStore.IsBlocked` | `packages/adapters/src/autonoesis_adapters/kill_switch_store.py:47-76` | The answer is whether the platform switch is on or an active row of the tenant matches one of the fields the query gives; without a tenant it is an error |
| `TenantSwitches.SqlKillSwitchStore.Activate` | `packages/adapters/src/autonoesis_adapters/kill_switch_store.py:78-112` | One active row is added, the platform dimension refused |
| `TenantSwitches.SqlKillSwitchStore.Deactivate` | `packages/adapters/src/autonoesis_adapters/kill_switch_store.py:114-159` | One active row of the target is deactivated, or nothing changes when there is none |
| `ApprovalLatency.PairsExactly` | `packages/adapters/src/autonoesis_adapters/observability.py:177-190` | A decision is paired with a request exactly when both are timed and nothing about that approval lies between them |
| `ApprovalLatency.NothingPairedTwice` | `packages/adapters/src/autonoesis_adapters/observability.py:177-190` | No request is timed twice and no decision either |
| `ApprovalLatency.PercentileIsPercentile` | `packages/adapters/src/autonoesis_adapters/observability.py:191-193` | The value at index floor(0.95 n) always exists; more than 95 % of the samples are at most it and no more than 95 % are below it |
| `ApprovalLatency.LatenciesOfPairs` | `packages/adapters/src/autonoesis_adapters/observability.py:189-190` | There is one latency for each pair, in the order of the decisions: the time from request to decision, or 0 if the decision is timed earlier |
| `ApprovalLatency.PairDecisions` | `packages/adapters/src/autonoesis_adapters/observability.py:177-190` | The loop collects exactly the latencies of the pairs |
| `ApprovalLatency.RecordApprovalLatency` | `packages/adapters/src/autonoesis_adapters/observability.py:165-205` | Nothing is recorded without a decided approval; otherwise a non-negative sample that is the 95th percentile, with the number of samples |

## Left out

Assumptions:

- Fresh UUIDs: ids drawn by the program are parameters required to be unused.
- SHA-256, the advisory lock hash and the ISO 8601 text of a timestamp are uninterpreted functions; what is needed of them (no collision on the contents at hand, timestamps read back as written) stands in the statements that need it.
- PostgreSQL at READ COMMITTED: each statement sees what is committed when it runs; an advisory or row lock lasts until the transaction ends; a unique index admits one row.
- A handler's effect is part of the consumer's transaction with the inbox row.
- The reservation's callers use positive costs and digests that fix the tool version, and complete a reservation once, where a statement says so.

Execution reservations:

- Other code that both spends on a Run and binds a key in one transaction: outside entries and outside bindings are steps of their own. An outside entry needs its Run and waits for the Run's lock, as its foreign key makes it.
- Goal limits do not change during a run; the foreign key to actions is not modelled.
- Tool catalog, delegation, credentials and egress: straight-line checks around the reservation.

Workflows and dispatch:

- Activity retries and heartbeats: `execute_run` is attempted once, the others end as completed or failed. The deadline is a timeout that may happen at any wait.
- `CandidateLifecycleWorkflow`, `ShadowPairWorkflow`, `ReleaseExecutionWorkflow`: short straight lines over services not modelled.
- Batch limits and ordering by time in `list_pending` and `poll_and_publish`: any batch of unpublished rows may be read.
- The transaction of `list_pending` is one step; the risk tier of a Run does not change; risk tiers are given trimmed and in lower case.
- The API's direct start of a workflow, which passes no id-reuse policy.
- Temporal forgetting closed workflows after its retention period: a closed id stays closed.

Stores:

- Which of two deletions that update each other's records PostgreSQL aborts as deadlocked: a deletion takes all its row locks in one step, and any open one may be aborted.
- `put_idempotency`, `add_release`, plain getters and listers, and the SQL `get_goal_type`, which resolves versions differently from the in-memory index.
- `InMemoryPlatformStore.record_audit` and the pack facts, which are appended without a chain; `InMemoryPlatformStore.transaction` restores a snapshot on error.
- Outbox rows of other writers, and the payloads of outbox rows beyond tenant, number and digest.
- SQLite, where no advisory lock is taken.
- The ledger kind for merged memories, which nothing writes; telemetry.
- Parsing of version strings: `Ordering.CompareVersions` works on the parsed key.
- The S3 client behind the object store port, the text of a deletion proof, the `tamper` hook, and URL parsing beyond host, path, question mark and hash.
- Decoding of malformed JSON: a decoder yields nothing where the program raises, and also where a text field holds another type, which the program would keep as it is. Values inside JSON payloads are JSON values.
- Codecs of Run, Task, Approval, Suite, Evidence and the rest: the same shapes as the two modelled.
- A platform deactivation that waited for another one may answer that nothing was active although a new switch has been activated since; the model lets such a call end without an answer.
- Alerts written beside the platform audit log; `list_active`.
- `CostPhaseLedger.summarize_run`, `CanaryRunRouter.resolve` and the other service levels: sums and one sort-and-select.
- `ApprovalLatency.PercentileIsPercentile`: uses the exact fraction 19/20 and whole-number times; binary floating point is not modelled.
