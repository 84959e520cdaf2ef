/** Outbox, relay and inbox together.

    Relays read unpublished rows, hand each message to the publisher and mark it inside one
    transaction; consumers check the inbox, claim the message id, run the handler and commit.
    Any transaction may roll back at any point, several may run at once, the publisher may
    raise before or after the message got through, and messages may be redelivered freely.

    A handler's effect is taken to be part of the consumer's transaction. */
module DeliveryProtocol {

  datatype OutboxRow = OutboxRow(message: string, published: bool)

  datatype Relay = RelayIdle | Relaying(todo: seq<string>, marked: set<string>)

  datatype Consumer = Waiting | Checked(message: string) | Claimed(message: string) | Handled(message: string)

  datatype Reply = Accepted | RaisedAfterDelivery | RaisedBeforeDelivery

  datatype Event = Handed(message: string) | Invoked(message: string) | Committed(message: string) | RolledBack(message: string)

  datatype State = State(
    outbox: map<string, OutboxRow>, inbox: set<string>,
    relays: map<nat, Relay>, consumers: map<nat, Consumer>, log: seq<Event>)

  datatype Step =
    | Write(row: string, message: string)
    | BeginPoll(r: nat, batch: seq<string>)
    | Hand(r: nat, reply: Reply)
    | CommitPoll(r: nat)
    | AbortPoll(r: nat)
    | Deliver(c: nat, message: string)
    | Claim(c: nat)
    | Handle(c: nat)
    | CommitReceive(c: nat)
    | AbortReceive(c: nat)

  const Empty := State(map[], {}, map[], map[], [])

  function RelayOf(s: State, r: nat): Relay {
    if r in s.relays then s.relays[r] else RelayIdle
  }

  function ConsumerOf(s: State, c: nat): Consumer {
    if c in s.consumers then s.consumers[c] else Waiting
  }

  /** The unique inbox row of the message is taken by a transaction not yet ended. */
  predicate Holds(consumer: Consumer, message: string) {
    (consumer.Claimed? || consumer.Handled?) && consumer.message == message
  }

  predicate Enabled(s: State, step: Step) {
    match step
    case Write(row, _) => row !in s.outbox
    case BeginPoll(r, batch) =>
      RelayOf(s, r) == RelayIdle && forall row <- batch :: row in s.outbox && !s.outbox[row].published
    case Hand(r, _) => RelayOf(s, r).Relaying? && RelayOf(s, r).todo != [] && RelayOf(s, r).todo[0] in s.outbox
    case CommitPoll(r) => RelayOf(s, r).Relaying? && RelayOf(s, r).todo == []
    case AbortPoll(r) => RelayOf(s, r).Relaying?
    case Deliver(c, message) => ConsumerOf(s, c) == Waiting && Handed(message) in s.log
    case Claim(c) =>
      ConsumerOf(s, c).Checked? && forall d <- s.consumers :: !Holds(s.consumers[d], ConsumerOf(s, c).message)
    case Handle(c) => ConsumerOf(s, c).Claimed?
    case CommitReceive(c) => ConsumerOf(s, c).Handled?
    case AbortReceive(c) => !ConsumerOf(s, c).Waiting?
  }

  function MarkRows(outbox: map<string, OutboxRow>, marked: set<string>): map<string, OutboxRow> {
    map row | row in outbox :: if row in marked then outbox[row].(published := true) else outbox[row]
  }

  function SetRelay(s: State, r: nat, relay: Relay): State {
    s.(relays := s.relays[r := relay])
  }

  function SetConsumer(s: State, c: nat, consumer: Consumer): State {
    s.(consumers := s.consumers[c := consumer])
  }

  function Apply(s: State, step: Step): State
    requires Enabled(s, step)
  {
    match step
    case Write(row, message) => s.(outbox := s.outbox[row := OutboxRow(message, false)])
    case BeginPoll(r, batch) => SetRelay(s, r, Relaying(batch, {}))
    case Hand(r, reply) =>
      var relay := RelayOf(s, r);
      var row := relay.todo[0];
      SetRelay(s, r, Relaying(relay.todo[1..], if reply == Accepted then relay.marked + {row} else relay.marked))
      .(log := s.log + (if reply == RaisedBeforeDelivery then [] else [Handed(s.outbox[row].message)]))
    case CommitPoll(r) => SetRelay(s, r, RelayIdle).(outbox := MarkRows(s.outbox, RelayOf(s, r).marked))
    case AbortPoll(r) => SetRelay(s, r, RelayIdle)
    case Deliver(c, message) => if message in s.inbox then s else SetConsumer(s, c, Checked(message))
    case Claim(c) =>
      var message := ConsumerOf(s, c).message;
      SetConsumer(s, c, if message in s.inbox then Waiting else Claimed(message))
    case Handle(c) =>
      var message := ConsumerOf(s, c).message;
      SetConsumer(s, c, Handled(message)).(log := s.log + [Invoked(message)])
    case CommitReceive(c) =>
      var message := ConsumerOf(s, c).message;
      SetConsumer(s, c, Waiting).(inbox := s.inbox + {message}, log := s.log + [Committed(message)])
    case AbortReceive(c) =>
      SetConsumer(s, c, Waiting)
      .(log := s.log + (if ConsumerOf(s, c).Handled? then [RolledBack(ConsumerOf(s, c).message)] else []))
  }

  ghost predicate Reaches(steps: seq<Step>, s: State)
    decreases |steps|
  {
    if steps == [] then s == Empty
    else
      var last := |steps| - 1;
      exists before: State ::
        Reaches(steps[..last], before) && Enabled(before, steps[last]) && s == Apply(before, steps[last])
  }

  function Count(log: seq<Event>, e: Event): nat {
    if log == [] then 0 else Count(log[..|log| - 1], e) + (if log[|log| - 1] == e then 1 else 0)
  }

  // ---------------------------------------------------------------- invariants

  /** Rows known to have been handed over: the published ones and those about to be. */
  ghost predicate HandedOver(s: State) {
    && (forall row <- s.outbox | s.outbox[row].published :: Handed(s.outbox[row].message) in s.log)
    && (forall r <- s.relays | s.relays[r].Relaying? :: RelayOk(s, s.relays[r].todo, s.relays[r].marked))
    && (forall m :: Handed(m) in s.log ==> exists row <- s.outbox :: s.outbox[row].message == m)
  }

  ghost predicate RelayOk(s: State, todo: seq<string>, marked: set<string>) {
    && (forall row <- todo :: row in s.outbox)
    && (forall row <- marked :: row in s.outbox && Handed(s.outbox[row].message) in s.log)
  }

  ghost predicate InboxOk(s: State) {
    && (forall c <- s.consumers | !s.consumers[c].Waiting? :: Handed(s.consumers[c].message) in s.log)
    && (forall c <- s.consumers, m | Holds(s.consumers[c], m) :: m !in s.inbox)
    && (forall c <- s.consumers, d <- s.consumers, m | Holds(s.consumers[c], m) && Holds(s.consumers[d], m) :: c == d)
    && (forall m <- s.inbox :: Handed(m) in s.log)
  }

  /** Effects committed: one for each inbox row.  Handler runs: those committed, those rolled
      back, and the one now waiting for its commit. */
  ghost predicate Balanced(log: seq<Event>, inbox: set<string>, consumers: map<nat, Consumer>, m: string) {
    && Count(log, Committed(m)) == (if m in inbox then 1 else 0)
    && Count(log, Invoked(m)) == Count(log, Committed(m)) + Count(log, RolledBack(m)) + InFlight(consumers, m)
  }

  ghost predicate EffectsOk(s: State) {
    forall m :: Balanced(s.log, s.inbox, s.consumers, m)
  }

  predicate SomeHandled(consumers: map<nat, Consumer>, m: string) {
    exists c <- consumers :: consumers[c] == Handled(m)
  }

  function InFlight(consumers: map<nat, Consumer>, m: string): nat {
    if SomeHandled(consumers, m) then 1 else 0
  }

  lemma CountAppend(log: seq<Event>, e: Event, f: Event)
    ensures Count(log + [e], f) == Count(log, f) + (if e == f then 1 else 0)
  {
    assert (log + [e])[..|log|] == log;
  }

  lemma HandedOverKept(s: State, step: Step)
    requires Enabled(s, step) && HandedOver(s)
    ensures HandedOver(Apply(s, step))
  {
    var s' := Apply(s, step);
    assert forall e <- s.log :: e in s'.log;
    if step.Hand? && step.reply != RaisedBeforeDelivery {
      var row := RelayOf(s, step.r).todo[0];
      assert s'.log[|s.log|] == Handed(s.outbox[row].message);
    }
    forall r | r in s'.relays && s'.relays[r].Relaying? ensures RelayOk(s', s'.relays[r].todo, s'.relays[r].marked) {
      if r in s.relays && s.relays[r].Relaying? { assert RelayOk(s, s.relays[r].todo, s.relays[r].marked); }
    }
    forall m | Handed(m) in s'.log ensures exists row <- s'.outbox :: s'.outbox[row].message == m {
      if Handed(m) in s.log {
        var row :| row in s.outbox && s.outbox[row].message == m;
        assert s'.outbox[row].message == m;
      }
    }
  }

  lemma ClaimKeepsInbox(s: State, c: nat)
    requires Enabled(s, Claim(c)) && InboxOk(s)
    ensures InboxOk(Apply(s, Claim(c)))
  {
  }

  lemma CommitKeepsInbox(s: State, c: nat)
    requires Enabled(s, CommitReceive(c)) && InboxOk(s)
    ensures InboxOk(Apply(s, CommitReceive(c)))
  {
    var s' := Apply(s, CommitReceive(c));
    var message := s.consumers[c].message;
    assert forall e <- s.log :: e in s'.log;
    assert Holds(s.consumers[c], message);
  }

  /** Steps that leave the inbox alone and claim nothing. */
  lemma OthersKeepInbox(s: State, step: Step)
    requires Enabled(s, step) && InboxOk(s) && !step.Claim? && !step.CommitReceive?
    ensures InboxOk(Apply(s, step))
  {
    var s' := Apply(s, step);
    assert forall e <- s.log :: e in s'.log;
  }

  lemma InboxKept(s: State, step: Step)
    requires Enabled(s, step) && InboxOk(s)
    ensures InboxOk(Apply(s, step))
  {
    if step.Claim? {
      ClaimKeepsInbox(s, step.c);
    } else if step.CommitReceive? {
      CommitKeepsInbox(s, step.c);
    } else {
      OthersKeepInbox(s, step);
    }
  }

  lemma CountsAfter(log: seq<Event>, e: Event, m: string)
    ensures Count(log + [e], Invoked(m)) == Count(log, Invoked(m)) + (if e == Invoked(m) then 1 else 0)
    ensures Count(log + [e], Committed(m)) == Count(log, Committed(m)) + (if e == Committed(m) then 1 else 0)
    ensures Count(log + [e], RolledBack(m)) == Count(log, RolledBack(m)) + (if e == RolledBack(m) then 1 else 0)
  {
    CountAppend(log, e, Invoked(m));
    CountAppend(log, e, Committed(m));
    CountAppend(log, e, RolledBack(m));
  }

  /** A consumer that neither enters nor leaves the end of its handler changes no balance. */
  lemma InFlightUnless(consumers: map<nat, Consumer>, c: nat, next: Consumer, m: string)
    requires c in consumers ==> consumers[c] != Handled(m)
    requires next != Handled(m)
    ensures InFlight(consumers[c := next], m) == InFlight(consumers, m)
  {
    var consumers' := consumers[c := next];
    if SomeHandled(consumers, m) {
      var d :| d in consumers && consumers[d] == Handled(m);
      assert consumers'[d] == Handled(m);
    }
    if SomeHandled(consumers', m) {
      var d :| d in consumers' && consumers'[d] == Handled(m);
      assert consumers[d] == Handled(m);
    }
  }

  /** The consumer that holds a message is the only one that can be at the end of its handler. */
  lemma HolderInFlight(consumers: map<nat, Consumer>, c: nat, next: Consumer, m: string)
    requires c in consumers && Holds(consumers[c], m)
    requires forall d <- consumers | Holds(consumers[d], m) :: d == c
    ensures InFlight(consumers, m) == (if consumers[c].Handled? then 1 else 0)
    ensures InFlight(consumers[c := next], m) == (if next == Handled(m) then 1 else 0)
  {
    forall d | d in consumers && consumers[d] == Handled(m) ensures d == c {
      assert Holds(consumers[d], m);
    }
    assert consumers[c := next][c] == next;
    if consumers[c].Handled? { assert consumers[c] == Handled(m); }
  }

  /** A consumer that enters or leaves the end of its handler moves the in-flight count. */
  lemma MoverInFlight(s: State, c: nat, next: Consumer, m: string)
    requires c in s.consumers && !s.consumers[c].Waiting? && InboxOk(s)
    requires next == Waiting || (next == Handled(s.consumers[c].message) && Holds(s.consumers[c], s.consumers[c].message))
    ensures InFlight(s.consumers[c := next], m) + (if s.consumers[c] == Handled(m) then 1 else 0)
            == InFlight(s.consumers, m) + (if next == Handled(m) then 1 else 0)
  {
    if Holds(s.consumers[c], m) {
      assert forall d <- s.consumers | Holds(s.consumers[d], m) :: d == c;
      HolderInFlight(s.consumers, c, next, m);
    } else {
      InFlightUnless(s.consumers, c, next, m);
    }
  }

  lemma HandleBalance(s: State, c: nat, m: string)
    requires Enabled(s, Handle(c)) && InboxOk(s) && Balanced(s.log, s.inbox, s.consumers, m)
    ensures var s' := Apply(s, Handle(c)); Balanced(s'.log, s'.inbox, s'.consumers, m)
  {
    MoverInFlight(s, c, Handled(s.consumers[c].message), m);
    CountsAfter(s.log, Invoked(s.consumers[c].message), m);
  }

  lemma CommitBalance(s: State, c: nat, m: string)
    requires Enabled(s, CommitReceive(c)) && InboxOk(s) && Balanced(s.log, s.inbox, s.consumers, m)
    ensures var s' := Apply(s, CommitReceive(c)); Balanced(s'.log, s'.inbox, s'.consumers, m)
  {
    MoverInFlight(s, c, Waiting, m);
    CountsAfter(s.log, Committed(s.consumers[c].message), m);
    assert Holds(s.consumers[c], s.consumers[c].message);
  }

  lemma AbortBalance(s: State, c: nat, m: string)
    requires Enabled(s, AbortReceive(c)) && InboxOk(s) && Balanced(s.log, s.inbox, s.consumers, m)
    ensures var s' := Apply(s, AbortReceive(c)); Balanced(s'.log, s'.inbox, s'.consumers, m)
  {
    MoverInFlight(s, c, Waiting, m);
    CountsAfter(s.log, RolledBack(s.consumers[c].message), m);
    assert s.log + [] == s.log;
  }

  lemma HandBalance(s: State, step: Step, m: string)
    requires Enabled(s, step) && step.Hand? && Balanced(s.log, s.inbox, s.consumers, m)
    ensures Balanced(Apply(s, step).log, Apply(s, step).inbox, Apply(s, step).consumers, m)
  {
    assert s.log + [] == s.log;
    CountsAfter(s.log, Handed(s.outbox[RelayOf(s, step.r).todo[0]].message), m);
  }

  lemma ClaimBalance(s: State, step: Step, m: string)
    requires Enabled(s, step) && (step.Deliver? || step.Claim?) && Balanced(s.log, s.inbox, s.consumers, m)
    ensures Balanced(Apply(s, step).log, Apply(s, step).inbox, Apply(s, step).consumers, m)
  {
    var message := if step.Deliver? then step.message else ConsumerOf(s, step.c).message;
    InFlightUnless(s.consumers, step.c, Waiting, m);
    InFlightUnless(s.consumers, step.c, Checked(message), m);
    InFlightUnless(s.consumers, step.c, Claimed(message), m);
  }

  lemma StepBalance(s: State, step: Step, m: string)
    requires Enabled(s, step) && InboxOk(s) && Balanced(s.log, s.inbox, s.consumers, m)
    ensures Balanced(Apply(s, step).log, Apply(s, step).inbox, Apply(s, step).consumers, m)
  {
    if step.Hand? {
      HandBalance(s, step, m);
    } else if step.Deliver? || step.Claim? {
      ClaimBalance(s, step, m);
    } else if step.Handle? {
      HandleBalance(s, step.c, m);
    } else if step.CommitReceive? {
      CommitBalance(s, step.c, m);
    } else if step.AbortReceive? {
      AbortBalance(s, step.c, m);
    }
  }

  lemma EffectsKept(s: State, step: Step)
    requires Enabled(s, step) && InboxOk(s) && EffectsOk(s)
    ensures EffectsOk(Apply(s, step))
  {
    var s' := Apply(s, step);
    forall m ensures Balanced(s'.log, s'.inbox, s'.consumers, m) {
      assert Balanced(s.log, s.inbox, s.consumers, m);
      StepBalance(s, step, m);
    }
  }

  lemma {:induction false} InvariantReached(steps: seq<Step>, s: State)
    requires Reaches(steps, s)
    ensures HandedOver(s) && InboxOk(s) && EffectsOk(s)
    decreases |steps|
  {
    if steps != [] {
      var last := |steps| - 1;
      var before: State :| Reaches(steps[..last], before) && Enabled(before, steps[last]) && s == Apply(before, steps[last]);
      InvariantReached(steps[..last], before);
      HandedOverKept(before, steps[last]);
      InboxKept(before, steps[last]);
      EffectsKept(before, steps[last]);
    }
  }

  // ---------------------------------------------------------------- theorems

  /** Exactly-once effect: a message's effect is committed at most once, exactly if the inbox has
      it, and then the message came from a committed outbox row. */
  lemma EffectExactlyOnce(steps: seq<Step>, s: State, message: string)
    requires Reaches(steps, s)
    ensures Count(s.log, Committed(message)) <= 1
    ensures Count(s.log, Committed(message)) == 1 <==> message in s.inbox
    ensures message in s.inbox ==> exists row <- s.outbox :: s.outbox[row].message == message
  {
    InvariantReached(steps, s);
    assert Balanced(s.log, s.inbox, s.consumers, message);
  }

  /** No row is marked published whose message was never handed to the publisher. */
  lemma PublishedWasHanded(steps: seq<Step>, s: State, row: string)
    requires Reaches(steps, s) && row in s.outbox && s.outbox[row].published
    ensures Handed(s.outbox[row].message) in s.log
  {
    InvariantReached(steps, s);
  }

  /** Every run of a handler is accounted for: at most one is committed, at most one is waiting
      for its commit, and all the others were rolled back. */
  lemma HandlerRunsAccounted(steps: seq<Step>, s: State, message: string)
    requires Reaches(steps, s)
    ensures 0 <= Count(s.log, Invoked(message)) - Count(s.log, RolledBack(message)) <= 1
    ensures Count(s.log, Invoked(message)) - Count(s.log, RolledBack(message)) == 1
            <==> message in s.inbox || SomeHandled(s.consumers, message)
  {
    InvariantReached(steps, s);
    assert Balanced(s.log, s.inbox, s.consumers, message);
    if c :| c in s.consumers && s.consumers[c] == Handled(message) {
      assert Holds(s.consumers[c], message);
    }
  }

  // ---------------------------------------------------------------- what can be brought about

  /** A message that has been handed over, is not in the inbox and is held by no consumer can be processed
      by any idle one: it is checked, claimed, handled and committed, and then is in the inbox. */
  lemma ReceiveProcesses(s: State, c: nat, message: string)
    requires ConsumerOf(s, c) == Waiting && Handed(message) in s.log && message !in s.inbox
    requires forall d <- s.consumers :: !Holds(s.consumers[d], message)
    ensures && Enabled(s, Deliver(c, message)) && var s1 := Apply(s, Deliver(c, message));
            && Enabled(s1, Claim(c)) && var s2 := Apply(s1, Claim(c));
            && Enabled(s2, Handle(c)) && var s3 := Apply(s2, Handle(c));
            && Enabled(s3, CommitReceive(c))
            && Apply(s3, CommitReceive(c))
               == s.(inbox := s.inbox + {message}, consumers := s.consumers[c := Waiting],
                     log := s.log + [Invoked(message)] + [Committed(message)])
            && Enabled(s3, AbortReceive(c))
            && Apply(s3, AbortReceive(c))
               == s.(consumers := s.consumers[c := Waiting], log := s.log + [Invoked(message)] + [RolledBack(message)])
  {
  }

  /** One that is in the inbox is passed over, however often it is delivered. */
  lemma KnownIsPassedOver(s: State, c: nat, message: string)
    requires ConsumerOf(s, c) == Waiting && Handed(message) in s.log && message in s.inbox
    ensures Enabled(s, Deliver(c, message)) && Apply(s, Deliver(c, message)) == s
  {
  }

  /** And one that another consumer committed after the check is dropped at the claim. */
  lemma LateClaimIsDropped(s: State, c: nat)
    requires Enabled(s, Claim(c)) && ConsumerOf(s, c).message in s.inbox
    ensures Apply(s, Claim(c)) == s.(consumers := s.consumers[c := Waiting])
  {
  }

  /** Whatever has not ended can be rolled back, which gives up its claim and leaves inbox and outbox. */
  lemma RollsBackAnywhere(s: State, r: nat, c: nat)
    ensures RelayOf(s, r).Relaying? ==>
              Enabled(s, AbortPoll(r)) && Apply(s, AbortPoll(r)) == s.(relays := s.relays[r := RelayIdle])
    ensures !ConsumerOf(s, c).Waiting? ==>
              && Enabled(s, AbortReceive(c)) && ConsumerOf(Apply(s, AbortReceive(c)), c) == Waiting
              && Apply(s, AbortReceive(c)).inbox == s.inbox && Apply(s, AbortReceive(c)).outbox == s.outbox
  {
  }

  ghost predicate Leads(s: State, steps: seq<Step>, s': State)
    decreases |steps|
  {
    if steps == [] then s' == s
    else
      var last := |steps| - 1;
      exists before: State :: Leads(s, steps[..last], before) && Enabled(before, steps[last]) && s' == Apply(before, steps[last])
  }

  /** A published row stays published, and no later poll reads it again. */
  lemma {:induction false} PublishedIsNotReadAgain(s: State, steps: seq<Step>, s': State, row: string, r: nat, batch: seq<string>)
    requires Leads(s, steps, s') && row in s.outbox && s.outbox[row].published
    ensures row in s'.outbox && s'.outbox[row] == s.outbox[row]
    ensures row in batch ==> !Enabled(s', BeginPoll(r, batch))
    decreases |steps|
  {
    if steps != [] {
      var last := |steps| - 1;
      var before: State :| Leads(s, steps[..last], before) && Enabled(before, steps[last]) && s' == Apply(before, steps[last]);
      PublishedIsNotReadAgain(s, steps[..last], before, row, r, batch);
      StepKeepsPublished(before, steps[last], row);
    }
  }

  lemma StepKeepsPublished(s: State, step: Step, row: string)
    requires Enabled(s, step) && row in s.outbox && s.outbox[row].published
    ensures row in Apply(s, step).outbox && Apply(s, step).outbox[row] == s.outbox[row]
  {
  }
}
