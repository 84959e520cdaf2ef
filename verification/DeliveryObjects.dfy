/** `poll_and_publish` and `receive` as methods over mutable tables. */
module DeliveryObjects {
  import opened DeliveryProtocol

  /** The rows of a batch the publisher accepted. */
  function AcceptedRows(batch: seq<string>, replies: seq<Reply>): set<string>
    requires |replies| == |batch|
  {
    set i | 0 <= i < |batch| && replies[i] == Accepted :: batch[i]
  }

  /** The messages that got through, whether or not the publisher then raised. */
  function HandedBy(outbox: map<string, OutboxRow>, batch: seq<string>, replies: seq<Reply>): seq<string>
    requires |replies| == |batch| && forall row <- batch :: row in outbox
  {
    if batch == [] then []
    else
      var n := |batch| - 1;
      HandedBy(outbox, batch[..n], replies[..n])
      + (if replies[n] == RaisedBeforeDelivery then [] else [outbox[batch[n]].message])
  }

  datatype Pass = Pass(outbox: map<string, OutboxRow>, channel: seq<string>, published: nat)

  function RelayOne(pass: Pass, row: string, reply: Reply): Pass {
    if row !in pass.outbox then pass
    else
      var channel :=
        if reply == RaisedBeforeDelivery then pass.channel else pass.channel + [pass.outbox[row].message];
      if reply == Accepted
      then Pass(pass.outbox[row := pass.outbox[row].(published := true)], channel, pass.published + 1)
      else pass.(channel := channel)
  }

  function RelayAll(pass: Pass, batch: seq<string>, replies: seq<Reply>): Pass
    requires |replies| == |batch|
  {
    if batch == [] then pass
    else
      var n := |batch| - 1;
      RelayOne(RelayAll(pass, batch[..n], replies[..n]), batch[n], replies[n])
  }

  /** What a pass has done once it has marked these rows and handed over these messages. */
  predicate Did(pass: Pass, after: Pass, marked: set<string>, handed: seq<string>) {
    && after.outbox == MarkRows(pass.outbox, marked)
    && after.channel == pass.channel + handed
    && after.published == pass.published + |marked|
  }

  lemma DoesOneMore(start: Pass, pass: Pass, marked: set<string>, handed: seq<string>, row: string, reply: Reply)
    requires Did(start, pass, marked, handed) && row in start.outbox && row !in marked
    ensures Did(start, RelayOne(pass, row, reply), marked + (if reply == Accepted then {row} else {}),
                handed + (if reply == RaisedBeforeDelivery then [] else [start.outbox[row].message]))
  {
    RelayOneMarks(start, pass, marked, row, reply);
    assert marked + {} == marked && handed + [] == handed;
  }

  lemma {:induction false} PassUpTo(pass: Pass, batch: seq<string>, replies: seq<Reply>, n: nat)
    requires |replies| == |batch| && n <= |batch| && forall row <- batch :: row in pass.outbox
    requires forall i, j | 0 <= i < j < |batch| :: batch[i] != batch[j]
    ensures Did(pass, RelayAll(pass, batch[..n], replies[..n]), AcceptedRows(batch[..n], replies[..n]),
                HandedBy(pass.outbox, batch[..n], replies[..n]))
  {
    if n == 0 {
      assert AcceptedRows(batch[..0], replies[..0]) == {};
      assert MarkRows(pass.outbox, {}) == pass.outbox;
    } else {
      var m := n - 1;
      PassUpTo(pass, batch, replies, m);
      AcceptedStep(batch, replies, m);
      assert batch[..n][..m] == batch[..m] && replies[..n][..m] == replies[..m] && batch[m] in batch;
      DoesOneMore(pass, RelayAll(pass, batch[..m], replies[..m]), AcceptedRows(batch[..m], replies[..m]),
                  HandedBy(pass.outbox, batch[..m], replies[..m]), batch[m], replies[m]);
    }
  }

  /** A pass marks and counts exactly the accepted rows of its batch; everything handed over stays
      handed over. */
  lemma PassMarksExactlyAccepted(pass: Pass, batch: seq<string>, replies: seq<Reply>)
    requires |replies| == |batch| && forall row <- batch :: row in pass.outbox
    requires forall i, j | 0 <= i < j < |batch| :: batch[i] != batch[j]
    ensures var after := RelayAll(pass, batch, replies);
            && after.outbox == MarkRows(pass.outbox, AcceptedRows(batch, replies))
            && after.channel == pass.channel + HandedBy(pass.outbox, batch, replies)
            && after.published == pass.published + |AcceptedRows(batch, replies)|
  {
    PassUpTo(pass, batch, replies, |batch|);
    assert batch[..|batch|] == batch && replies[..|batch|] == replies;
  }

  // ---------------------------------------------------------------- the protocol's poll is this pass

  function HandSteps(r: nat, replies: seq<Reply>): seq<Step> {
    seq(|replies|, i requires 0 <= i < |replies| => Hand(r, replies[i]))
  }

  function Handings(messages: seq<string>): seq<Event> {
    seq(|messages|, i requires 0 <= i < |messages| => Handed(messages[i]))
  }

  /** The relay's state after handing over the first n rows of its batch. */
  function AfterHanding(s: State, r: nat, batch: seq<string>, replies: seq<Reply>, n: nat): State
    requires |replies| == |batch| && n <= |batch| && forall row <- batch :: row in s.outbox
  {
    SetRelay(s, r, Relaying(batch[n..], AcceptedRows(batch[..n], replies[..n])))
    .(log := s.log + Handings(HandedBy(s.outbox, batch[..n], replies[..n])))
  }

  lemma HandsOne(s: State, r: nat, batch: seq<string>, replies: seq<Reply>, n: nat)
    requires |replies| == |batch| && n < |batch| && forall row <- batch :: row in s.outbox
    requires forall i, j | 0 <= i < j < |batch| :: batch[i] != batch[j]
    ensures Enabled(AfterHanding(s, r, batch, replies, n), Hand(r, replies[n]))
    ensures Apply(AfterHanding(s, r, batch, replies, n), Hand(r, replies[n])) == AfterHanding(s, r, batch, replies, n + 1)
  {
    AcceptedStep(batch, replies, n);
    assert batch[n..][0] == batch[n] && batch[n..][1..] == batch[n + 1..] && batch[n] in batch;
    assert batch[..n + 1][..n] == batch[..n] && replies[..n + 1][..n] == replies[..n];
    var marked := AcceptedRows(batch[..n], replies[..n]);
    assert marked + {} == marked;
    var before, after := HandedBy(s.outbox, batch[..n], replies[..n]), HandedBy(s.outbox, batch[..n + 1], replies[..n + 1]);
    if replies[n] == RaisedBeforeDelivery {
      assert after == before;
    } else {
      assert after == before + [s.outbox[batch[n]].message];
      assert Handings(after) == Handings(before) + [Handed(s.outbox[batch[n]].message)];
    }
    var relays: map<nat, Relay> := s.relays;
    assert relays[r := Relaying(batch[n..], marked)][r := Relaying(batch[n + 1..], AcceptedRows(batch[..n + 1], replies[..n + 1]))]
           == relays[r := Relaying(batch[n + 1..], AcceptedRows(batch[..n + 1], replies[..n + 1]))];
  }

  lemma {:induction false} HandsAll(s: State, r: nat, batch: seq<string>, replies: seq<Reply>, n: nat)
    requires |replies| == |batch| && n <= |batch| && forall row <- batch :: row in s.outbox
    requires forall i, j | 0 <= i < j < |batch| :: batch[i] != batch[j]
    ensures Leads(AfterHanding(s, r, batch, replies, 0), HandSteps(r, replies[..n]), AfterHanding(s, r, batch, replies, n))
  {
    if n > 0 {
      HandsAll(s, r, batch, replies, n - 1);
      HandsOne(s, r, batch, replies, n - 1);
      assert HandSteps(r, replies[..n])[..n - 1] == HandSteps(r, replies[..n - 1]);
    }
  }

  /** A poll of the protocol, read, handed over row by row and committed, marks the rows and hands over the
      messages that the relay's pass does; rolled back, it marks none. */
  lemma PollIsPass(s: State, r: nat, batch: seq<string>, replies: seq<Reply>) returns (handed: State)
    requires RelayOf(s, r) == RelayIdle && |replies| == |batch|
    requires forall row <- batch :: row in s.outbox && !s.outbox[row].published
    requires forall i, j | 0 <= i < j < |batch| :: batch[i] != batch[j]
    ensures Enabled(s, BeginPoll(r, batch)) && Leads(Apply(s, BeginPoll(r, batch)), HandSteps(r, replies), handed)
    ensures Enabled(handed, CommitPoll(r)) && Enabled(handed, AbortPoll(r))
    ensures var pass := RelayAll(Pass(s.outbox, [], 0), batch, replies);
            && Apply(handed, CommitPoll(r))
               == s.(relays := s.relays[r := RelayIdle], outbox := pass.outbox, log := s.log + Handings(pass.channel))
            && Apply(handed, AbortPoll(r)) == s.(relays := s.relays[r := RelayIdle], log := s.log + Handings(pass.channel))
  {
    handed := AfterHanding(s, r, batch, replies, |batch|);
    NoneHanded(s, r, batch, replies);
    HandsAll(s, r, batch, replies, |batch|);
    assert replies[..|batch|] == replies;
    AllHanded(s, r, batch, replies);
    PassMarksExactlyAccepted(Pass(s.outbox, [], 0), batch, replies);
    assert [] + HandedBy(s.outbox, batch, replies) == HandedBy(s.outbox, batch, replies);
  }

  lemma NoneHanded(s: State, r: nat, batch: seq<string>, replies: seq<Reply>)
    requires Enabled(s, BeginPoll(r, batch)) && |replies| == |batch|
    ensures Apply(s, BeginPoll(r, batch)) == AfterHanding(s, r, batch, replies, 0)
  {
    var none: seq<string> := [];
    assert batch[0..] == batch && AcceptedRows(batch[..0], replies[..0]) == {} && HandedBy(s.outbox, batch[..0], replies[..0]) == none;
    assert s.log + Handings(none) == s.log;
  }

  lemma AllHanded(s: State, r: nat, batch: seq<string>, replies: seq<Reply>)
    requires |replies| == |batch| && forall row <- batch :: row in s.outbox
    ensures var handed := AfterHanding(s, r, batch, replies, |batch|);
            var log := s.log + Handings(HandedBy(s.outbox, batch, replies));
            && Enabled(handed, CommitPoll(r)) && Enabled(handed, AbortPoll(r))
            && Apply(handed, CommitPoll(r)) == s.(relays := s.relays[r := RelayIdle],
                                                  outbox := MarkRows(s.outbox, AcceptedRows(batch, replies)), log := log)
            && Apply(handed, AbortPoll(r)) == s.(relays := s.relays[r := RelayIdle], log := log)
  {
    assert batch[..|batch|] == batch && replies[..|batch|] == replies && batch[|batch|..] == [];
    EndsPoll(s, r, AcceptedRows(batch, replies), s.log + Handings(HandedBy(s.outbox, batch, replies)));
  }

  lemma EndsPoll(s: State, r: nat, marked: set<string>, log: seq<Event>)
    ensures var handed := SetRelay(s, r, Relaying([], marked)).(log := log);
            && Enabled(handed, CommitPoll(r)) && Enabled(handed, AbortPoll(r))
            && Apply(handed, CommitPoll(r)) == s.(relays := s.relays[r := RelayIdle], outbox := MarkRows(s.outbox, marked), log := log)
            && Apply(handed, AbortPoll(r)) == s.(relays := s.relays[r := RelayIdle], log := log)
  {
  }

  class OutboxRelay {
    var outbox: map<string, OutboxRow>
    var channel: seq<string>

    constructor ()
      ensures outbox == map[] && channel == []
    {
      outbox, channel := map[], [];
    }

    /** Inserts one event; it becomes visible when the caller commits. */
    method Publish(row: string, message: string)
      requires row !in outbox
      modifies `outbox
      ensures outbox == old(outbox)[row := OutboxRow(message, false)]
    {
      outbox := outbox[row := OutboxRow(message, false)];
    }

    /** One poll over the rows it has read. */
    method PollAndPublish(batch: seq<string>, replies: seq<Reply>) returns (published: nat)
      requires |replies| == |batch|
      modifies this
      ensures Pass(outbox, channel, published) == RelayAll(Pass(old(outbox), old(channel), 0), batch, replies)
    {
      published := 0;
      for i := 0 to |batch|
        invariant Pass(outbox, channel, published)
                  == RelayAll(Pass(old(outbox), old(channel), 0), batch[..i], replies[..i])
      {
        var row := batch[i];
        assert batch[..i + 1][..i] == batch[..i] && replies[..i + 1][..i] == replies[..i];
        if row in outbox {
          if replies[i] != RaisedBeforeDelivery { channel := channel + [outbox[row].message]; }
          if replies[i] == Accepted {
            outbox := outbox[row := outbox[row].(published := true)];
            published := published + 1;
          }
        }
      }
      assert batch[..|batch|] == batch && replies[..|replies|] == replies;
    }
  }

  lemma RelayOneMarks(start: Pass, pass: Pass, marked: set<string>, row: string, reply: Reply)
    requires pass.outbox == MarkRows(start.outbox, marked) && row in start.outbox && row !in marked
    ensures var after := RelayOne(pass, row, reply);
            && after.outbox == MarkRows(start.outbox, marked + (if reply == Accepted then {row} else {}))
            && after.channel == pass.channel + (if reply == RaisedBeforeDelivery then [] else [start.outbox[row].message])
            && after.published == pass.published + (if reply == Accepted then 1 else 0)
  {
    assert marked + {} == marked;
    assert pass.channel + [] == pass.channel;
  }

  lemma AcceptedStep(batch: seq<string>, replies: seq<Reply>, i: nat)
    requires |replies| == |batch| && i < |batch|
    requires forall i, j | 0 <= i < j < |batch| :: batch[i] != batch[j]
    ensures AcceptedRows(batch[..i + 1], replies[..i + 1])
            == AcceptedRows(batch[..i], replies[..i]) + (if replies[i] == Accepted then {batch[i]} else {})
    ensures batch[i] !in AcceptedRows(batch[..i], replies[..i])
  {
    var next := AcceptedRows(batch[..i + 1], replies[..i + 1]);
    forall row | row in AcceptedRows(batch[..i], replies[..i]) ensures row in next {
      var j :| 0 <= j < i && replies[j] == Accepted && batch[j] == row;
      assert replies[..i + 1][j] == Accepted && batch[..i + 1][j] == row;
    }
    if replies[i] == Accepted { assert replies[..i + 1][i] == Accepted && batch[..i + 1][i] == batch[i]; }
  }

  datatype Received = NewlyProcessed | AlreadyKnown | HandlerRaised

  class InboxConsumer {
    var inbox: set<string>
    var effects: seq<string>

    constructor ()
      ensures inbox == {} && effects == []
    {
      inbox, effects := {}, [];
    }

    /** Every inbox row stands for one effect and every effect for one row. */
    ghost predicate Valid()
      reads this
    {
      && (forall m :: m in inbox <==> m in effects)
      && (forall i, j | 0 <= i < j < |effects| :: effects[i] != effects[j])
    }

    /** Claims the message, runs the handler, and keeps both only if the handler returns. */
    method Receive(message: string, handlerReturns: bool) returns (outcome: Received)
      requires Valid()
      modifies this
      ensures Valid()
      ensures outcome == AlreadyKnown <==> message in old(inbox)
      ensures outcome == NewlyProcessed <==> message !in old(inbox) && handlerReturns
      ensures if outcome == NewlyProcessed
              then inbox == old(inbox) + {message} && effects == old(effects) + [message]
              else inbox == old(inbox) && effects == old(effects)
    {
      if message in inbox { return AlreadyKnown; }
      var savedInbox, savedEffects := inbox, effects;
      inbox := inbox + {message};
      effects := effects + [message];
      if !handlerReturns {
        inbox, effects := savedInbox, savedEffects;
        return HandlerRaised;
      }
      outcome := NewlyProcessed;
    }
  }
}
