/** The listing of the platform switch's audit log, which is ordered by time and id and not by commit.

    It shows the history as it happened, and it can be replayed, in every run exactly when every
    commit carries a clock reading later than that of the commit before it. */
module PlatformListing {
  import opened Basics
  import opened Ordering
  import opened PlatformSwitch

  /** `list_audit` orders by time, then by id. */
  predicate ListedBefore(a: Audit, b: Audit) {
    a.at < b.at || (a.at == b.at && Precedes(a.id, b.id))
  }

  predicate InListingOrder(log: seq<Audit>) {
    forall i, j | 0 <= i < j < |log| :: ListedBefore(log[i], log[j])
  }

  function Placed(e: Audit, listing: seq<Audit>): seq<Audit> {
    if listing == [] then [e]
    else if ListedBefore(e, listing[0]) then [e] + listing
    else [listing[0]] + Placed(e, listing[1..])
  }

  function Listing(log: seq<Audit>): seq<Audit> {
    if log == [] then [] else Placed(log[|log| - 1], Listing(log[..|log| - 1]))
  }

  lemma ListedBeforeTransitive(a: Audit, b: Audit, c: Audit)
    requires ListedBefore(a, b) && ListedBefore(b, c)
    ensures ListedBefore(a, c)
  {
    if a.at == b.at == c.at { PrecedesTransitive(a.id, b.id, c.id); }
  }

  lemma ListedOneWay(a: Audit, b: Audit)
    ensures !(ListedBefore(a, b) && ListedBefore(b, a))
    ensures a.id != b.id ==> ListedBefore(a, b) || ListedBefore(b, a)
  {
    StringsMirror(a.id, b.id);
  }

  predicate DistinctIds(log: seq<Audit>) {
    forall i, j | 0 <= i < j < |log| :: log[i].id != log[j].id
  }

  lemma {:induction false} PlacedInOrder(e: Audit, listing: seq<Audit>)
    requires InListingOrder(listing) && forall f <- listing :: f.id != e.id
    ensures multiset(Placed(e, listing)) == multiset(listing) + multiset{e} && InListingOrder(Placed(e, listing))
    decreases |listing|
  {
    if listing != [] {
      var first, rest := listing[0], listing[1..];
      assert listing == [first] + rest;
      if ListedBefore(e, first) {
        FirstGoesBefore(e, listing);
      } else {
        PlacedInOrder(e, rest);
        ListedOneWay(e, first);
        forall f | f in Placed(e, rest) ensures ListedBefore(first, f) {
          assert f in multiset(Placed(e, rest));
          if f != e { assert f in rest; }
        }
      }
    }
  }

  lemma FirstGoesBefore(e: Audit, listing: seq<Audit>)
    requires InListingOrder(listing) && listing != [] && ListedBefore(e, listing[0])
    ensures InListingOrder([e] + listing)
  {
    forall i | 0 <= i < |listing| ensures ListedBefore(e, listing[i]) {
      if i > 0 { ListedBeforeTransitive(e, listing[0], listing[i]); }
    }
  }

  /** The listing holds what the log holds, in listing order. */
  lemma {:induction false} ListingSorts(log: seq<Audit>)
    requires DistinctIds(log)
    ensures multiset(Listing(log)) == multiset(log) && InListingOrder(Listing(log))
    decreases |log|
  {
    if log != [] {
      var init, e := log[..|log| - 1], log[|log| - 1];
      assert log == init + [e];
      ListingSorts(init);
      forall f | f in Listing(init) ensures f.id != e.id {
        assert f in multiset(init);
        assert f in init;
      }
      PlacedInOrder(e, Listing(init));
    }
  }

  lemma SameMembers(log: seq<Audit>)
    requires DistinctIds(log)
    ensures forall e :: e in Listing(log) <==> e in log
  {
    ListingSorts(log);
    forall e ensures e in Listing(log) <==> e in log {
      assert e in Listing(log) <==> e in multiset(Listing(log));
      assert e in log <==> e in multiset(log);
    }
  }

  /** The listing is the log itself exactly when the log is in listing order. */
  lemma ListingIsLogExactly(log: seq<Audit>)
    requires DistinctIds(log)
    ensures Listing(log) == log <==> InListingOrder(log)
  {
    ListingSorts(log);
    if InListingOrder(log) { OrderedIsUnique(log, Listing(log)); }
  }

  lemma {:induction false} OrderedIsUnique(a: seq<Audit>, b: seq<Audit>)
    requires multiset(a) == multiset(b) && InListingOrder(a) && InListingOrder(b)
    ensures a == b
    decreases |a|
  {
    SameLength(a, b);
    if a != [] {
      SameFirst(a, b);
      DropFirst(a, b);
      OrderedIsUnique(a[1..], b[1..]);
      assert a == [a[0]] + a[1..] && b == [b[0]] + b[1..];
    }
  }

  lemma SameLength(a: seq<Audit>, b: seq<Audit>)
    requires multiset(a) == multiset(b)
    ensures |a| == |b|
  {
    assert |a| == |multiset(a)| && |b| == |multiset(b)|;
  }

  lemma SameFirst(a: seq<Audit>, b: seq<Audit>)
    requires multiset(a) == multiset(b) && InListingOrder(a) && InListingOrder(b) && a != [] && b != []
    ensures a[0] == b[0]
  {
    FirstIsEarliest(a, b);
    FirstIsEarliest(b, a);
    StringsMirror(a[0].id, b[0].id);
  }

  lemma DropFirst(a: seq<Audit>, b: seq<Audit>)
    requires multiset(a) == multiset(b) && a != [] && b != [] && a[0] == b[0]
    ensures multiset(a[1..]) == multiset(b[1..])
  {
    assert a == [a[0]] + a[1..] && b == [b[0]] + b[1..];
    assert multiset(a[1..]) == multiset(a) - multiset{a[0]} && multiset(b[1..]) == multiset(b) - multiset{b[0]};
  }

  lemma FirstIsEarliest(a: seq<Audit>, b: seq<Audit>)
    requires multiset(a) == multiset(b) && InListingOrder(a) && a != [] && b != []
    ensures a[0] == b[0] || ListedBefore(a[0], b[0])
  {
    assert b[0] in multiset(b);
    assert b[0] in a;
  }

  // ---------------------------------------------------------------- what reachable logs hold

  predicate ActivationOf(e: Audit, switch: string) {
    e.activated && e.switch == switch
  }

  predicate DeactivationOf(e: Audit, switch: string) {
    !e.activated && e.switch == switch
  }

  predicate Activated(log: seq<Audit>, switch: string) {
    exists e <- log :: ActivationOf(e, switch)
  }

  predicate Deactivated(log: seq<Audit>, switch: string) {
    exists e <- log :: DeactivationOf(e, switch)
  }

  /** A switch is activated once and deactivated at most once. */
  predicate Paired(log: seq<Audit>) {
    && DistinctIds(log)
    && (forall e <- log, f <- log | e.activated == f.activated && e.switch == f.switch :: e == f)
    && (forall e <- log :: Activated(log, e.switch))
  }

  /** The rows are the switches of the log, and those it deactivates are not active. */
  predicate RowsTell(rows: Rows, log: seq<Audit>) {
    && (forall e <- log :: e.switch in rows)
    && (forall e <- log | !e.activated :: !Active(rows, e.switch))
    && (forall switch <- rows :: Activated(log, switch))
  }

  lemma NamedNext(log: seq<Audit>, e: Audit, switch: string)
    ensures Activated(log + [e], switch) <==> Activated(log, switch) || ActivationOf(e, switch)
    ensures Deactivated(log + [e], switch) <==> Deactivated(log, switch) || DeactivationOf(e, switch)
  {
    var longer := log + [e];
    assert longer[|log|] == e;
    assert forall f <- log :: f in longer;
    assert forall f <- longer :: f in log || f == e;
  }

  lemma PairedNext(log: seq<Audit>, e: Audit)
    requires Paired(log) && forall f <- log :: f.id != e.id
    requires forall f <- log | f.activated == e.activated :: f.switch != e.switch
    requires e.activated || Activated(log, e.switch)
    ensures Paired(log + [e])
  {
    var longer := log + [e];
    assert forall f <- longer :: f in log || f == e;
    forall f | f in longer ensures Activated(longer, f.switch) {
      NamedNext(log, e, f.switch);
    }
  }

  lemma RowsTellNext(rows: Rows, log: seq<Audit>, e: Audit)
    requires RowsTell(rows, log) && if e.activated then e.switch !in rows else Active(rows, e.switch)
    ensures RowsTell(Recorded(rows, e), log + [e])
  {
    assert forall f <- log + [e] :: f in log || f == e;
    forall switch | switch in Recorded(rows, e) ensures Activated(log + [e], switch) {
      NamedNext(log, e, switch);
    }
  }

  lemma CommitKeepsLog(s: State, tx: nat, audit: string)
    requires Inv(s) && Enabled(s, Commit(tx, audit)) && Paired(s.log) && RowsTell(s.rows, s.log)
    ensures Paired(s.log + [Entry(s.txs[tx], audit)])
    ensures RowsTell(Recorded(s.rows, Entry(s.txs[tx], audit)), s.log + [Entry(s.txs[tx], audit)])
  {
    var t := s.txs[tx];
    if t.Deactivating? { assert Holds(t, t.phase.row) && Active(s.rows, t.phase.row); }
    NewSwitchOrActive(s.rows, s.log, Entry(t, audit));
  }

  lemma NewSwitchOrActive(rows: Rows, log: seq<Audit>, e: Audit)
    requires Paired(log) && RowsTell(rows, log) && forall i | 0 <= i < |log| :: log[i].id != e.id
    requires if e.activated then e.switch !in rows else Active(rows, e.switch)
    ensures Paired(log + [e]) && RowsTell(Recorded(rows, e), log + [e])
  {
    PairedNext(log, e);
    RowsTellNext(rows, log, e);
  }

  lemma StepKeepsLog(s: State, step: Step)
    requires Inv(s) && Enabled(s, step) && Paired(s.log) && RowsTell(s.rows, s.log)
    ensures Paired(Apply(s, step).log) && RowsTell(Apply(s, step).rows, Apply(s, step).log)
  {
    match step
    case Commit(tx, audit) => CommitKeepsLog(s, tx, audit);
    case _ =>
  }

  lemma {:induction false} LogReached(guard: Guard, steps: seq<Step>, s: State)
    requires Reaches(guard, steps, s)
    ensures Paired(s.log) && RowsTell(s.rows, s.log)
    decreases |steps|
  {
    if steps != [] {
      var last := |steps| - 1;
      var before: State :| Reaches(guard, steps[..last], before) && Enabled(before, steps[last])
                           && guard(before, steps[last]) && s == Apply(before, steps[last]);
      InvariantReached(guard, steps[..last], before);
      LogReached(guard, steps[..last], before);
      StepKeepsLog(before, steps[last]);
    }
  }

  /** The listing of a reachable log has the same members, and they are paired too. */
  lemma ListingPaired(log: seq<Audit>)
    requires Paired(log)
    ensures Paired(Listing(log)) && InListingOrder(Listing(log))
    ensures forall e :: e in Listing(log) <==> e in log
    ensures forall switch :: Activated(Listing(log), switch) <==> Activated(log, switch)
    ensures forall switch :: Deactivated(Listing(log), switch) <==> Deactivated(log, switch)
  {
    var listing := Listing(log);
    ListingSorts(log);
    SameMembers(log);
    forall i, j | 0 <= i < j < |listing| ensures listing[i].id != listing[j].id {
      assert listing[i] in log && listing[j] in log;
      ListedOneWay(listing[i], listing[j]);
    }
    forall switch
      ensures Activated(listing, switch) <==> Activated(log, switch)
      ensures Deactivated(listing, switch) <==> Deactivated(log, switch) {
    }
  }

  // ---------------------------------------------------------------- what a replay shows

  predicate StillOn(log: seq<Audit>, switch: string) {
    Activated(log, switch) && !Deactivated(log, switch)
  }

  /** No two entries of the log do the same to one switch. */
  predicate Once(log: seq<Audit>) {
    forall i, j | 0 <= i < j < |log| :: !(log[i].activated == log[j].activated && log[i].switch == log[j].switch)
  }

  lemma PairedIsOnce(log: seq<Audit>)
    requires Paired(log)
    ensures Once(log)
  {
    forall i, j | 0 <= i < j < |log| ensures !(log[i].activated == log[j].activated && log[i].switch == log[j].switch) {
      assert log[i] in log && log[j] in log && log[i].id != log[j].id;
    }
  }

  /** A replay that has not broken shows on exactly the switch activated and not yet deactivated. */
  lemma {:induction false} OnMeans(log: seq<Audit>)
    requires Once(log) && Replay(log) != Broken
    ensures forall switch :: Replay(log) == On(switch) <==> StillOn(log, switch)
    ensures forall switch :: Deactivated(log, switch) ==> Activated(log, switch)
    decreases |log|
  {
    if log != [] {
      var init, e := log[..|log| - 1], log[|log| - 1];
      assert log == init + [e];
      OnMeans(init);
      OnceAtEnd(init, e);
      forall switch
        ensures Replay(log) == On(switch) <==> StillOn(log, switch)
        ensures Deactivated(log, switch) ==> Activated(log, switch) {
        NamedNext(init, e, switch);
        assert Replay(init) == On(switch) <==> StillOn(init, switch);
        assert Replay(init) == On(e.switch) <==> StillOn(init, e.switch);
      }
    }
  }

  lemma OnceAtEnd(init: seq<Audit>, e: Audit)
    requires Once(init + [e])
    ensures Once(init)
    ensures e.activated ==> !Activated(init, e.switch)
    ensures !e.activated ==> !Deactivated(init, e.switch)
  {
    var log := init + [e];
    forall i | 0 <= i < |init| ensures !(init[i].activated == e.activated && init[i].switch == e.switch) {
      assert log[i] == init[i] && log[|init|] == e;
    }
    forall i, j | 0 <= i < j < |init|
      ensures !(init[i].activated == init[j].activated && init[i].switch == init[j].switch) {
      assert log[i] == init[i] && log[j] == init[j];
    }
  }

  // ---------------------------------------------------------------- when a listing replays

  /** The recorded end of a switch's active period is listed before the entry. */
  predicate OverBefore(log: seq<Audit>, switch: string, e: Audit) {
    exists d <- log :: DeactivationOf(d, switch) && ListedBefore(d, e)
  }

  predicate EndsAfterStart(log: seq<Audit>) {
    forall a <- log, d <- log | a.activated && !d.activated && a.switch == d.switch :: ListedBefore(a, d)
  }

  predicate OneAfterTheOther(log: seq<Audit>) {
    forall a <- log, b <- log | a.activated && b.activated && a.switch != b.switch ::
      OverBefore(log, a.switch, b) || OverBefore(log, b.switch, a)
  }

  /** The recorded active periods run forwards and do not overlap. */
  predicate PeriodsApart(log: seq<Audit>) {
    EndsAfterStart(log) && OneAfterTheOther(log)
  }

  lemma IndexBefore(listing: seq<Audit>, i: nat, j: nat)
    requires InListingOrder(listing) && i < |listing| && j < |listing| && ListedBefore(listing[i], listing[j])
    ensures i < j
  {
    ListedOneWay(listing[i], listing[j]);
  }

  lemma {:induction false} PrefixReplays(log: seq<Audit>, n: nat)
    requires Replay(log) != Broken && n <= |log|
    ensures Replay(log[..n]) != Broken
    decreases |log|
  {
    if n < |log| {
      PrefixReplays(log[..|log| - 1], n);
      assert log[..|log| - 1][..n] == log[..n];
    } else {
      assert log[..n] == log;
    }
  }

  /** What an unbroken replay shows just before an entry. */
  lemma ShownBefore(log: seq<Audit>, n: nat)
    requires Once(log) && Replay(log) != Broken && n < |log|
    ensures Replay(log[..n]) == (if log[n].activated then Off else On(log[n].switch))
    ensures forall switch :: Replay(log[..n]) == On(switch) <==> StillOn(log[..n], switch)
  {
    PrefixReplays(log, n);
    PrefixReplays(log, n + 1);
    ReplayNext(log, n);
    OnceTaken(log, n);
    OnMeans(log[..n]);
  }

  lemma ReplayNext(log: seq<Audit>, n: nat)
    requires n < |log| && Replay(log[..n + 1]) != Broken
    ensures Replay(log[..n]) == (if log[n].activated then Off else On(log[n].switch))
  {
    var longer := log[..n + 1];
    assert longer[..|longer| - 1] == log[..n] && longer[|longer| - 1] == log[n];
  }

  lemma ReplayedEndsAfterStart(log: seq<Audit>, i: nat, j: nat)
    requires Once(log) && Replay(log) != Broken && i < |log| && j < |log|
    requires log[i].activated && DeactivationOf(log[j], log[i].switch)
    ensures i < j
  {
    ShownBefore(log, j);
    assert StillOn(log[..j], log[i].switch);
    var a :| a in log[..j] && ActivationOf(a, log[i].switch);
    var k :| 0 <= k < j && log[k] == a;
    assert k == i;
  }

  lemma ReplayedOneAfterTheOther(log: seq<Audit>, i: nat, j: nat)
    requires Once(log) && Replay(log) != Broken && InListingOrder(log) && i < j < |log|
    requires log[i].activated && log[j].activated
    ensures OverBefore(log, log[i].switch, log[j])
  {
    ShownBefore(log, j);
    assert log[..j][i] == log[i] && ActivationOf(log[..j][i], log[i].switch);
    assert !StillOn(log[..j], log[i].switch);
    var d :| d in log[..j] && DeactivationOf(d, log[i].switch);
    var k :| 0 <= k < j && log[k] == d;
    assert ListedBefore(log[k], log[j]);
  }

  lemma ReplayedIsApart(log: seq<Audit>)
    requires Once(log) && Replay(log) != Broken && InListingOrder(log)
    ensures PeriodsApart(log)
  {
    forall a <- log, d <- log | a.activated && !d.activated && a.switch == d.switch ensures ListedBefore(a, d) {
      var i, j :| 0 <= i < |log| && 0 <= j < |log| && log[i] == a && log[j] == d;
      ReplayedEndsAfterStart(log, i, j);
    }
    forall a <- log, b <- log | a.activated && b.activated && a.switch != b.switch
      ensures OverBefore(log, a.switch, b) || OverBefore(log, b.switch, a) {
      var i, j :| 0 <= i < |log| && 0 <= j < |log| && log[i] == a && log[j] == b;
      if i < j { ReplayedOneAfterTheOther(log, i, j); } else { ReplayedOneAfterTheOther(log, j, i); }
    }
  }

  lemma ApartActivationFindsOff(log: seq<Audit>, n: nat)
    requires Once(log) && InListingOrder(log) && PeriodsApart(log) && n < |log| && log[n].activated
    requires Replay(log[..n]) != Broken
    ensures Replay(log[..n]) == Off
  {
    if Replay(log[..n]).On? {
      var e, x := log[n], Replay(log[..n]).switch;
      OnceTaken(log, n);
      OnMeans(log[..n]);
      assert StillOn(log[..n], x);
      var a :| a in log[..n] && ActivationOf(a, x);
      var i :| 0 <= i < n && log[i] == a;
      assert a in log && e in log && a.switch != e.switch;
      OverMeansDeactivated(log, n, x);
      var d :| d in log && DeactivationOf(d, e.switch) && ListedBefore(d, a);
      assert ListedBefore(e, d);
      ListedBeforeTransitive(e, d, a);
      ListedOneWay(a, e);
    }
  }

  lemma OnceTaken(log: seq<Audit>, n: nat)
    requires Once(log) && n <= |log|
    ensures Once(log[..n])
  {
  }

  lemma OverMeansDeactivated(log: seq<Audit>, n: nat, switch: string)
    requires InListingOrder(log) && n < |log|
    ensures OverBefore(log, switch, log[n]) ==> Deactivated(log[..n], switch)
  {
    if OverBefore(log, switch, log[n]) {
      var d :| d in log && DeactivationOf(d, switch) && ListedBefore(d, log[n]);
      var k :| 0 <= k < |log| && log[k] == d;
      IndexBefore(log, k, n);
      assert log[..n][k] == d;
    }
  }

  lemma ApartDeactivationFindsOn(log: seq<Audit>, n: nat)
    requires Paired(log) && InListingOrder(log) && PeriodsApart(log) && n < |log| && !log[n].activated
    requires Replay(log[..n]) != Broken
    ensures Replay(log[..n]) == On(log[n].switch)
  {
    var e := log[n];
    PairedIsOnce(log);
    OnceTaken(log, n);
    OnceTaken(log, n + 1);
    assert log[..n + 1] == log[..n] + [e];
    OnceAtEnd(log[..n], e);
    OnMeans(log[..n]);
    assert e in log && Activated(log, e.switch);
    var a :| a in log && ActivationOf(a, e.switch);
    var i :| 0 <= i < |log| && log[i] == a;
    IndexBefore(log, i, n);
    assert log[..n][i] == a && StillOn(log[..n], e.switch);
  }

  lemma {:induction false} ApartReplays(log: seq<Audit>, n: nat)
    requires Paired(log) && InListingOrder(log) && PeriodsApart(log) && n <= |log|
    ensures Replay(log[..n]) != Broken
  {
    if n > 0 {
      ApartReplays(log, n - 1);
      PairedIsOnce(log);
      assert log[..n][..n - 1] == log[..n - 1] && log[..n][n - 1] == log[n - 1];
      if log[n - 1].activated { ApartActivationFindsOff(log, n - 1); } else { ApartDeactivationFindsOn(log, n - 1); }
    }
  }

  lemma ApartByMembers(log: seq<Audit>, listing: seq<Audit>)
    requires forall e :: e in log <==> e in listing
    ensures PeriodsApart(log) ==> PeriodsApart(listing)
  {
    if PeriodsApart(log) {
      forall a <- listing, b <- listing | a.activated && b.activated && a.switch != b.switch
        ensures OverBefore(listing, a.switch, b) || OverBefore(listing, b.switch, a) {
        assert OverBefore(log, a.switch, b) || OverBefore(log, b.switch, a);
      }
    }
  }

  lemma ListingReplaysIfApart(log: seq<Audit>)
    requires Paired(log) && Replay(log) != Broken
    ensures Replay(Listing(log)) != Broken <==> PeriodsApart(log)
    ensures PeriodsApart(log) ==> Replay(Listing(log)) == Replay(log)
  {
    var listing := Listing(log);
    ListingPaired(log);
    PairedIsOnce(log);
    PairedIsOnce(listing);
    if Replay(listing) != Broken {
      ReplayedIsApart(listing);
      ApartByMembers(listing, log);
    }
    if PeriodsApart(log) {
      ApartByMembers(log, listing);
      ApartReplays(listing, |listing|);
      assert listing[..|listing|] == listing;
      OnMeans(log);
      OnMeans(listing);
      SameReplay(log, listing);
    }
  }

  lemma SameReplay(log: seq<Audit>, listing: seq<Audit>)
    requires Replay(log) != Broken && Replay(listing) != Broken
    requires forall switch :: Replay(log) == On(switch) <==> StillOn(log, switch)
    requires forall switch :: Replay(listing) == On(switch) <==> StillOn(listing, switch)
    requires forall switch :: StillOn(log, switch) <==> StillOn(listing, switch)
    ensures Replay(listing) == Replay(log)
  {
    if Replay(log).On? { assert StillOn(listing, Replay(log).switch); }
    if Replay(listing).On? { assert StillOn(log, Replay(listing).switch); }
  }

  /** The listing of a reachable log can be replayed if and only if the recorded active periods run
      forwards and do not overlap; it then ends in the same switch, or in none, as the history. */
  lemma ListingReplaysExactly(guard: Guard, steps: seq<Step>, s: State)
    requires Reaches(guard, steps, s)
    ensures Replay(Listing(s.log)) != Broken <==> PeriodsApart(s.log)
    ensures PeriodsApart(s.log) ==> Replay(Listing(s.log)) == Replay(s.log)
  {
    InvariantReached(guard, steps, s);
    LogReached(guard, steps, s);
    ListingReplaysIfApart(s.log);
  }

  // ---------------------------------------------------------------- when every listing does

  predicate InTime(log: seq<Audit>, e: Audit) {
    log == [] || ListedBefore(log[|log| - 1], e)
  }

  /** Every commit is listed after the commit before it. */
  ghost predicate CommitsInOrder(guard: Guard) {
    forall steps: seq<Step>, s: State, tx, audit
      | Reaches(guard, steps, s) && Enabled(s, Commit(tx, audit)) && guard(s, Commit(tx, audit)) ::
      InTime(s.log, Entry(s.txs[tx], audit))
  }

  ghost predicate ListingsAreHistory(guard: Guard) {
    forall steps: seq<Step>, s: State | Reaches(guard, steps, s) :: Listing(s.log) == s.log
  }

  ghost predicate ListingsReplay(guard: Guard) {
    forall steps: seq<Step>, s: State | Reaches(guard, steps, s) :: Replay(Listing(s.log)) != Broken
  }

  lemma InTimeKeepsOrder(log: seq<Audit>, e: Audit)
    requires InListingOrder(log) && InTime(log, e)
    ensures InListingOrder(log + [e])
  {
    forall i | 0 <= i < |log| ensures ListedBefore(log[i], e) {
      if i < |log| - 1 { ListedBeforeTransitive(log[i], log[|log| - 1], e); }
    }
  }

  lemma {:induction false} InOrderReached(guard: Guard, steps: seq<Step>, s: State)
    requires CommitsInOrder(guard) && Reaches(guard, steps, s)
    ensures InListingOrder(s.log)
    decreases |steps|
  {
    if steps != [] {
      var last := |steps| - 1;
      var before: State :| Reaches(guard, steps[..last], before) && Enabled(before, steps[last])
                           && guard(before, steps[last]) && s == Apply(before, steps[last]);
      InOrderReached(guard, steps[..last], before);
      if steps[last].Commit? { InTimeKeepsOrder(before.log, Entry(before.txs[steps[last].tx], steps[last].audit)); }
    }
  }

  lemma LastBeforeActivation(s: State, e: Audit)
    requires Inv(s) && Paired(s.log) && RowsTell(s.rows, s.log) && s.log != [] && Replay(s.log) == Off
    requires e.activated && e.switch !in s.rows && PeriodsApart(s.log + [e])
    ensures InTime(s.log, e)
  {
    var log, after := s.log, s.log + [e];
    var last := log[|log| - 1];
    assert last in log && !last.activated;
    var a :| a in log && ActivationOf(a, last.switch);
    assert forall f <- after :: f in log || f == e;
    assert after[|log|] == e && e in after && a in after;
    assert !OverBefore(after, e.switch, a);
    var d :| d in after && DeactivationOf(d, a.switch) && ListedBefore(d, e);
    assert d in log && d == last;
  }

  lemma LastBeforeDeactivation(s: State, e: Audit)
    requires s.log != [] && Replay(s.log) == On(e.switch)
    requires !e.activated && PeriodsApart(s.log + [e])
    ensures InTime(s.log, e)
  {
    var log, after := s.log, s.log + [e];
    assert after[|log| - 1] == log[|log| - 1] && after[|log|] == e;
    assert after[|log| - 1] in after && e in after;
  }

  lemma ReplayingCommitIsInTime(s: State, tx: nat, audit: string)
    requires Inv(s) && Paired(s.log) && RowsTell(s.rows, s.log) && Enabled(s, Commit(tx, audit))
    requires PeriodsApart(s.log + [Entry(s.txs[tx], audit)])
    ensures InTime(s.log, Entry(s.txs[tx], audit))
  {
    var t := s.txs[tx];
    if s.log != [] {
      if t.Activating? {
        OffWhenNoneActive(s.rows, Replay(s.log));
        LastBeforeActivation(s, Entry(t, audit));
      } else {
        assert Holds(t, t.phase.row) && Active(s.rows, t.phase.row);
        LastBeforeDeactivation(s, Entry(t, audit));
      }
    }
  }

  /** However calls are scheduled: every listing is the history, if and only if every listing
      replays, if and only if every commit carries a reading listed after that of the commit before. */
  lemma ListingIsHistoryExactly(guard: Guard)
    ensures ListingsAreHistory(guard) <==> CommitsInOrder(guard)
    ensures ListingsReplay(guard) <==> CommitsInOrder(guard)
  {
    if CommitsInOrder(guard) {
      OrderIsEnough(guard);
    }
    if ListingsReplay(guard) {
      ReplayNeedsOrder(guard);
    }
    if ListingsAreHistory(guard) {
      forall steps: seq<Step>, s: State | Reaches(guard, steps, s) ensures Replay(Listing(s.log)) != Broken {
        InvariantReached(guard, steps, s);
      }
    }
  }

  lemma OrderIsEnough(guard: Guard)
    requires CommitsInOrder(guard)
    ensures ListingsAreHistory(guard) && ListingsReplay(guard)
  {
    forall steps: seq<Step>, s: State | Reaches(guard, steps, s)
      ensures Listing(s.log) == s.log && Replay(Listing(s.log)) != Broken {
      InvariantReached(guard, steps, s);
      LogReached(guard, steps, s);
      InOrderReached(guard, steps, s);
      ListingIsLogExactly(s.log);
    }
  }

  lemma ReplayNeedsOrder(guard: Guard)
    requires ListingsReplay(guard)
    ensures CommitsInOrder(guard)
  {
    forall steps: seq<Step>, s: State, tx, audit
      | Reaches(guard, steps, s) && Enabled(s, Commit(tx, audit)) && guard(s, Commit(tx, audit))
      ensures InTime(s.log, Entry(s.txs[tx], audit)) {
      ReplayNeedsOrderAt(guard, steps, s, tx, audit);
    }
  }

  lemma ReplayNeedsOrderAt(guard: Guard, steps: seq<Step>, s: State, tx: nat, audit: string)
    requires ListingsReplay(guard)
    requires Reaches(guard, steps, s) && Enabled(s, Commit(tx, audit)) && guard(s, Commit(tx, audit))
    ensures InTime(s.log, Entry(s.txs[tx], audit))
  {
    ReachesNext(guard, steps, s, Commit(tx, audit));
    assert Replay(Listing(Apply(s, Commit(tx, audit)).log)) != Broken;
    InvariantReached(guard, steps, s);
    LogReached(guard, steps, s);
    ReplayedCommitIsInTime(s, tx, audit);
  }

  lemma ReplayedCommitIsInTime(s: State, tx: nat, audit: string)
    requires Inv(s) && Paired(s.log) && RowsTell(s.rows, s.log) && Enabled(s, Commit(tx, audit))
    requires Replay(Listing(s.log + [Entry(s.txs[tx], audit)])) != Broken
    ensures InTime(s.log, Entry(s.txs[tx], audit))
  {
    CommitKeeps(s, tx, audit);
    CommitKeepsLog(s, tx, audit);
    ListingReplaysIfApart(s.log + [Entry(s.txs[tx], audit)]);
    ReplayingCommitIsInTime(s, tx, audit);
  }

  // ---------------------------------------------------------------- a schedule that is enough

  predicate Later(log: seq<Audit>, now: int) {
    log == [] || log[|log| - 1].at < now
  }

  /** A call reads the clock only with no other in flight, and after it has passed the last reading. */
  ghost predicate ReadsAfterCommit(guard: Guard) {
    forall s: State, step: Step | (step.BeginActivate? || step.BeginDeactivate?) && guard(s, step) ::
      s.txs == map[] && Later(s.log, s.clock)
  }

  ghost predicate OneReadLater(s: State) {
    forall t <- s.txs, u <- s.txs :: t == u && Later(s.log, s.txs[t].now)
  }

  lemma {:induction false} StaysLater(guard: Guard, steps: seq<Step>, s: State)
    requires ReadsAfterCommit(guard) && Reaches(guard, steps, s)
    ensures OneReadLater(s)
    decreases |steps|
  {
    if steps != [] {
      var last := |steps| - 1;
      var before: State :| Reaches(guard, steps[..last], before) && Enabled(before, steps[last])
                           && guard(before, steps[last]) && s == Apply(before, steps[last]);
      StaysLater(guard, steps[..last], before);
      StepStaysLater(guard, before, steps[last]);
    }
  }

  lemma StepStaysLater(guard: Guard, s: State, step: Step)
    requires ReadsAfterCommit(guard) && OneReadLater(s) && Enabled(s, step) && guard(s, step)
    ensures OneReadLater(Apply(s, step))
  {
  }

  /** Reading the clock after the previous commit, at a later time, is enough. */
  lemma ReadingAfterCommitIsEnough(guard: Guard)
    requires ReadsAfterCommit(guard)
    ensures CommitsInOrder(guard)
  {
    forall steps: seq<Step>, s: State, tx, audit
      | Reaches(guard, steps, s) && Enabled(s, Commit(tx, audit)) && guard(s, Commit(tx, audit))
      ensures InTime(s.log, Entry(s.txs[tx], audit)) {
      StaysLater(guard, steps, s);
      assert Later(s.log, s.txs[tx].now);
    }
  }

  // ---------------------------------------------------------------- a listing that does not replay

  lemma ReachesNext(guard: Guard, steps: seq<Step>, s: State, step: Step)
    requires Reaches(guard, steps, s) && Enabled(s, step) && guard(s, step)
    ensures Reaches(guard, steps + [step], Apply(s, step))
  {
    assert (steps + [step])[..|steps|] == steps;
  }

  /** One whole activation, with nobody in its way. */
  lemma Activates(steps: seq<Step>, s: State, tx: nat, audit: string)
    returns (steps': seq<Step>, s': State)
    requires Reaches(Unscheduled, steps, s) && tx in s.txs && s.txs[tx].Activating? && s.txs[tx].phase == Begun
    requires s.txs.Keys == {tx} && !AnyActive(s.rows) && Enabled(s, Look(tx))
    requires forall i | 0 <= i < |s.log| :: s.log[i].id != audit
    ensures Reaches(Unscheduled, steps', s')
    ensures s' == State(s.rows[s.txs[tx].switch := None], s.log + [Audit(audit, true, s.txs[tx].switch, s.txs[tx].now)],
                        map[], s.clock)
  {
    var steps1, s1 := Inserts(steps, s, tx);
    ReachesNext(Unscheduled, steps1, s1, Commit(tx, audit));
    steps', s' := steps1 + [Commit(tx, audit)], Apply(s1, Commit(tx, audit));
    assert s'.txs == map[];
  }

  lemma Inserts(steps: seq<Step>, s: State, tx: nat) returns (steps': seq<Step>, s': State)
    requires Reaches(Unscheduled, steps, s) && tx in s.txs && s.txs[tx].Activating? && s.txs[tx].phase == Begun
    requires s.txs.Keys == {tx} && !AnyActive(s.rows)
    ensures Reaches(Unscheduled, steps', s') && s' == s.(txs := s.txs[tx := s.txs[tx].(phase := Inserted)])
  {
    ReachesNext(Unscheduled, steps, s, Look(tx));
    var s1 := InPhase(s, tx, SawNone);
    assert forall u <- s1.txs :: s1.txs[u].phase != Inserted;
    ReachesNext(Unscheduled, steps + [Look(tx)], s1, Insert(tx));
    steps', s' := steps + [Look(tx)] + [Insert(tx)], InPhase(s1, tx, Inserted);
    assert s'.txs == s.txs[tx := s.txs[tx].(phase := Inserted)];
  }

  /** An activation that read the clock before a deactivation but committed after it: the listing
      shows it first, and does not replay. */
  lemma ListingNeedNotReplay() returns (steps: seq<Step>, s: State)
    ensures Reaches(Unscheduled, steps, s) && Replay(Listing(s.log)) == Broken && Replay(s.log) == On("b")
  {
    var first := Audit("x", true, "a", 0);
    var steps1, s1 := SecondBegins();
    var steps2, s2 := DeactivatesBeside(steps1, s1, first);
    steps, s := Activates(steps2, s2, 1, "z");
    ListingOfOverlap(s.log);
    InvariantReached(Unscheduled, steps, s);
    assert Active(s.rows, "b");
  }

  /** Switch "a" is active when the activation of "b" reads the clock. */
  lemma SecondBegins() returns (steps: seq<Step>, s: State)
    ensures Reaches(Unscheduled, steps, s)
    ensures s == State(map["a" := None], [Audit("x", true, "a", 0)], map[1 := Activating("b", 0, Begun)], 1)
  {
    ReachesNext(Unscheduled, [], Empty, BeginActivate(0, "a"));
    var s1 := State(map[], [], map[0 := Activating("a", 0, Begun)], 0);
    var steps1, s2 := Activates([] + [BeginActivate(0, "a")], s1, 0, "x");
    assert s2 == State(map["a" := None], [Audit("x", true, "a", 0)], map[], 0);
    ReachesNext(Unscheduled, steps1, s2, BeginActivate(1, "b"));
    var s3 := s2.(txs := map[1 := Activating("b", 0, Begun)]);
    ReachesNext(Unscheduled, steps1 + [BeginActivate(1, "b")], s3, Tick);
    steps, s := steps1 + [BeginActivate(1, "b")] + [Tick], s3.(clock := 1);
  }

  lemma ListingOfOverlap(log: seq<Audit>)
    requires log == [Audit("x", true, "a", 0)] + [Audit("y", false, "a", 1)] + [Audit("z", true, "b", 0)]
    ensures Replay(Listing(log)) == Broken
  {
    var first, second, third := log[0], log[1], log[2];
    assert log[..2] == [first, second] && [first, second][..1] == [first] && [first][..0] == [];
    assert Precedes("x", "z") && !Precedes("z", "x");
    assert Listing([first]) == Placed(first, Listing([])) == [first];
    assert [first][1..] == [] && Placed(second, [first]) == [first] + Placed(second, []);
    assert Listing([first, second]) == Placed(second, Listing([first])) == [first, second];
    assert [first, second][1..] == [second] && Placed(third, [second]) == [third] + [second];
    assert Listing(log) == Placed(third, [first, second]) == [first] + Placed(third, [second]);
    assert Listing(log) == [first, third, second];
    BreaksAtThird(first, third, second);
  }

  lemma BreaksAtThird(first: Audit, second: Audit, third: Audit)
    requires first.activated && second.activated
    ensures Replay([first, second, third]) == Broken
  {
    assert [first, second, third][..2] == [first, second] && [first, second][..1] == [first] && [first][..0] == [];
    assert Replay([first]) == On(first.switch);
    assert Replay([first, second]) == Broken;
  }

  /** Switch "a" is deactivated at 1 while the activation of "b" has only begun. */
  lemma DeactivatesBeside(steps: seq<Step>, s: State, first: Audit) returns (steps': seq<Step>, s': State)
    requires Reaches(Unscheduled, steps, s) && first == Audit("x", true, "a", 0)
    requires s == State(map["a" := None], [first], map[1 := Activating("b", 0, Begun)], 1)
    ensures Reaches(Unscheduled, steps', s')
    ensures s' == State(map["a" := Some(1)], [first] + [Audit("y", false, "a", 1)], map[1 := Activating("b", 0, Begun)], 1)
  {
    assert Active(s.rows, "a") && !LockedRow(s.txs, "a") && 2 !in s.txs;
    assert first.id != "y";
    steps', s' := Deactivates(steps, s, 2, "a", "y");
  }

  /** One whole deactivation, with nobody in its way. */
  lemma Deactivates(steps: seq<Step>, s: State, tx: nat, row: string, audit: string)
    returns (steps': seq<Step>, s': State)
    requires Reaches(Unscheduled, steps, s) && tx !in s.txs && Active(s.rows, row) && !LockedRow(s.txs, row)
    requires forall i | 0 <= i < |s.log| :: s.log[i].id != audit
    ensures Reaches(Unscheduled, steps', s')
    ensures s' == State(s.rows[row := Some(s.clock)], s.log + [Audit(audit, false, row, s.clock)], s.txs, s.clock)
  {
    var steps1, s1 := Locks(steps, s, tx, row);
    ReachesNext(Unscheduled, steps1, s1, Commit(tx, audit));
    steps', s' := steps1 + [Commit(tx, audit)], Apply(s1, Commit(tx, audit));
    assert s'.txs == s.txs;
  }

  lemma Locks(steps: seq<Step>, s: State, tx: nat, row: string) returns (steps': seq<Step>, s': State)
    requires Reaches(Unscheduled, steps, s) && tx !in s.txs && Active(s.rows, row) && !LockedRow(s.txs, row)
    ensures Reaches(Unscheduled, steps', s') && s' == s.(txs := s.txs[tx := Deactivating(s.clock, Locked(row))])
  {
    ReachesNext(Unscheduled, steps, s, BeginDeactivate(tx));
    var s1 := s.(txs := s.txs[tx := Deactivating(s.clock, Begun)]);
    assert !LockedRow(s1.txs, row) by {
      forall u <- s1.txs ensures !Holds(s1.txs[u], row) {
        if u != tx { assert !Holds(s.txs[u], row); }
      }
    }
    ReachesNext(Unscheduled, steps + [BeginDeactivate(tx)], s1, LockRow(tx, row));
    steps', s' := steps + [BeginDeactivate(tx)] + [LockRow(tx, row)], InPhase(s1, tx, Locked(row));
    assert s'.txs == s.txs[tx := Deactivating(s.clock, Locked(row))];
  }
}
