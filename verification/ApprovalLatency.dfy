/** The approval latency measurement: decisions paired with requests, and the 95th percentile.

    Times are whole numbers of some unit, and 0.95 is the exact fraction 19/20. */
module ApprovalLatency {
  import opened Basics

  datatype Kind = Requested | Decided | Other

  datatype Event = Event(kind: Kind, id: string, at: Option<int>)

  datatype Measurement = Measurement(value: int, samples: nat)

  /** The event opens or closes the approval. */
  predicate Touches(e: Event, id: string) {
    e.at.Some? && e.kind != Other && e.id == id
  }

  /** A request and the decision it is timed against: nothing about that approval lies between. */
  predicate Paired(events: seq<Event>, i: nat, j: nat) {
    && i < j < |events| && events[i].id == events[j].id
    && Touches(events[i], events[j].id) && events[i].kind == Requested
    && Touches(events[j], events[j].id) && events[j].kind == Decided
    && forall k | i < k < j :: !Touches(events[k], events[j].id)
  }

  /** The request of an approval still open after the first n events. */
  function OpenAt(events: seq<Event>, n: nat, id: string): (i: Option<nat>)
    requires n <= |events|
    ensures i.Some? ==> i.value < n && Touches(events[i.value], id) && events[i.value].kind == Requested
  {
    if n == 0 then None
    else if !Touches(events[n - 1], id) then OpenAt(events, n - 1, id)
    else if events[n - 1].kind == Requested then Some(n - 1)
    else None
  }

  function Pairs(events: seq<Event>, n: nat): (p: seq<(nat, nat)>)
    requires n <= |events|
    ensures forall k | 0 <= k < |p| :: p[k].0 < p[k].1 < n && events[p[k].0].at.Some? && events[p[k].1].at.Some?
  {
    if n == 0 then []
    else
      var e := events[n - 1];
      Pairs(events, n - 1)
      + (if e.at.Some? && e.kind == Decided && OpenAt(events, n - 1, e.id).Some?
         then [(OpenAt(events, n - 1, e.id).value, n - 1)] else [])
  }

  function Latency(start: int, end: int): nat {
    if end - start > 0 then end - start else 0
  }

  function Latencies(events: seq<Event>, n: nat): seq<int>
    requires n <= |events|
  {
    if n == 0 then []
    else
      var e := events[n - 1];
      Latencies(events, n - 1)
      + (if e.at.Some? && e.kind == Decided && OpenAt(events, n - 1, e.id).Some?
         then [Latency(events[OpenAt(events, n - 1, e.id).value].at.value, e.at.value)] else [])
  }

  /** One latency for each pair, in the order of the decisions, and never negative. */
  lemma {:induction false} LatenciesOfPairs(events: seq<Event>, n: nat)
    requires n <= |events|
    ensures |Latencies(events, n)| == |Pairs(events, n)|
    ensures forall k | 0 <= k < |Latencies(events, n)| ::
              var requested, decided := events[Pairs(events, n)[k].0].at.value, events[Pairs(events, n)[k].1].at.value;
              && Latencies(events, n)[k] >= 0
              && (requested <= decided ==> Latencies(events, n)[k] == decided - requested)
              && (requested > decided ==> Latencies(events, n)[k] == 0)
  {
    if n > 0 { LatenciesOfPairs(events, n - 1); }
  }

  lemma {:induction false} OpenIsLast(events: seq<Event>, n: nat, id: string, i: nat)
    requires n <= |events|
    ensures OpenAt(events, n, id) == Some(i) <==>
            i < n && Touches(events[i], id) && events[i].kind == Requested && forall k | i < k < n :: !Touches(events[k], id)
  {
    if n > 0 { OpenIsLast(events, n - 1, id, i); }
  }

  /** The scan finds exactly the pairs: each decision with the latest open request of its id. */
  lemma {:induction false} PairsExactly(events: seq<Event>, n: nat, i: nat, j: nat)
    requires n <= |events|
    ensures (i, j) in Pairs(events, n) <==> j < n && Paired(events, i, j)
    ensures Paired(events, i, j) <==>
            && i < j < |events| && events[i].id == events[j].id
            && events[i].kind == Requested && events[i].at.Some? && events[j].kind == Decided && events[j].at.Some?
            && forall k | i < k < j && events[k].id == events[j].id :: events[k].at.None? || events[k].kind == Other
  {
    if n > 0 {
      PairsExactly(events, n - 1, i, j);
      if j == n - 1 { OpenIsLast(events, j, events[j].id, i); }
    }
  }

  /** No request is timed twice, and no decision. */
  lemma {:induction false} NothingPairedTwice(events: seq<Event>, a: (nat, nat), b: (nat, nat))
    requires a in Pairs(events, |events|) && b in Pairs(events, |events|)
    ensures a.0 == b.0 <==> a.1 == b.1
  {
    PairsExactly(events, |events|, a.0, a.1);
    PairsExactly(events, |events|, b.0, b.1);
    assert a == (a.0, a.1) && b == (b.0, b.1);
    assert Paired(events, a.0, a.1) && Paired(events, b.0, b.1);
  }

  // ---------------------------------------------------------------- sorting and counting

  predicate Ascending(s: seq<int>) {
    forall i, j | 0 <= i < j < |s| :: s[i] <= s[j]
  }

  function Insert(s: seq<int>, x: int): seq<int> {
    if s == [] || x <= s[0] then [x] + s else [s[0]] + Insert(s[1..], x)
  }

  function Sorted(s: seq<int>): seq<int> {
    if s == [] then [] else Insert(Sorted(s[..|s| - 1]), s[|s| - 1])
  }

  /** How many values are at most, or below, v. */
  function AtMost(s: seq<int>, v: int): nat {
    if s == [] then 0 else (if s[0] <= v then 1 else 0) + AtMost(s[1..], v)
  }

  predicate From(s: seq<int>, low: int) {
    forall i | 0 <= i < |s| :: low <= s[i]
  }

  lemma {:induction false} InsertAscending(s: seq<int>, x: int, low: int)
    requires Ascending(s) && From(s, low) && low <= x
    ensures Ascending(Insert(s, x)) && From(Insert(s, x), low)
  {
    if s != [] && x > s[0] { InsertAscending(s[1..], x, s[0]); }
  }

  lemma {:induction false} InsertCounts(s: seq<int>, x: int, v: int)
    ensures multiset(Insert(s, x)) == multiset(s) + multiset{x}
    ensures AtMost(Insert(s, x), v) == AtMost(s, v) + (if x <= v then 1 else 0)
  {
    if s != [] && x > s[0] {
      assert s == [s[0]] + s[1..];
      InsertCounts(s[1..], x, v);
      assert ([s[0]] + Insert(s[1..], x))[1..] == Insert(s[1..], x);
    } else {
      assert ([x] + s)[1..] == s;
    }
  }

  lemma {:induction false} AtMostConcat(a: seq<int>, b: seq<int>, v: int)
    ensures AtMost(a + b, v) == AtMost(a, v) + AtMost(b, v)
  {
    if a == [] {
      assert a + b == b;
    } else {
      assert (a + b)[1..] == a[1..] + b;
      AtMostConcat(a[1..], b, v);
    }
  }

  lemma {:induction false} SortedAscending(s: seq<int>)
    ensures Ascending(Sorted(s)) && multiset(Sorted(s)) == multiset(s) && |Sorted(s)| == |s|
    decreases |s|
  {
    if s != [] {
      var init, x := s[..|s| - 1], s[|s| - 1];
      assert s == init + [x];
      SortedAscending(init);
      var sorted := Sorted(init);
      var low := if sorted == [] || x < sorted[0] then x else sorted[0];
      assert From(sorted, low);
      InsertAscending(sorted, x, low);
      InsertCounts(sorted, x, 0);
      assert |multiset(Sorted(s))| == |multiset(s)|;
    }
  }

  lemma {:induction false} SortedCounts(s: seq<int>, v: int)
    ensures AtMost(Sorted(s), v) == AtMost(s, v)
    decreases |s|
  {
    if s != [] {
      var init, x := s[..|s| - 1], s[|s| - 1];
      assert s == init + [x];
      SortedCounts(init, v);
      InsertCounts(Sorted(init), x, v);
      AtMostConcat(init, [x], v);
    }
  }

  lemma {:induction false} NoneAtMost(s: seq<int>, v: int)
    requires From(s, v + 1)
    ensures AtMost(s, v) == 0
  {
    if s != [] { NoneAtMost(s[1..], v); }
  }

  // ---------------------------------------------------------------- the percentile

  /** `int(n * 0.95)`. */
  function PercentileIndex(n: nat): nat {
    n * 19 / 20
  }

  /** In an ascending sequence the k-th value has k + 1 values at most it ... */
  lemma {:induction false} RankAtLeast(s: seq<int>, k: nat)
    requires Ascending(s) && k < |s|
    ensures AtMost(s, s[k]) >= k + 1
  {
    if k > 0 { RankAtLeast(s[1..], k - 1); }
  }

  /** ... and no more than k below it. */
  lemma {:induction false} RankAtMost(s: seq<int>, k: nat, v: int)
    requires Ascending(s) && k < |s| && v < s[k]
    ensures AtMost(s, v) <= k
  {
    if k > 0 { RankAtMost(s[1..], k - 1, v); } else { NoneAtMost(s, v); }
  }

  lemma PercentileOfAscending(s: seq<int>)
    requires Ascending(s) && s != []
    ensures var k := PercentileIndex(|s|);
            k < |s| && 20 * AtMost(s, s[k]) > 19 * |s| && 20 * AtMost(s, s[k] - 1) <= 19 * |s|
  {
    var k := PercentileIndex(|s|);
    RankAtLeast(s, k);
    RankAtMost(s, k, s[k] - 1);
  }

  lemma SortedHas(samples: seq<int>, i: nat)
    requires i < |samples|
    ensures |Sorted(samples)| == |samples| && Sorted(samples)[i] in samples
  {
    SortedAscending(samples);
    assert Sorted(samples)[i] in multiset(Sorted(samples));
  }

  /** The 95th percentile: more than 95 % of the samples are at most it, and not more than 95 % are
      below it. */
  predicate IsPercentile(samples: seq<int>, v: int) {
    v in samples && 20 * AtMost(samples, v) > 19 * |samples| && 20 * AtMost(samples, v - 1) <= 19 * |samples|
  }

  /** The value at index `int(n * 0.95)` of the sorted samples always exists and is the percentile. */
  lemma PercentileIsPercentile(samples: seq<int>)
    requires samples != []
    ensures |Sorted(samples)| == |samples| && PercentileIndex(|samples|) < |samples|
    ensures IsPercentile(samples, Sorted(samples)[PercentileIndex(|samples|)])
  {
    var s := Sorted(samples);
    SortedAscending(samples);
    SortedHas(samples, PercentileIndex(|samples|));
    forall v ensures AtMost(s, v) == AtMost(samples, v) { SortedCounts(samples, v); }
    PercentileCarriesOver(samples, s);
  }

  lemma PercentileCarriesOver(samples: seq<int>, s: seq<int>)
    requires s != [] && |s| == |samples| && Ascending(s) && s[PercentileIndex(|s|)] in samples
    requires forall v :: AtMost(s, v) == AtMost(samples, v)
    ensures IsPercentile(samples, s[PercentileIndex(|s|)])
  {
    PercentileOfAscending(s);
  }

  lemma LatencyNotNegative(events: seq<Event>, latencies: seq<int>)
    requires latencies == Latencies(events, |events|)
    ensures forall v <- latencies :: v >= 0
  {
    LatenciesOfPairs(events, |events|);
  }

  /** `_record_approval_latency`: nothing is recorded without a decided approval. */
  method RecordApprovalLatency(events: seq<Event>) returns (m: Option<Measurement>)
    ensures var samples := Latencies(events, |events|);
            && (m.None? <==> samples == [])
            && (m.Some? ==> m.value.samples == |samples| && IsPercentile(samples, m.value.value) && m.value.value >= 0)
  {
    var latencies := PairDecisions(events);
    if latencies == [] {
      return None;
    }
    PercentileIsPercentile(latencies);
    LatencyNotNegative(events, latencies);
    var sorted := Sorted(latencies);
    var k := PercentileIndex(|latencies|);
    var index := if k < |latencies| - 1 then k else |latencies| - 1;
    m := Some(Measurement(sorted[index], |latencies|));
  }

  /** The pairing loop. */
  method PairDecisions(events: seq<Event>) returns (latencies: seq<int>)
    ensures latencies == Latencies(events, |events|)
    ensures |latencies| == |Pairs(events, |events|)|
  {
    var requested: map<string, int> := map[];
    latencies := [];
    for i := 0 to |events|
      invariant latencies == Latencies(events, i)
      invariant forall id :: id in requested <==> OpenAt(events, i, id).Some?
      invariant forall id <- requested :: requested[id] == events[OpenAt(events, i, id).value].at.value
    {
      var e := events[i];
      if e.at.Some? {
        if e.kind == Requested {
          requested := requested[e.id := e.at.value];
        } else if e.kind == Decided && e.id in requested {
          latencies := latencies + [Latency(requested[e.id], e.at.value)];
          requested := requested - {e.id};
        }
      }
    }
    LatenciesOfPairs(events, |events|);
  }
}
