/** Which version of each capability pack a tenant sees, and which goal types follow from it.

    `parse` reads a version string into its comparison key; manifests are compared whole. */
module PackResolution {
  import opened Basics
  import opened Ordering

  datatype GoalType = GoalType(name: string, body: string)

  datatype Manifest = Manifest(pack: string, version: string, goalTypes: seq<GoalType>, content: string)

  datatype PackKey = PackKey(tenant: string, pack: string, version: string)

  datatype PackState = PackState(enabled: bool, revoked: bool)

  /** The installed manifests with their insertion order, their states and the pinned versions. */
  datatype Packs = Packs(
    order: seq<PackKey>, manifests: map<PackKey, Manifest>, states: map<PackKey, PackState>,
    channels: map<(string, string), string>)

  type Parse = string -> Version

  type Index = map<(string, string), GoalType>

  ghost predicate WellFormed(p: Packs) {
    && (forall k :: k in p.order <==> k in p.manifests)
    && (forall i, j | 0 <= i < j < |p.order| :: p.order[i] != p.order[j])
    && (forall k <- p.manifests :: p.manifests[k].pack == k.pack && p.manifests[k].version == k.version)
  }

  predicate Listable(p: Packs, k: PackKey) {
    k in p.states ==> p.states[k].enabled && !p.states[k].revoked
  }

  function Pin(p: Packs, tenant: string, pack: string): Option<string> {
    if (tenant, pack) in p.channels then Some(p.channels[(tenant, pack)]) else None
  }

  predicate Eligible(p: Packs, k: PackKey, tenant: string, pack: string) {
    k.tenant == tenant && k.pack == pack && Listable(p, k) && Pin(p, tenant, pack) in {None, Some(k.version)}
  }

  function Compare(parse: Parse, a: PackKey, b: PackKey): int {
    CompareVersions(parse(a.version), parse(b.version))
  }

  /** The scan over the first n installed versions. */
  function ChosenUpTo(parse: Parse, p: Packs, n: nat, tenant: string, pack: string): (c: Option<PackKey>)
    requires n <= |p.order|
  {
    if n == 0 then None
    else
      var before, k := ChosenUpTo(parse, p, n - 1, tenant, pack), p.order[n - 1];
      if !Eligible(p, k, tenant, pack) then before
      else if before.None? || (Pin(p, tenant, pack).None? && Compare(parse, k, before.value) > 0) then Some(k)
      else before
  }

  function Chosen(parse: Parse, p: Packs, tenant: string, pack: string): Option<PackKey> {
    ChosenUpTo(parse, p, |p.order|, tenant, pack)
  }

  /** The last entry of a manifest that has the name. */
  function LastNamed(goalTypes: seq<GoalType>, name: string): Option<GoalType> {
    if goalTypes == [] then None
    else
      var n := |goalTypes| - 1;
      if goalTypes[n].name == name then Some(goalTypes[n]) else LastNamed(goalTypes[..n], name)
  }

  /** What the tenant's visible version of a pack says of a goal type. */
  function Offer(parse: Parse, p: Packs, tenant: string, pack: string, name: string): Option<GoalType> {
    match Chosen(parse, p, tenant, pack)
    case Some(k) => if k in p.manifests then LastNamed(p.manifests[k].goalTypes, name) else None
    case None => None
  }

  /** The entry comes from the last pack, in the order of pack ids, that offers the goal type. */
  ghost predicate FromLastOffer(parse: Parse, p: Packs, tenant: string, name: string, entry: GoalType) {
    exists pack ::
      && Offer(parse, p, tenant, pack, name) == Some(entry)
      && (forall later :: Precedes(pack, later) ==> Offer(parse, p, tenant, later, name).None?)
  }

  /** The tenant's part of the index is what its packs, states and pins say, no more and no less. */
  ghost predicate IndexOk(parse: Parse, p: Packs, index: Index, tenant: string) {
    forall name ::
      && ((tenant, name) in index ==> FromLastOffer(parse, p, tenant, name, index[(tenant, name)]))
      && ((tenant, name) !in index ==> forall pack :: Offer(parse, p, tenant, pack, name).None?)
  }

  // ---------------------------------------------------------------- the chosen version

  predicate NoBetter(parse: Parse, p: Packs, n: nat, tenant: string, pack: string, k: PackKey)
    requires n <= |p.order|
  {
    forall i | 0 <= i < n && Eligible(p, p.order[i], tenant, pack) :: Compare(parse, p.order[i], k) <= 0
  }

  /** The scan finds the greatest eligible version, if there is one. */
  lemma {:induction false} ScanFindsGreatest(parse: Parse, p: Packs, n: nat, tenant: string, pack: string)
    requires n <= |p.order|
    ensures var c := ChosenUpTo(parse, p, n, tenant, pack);
            && (c.None? <==> forall i | 0 <= i < n :: !Eligible(p, p.order[i], tenant, pack))
            && (c.Some? ==> c.value in p.order[..n] && Eligible(p, c.value, tenant, pack)
                            && NoBetter(parse, p, n, tenant, pack, c.value))
  {
    if n > 0 {
      ScanFindsGreatest(parse, p, n - 1, tenant, pack);
      var k := p.order[n - 1];
      assert p.order[..n] == p.order[..n - 1] + [k];
      var c := ChosenUpTo(parse, p, n, tenant, pack);
      var before := ChosenUpTo(parse, p, n - 1, tenant, pack);
      VersionsTotallyOrdered(parse(k.version), parse(k.version), parse(k.version));
      if c == Some(k) && before.Some? {
        forall i | 0 <= i < n - 1 && Eligible(p, p.order[i], tenant, pack)
          ensures Compare(parse, p.order[i], k) <= 0 {
          VersionsTotallyOrdered(parse(k.version), parse(before.value.version), parse(k.version));
          VersionsTotallyOrdered(parse(p.order[i].version), parse(before.value.version), parse(k.version));
        }
      }
    }
  }

  /** Pinned, a pack shows the pinned version if that is installed and listable, and nothing
      otherwise; unpinned, it shows the greatest listable version. */
  lemma ChosenVersion(parse: Parse, p: Packs, tenant: string, pack: string)
    requires WellFormed(p)
    ensures Pin(p, tenant, pack).Some? ==>
              var k := PackKey(tenant, pack, Pin(p, tenant, pack).value);
              Chosen(parse, p, tenant, pack) == if k in p.manifests && Listable(p, k) then Some(k) else None
    ensures Pin(p, tenant, pack).None? && Chosen(parse, p, tenant, pack).Some? ==>
              var k := Chosen(parse, p, tenant, pack).value;
              && k in p.manifests && k.tenant == tenant && k.pack == pack && Listable(p, k)
              && forall v | PackKey(tenant, pack, v) in p.manifests && Listable(p, PackKey(tenant, pack, v)) ::
                   !VersionBelow(parse(k.version), parse(v))
    ensures Pin(p, tenant, pack).None? && Chosen(parse, p, tenant, pack).None? ==>
              forall v | PackKey(tenant, pack, v) in p.manifests :: !Listable(p, PackKey(tenant, pack, v))
  {
    ScanFindsGreatest(parse, p, |p.order|, tenant, pack);
    assert p.order[..|p.order|] == p.order;
    forall v | PackKey(tenant, pack, v) in p.manifests
      ensures exists i | 0 <= i < |p.order| :: p.order[i] == PackKey(tenant, pack, v) {
      assert PackKey(tenant, pack, v) in p.order;
    }
    forall v, w ensures CompareVersions(parse(v), parse(w)) <= 0 <==> !VersionBelow(parse(w), parse(v)) {
      VersionsOrderedExactly(parse(v), parse(w));
    }
  }

  // ---------------------------------------------------------------- what the tenant sees

  /** Installed, and neither disabled nor revoked. */
  predicate Usable(p: Packs, k: PackKey) {
    k in p.manifests && (k in p.states ==> p.states[k].enabled && !p.states[k].revoked)
  }

  /** Of the pack's usable versions this one is above all installed before it, and no other is above it. */
  predicate Newest(parse: Parse, p: Packs, k: PackKey) {
    exists j | 0 <= j < |p.order| :: p.order[j] == k && NewestAt(parse, p, j)
  }

  predicate NewestAt(parse: Parse, p: Packs, j: nat)
    requires j < |p.order|
  {
    forall i | 0 <= i < |p.order| && Rivals(p, p.order[i], p.order[j]) ::
      if i < j then VersionBelow(parse(p.order[i].version), parse(p.order[j].version))
      else !VersionBelow(parse(p.order[j].version), parse(p.order[i].version))
  }

  /** Another usable version of the same pack. */
  predicate Rivals(p: Packs, other: PackKey, k: PackKey) {
    other != k && other.tenant == k.tenant && other.pack == k.pack && Usable(p, other)
  }

  /** The version its tenant sees: the pinned one, or without a pin the newest. */
  predicate Visible(parse: Parse, p: Packs, k: PackKey) {
    && Usable(p, k)
    && if (k.tenant, k.pack) in p.channels then p.channels[(k.tenant, k.pack)] == k.version else Newest(parse, p, k)
  }

  /** The scan over the first n keeps a version above all eligible ones before it. */
  lemma {:induction false} ScanFindsFirstGreatest(parse: Parse, p: Packs, n: nat, tenant: string, pack: string) returns (j: nat)
    requires n <= |p.order| && Pin(p, tenant, pack).None? && ChosenUpTo(parse, p, n, tenant, pack).Some?
    ensures j < n && ChosenUpTo(parse, p, n, tenant, pack) == Some(p.order[j])
    ensures forall i | 0 <= i < j && Eligible(p, p.order[i], tenant, pack) :: Compare(parse, p.order[i], p.order[j]) < 0
    ensures forall i | j < i < n && Eligible(p, p.order[i], tenant, pack) :: Compare(parse, p.order[i], p.order[j]) <= 0
  {
    var k := p.order[n - 1];
    var before := ChosenUpTo(parse, p, n - 1, tenant, pack);
    if before.Some? {
      j := ScanFindsFirstGreatest(parse, p, n - 1, tenant, pack);
      VersionsTotallyOrdered(parse(k.version), parse(k.version), parse(k.version));
      VersionsTotallyOrdered(parse(p.order[j].version), parse(p.order[j].version), parse(p.order[j].version));
      if ChosenUpTo(parse, p, n, tenant, pack) != before {
        forall i | 0 <= i < n - 1 && Eligible(p, p.order[i], tenant, pack) ensures Compare(parse, p.order[i], k) < 0 {
          BelowGreater(parse(p.order[i].version), parse(p.order[j].version), parse(k.version));
        }
        j := n - 1;
      }
    } else {
      ScanFindsGreatest(parse, p, n - 1, tenant, pack);
      j := n - 1;
    }
  }

  lemma BelowGreater(a: Version, b: Version, c: Version)
    requires CompareVersions(a, b) <= 0 && CompareVersions(c, b) > 0
    ensures CompareVersions(a, c) < 0
  {
    VersionsTotallyOrdered(c, b, a);
    VersionsTotallyOrdered(a, b, c);
    VersionsTotallyOrdered(c, a, b);
  }

  lemma ScannedIsVisible(parse: Parse, p: Packs, tenant: string, pack: string)
    requires WellFormed(p) && Chosen(parse, p, tenant, pack).Some?
    ensures var k := Chosen(parse, p, tenant, pack).value; k.tenant == tenant && k.pack == pack && Visible(parse, p, k)
  {
    ChosenVersion(parse, p, tenant, pack);
    if (tenant, pack) !in p.channels {
      var j := ScanFindsFirstGreatest(parse, p, |p.order|, tenant, pack);
      forall i | 0 <= i < |p.order| && Rivals(p, p.order[i], p.order[j])
        ensures if i < j then VersionBelow(parse(p.order[i].version), parse(p.order[j].version))
                else !VersionBelow(parse(p.order[j].version), parse(p.order[i].version)) {
        VersionsOrderedExactly(parse(p.order[i].version), parse(p.order[j].version));
      }
      assert NewestAt(parse, p, j);
    }
  }

  lemma OneNewest(parse: Parse, p: Packs, k: PackKey, l: PackKey)
    requires Newest(parse, p, k) && Newest(parse, p, l) && Usable(p, k) && Usable(p, l)
    requires k.tenant == l.tenant && k.pack == l.pack
    ensures k == l
  {
    var i :| 0 <= i < |p.order| && p.order[i] == k && NewestAt(parse, p, i);
    var j :| 0 <= j < |p.order| && p.order[j] == l && NewestAt(parse, p, j);
    if k != l {
      assert Rivals(p, p.order[i], p.order[j]) && Rivals(p, p.order[j], p.order[i]);
    }
  }

  /** The scan shows a tenant exactly the visible version of a pack. */
  lemma ChosenExactly(parse: Parse, p: Packs, tenant: string, pack: string, k: PackKey)
    requires WellFormed(p)
    ensures Chosen(parse, p, tenant, pack) == Some(k) <==> k.tenant == tenant && k.pack == pack && Visible(parse, p, k)
  {
    ChosenVersion(parse, p, tenant, pack);
    if Chosen(parse, p, tenant, pack).Some? { ScannedIsVisible(parse, p, tenant, pack); }
    if k.tenant == tenant && k.pack == pack && Visible(parse, p, k) {
      assert k in p.order && Listable(p, k);
      if (tenant, pack) !in p.channels {
        assert Chosen(parse, p, tenant, pack).Some?;
        OneNewest(parse, p, k, Chosen(parse, p, tenant, pack).value);
      }
    }
  }

  /** The version's manifest defines the goal type, last at this place. */
  predicate DefinesAt(p: Packs, k: PackKey, name: string, i: nat) {
    && k in p.manifests && i < |p.manifests[k].goalTypes| && p.manifests[k].goalTypes[i].name == name
    && forall j | i < j < |p.manifests[k].goalTypes| :: p.manifests[k].goalTypes[j].name != name
  }

  predicate Defines(p: Packs, k: PackKey, name: string) {
    k in p.manifests && exists i | 0 <= i < |p.manifests[k].goalTypes| :: p.manifests[k].goalTypes[i].name == name
  }

  lemma {:induction false} LastNamedAt(goalTypes: seq<GoalType>, name: string) returns (i: nat)
    ensures LastNamed(goalTypes, name).None? <==> forall j | 0 <= j < |goalTypes| :: goalTypes[j].name != name
    ensures LastNamed(goalTypes, name).Some? ==>
              && i < |goalTypes| && LastNamed(goalTypes, name) == Some(goalTypes[i]) && goalTypes[i].name == name
              && forall j | i < j < |goalTypes| :: goalTypes[j].name != name
    decreases |goalTypes|
  {
    i := 0;
    if goalTypes != [] {
      var n := |goalTypes| - 1;
      i := LastNamedAt(goalTypes[..n], name);
      if goalTypes[n].name == name { i := n; }
    }
  }

  lemma OffersExactly(parse: Parse, p: Packs, k: PackKey, name: string) returns (i: nat)
    requires WellFormed(p) && Visible(parse, p, k)
    ensures Offer(parse, p, k.tenant, k.pack, name).Some? <==> Defines(p, k, name)
    ensures Defines(p, k, name) ==>
              DefinesAt(p, k, name, i) && Offer(parse, p, k.tenant, k.pack, name) == Some(p.manifests[k].goalTypes[i])
  {
    ChosenExactly(parse, p, k.tenant, k.pack, k);
    i := LastNamedAt(p.manifests[k].goalTypes, name);
  }

  /** Of the visible versions that define the goal type, the one of the last pack. */
  ghost predicate DefinedLastBy(parse: Parse, p: Packs, tenant: string, name: string, k: PackKey) {
    && k.tenant == tenant && Visible(parse, p, k) && Defines(p, k, name)
    && forall l: PackKey | l.tenant == tenant && Visible(parse, p, l) && Defines(p, l, name) :: !StringBelow(k.pack, l.pack)
  }

  /** A tenant's index has an entry for a goal type exactly if a visible version defines it, and the entry
      is what the last such pack, by the code points of its id, says last. */
  lemma IndexTells(parse: Parse, p: Packs, index: Index, tenant: string, name: string)
    requires WellFormed(p) && IndexOk(parse, p, index, tenant)
    ensures (tenant, name) in index <==> exists k: PackKey :: k.tenant == tenant && Visible(parse, p, k) && Defines(p, k, name)
    ensures (tenant, name) in index ==>
              exists k: PackKey, i: nat :: DefinedLastBy(parse, p, tenant, name, k) && DefinesAt(p, k, name, i)
                                           && index[(tenant, name)] == p.manifests[k].goalTypes[i]
  {
    if (tenant, name) in index {
      assert FromLastOffer(parse, p, tenant, name, index[(tenant, name)]);
      var pack :| && Offer(parse, p, tenant, pack, name) == Some(index[(tenant, name)])
                  && (forall later :: Precedes(pack, later) ==> Offer(parse, p, tenant, later, name).None?);
      var k := Chosen(parse, p, tenant, pack).value;
      ScannedIsVisible(parse, p, tenant, pack);
      var i := OffersExactly(parse, p, k, name);
      forall l: PackKey | l.tenant == tenant && Visible(parse, p, l) && Defines(p, l, name) ensures !StringBelow(k.pack, l.pack) {
        var _ := OffersExactly(parse, p, l, name);
        StringsOrderedExactly(k.pack, l.pack);
      }
      assert DefinedLastBy(parse, p, tenant, name, k) && DefinesAt(p, k, name, i);
    } else {
      forall k: PackKey | k.tenant == tenant && Visible(parse, p, k) ensures !Defines(p, k, name) {
        var _ := OffersExactly(parse, p, k, name);
      }
    }
  }

  // ---------------------------------------------------------------- what changes elsewhere

  /** Nothing that concerns the tenant differs. */
  ghost predicate SameFor(p: Packs, q: Packs, tenant: string) {
    && |p.order| <= |q.order| && q.order[..|p.order|] == p.order
    && (forall i | |p.order| <= i < |q.order| :: q.order[i].tenant != tenant)
    && (forall k: PackKey | k.tenant == tenant :: (k in p.manifests <==> k in q.manifests)
                                                  && (k in p.manifests ==> p.manifests[k] == q.manifests[k]))
    && (forall k: PackKey | k.tenant == tenant :: Listable(p, k) == Listable(q, k))
    && (forall pack :: Pin(p, tenant, pack) == Pin(q, tenant, pack))
  }

  lemma {:induction false} SameChoice(parse: Parse, p: Packs, q: Packs, n: nat, tenant: string, pack: string)
    requires SameFor(p, q, tenant) && n <= |q.order|
    ensures ChosenUpTo(parse, q, n, tenant, pack) ==
            ChosenUpTo(parse, p, if n <= |p.order| then n else |p.order|, tenant, pack)
  {
    if n > 0 {
      SameChoice(parse, p, q, n - 1, tenant, pack);
      if n <= |p.order| { assert q.order[..|p.order|][n - 1] == q.order[n - 1]; }
    }
  }

  /** A tenant whose packs did not change keeps a right index. */
  lemma OthersKeepIndex(parse: Parse, p: Packs, q: Packs, before: Index, after: Index, tenant: string)
    requires SameFor(p, q, tenant) && WellFormed(p) && IndexOk(parse, p, before, tenant)
    requires forall name :: (tenant, name) in before <==> (tenant, name) in after
    requires forall name | (tenant, name) in before :: before[(tenant, name)] == after[(tenant, name)]
    ensures IndexOk(parse, q, after, tenant)
  {
    forall pack, name ensures Offer(parse, q, tenant, pack, name) == Offer(parse, p, tenant, pack, name) {
      SameChoice(parse, p, q, |q.order|, tenant, pack);
      ScanFindsGreatest(parse, p, |p.order|, tenant, pack);
    }
    forall name | (tenant, name) in after ensures FromLastOffer(parse, q, tenant, name, after[(tenant, name)]) {
      assert FromLastOffer(parse, p, tenant, name, before[(tenant, name)]);
      var pack :| && Offer(parse, p, tenant, pack, name) == Some(before[(tenant, name)])
                  && (forall later :: Precedes(pack, later) ==> Offer(parse, p, tenant, later, name).None?);
      assert Offer(parse, q, tenant, pack, name) == Some(after[(tenant, name)]);
    }
  }

  // ---------------------------------------------------------------- over a whole history

  /** How one operation, or any number of them, may change the packs. */
  ghost predicate Grows(p: Packs, q: Packs) {
    && (forall k <- p.manifests :: k in q.manifests && q.manifests[k] == p.manifests[k])
    && (forall k <- p.states | p.states[k].revoked :: k in q.states && q.states[k].revoked)
  }

  lemma GrowsTransitive(p: Packs, q: Packs, r: Packs)
    requires Grows(p, q) && Grows(q, r)
    ensures Grows(p, r)
  {
  }

  /** A history in which each state came from the one before by some operation. */
  ghost predicate EachGrows(history: seq<Packs>) {
    forall n | 0 < n < |history| :: Grows(history[n - 1], history[n])
  }

  lemma {:induction false} HistoryGrows(history: seq<Packs>, i: nat, j: nat)
    requires EachGrows(history) && i <= j < |history|
    ensures Grows(history[i], history[j])
    decreases j
  {
    if i < j {
      HistoryGrows(history, i, j - 1);
      GrowsTransitive(history[i], history[j - 1], history[j]);
    }
  }

  lemma RevokedNotChosen(parse: Parse, p: Packs, k: PackKey)
    requires k in p.states && p.states[k].revoked
    ensures Chosen(parse, p, k.tenant, k.pack) != Some(k)
  {
    ScanFindsGreatest(parse, p, |p.order|, k.tenant, k.pack);
  }

  /** Over any history, a version once revoked is never visible again, whatever is installed, enabled
      or pinned after. */
  lemma RevokedNeverReturns(parse: Parse, history: seq<Packs>, i: nat, j: nat, k: PackKey)
    requires EachGrows(history) && i <= j < |history|
    requires k in history[i].states && history[i].states[k].revoked
    ensures Chosen(parse, history[j], k.tenant, k.pack) != Some(k)
  {
    HistoryGrows(history, i, j);
    RevokedNotChosen(parse, history[j], k);
  }

  /** There is one right index: two indexes that agree with the packs agree on the tenant. */
  lemma IndexIsDetermined(parse: Parse, p: Packs, a: Index, b: Index, tenant: string, name: string)
    requires IndexOk(parse, p, a, tenant) && IndexOk(parse, p, b, tenant)
    ensures (tenant, name) in a <==> (tenant, name) in b
    ensures (tenant, name) in a ==> a[(tenant, name)] == b[(tenant, name)]
  {
    if (tenant, name) in a && (tenant, name) in b {
      var x :| && Offer(parse, p, tenant, x, name) == Some(a[(tenant, name)])
               && (forall later :: Precedes(x, later) ==> Offer(parse, p, tenant, later, name).None?);
      var y :| && Offer(parse, p, tenant, y, name) == Some(b[(tenant, name)])
               && (forall later :: Precedes(y, later) ==> Offer(parse, p, tenant, later, name).None?);
      StringsMirror(x, y);
      assert !Precedes(x, y) && !Precedes(y, x);
    }
  }
}
