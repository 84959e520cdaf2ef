/** Python's order of strings and of semantic version keys, and `sorted` of a set of strings. */
module Ordering {

  function CompareInt(a: int, b: int): (c: int)
    ensures -1 <= c <= 1
  {
    if a < b then -1 else if a > b then 1 else 0
  }

  /** Lexicographic by code point, a proper prefix first. */
  function CompareStrings(a: string, b: string): (c: int)
    ensures -1 <= c <= 1
    decreases a
  {
    if a == [] then (if b == [] then 0 else -1)
    else if b == [] then 1
    else if a[0] != b[0] then CompareInt(a[0] as int, b[0] as int)
    else CompareStrings(a[1..], b[1..])
  }

  predicate Precedes(a: string, b: string) {
    CompareStrings(a, b) < 0
  }

  lemma {:induction false} StringsMirror(a: string, b: string)
    ensures CompareStrings(a, b) == -CompareStrings(b, a)
    ensures CompareStrings(a, b) == 0 <==> a == b
    decreases a
  {
    if a != [] && b != [] {
      assert a == [a[0]] + a[1..] && b == [b[0]] + b[1..];
      if a[0] == b[0] { StringsMirror(a[1..], b[1..]); }
    }
  }

  lemma {:induction false} StringsTransitive(a: string, b: string, c: string)
    requires CompareStrings(a, b) <= 0 && CompareStrings(b, c) <= 0
    ensures CompareStrings(a, c) <= 0
    decreases a
  {
    if a != [] && b != [] && c != [] && a[0] == b[0] == c[0] {
      StringsTransitive(a[1..], b[1..], c[1..]);
    }
  }

  lemma PrecedesTransitive(a: string, b: string, c: string)
    requires Precedes(a, b) && Precedes(b, c)
    ensures Precedes(a, c)
  {
    StringsTransitive(a, b, c);
    StringsMirror(a, c);
    StringsMirror(a, b);
  }

  /** The strings agree up to `i`, where the first ends or has the smaller code point. */
  predicate BelowAt(a: string, b: string, i: nat) {
    i <= |a| && i < |b| && a[..i] == b[..i] && (i < |a| ==> a[i] < b[i])
  }

  predicate StringBelow(a: string, b: string) {
    exists i :: 0 <= i < |b| && BelowAt(a, b, i)
  }

  /** `CompareStrings` is the order by the first code point that differs, a proper prefix first. */
  lemma {:induction false} StringsOrderedExactly(a: string, b: string)
    ensures CompareStrings(a, b) < 0 <==> StringBelow(a, b)
    decreases a
  {
    if a == [] || b == [] || a[0] != b[0] {
      if b != [] && (a == [] || a[0] < b[0]) { assert BelowAt(a, b, 0); }
    } else {
      StringsOrderedExactly(a[1..], b[1..]);
      forall i | 0 < i < |b| ensures BelowAt(a, b, i) <==> BelowAt(a[1..], b[1..], i - 1) {
        if i <= |a| {
          assert a[..i] == [a[0]] + a[1..][..i - 1] && b[..i] == [b[0]] + b[1..][..i - 1];
          assert a[1..][..i - 1] == a[..i][1..] && b[1..][..i - 1] == b[..i][1..];
        }
      }
      if StringBelow(a[1..], b[1..]) {
        var i :| 0 <= i < |b[1..]| && BelowAt(a[1..], b[1..], i);
        assert BelowAt(a, b, i + 1);
      }
    }
  }

  // ---------------------------------------------------------------- sorted

  predicate StrictlySorted(s: seq<string>) {
    forall i, j | 0 <= i < j < |s| :: Precedes(s[i], s[j])
  }

  /** Where a string belongs in a sorted sequence that does not have it. */
  function Insert(s: seq<string>, x: string): seq<string> {
    if s == [] then [x]
    else if Precedes(x, s[0]) then [x] + s
    else [s[0]] + Insert(s[1..], x)
  }

  lemma {:induction false} InsertKeepsSorted(s: seq<string>, x: string)
    requires StrictlySorted(s) && x !in s
    ensures StrictlySorted(Insert(s, x))
    ensures forall y :: y in Insert(s, x) <==> y == x || y in s
  {
    if s == [] {
    } else if Precedes(x, s[0]) {
      forall i | 0 < i < |s| ensures Precedes(x, s[i]) { PrecedesTransitive(x, s[0], s[i]); }
    } else {
      var rest := Insert(s[1..], x);
      assert s == [s[0]] + s[1..];
      InsertKeepsSorted(s[1..], x);
      StringsMirror(x, s[0]);
      forall y <- rest ensures Precedes(s[0], y) {
        if y != x {
          var i :| 0 <= i < |s[1..]| && s[1..][i] == y;
          assert Precedes(s[0], s[i + 1]);
        }
      }
    }
  }

  predicate IsLeast(x: string, items: set<string>) {
    x in items && forall y <- items :: CompareStrings(x, y) <= 0
  }

  lemma {:induction false} LeastExists(items: set<string>)
    requires items != {}
    ensures exists x :: IsLeast(x, items)
    decreases |items|
  {
    var x :| x in items;
    StringsMirror(x, x);
    var rest := items - {x};
    if rest == {} {
      assert items == {x};
      assert IsLeast(x, items);
    } else {
      LeastExists(rest);
      var y :| IsLeast(y, rest);
      StringsMirror(x, y);
      var z := if CompareStrings(x, y) <= 0 then x else y;
      forall w <- items ensures CompareStrings(z, w) <= 0 {
        if w != x && z == x { StringsTransitive(x, y, w); }
      }
      assert IsLeast(z, items);
    }
  }

  lemma LeastIsUnique(items: set<string>)
    ensures forall x, y | IsLeast(x, items) && IsLeast(y, items) :: x == y
  {
    forall x, y | IsLeast(x, items) && IsLeast(y, items) ensures x == y {
      StringsMirror(x, y);
    }
  }

  lemma LeastGoesFirst(x: string, items: set<string>, rest: seq<string>)
    requires IsLeast(x, items) && StrictlySorted(rest) && forall y :: y in rest <==> y in items && y != x
    ensures StrictlySorted([x] + rest)
    ensures forall y :: y in [x] + rest <==> y in items
  {
    forall y <- rest ensures Precedes(x, y) { StringsMirror(x, y); }
  }

  /** `sorted(...)` of a set of strings. */
  function Sorted(items: set<string>): (s: seq<string>)
    ensures StrictlySorted(s)
    ensures forall x :: x in s <==> x in items
    decreases |items|
  {
    if items == {} then []
    else
      LeastExists(items);
      LeastIsUnique(items);
      var x :| x in items && IsLeast(x, items);
      var rest := Sorted(items - {x});
      LeastGoesFirst(x, items, rest);
      [x] + rest
  }

  /** A set has one sorted sequence, however it is computed. */
  lemma {:induction false} SortedIsUnique(a: seq<string>, b: seq<string>)
    requires StrictlySorted(a) && StrictlySorted(b) && forall x :: x in a <==> x in b
    ensures a == b
    decreases |a|
  {
    if b != [] { assert b[0] in b; }
    if a != [] {
      assert a[0] in b;
      FirstIsLeast(a, b[0]);
      FirstIsLeast(b, a[0]);
      StringsMirror(a[0], b[0]);
      forall x ensures x in a[1..] <==> x in b[1..] {
        TailHas(a, x);
        TailHas(b, x);
      }
      SortedIsUnique(a[1..], b[1..]);
      assert a == [a[0]] + a[1..] && b == [b[0]] + b[1..];
    }
  }

  lemma FirstIsLeast(s: seq<string>, x: string)
    requires StrictlySorted(s) && x in s
    ensures CompareStrings(s[0], x) <= 0
  {
    var i :| 0 <= i < |s| && s[i] == x;
    if i == 0 { StringsMirror(x, x); }
  }

  lemma TailHas(s: seq<string>, x: string)
    requires StrictlySorted(s) && s != []
    ensures x in s[1..] <==> x in s && x != s[0]
  {
    StringsMirror(s[0], s[0]);
    if x in s[1..] {
      var i :| 0 <= i < |s[1..]| && s[1..][i] == x;
      assert s[i + 1] == x && Precedes(s[0], s[i + 1]);
    }
    if x in s && x != s[0] {
      var i :| 0 <= i < |s| && s[i] == x;
      assert s[1..][i - 1] == x;
    }
  }

  /** `sorted(...)`, by insertion. */
  method SortStrings(items: set<string>) returns (s: seq<string>)
    ensures s == Sorted(items)
  {
    s := [];
    var rest := items;
    while rest != {}
      invariant rest <= items && StrictlySorted(s)
      invariant forall x :: x in s <==> x in items - rest
      decreases |rest|
    {
      var x :| x in rest;
      InsertKeepsSorted(s, x);
      s := Insert(s, x);
      rest := rest - {x};
    }
    SortedIsUnique(s, Sorted(items));
  }

  // ---------------------------------------------------------------- versions

  datatype Identifier = Numeric(number: nat) | Alphanumeric(text: string)

  /** A release has no prerelease identifiers. */
  datatype Version = Version(major: nat, minor: nat, patch: nat, prerelease: seq<Identifier>)

  function CompareIdentifiers(a: Identifier, b: Identifier): (c: int)
    ensures -1 <= c <= 1
  {
    match (a, b)
    case (Numeric(m), Numeric(n)) => CompareInt(m, n)
    case (Numeric(_), Alphanumeric(_)) => -1
    case (Alphanumeric(_), Numeric(_)) => 1
    case (Alphanumeric(s), Alphanumeric(t)) => CompareStrings(s, t)
  }

  function ComparePrereleases(a: seq<Identifier>, b: seq<Identifier>): (c: int)
    ensures -1 <= c <= 1
    decreases a
  {
    if a == [] then (if b == [] then 0 else -1)
    else if b == [] then 1
    else if a[0] != b[0] then CompareIdentifiers(a[0], b[0])
    else ComparePrereleases(a[1..], b[1..])
  }

  /** `compare_versions` on parsed versions: the triple, then a release over any prerelease, then
      the prerelease identifiers. */
  function CompareVersions(a: Version, b: Version): (c: int)
    ensures -1 <= c <= 1
  {
    if a.major != b.major then CompareInt(a.major, b.major)
    else if a.minor != b.minor then CompareInt(a.minor, b.minor)
    else if a.patch != b.patch then CompareInt(a.patch, b.patch)
    else if a.prerelease == [] then (if b.prerelease == [] then 0 else 1)
    else if b.prerelease == [] then -1
    else ComparePrereleases(a.prerelease, b.prerelease)
  }

  /** Numbers by value, texts by code point, and any number below any text. */
  predicate IdentifierBelow(a: Identifier, b: Identifier) {
    || (a.Numeric? && b.Numeric? && a.number < b.number)
    || (a.Numeric? && b.Alphanumeric?)
    || (a.Alphanumeric? && b.Alphanumeric? && StringBelow(a.text, b.text))
  }

  /** The identifiers agree up to `i`, where the first list ends or has the lower identifier. */
  predicate PrereleaseBelowAt(a: seq<Identifier>, b: seq<Identifier>, i: nat) {
    i <= |a| && i < |b| && a[..i] == b[..i] && (i < |a| ==> IdentifierBelow(a[i], b[i]))
  }

  predicate PrereleaseBelow(a: seq<Identifier>, b: seq<Identifier>) {
    exists i :: 0 <= i < |b| && PrereleaseBelowAt(a, b, i)
  }

  /** The precedence of semantic versions: by major, minor and patch number; among these alike a
      prerelease is below the release, and prereleases go by the first identifier that differs. */
  predicate VersionBelow(a: Version, b: Version) {
    || a.major < b.major
    || (a.major == b.major && a.minor < b.minor)
    || (a.major == b.major && a.minor == b.minor && a.patch < b.patch)
    || (a.major == b.major && a.minor == b.minor && a.patch == b.patch && a.prerelease != []
        && (b.prerelease == [] || PrereleaseBelow(a.prerelease, b.prerelease)))
  }

  lemma IdentifiersOrderedExactly(a: Identifier, b: Identifier)
    ensures CompareIdentifiers(a, b) < 0 <==> IdentifierBelow(a, b)
  {
    if a.Alphanumeric? && b.Alphanumeric? { StringsOrderedExactly(a.text, b.text); }
  }

  lemma {:induction false} PrereleasesOrderedExactly(a: seq<Identifier>, b: seq<Identifier>)
    ensures ComparePrereleases(a, b) < 0 <==> PrereleaseBelow(a, b)
    decreases a
  {
    if a == [] || b == [] || a[0] != b[0] {
      if a != [] && b != [] { IdentifiersOrderedExactly(a[0], b[0]); }
      if b != [] && (a == [] || IdentifierBelow(a[0], b[0])) { assert PrereleaseBelowAt(a, b, 0); }
    } else {
      PrereleasesOrderedExactly(a[1..], b[1..]);
      IdentifiersOrderedExactly(a[0], b[0]);
      IdentifiersMirror(a[0], b[0]);
      forall i | 0 < i < |b| ensures PrereleaseBelowAt(a, b, i) <==> PrereleaseBelowAt(a[1..], b[1..], i - 1) {
        if i <= |a| {
          assert a[..i] == [a[0]] + a[1..][..i - 1] && b[..i] == [b[0]] + b[1..][..i - 1];
          assert a[1..][..i - 1] == a[..i][1..] && b[1..][..i - 1] == b[..i][1..];
        }
      }
      if PrereleaseBelow(a[1..], b[1..]) {
        var i :| 0 <= i < |b[1..]| && PrereleaseBelowAt(a[1..], b[1..], i);
        assert PrereleaseBelowAt(a, b, i + 1);
      }
    }
  }

  /** `compare_versions` is that precedence. */
  lemma VersionsOrderedExactly(a: Version, b: Version)
    ensures CompareVersions(a, b) < 0 <==> VersionBelow(a, b)
    ensures CompareVersions(a, b) > 0 <==> VersionBelow(b, a)
    ensures CompareVersions(a, b) == 0 <==> a == b
  {
    PrereleasesOrderedExactly(a.prerelease, b.prerelease);
    PrereleasesOrderedExactly(b.prerelease, a.prerelease);
    VersionsTotallyOrdered(a, b, b);
  }

  lemma IdentifiersMirror(a: Identifier, b: Identifier)
    ensures CompareIdentifiers(a, b) == -CompareIdentifiers(b, a)
    ensures CompareIdentifiers(a, b) == 0 <==> a == b
  {
    if a.Alphanumeric? && b.Alphanumeric? { StringsMirror(a.text, b.text); }
  }

  lemma IdentifiersTransitive(a: Identifier, b: Identifier, c: Identifier)
    requires CompareIdentifiers(a, b) <= 0 && CompareIdentifiers(b, c) <= 0
    ensures CompareIdentifiers(a, c) <= 0
  {
    if a.Alphanumeric? && b.Alphanumeric? && c.Alphanumeric? { StringsTransitive(a.text, b.text, c.text); }
  }

  lemma {:induction false} PrereleasesMirror(a: seq<Identifier>, b: seq<Identifier>)
    ensures ComparePrereleases(a, b) == -ComparePrereleases(b, a)
    ensures ComparePrereleases(a, b) == 0 <==> a == b
    decreases a
  {
    if a != [] && b != [] {
      assert a == [a[0]] + a[1..] && b == [b[0]] + b[1..];
      IdentifiersMirror(a[0], b[0]);
      if a[0] == b[0] { PrereleasesMirror(a[1..], b[1..]); }
    }
  }

  lemma {:induction false} PrereleasesTransitive(a: seq<Identifier>, b: seq<Identifier>, c: seq<Identifier>)
    requires ComparePrereleases(a, b) <= 0 && ComparePrereleases(b, c) <= 0
    ensures ComparePrereleases(a, c) <= 0
    decreases a
  {
    if a != [] && b != [] && c != [] {
      IdentifiersMirror(a[0], b[0]);
      IdentifiersMirror(b[0], c[0]);
      IdentifiersMirror(a[0], c[0]);
      if a[0] == b[0] == c[0] {
        PrereleasesTransitive(a[1..], b[1..], c[1..]);
      } else {
        if CompareIdentifiers(a[0], b[0]) <= 0 && CompareIdentifiers(b[0], c[0]) <= 0 {
          IdentifiersTransitive(a[0], b[0], c[0]);
        }
      }
    }
  }

  /** Versions are totally ordered: comparing mirrors, only equal versions tie, and the order is
      transitive. */
  lemma VersionsTotallyOrdered(a: Version, b: Version, c: Version)
    ensures CompareVersions(a, b) == -CompareVersions(b, a)
    ensures CompareVersions(a, b) == 0 <==> a == b
    ensures CompareVersions(a, b) <= 0 && CompareVersions(b, c) <= 0 ==> CompareVersions(a, c) <= 0
  {
    PrereleasesMirror(a.prerelease, b.prerelease);
    if ComparePrereleases(a.prerelease, b.prerelease) <= 0 && ComparePrereleases(b.prerelease, c.prerelease) <= 0 {
      PrereleasesTransitive(a.prerelease, b.prerelease, c.prerelease);
    }
  }
}
