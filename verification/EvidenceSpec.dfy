/** The versioned object store with retention, and the content-addressed evidence store over it.

    `Digest` stands for the SHA-256 hex digest; nothing is assumed of it except where a statement
    says so. A version id, the decimal text of a counter in the program, is the counter here. */
module EvidenceSpec {
  import opened Basics

  newtype Byte = b: int | 0 <= b < 256

  type Bytes = seq<Byte>

  type Digest = Bytes -> string

  datatype Slot = Slot(bucket: string, key: string)

  datatype ObjectId = ObjectId(slot: Slot, version: nat)

  datatype Objects = Objects(
    content: map<ObjectId, Bytes>, latest: map<Slot, nat>, retention: map<ObjectId, int>, counter: nat)

  datatype Failure = Mismatch | MetadataConflict | Unavailable | Unsupported | Missing | Tampered | Retained | UnknownVersion

  const Nothing := Objects(map[], map[], map[], 0)

  /** Latest pointers name live objects, content and retention cover the same objects, and no two
      objects share a version number. */
  ghost predicate WellKept(s: Objects) {
    && (forall slot <- s.latest :: ObjectId(slot, s.latest[slot]) in s.content)
    && s.content.Keys == s.retention.Keys
    && VersionsDistinct(s.content, s.counter)
  }

  ghost predicate VersionsDistinct(content: map<ObjectId, Bytes>, counter: nat) {
    && (forall id <- content :: 0 < id.version <= counter)
    && (forall a <- content, b <- content | a.version == b.version :: a == b)
  }

  // ---------------------------------------------------------------- object operations

  /** The same bytes are already the latest version. */
  predicate Duplicate(s: Objects, slot: Slot, data: Bytes) {
    slot in s.latest && ObjectId(slot, s.latest[slot]) in s.content
    && s.content[ObjectId(slot, s.latest[slot])] == data
  }

  function Put(digest: Digest, s: Objects, slot: Slot, data: Bytes, sha256: string, until: int)
    : (Objects, Result<nat, Failure>)
  {
    if Duplicate(s, slot, data) then (s, Ok(s.latest[slot]))
    else if digest(data) != sha256 then (s, Err(MetadataConflict))
    else
      var v := s.counter + 1;
      (Objects(s.content[ObjectId(slot, v) := data], s.latest[slot := v], s.retention[ObjectId(slot, v) := until], v), Ok(v))
  }

  function Named(s: Objects, slot: Slot, version: Option<nat>): Option<nat> {
    if version.Some? then version else if slot in s.latest then Some(s.latest[slot]) else None
  }

  function Get(s: Objects, slot: Slot, version: Option<nat>): Option<Bytes> {
    match Named(s, slot, version)
    case Some(v) => if ObjectId(slot, v) in s.content then Some(s.content[ObjectId(slot, v)]) else None
    case None => None
  }

  function Delete(s: Objects, slot: Slot, version: Option<nat>, now: int): (Objects, Result<Option<nat>, Failure>) {
    match Named(s, slot, version)
    case None => (s, Ok(None))
    case Some(v) =>
      var id := ObjectId(slot, v);
      if id !in s.retention then (s, Err(UnknownVersion))
      else if now < s.retention[id] then (s, Err(Retained))
      else
        (Objects(s.content - {id}, if slot in s.latest && s.latest[slot] == v then s.latest - {slot} else s.latest,
                 s.retention - {id}, s.counter), Ok(Some(v)))
  }

  datatype Op =
    | PutOp(slot: Slot, data: Bytes, sha256: string, until: int)
    | DeleteOp(slot: Slot, version: Option<nat>, now: int)

  function Apply(digest: Digest, s: Objects, op: Op): Objects {
    match op
    case PutOp(slot, data, sha256, until) => Put(digest, s, slot, data, sha256, until).0
    case DeleteOp(slot, version, now) => Delete(s, slot, version, now).0
  }

  function Run(digest: Digest, s: Objects, ops: seq<Op>): Objects {
    if ops == [] then s else Apply(digest, Run(digest, s, ops[..|ops| - 1]), ops[|ops| - 1])
  }

  lemma PutKeeps(digest: Digest, s: Objects, slot: Slot, data: Bytes, sha256: string, until: int)
    requires WellKept(s)
    ensures WellKept(Put(digest, s, slot, data, sha256, until).0)
  {
    if !Duplicate(s, slot, data) && digest(data) == sha256 {
      FreshVersionIsDistinct(s.content, s.counter, slot, data);
    }
  }

  lemma FreshVersionIsDistinct(content: map<ObjectId, Bytes>, counter: nat, slot: Slot, data: Bytes)
    requires VersionsDistinct(content, counter)
    ensures VersionsDistinct(content[ObjectId(slot, counter + 1) := data], counter + 1)
  {
  }

  lemma DeleteKeeps(s: Objects, slot: Slot, version: Option<nat>, now: int)
    requires WellKept(s)
    ensures WellKept(Delete(s, slot, version, now).0)
  {
    var after := Delete(s, slot, version, now).0;
    if after != s {
      forall slot' <- after.latest ensures ObjectId(slot', after.latest[slot']) in after.content {}
    }
  }

  lemma ApplyKeeps(digest: Digest, s: Objects, op: Op)
    requires WellKept(s)
    ensures WellKept(Apply(digest, s, op)) && s.counter <= Apply(digest, s, op).counter
  {
    match op
    case PutOp(slot, data, sha256, until) => PutKeeps(digest, s, slot, data, sha256, until);
    case DeleteOp(slot, version, now) => DeleteKeeps(s, slot, version, now);
  }

  /** One operation leaves an existing version as it is or removes it. */
  lemma ApplyLeaves(digest: Digest, s: Objects, op: Op, id: ObjectId)
    requires WellKept(s) && id.version <= s.counter && id in Apply(digest, s, op).content
    ensures id in s.content && id in s.retention && id in Apply(digest, s, op).retention
    ensures Apply(digest, s, op).content[id] == s.content[id] && Apply(digest, s, op).retention[id] == s.retention[id]
  {
  }

  lemma {:induction false} RunKeeps(digest: Digest, s: Objects, ops: seq<Op>)
    requires WellKept(s)
    ensures WellKept(Run(digest, s, ops)) && s.counter <= Run(digest, s, ops).counter
  {
    if ops != [] {
      RunKeeps(digest, s, ops[..|ops| - 1]);
      ApplyKeeps(digest, Run(digest, s, ops[..|ops| - 1]), ops[|ops| - 1]);
    }
  }

  /** A version names one content for ever: whatever happens, it is either still those bytes with
      the same retention or gone, and once gone it never comes back. */
  lemma {:induction false} VersionsAreForever(digest: Digest, s: Objects, ops: seq<Op>, id: ObjectId)
    requires WellKept(s) && id.version <= s.counter
    ensures var after := Run(digest, s, ops);
            id in after.content ==> id in s.content && after.content[id] == s.content[id]
                                    && id in after.retention && after.retention[id] == s.retention[id]
  {
    RunKeeps(digest, s, ops);
    if ops != [] {
      var init := ops[..|ops| - 1];
      RunKeeps(digest, s, init);
      VersionsAreForever(digest, s, init, id);
      if id in Run(digest, s, ops).content { ApplyLeaves(digest, Run(digest, s, init), ops[|ops| - 1], id); }
    }
  }

  predicate Before(ops: seq<Op>, t: int) {
    forall i | 0 <= i < |ops| && ops[i].DeleteOp? :: ops[i].now < t
  }

  lemma ApplyRespectsRetention(digest: Digest, s: Objects, op: Op, id: ObjectId)
    requires WellKept(s) && id in s.content && (op.DeleteOp? ==> op.now < s.retention[id])
    ensures id in Apply(digest, s, op).content
  {
    match op
    case PutOp(_, _, _, _) =>
    case DeleteOp(slot, version, now) =>
      var v := Named(s, slot, version);
      if v.Some? && ObjectId(slot, v.value) == id { assert now < s.retention[ObjectId(slot, v.value)]; }
  }

  lemma {:induction false} KeptUntilRetention(digest: Digest, s: Objects, ops: seq<Op>, id: ObjectId)
    requires WellKept(s) && id in s.content && Before(ops, s.retention[id])
    ensures id in Run(digest, s, ops).content
  {
    if ops != [] {
      var init := ops[..|ops| - 1];
      forall i | 0 <= i < |init| && init[i].DeleteOp? ensures init[i].now < s.retention[id] { assert ops[i] == init[i]; }
      KeptUntilRetention(digest, s, init, id);
      RunKeeps(digest, s, init);
      VersionsAreForever(digest, s, init, id);
      ApplyRespectsRetention(digest, Run(digest, s, init), ops[|ops| - 1], id);
    }
  }

  /** No operation before `t` can remove an object exactly when its registered retention does not
      end before `t`. */
  lemma KeptExactly(digest: Digest, s: Objects, id: ObjectId, t: int)
    requires WellKept(s) && id in s.content
    ensures (forall ops: seq<Op> | Before(ops, t) :: id in Run(digest, s, ops).content) <==> s.retention[id] >= t
  {
    if s.retention[id] >= t {
      forall ops: seq<Op> | Before(ops, t) ensures id in Run(digest, s, ops).content {
        forall i | 0 <= i < |ops| && ops[i].DeleteOp? ensures ops[i].now < s.retention[id] {}
        KeptUntilRetention(digest, s, ops, id);
      }
    } else {
      var op := DeleteOp(id.slot, Some(id.version), s.retention[id]);
      assert Before([op], t) && [op][..0] == [];
      assert Run(digest, s, [op]) == Apply(digest, s, op);
      assert id !in Run(digest, s, [op]).content;
    }
  }

  // ---------------------------------------------------------------- evidence locations

  datatype Descriptor = Descriptor(
    tenant: string, evidence: string, uri: string, digest: string, classification: string, size: nat,
    retainedUntil: int, version: Option<nat>)

  const SCHEME := "s3://"

  function KeyFor(tenant: string, evidence: string, digest: string): string {
    "tenants/" + tenant + "/evidence/" + evidence + "/" + digest
  }

  /** `describe`, after its check that the digest has 64 characters. */
  function Described(bucket: string, tenant: string, evidence: string, digest: string, classification: string,
                     size: nat, retainedUntil: int): Descriptor
  {
    Descriptor(tenant, evidence, SCHEME + bucket + "/" + KeyFor(tenant, evidence, digest), digest, classification, size,
               retainedUntil, None)
  }

  predicate EndsHost(c: char) {
    c == '/' || c == '?' || c == '#'
  }

  /** The authority part of a URL: up to the first slash, question mark or hash. */
  function Host(s: string): string {
    if s == [] || EndsHost(s[0]) then [] else [s[0]] + Host(s[1..])
  }

  /** The path part: up to the first question mark or hash. */
  function Path(s: string): string {
    if s == [] || s[0] == '?' || s[0] == '#' then [] else [s[0]] + Path(s[1..])
  }

  function StripSlashes(s: string): string {
    if s != [] && s[0] == '/' then StripSlashes(s[1..]) else s
  }

  lemma {:induction false} HostIsPrefix(s: string)
    ensures |Host(s)| <= |s| && s[..|Host(s)|] == Host(s)
  {
    if s != [] && !EndsHost(s[0]) { HostIsPrefix(s[1..]); }
  }

  /** `_location`. */
  function Location(uri: string): Result<Slot, Failure> {
    if !(SCHEME <= uri) then Err(Unsupported)
    else
      var rest := uri[|SCHEME|..];
      HostIsPrefix(rest);
      var path := Path(rest[|Host(rest)|..]);
      if Host(rest) == [] || StripSlashes(path) == [] then Err(Unsupported)
      else Ok(Slot(Host(rest), StripSlashes(path)))
  }

  /** `_location_for`: only the descriptor's own key in the store's own bucket. */
  function LocationFor(bucket: string, d: Descriptor): Result<Slot, Failure> {
    match Location(d.uri)
    case Err(e) => Err(e)
    case Ok(slot) =>
      if slot.bucket != bucket || slot.key != KeyFor(d.tenant, d.evidence, d.digest) then Err(Unavailable) else Ok(slot)
  }

  predicate HostOnly(s: string) {
    forall c <- s :: !EndsHost(c)
  }

  predicate PathOnly(s: string) {
    forall c <- s :: c != '?' && c != '#'
  }

  lemma {:induction false} HostUpTo(s: string, rest: string)
    requires HostOnly(s) && rest != [] && EndsHost(rest[0])
    ensures Host(s + rest) == s
  {
    if s == [] {
      assert s + rest == rest;
    } else {
      assert (s + rest)[1..] == s[1..] + rest;
      HostUpTo(s[1..], rest);
    }
  }

  lemma {:induction false} HostStopsEarly(s: string, rest: string)
    requires !HostOnly(s)
    ensures |Host(s + rest)| < |s|
  {
    if !EndsHost(s[0]) {
      assert s == [s[0]] + s[1..];
      assert (s + rest)[1..] == s[1..] + rest;
      HostStopsEarly(s[1..], rest);
    }
  }

  lemma {:induction false} PathOfPlain(s: string)
    ensures Path(s) == s <==> PathOnly(s)
    ensures |Path(s)| <= |s|
  {
    if s != [] {
      assert s == [s[0]] + s[1..];
      PathOfPlain(s[1..]);
      if s[0] == '?' || s[0] == '#' {
        assert Path(s) == [] && s[0] in s;
      } else {
        assert Path(s) == [s[0]] + Path(s[1..]);
        assert Path(s)[1..] == Path(s[1..]);
        assert forall c :: c in s <==> c == s[0] || c in s[1..];
      }
    }
  }

  /** The path of a key that follows the host. */
  lemma PathOfKey(key: string)
    requires key != [] && !EndsHost(key[0])
    ensures StripSlashes(Path("/" + key)) == Path(key) && Path(key) != []
  {
    assert ("/" + key)[1..] == key;
    assert Path("/" + key) == "/" + Path(key);
    assert ("/" + Path(key))[1..] == Path(key);
    assert Path(key)[0] == key[0];
  }

  lemma LocationOfPlainBucket(bucket: string, key: string)
    requires bucket != [] && HostOnly(bucket) && key != [] && !EndsHost(key[0])
    ensures Location(SCHEME + bucket + "/" + key) == Ok(Slot(bucket, Path(key)))
  {
    var uri, rest := SCHEME + bucket + "/" + key, bucket + ("/" + key);
    assert uri == SCHEME + rest;
    assert uri[|SCHEME|..] == rest;
    HostUpTo(bucket, "/" + key);
    assert rest[|bucket|..] == "/" + key;
    PathOfKey(key);
  }

  lemma LocationOfOtherBucket(bucket: string, key: string)
    requires !HostOnly(bucket)
    ensures var l := Location(SCHEME + bucket + "/" + key); l.Ok? ==> l.value.bucket != bucket
  {
    var uri, rest := SCHEME + bucket + "/" + key, bucket + ("/" + key);
    assert uri == SCHEME + rest;
    assert uri[|SCHEME|..] == rest;
    HostStopsEarly(bucket, "/" + key);
  }

  /** A described artifact is found again under its own descriptor exactly when neither the bucket
      name nor the key has a character that splits a URL. */
  lemma DescribedIsFoundExactly(bucket: string, tenant: string, evidence: string, digest: string,
                                classification: string, size: nat, until: int)
    requires bucket != []
    ensures var key := KeyFor(tenant, evidence, digest);
            var d := Described(bucket, tenant, evidence, digest, classification, size, until);
            && d.uri == "s3://" + bucket + "/tenants/" + tenant + "/evidence/" + evidence + "/" + digest
            && (LocationFor(bucket, d) == Ok(Slot(bucket, key)) <==> HostOnly(bucket) && PathOnly(key))
  {
    assert SCHEME + bucket + "/" + KeyFor(tenant, evidence, digest)
           == "s3://" + bucket + "/tenants/" + tenant + "/evidence/" + evidence + "/" + digest;
    var key := KeyFor(tenant, evidence, digest);
    if HostOnly(bucket) {
      LocationOfPlainBucket(bucket, key);
      PathOfPlain(key);
    } else {
      LocationOfOtherBucket(bucket, key);
    }
  }

  /** Tenants never share a key: with ids of one length, equal keys mean equal descriptors. */
  lemma KeysNeverShared(t1: string, e1: string, d1: string, t2: string, e2: string, d2: string)
    requires |t1| == |t2| && |e1| == |e2| && KeyFor(t1, e1, d1) == KeyFor(t2, e2, d2)
    ensures t1 == t2 && e1 == e2 && d1 == d2
  {
    var k := KeyFor(t1, e1, d1);
    var a, b := |"tenants/"|, |"/evidence/"|;
    assert k[a..a + |t1|] == t1 && KeyFor(t2, e2, d2)[a..a + |t2|] == t2;
    assert k[a + |t1| + b..a + |t1| + b + |e1|] == e1 && KeyFor(t2, e2, d2)[a + |t2| + b..a + |t2| + b + |e2|] == e2;
    assert k[a + |t1| + b + |e1| + 1..] == d1 && KeyFor(t2, e2, d2)[a + |t2| + b + |e2| + 1..] == d2;
  }

  // ---------------------------------------------------------------- evidence operations

  /** `store`. */
  function Stored(digest: Digest, bucket: string, s: Objects, d: Descriptor, content: Bytes)
    : (Objects, Result<Descriptor, Failure>)
  {
    if digest(content) != d.digest || |content| != d.size then (s, Err(Mismatch))
    else
      match LocationFor(bucket, d)
      case Err(e) => (s, Err(e))
      case Ok(slot) =>
        match Put(digest, s, slot, content, digest(content), d.retainedUntil)
        case (after, Ok(v)) => (after, Ok(d.(version := Some(v))))
        case (after, Err(e)) => (after, Err(e))
  }

  /** `retrieve_verified`. */
  function Retrieved(digest: Digest, bucket: string, s: Objects, d: Descriptor): Result<Bytes, Failure> {
    match LocationFor(bucket, d)
    case Err(e) => Err(e)
    case Ok(slot) =>
      match Get(s, slot, d.version)
      case None => Err(Missing)
      case Some(content) => if digest(content) != d.digest then Err(Tampered) else Ok(content)
  }

  /** `delete`. */
  function Removed(bucket: string, s: Objects, d: Descriptor, now: int): (Objects, Result<Option<nat>, Failure>) {
    if now < d.retainedUntil then (s, Err(Retained))
    else
      match LocationFor(bucket, d)
      case Err(e) => (s, Err(e))
      case Ok(slot) => Delete(s, slot, d.version, now)
  }

  /** A descriptor reaches no other place than the key of its own tenant, evidence id and digest. */
  predicate OwnPlace(bucket: string, d: Descriptor, slot: Slot) {
    slot.bucket == bucket && slot.key == "tenants/" + d.tenant + "/evidence/" + d.evidence + "/" + d.digest
  }

  lemma LocatedInOwnPlace(bucket: string, d: Descriptor)
    ensures LocationFor(bucket, d).Ok? ==> OwnPlace(bucket, d, LocationFor(bucket, d).value) && "s3://" <= d.uri
    ensures !("s3://" <= d.uri) ==> LocationFor(bucket, d) == Err(Unsupported)
  {
  }

  /** The version a descriptor stands for: the one it names, else the latest of its key. */
  predicate StandsFor(s: Objects, d: Descriptor, slot: Slot, v: nat) {
    d.version == Some(v) || (d.version == None && slot in s.latest && s.latest[slot] == v)
  }

  /** `store` accepts exactly the content that has the descriptor's digest and size, at the descriptor's
      own place; it then holds the bytes as the latest version of that key and changes nothing else. */
  lemma StoresExactly(digest: Digest, bucket: string, s: Objects, d: Descriptor, content: Bytes)
    requires WellKept(s)
    ensures var (after, r) := Stored(digest, bucket, s, d, content);
            && (r.Ok? <==> digest(content) == d.digest && |content| == d.size && LocationFor(bucket, d).Ok?)
            && (r.Err? ==> after == s)
            && (r.Ok? ==>
                  var slot := LocationFor(bucket, d).value;
                  && OwnPlace(bucket, d, slot) && r.value == d.(version := r.value.version) && r.value.version.Some?
                  && slot in after.latest && after.latest[slot] == r.value.version.value
                  && ObjectId(slot, after.latest[slot]) in after.content
                  && after.content[ObjectId(slot, after.latest[slot])] == content
                  && forall id <- s.content :: id in after.content && after.content[id] == s.content[id]
                                               && after.retention[id] == s.retention[id])
            && (r.Ok? ==> forall id <- after.content | id !in s.content ::
                  id == ObjectId(LocationFor(bucket, d).value, r.value.version.value) && after.retention[id] == d.retainedUntil)
            && (r.Ok? ==> forall other <- after.latest | other != LocationFor(bucket, d).value ::
                  other in s.latest && after.latest[other] == s.latest[other])
  {
    LocatedInOwnPlace(bucket, d);
    if LocationFor(bucket, d).Ok? {
      PutKeeps(digest, s, LocationFor(bucket, d).value, content, digest(content), d.retainedUntil);
      assert ObjectId(LocationFor(bucket, d).value, s.counter + 1) !in s.content;
    }
  }

  /** `retrieve_verified` returns bytes exactly if they are the version the descriptor stands for, at the
      descriptor's own place, and have its digest. */
  lemma RetrievesExactly(digest: Digest, bucket: string, s: Objects, d: Descriptor, content: Bytes)
    ensures Retrieved(digest, bucket, s, d) == Ok(content) <==>
            && LocationFor(bucket, d).Ok? && digest(content) == d.digest
            && exists v :: StandsFor(s, d, LocationFor(bucket, d).value, v)
                           && ObjectId(LocationFor(bucket, d).value, v) in s.content
                           && s.content[ObjectId(LocationFor(bucket, d).value, v)] == content
    ensures LocationFor(bucket, d).Ok? ==> OwnPlace(bucket, d, LocationFor(bucket, d).value)
  {
    LocatedInOwnPlace(bucket, d);
    if LocationFor(bucket, d).Ok? {
      var slot := LocationFor(bucket, d).value;
      var named := Named(s, slot, d.version);
      if named.Some? { assert StandsFor(s, d, slot, named.value); }
    }
  }

  /** `delete` removes a version exactly if the descriptor stands for it, it is live, and both the
      descriptor's own retention and the registered one are over; else it changes nothing. */
  lemma RemovesExactly(bucket: string, s: Objects, d: Descriptor, now: int, v: nat)
    requires WellKept(s)
    ensures Removed(bucket, s, d, now).1 == Ok(Some(v)) <==>
            && d.retainedUntil <= now && LocationFor(bucket, d).Ok?
            && StandsFor(s, d, LocationFor(bucket, d).value, v)
            && ObjectId(LocationFor(bucket, d).value, v) in s.content
            && s.retention[ObjectId(LocationFor(bucket, d).value, v)] <= now
    ensures Removed(bucket, s, d, now).1 == Ok(Some(v)) ==>
              var slot, after := LocationFor(bucket, d).value, Removed(bucket, s, d, now).0;
              && OwnPlace(bucket, d, slot)
              && after.content == s.content - {ObjectId(slot, v)} && after.retention == s.retention - {ObjectId(slot, v)}
              && after.counter == s.counter
              && after.latest == if slot in s.latest && s.latest[slot] == v then s.latest - {slot} else s.latest
    ensures !(Removed(bucket, s, d, now).1.Ok? && Removed(bucket, s, d, now).1.value.Some?) ==> Removed(bucket, s, d, now).0 == s
    ensures now < d.retainedUntil ==> Removed(bucket, s, d, now).1 == Err(Retained)
  {
    LocatedInOwnPlace(bucket, d);
  }

  /** What a successful store leaves: the bytes under the returned version, with the retention asked
      for unless the bytes were there already. */
  lemma StoredObject(digest: Digest, bucket: string, s: Objects, d: Descriptor, content: Bytes)
    requires WellKept(s) && Stored(digest, bucket, s, d, content).1.Ok?
    ensures var (after, stored) := Stored(digest, bucket, s, d, content);
            && WellKept(after) && LocationFor(bucket, d).Ok? && digest(content) == d.digest
            && stored.value.version.Some? && stored.value == d.(version := stored.value.version)
            && var slot := LocationFor(bucket, d).value;
               var id := ObjectId(slot, stored.value.version.value);
               && id in after.content && after.content[id] == content && id in after.retention
               && id.version <= after.counter
               && after.retention[id] == if Duplicate(s, slot, content) then s.retention[ObjectId(slot, s.latest[slot])]
                                         else d.retainedUntil
  {
    var slot := LocationFor(bucket, d).value;
    PutKeeps(digest, s, slot, content, digest(content), d.retainedUntil);
  }

  /** Stored bytes come back unchanged under the returned descriptor until its object is deleted,
      and after that never again. */
  lemma StoreThenRetrieve(digest: Digest, bucket: string, s: Objects, d: Descriptor, content: Bytes, ops: seq<Op>)
    requires WellKept(s) && Stored(digest, bucket, s, d, content).1.Ok?
    ensures var (after, stored) := Stored(digest, bucket, s, d, content);
            var id := ObjectId(LocationFor(bucket, d).value, stored.value.version.value);
            && id in after.content
            && Retrieved(digest, bucket, Run(digest, after, ops), stored.value) ==
               if id in Run(digest, after, ops).content then Ok(content) else Err(Missing)
  {
    StoredObject(digest, bucket, s, d, content);
    var (after, stored) := Stored(digest, bucket, s, d, content);
    VersionsAreForever(digest, after, ops, ObjectId(LocationFor(bucket, d).value, stored.value.version.value));
  }

  /** What retention a store call leaves: storing bytes that are already there changes nothing, so
      the object keeps the earlier call's retention. */
  lemma StoredIsKeptExactly(digest: Digest, bucket: string, s: Objects, d: Descriptor, content: Bytes)
    requires WellKept(s) && Stored(digest, bucket, s, d, content).1.Ok?
    ensures var (after, stored) := Stored(digest, bucket, s, d, content);
            var slot := LocationFor(bucket, d).value;
            var id := ObjectId(slot, stored.value.version.value);
            (forall ops: seq<Op> | Before(ops, d.retainedUntil) :: id in Run(digest, after, ops).content)
            <==> !Duplicate(s, slot, content) || s.retention[ObjectId(slot, s.latest[slot])] >= d.retainedUntil
  {
    StoredObject(digest, bucket, s, d, content);
    var (after, stored) := Stored(digest, bucket, s, d, content);
    KeptExactly(digest, after, ObjectId(LocationFor(bucket, d).value, stored.value.version.value), d.retainedUntil);
  }

  /** Not every descriptor's retention is honoured: the same empty artifact is stored until 10 and
      then until 20; deleting it at 10 by the first descriptor leaves the second with nothing. */
  lemma LaterRetentionIsIgnored()
    ensures var digest: Digest := _ => "d";
            var first := Described("b", "t", "e", "d", "internal", 0, 10);
            var second := Described("b", "t", "e", "d", "internal", 0, 20);
            var s1 := Stored(digest, "b", Nothing, first, []).0;
            var (s2, stored) := Stored(digest, "b", s1, second, []);
            && stored == Ok(second.(version := Some(1)))
            && Retrieved(digest, "b", s2, stored.value) == Ok([])
            && Removed("b", s2, first.(version := Some(1)), 10).1.Ok?
            && Retrieved(digest, "b", Removed("b", s2, first.(version := Some(1)), 10).0, stored.value) == Err(Missing)
  {
    var digest: Digest := _ => "d";
    var first := Described("b", "t", "e", "d", "internal", 0, 10);
    var second := Described("b", "t", "e", "d", "internal", 0, 20);
    var slot := Slot("b", KeyFor("t", "e", "d"));
    assert LocationFor("b", first) == Ok(slot) && LocationFor("b", second) == Ok(slot) by { PlainIsFound(10); PlainIsFound(20); }
    var s1 := Objects(map[ObjectId(slot, 1) := []], map[slot := 1], map[ObjectId(slot, 1) := 10], 1);
    assert Put(digest, Nothing, slot, [], "d", 10) == (s1, Ok(1));
    assert Stored(digest, "b", Nothing, first, []).0 == s1;
    assert Duplicate(s1, slot, []);
    assert Stored(digest, "b", s1, second, []) == (s1, Ok(second.(version := Some(1))));
    assert LocationFor("b", second.(version := Some(1))) == Ok(slot) == LocationFor("b", first.(version := Some(1)));
    assert Removed("b", s1, first.(version := Some(1)), 10) == Delete(s1, slot, Some(1), 10);
  }

  lemma PlainIsFound(until: int)
    ensures LocationFor("b", Described("b", "t", "e", "d", "internal", 0, until)) == Ok(Slot("b", KeyFor("t", "e", "d")))
  {
    assert HostOnly("b") && PathOnly(KeyFor("t", "e", "d"));
    DescribedIsFoundExactly("b", "t", "e", "d", "internal", 0, until);
  }

  // ---------------------------------------------------------------- one version per key

  ghost predicate StoredUnderDigest(digest: Digest, key: string, content: Bytes) {
    exists tenant, evidence :: key == KeyFor(tenant, evidence, digest(content))
  }

  /** Every live object is the latest of its key and is stored under its own digest. */
  ghost predicate OneVersionPerKey(digest: Digest, s: Objects) {
    forall id <- s.content ::
      && id.slot in s.latest && s.latest[id.slot] == id.version
      && StoredUnderDigest(digest, id.slot.key, s.content[id])
  }

  /** The new bytes share their digest with no other live bytes. */
  ghost predicate NoCollision(digest: Digest, s: Objects, content: Bytes) {
    forall id <- s.content | digest(s.content[id]) == digest(content) :: s.content[id] == content
  }

  /** Short of a digest collision, storing evidence never makes a second version of a key. */
  lemma StoreKeepsOneVersion(digest: Digest, bucket: string, s: Objects, d: Descriptor, content: Bytes)
    requires WellKept(s) && OneVersionPerKey(digest, s) && NoCollision(digest, s, content)
    requires forall b: Bytes :: |digest(b)| == 64
    ensures OneVersionPerKey(digest, Stored(digest, bucket, s, d, content).0)
  {
    if digest(content) == d.digest && |content| == d.size && LocationFor(bucket, d).Ok? {
      var slot := LocationFor(bucket, d).value;
      assert slot.key == KeyFor(d.tenant, d.evidence, digest(content));
      if slot in s.latest {
        var id := ObjectId(slot, s.latest[slot]);
        assert StoredUnderDigest(digest, id.slot.key, s.content[id]);
        var tenant, evidence :| id.slot.key == KeyFor(tenant, evidence, digest(s.content[id]));
        KeyEndsWithDigest(tenant, evidence, digest(s.content[id]));
        KeyEndsWithDigest(d.tenant, d.evidence, digest(content));
        assert Duplicate(s, slot, content);
      } else {
        var after := Stored(digest, bucket, s, d, content).0;
        forall id <- after.content
          ensures id.slot in after.latest && after.latest[id.slot] == id.version
          ensures StoredUnderDigest(digest, id.slot.key, after.content[id]) {
          if id !in s.content { assert id.slot.key == KeyFor(d.tenant, d.evidence, digest(after.content[id])); }
        }
      }
    }
  }

  lemma KeyEndsWithDigest(tenant: string, evidence: string, digest: string)
    ensures |digest| <= |KeyFor(tenant, evidence, digest)|
    ensures var key := KeyFor(tenant, evidence, digest); key[|key| - |digest|..] == digest
  {
  }

  lemma DeleteKeepsOneVersion(digest: Digest, s: Objects, slot: Slot, version: Option<nat>, now: int)
    requires WellKept(s) && OneVersionPerKey(digest, s)
    ensures OneVersionPerKey(digest, Delete(s, slot, version, now).0)
  {
    var after := Delete(s, slot, version, now).0;
    forall id <- after.content
      ensures id.slot in after.latest && after.latest[id.slot] == id.version
      ensures StoredUnderDigest(digest, id.slot.key, after.content[id]) {
      DeleteAdds(s, slot, version, now, id);
      assert StoredUnderDigest(digest, id.slot.key, s.content[id]);
    }
  }

  lemma RemoveKeepsOneVersion(digest: Digest, bucket: string, s: Objects, d: Descriptor, now: int)
    requires WellKept(s) && OneVersionPerKey(digest, s)
    ensures OneVersionPerKey(digest, Removed(bucket, s, d, now).0)
  {
    if LocationFor(bucket, d).Ok? { DeleteKeepsOneVersion(digest, s, LocationFor(bucket, d).value, d.version, now); }
  }

  // ---------------------------------------------------------------- whole histories

  datatype Call = StoreCall(d: Descriptor, content: Bytes) | DeleteCall(d: Descriptor, now: int)

  function Called(digest: Digest, bucket: string, s: Objects, call: Call): Objects {
    match call
    case StoreCall(d, content) => Stored(digest, bucket, s, d, content).0
    case DeleteCall(d, now) => Removed(bucket, s, d, now).0
  }

  /** The object store after any calls of the evidence store, from empty. */
  function History(digest: Digest, bucket: string, calls: seq<Call>): Objects {
    if calls == [] then Nothing
    else Called(digest, bucket, History(digest, bucket, calls[..|calls| - 1]), calls[|calls| - 1])
  }

  /** No two contents ever offered have the same digest. */
  predicate CollisionFree(digest: Digest, calls: seq<Call>) {
    forall i, j | 0 <= i < |calls| && 0 <= j < |calls| && calls[i].StoreCall? && calls[j].StoreCall?
      && digest(calls[i].content) == digest(calls[j].content) :: calls[i].content == calls[j].content
  }

  predicate Offered(calls: seq<Call>, content: Bytes) {
    exists i | 0 <= i < |calls| :: calls[i].StoreCall? && calls[i].content == content
  }

  lemma PutAdds(digest: Digest, s: Objects, slot: Slot, data: Bytes, sha256: string, until: int, id: ObjectId)
    requires id in Put(digest, s, slot, data, sha256, until).0.content
    ensures var after := Put(digest, s, slot, data, sha256, until).0;
            after.content[id] == data || (id in s.content && after.content[id] == s.content[id])
  {
  }

  lemma DeleteAdds(s: Objects, slot: Slot, version: Option<nat>, now: int, id: ObjectId)
    requires id in Delete(s, slot, version, now).0.content
    ensures id in s.content && Delete(s, slot, version, now).0.content[id] == s.content[id]
  {
  }

  lemma CalledKeeps(digest: Digest, bucket: string, s: Objects, call: Call)
    requires WellKept(s)
    ensures WellKept(Called(digest, bucket, s, call))
  {
    if LocationFor(bucket, call.d).Ok? {
      var slot := LocationFor(bucket, call.d).value;
      match call
      case StoreCall(d, content) => PutKeeps(digest, s, slot, content, digest(content), d.retainedUntil);
      case DeleteCall(d, now) => DeleteKeeps(s, slot, d.version, now);
    }
  }

  /** A call adds no content but what it offers. */
  lemma CalledAdds(digest: Digest, bucket: string, s: Objects, call: Call, id: ObjectId)
    requires id in Called(digest, bucket, s, call).content
    ensures var after := Called(digest, bucket, s, call);
            (call.StoreCall? && after.content[id] == call.content) || (id in s.content && after.content[id] == s.content[id])
  {
    if LocationFor(bucket, call.d).Ok? {
      var slot := LocationFor(bucket, call.d).value;
      match call
      case StoreCall(d, content) =>
        if digest(content) == d.digest && |content| == d.size {
          PutAdds(digest, s, slot, content, digest(content), d.retainedUntil, id);
        }
      case DeleteCall(d, now) => if now >= d.retainedUntil { DeleteAdds(s, slot, d.version, now, id); }
    }
  }

  lemma {:induction false} LiveWasOffered(digest: Digest, bucket: string, calls: seq<Call>, id: ObjectId)
    requires id in History(digest, bucket, calls).content
    ensures Offered(calls, History(digest, bucket, calls).content[id])
    decreases |calls|
  {
    var n := |calls| - 1;
    var before := History(digest, bucket, calls[..n]);
    CalledAdds(digest, bucket, before, calls[n], id);
    if id in before.content && History(digest, bucket, calls).content[id] == before.content[id] {
      LiveWasOffered(digest, bucket, calls[..n], id);
      var i :| 0 <= i < n && calls[..n][i].StoreCall? && calls[..n][i].content == before.content[id];
      assert calls[i] == calls[..n][i];
    }
  }

  lemma {:induction false} HistoryWellKept(digest: Digest, bucket: string, calls: seq<Call>)
    ensures WellKept(History(digest, bucket, calls))
    decreases |calls|
  {
    if calls != [] {
      HistoryWellKept(digest, bucket, calls[..|calls| - 1]);
      CalledKeeps(digest, bucket, History(digest, bucket, calls[..|calls| - 1]), calls[|calls| - 1]);
    }
  }

  lemma OfferedDoesNotCollide(digest: Digest, bucket: string, calls: seq<Call>)
    requires calls != [] && CollisionFree(digest, calls) && calls[|calls| - 1].StoreCall?
    ensures NoCollision(digest, History(digest, bucket, calls[..|calls| - 1]), calls[|calls| - 1].content)
  {
    var n := |calls| - 1;
    var s := History(digest, bucket, calls[..n]);
    forall id <- s.content | digest(s.content[id]) == digest(calls[n].content) ensures s.content[id] == calls[n].content {
      LiveWasOffered(digest, bucket, calls[..n], id);
      var i :| 0 <= i < n && calls[..n][i].StoreCall? && calls[..n][i].content == s.content[id];
      assert calls[i] == calls[..n][i];
    }
  }

  /** After any calls of the evidence store, short of a digest collision among what was offered,
      every live object is the only version of its key and is stored under its own digest. */
  lemma {:induction false} OneVersionThroughout(digest: Digest, bucket: string, calls: seq<Call>)
    requires CollisionFree(digest, calls) && forall b: Bytes :: |digest(b)| == 64
    ensures OneVersionPerKey(digest, History(digest, bucket, calls))
    ensures forall a, b | a in History(digest, bucket, calls).content && b in History(digest, bucket, calls).content
                          && a.slot == b.slot :: a == b
    decreases |calls|
  {
    if calls != [] {
      var n := |calls| - 1;
      var before := History(digest, bucket, calls[..n]);
      assert forall i | 0 <= i < n :: calls[..n][i] == calls[i];
      HistoryWellKept(digest, bucket, calls[..n]);
      OneVersionThroughout(digest, bucket, calls[..n]);
      match calls[n]
      case StoreCall(d, content) =>
        OfferedDoesNotCollide(digest, bucket, calls);
        StoreKeepsOneVersion(digest, bucket, before, d, content);
      case DeleteCall(d, now) => RemoveKeepsOneVersion(digest, bucket, before, d, now);
    }
  }
}
