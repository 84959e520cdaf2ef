/** JSON values, and the accessors the decoders are written with.

    A decoder yields `None` where the program raises. */
module JsonTree {
  import opened Basics
  import opened Ordering

  datatype Json =
    | Null
    | Bool(b: bool)
    | Int(i: int)
    | Float(r: real)
    | Text(s: string)
    | List(items: seq<Json>)
    | Object(fields: map<string, Json>)

  /** The canonical text of a UUID. */
  type Uuid = s: string | |s| == 36 witness "00000000-0000-0000-0000-000000000000"

  /** Timestamps as instants: how they are written in ISO 8601 and how they are read back. */
  datatype Clock = Clock(write: int -> string, read: string -> Option<int>)

  /** Writing a timestamp never yields an empty text, and reading gives it back. */
  ghost predicate Faithful(clock: Clock) {
    forall t: int :: ReadsBack(clock, t)
  }

  predicate ReadsBack(clock: Clock, t: int) {
    clock.write(t) != "" && clock.read(clock.write(t)) == Some(t)
  }

  // ---------------------------------------------------------------- reading

  /** `j[name]`. */
  function At(j: Json, name: string): Option<Json> {
    if j.Object? && name in j.fields then Some(j.fields[name]) else None
  }

  /** `j.get(name, default)` of an object. */
  function Get(j: Json, name: string, default: Json): Option<Json> {
    if !j.Object? then None else if name in j.fields then Some(j.fields[name]) else Some(default)
  }

  /** Reading an object that lacks some keys: nothing is noticed where the default is what was left out. */
  lemma GetWithout(j: Json, lacking: set<string>, name: string, default: Json, value: Json)
    requires j.Object? && At(j, name) == Some(value) && (name in lacking ==> value == default)
    ensures Get(Object(j.fields - lacking), name, default) == Some(value)
  {
  }

  lemma AtWithout(j: Json, lacking: set<string>, name: string)
    requires j.Object? && name !in lacking
    ensures At(Object(j.fields - lacking), name) == At(j, name)
  {
  }

  /** Python's truth value. */
  predicate Truthy(j: Json) {
    match j
    case Null => false
    case Bool(b) => b
    case Int(i) => i != 0
    case Float(r) => r != 0.0
    case Text(s) => s != ""
    case List(items) => items != []
    case Object(fields) => fields != map[]
  }

  function AsText(j: Json): Option<string> {
    if j.Text? then Some(j.s) else None
  }

  function AsInt(j: Json): Option<int> {
    if j.Int? then Some(j.i) else None
  }

  function AsBool(j: Json): Option<bool> {
    if j.Bool? then Some(j.b) else None
  }

  function AsReal(j: Json): Option<real> {
    if j.Float? then Some(j.r) else None
  }

  function AsObject(j: Json): Option<map<string, Json>> {
    if j.Object? then Some(j.fields) else None
  }

  function AsUuid(j: Json): Option<Uuid> {
    if j.Text? && |j.s| == 36 then Some(j.s) else None
  }

  function AsTime(clock: Clock, j: Json): Option<int> {
    if j.Text? then clock.read(j.s) else None
  }

  /** A nullable value. */
  function Nullable<T>(j: Json, decode: Json -> Option<T>): Option<Option<T>> {
    if j.Null? then Some(None)
    else
      var v :- decode(j);
      Some(Some(v))
  }

  function DecodeEach<T>(items: seq<Json>, decode: Json -> Option<T>): Option<seq<T>> {
    if items == [] then Some([])
    else
      var first :- decode(items[0]);
      var rest :- DecodeEach(items[1..], decode);
      Some([first] + rest)
  }

  function AsList<T>(j: Json, decode: Json -> Option<T>): Option<seq<T>> {
    if j.List? then DecodeEach(j.items, decode) else None
  }

  function AsTexts(j: Json): Option<seq<string>> {
    AsList(j, AsText)
  }

  /** `frozenset(...)` of a list of texts. */
  function AsTextSet(j: Json): Option<set<string>> {
    var texts :- AsTexts(j);
    Some(set x | x in texts)
  }

  // ---------------------------------------------------------------- writing

  function OrNull<T>(v: Option<T>, encode: T -> Json): Json {
    if v.Some? then encode(v.value) else Null
  }

  function EncodeEach<T>(values: seq<T>, encode: T -> Json): seq<Json> {
    if values == [] then [] else [encode(values[0])] + EncodeEach(values[1..], encode)
  }

  function Texts(values: seq<string>): Json {
    List(EncodeEach(values, s => Text(s)))
  }

  function SortedTexts(values: set<string>): Json {
    Texts(Sorted(values))
  }

  // ---------------------------------------------------------------- inverses

  lemma {:induction false} EachInverts<T>(values: seq<T>, encode: T -> Json, decode: Json -> Option<T>)
    requires forall i | 0 <= i < |values| :: decode(encode(values[i])) == Some(values[i])
    ensures DecodeEach(EncodeEach(values, encode), decode) == Some(values)
  {
    if values != [] {
      EachInverts(values[1..], encode, decode);
      assert values == [values[0]] + values[1..];
      assert EncodeEach(values, encode)[1..] == EncodeEach(values[1..], encode);
    }
  }

  lemma TextsInvert(values: seq<string>)
    ensures AsTexts(Texts(values)) == Some(values)
  {
    EachInverts(values, s => Text(s), AsText);
  }

  /** A set written as a sorted list is read back as the same set. */
  lemma SortedTextsInvert(values: set<string>)
    ensures AsTextSet(SortedTexts(values)) == Some(values)
  {
    TextsInvert(Sorted(values));
    assert (set x | x in Sorted(values)) == values;
  }
}
