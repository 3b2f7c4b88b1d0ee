/**
 What `canonicalJson` of `src/contracts/canonical.ts` accepts and what it means: a finite object heap,
 possibly shared and possibly cyclic, and the recursive tree-unfolding normaliser over it.
 */
module CanonicalValue {
  import opened Options
  import opened CodeUnits
  import opened JsonGrammar

  type Ref = nat

  /** Finite numbers by their printed token; the printed token of negative zero is that of zero. */
  datatype Number = Finite(token: Text) | NegativeZero | NonFinite

  datatype Value =
    | NullValue
    | BoolValue(b: bool)
    | NumberValue(n: Number)
    | StringValue(s: Text)
    | Reference(ref: Ref)
    | Unsupported   // undefined, bigint, function or symbol

  datatype Property = Property(key: Text, value: Value)

  datatype Object =
    | ArrayObject(slots: seq<Option<Value>>)   // None is a hole of a sparse array
    | PlainObject(properties: seq<Property>)   // in property order
    | ForeignObject                            // any other prototype

  type Heap = map<Ref, Object>

  datatype Error = NonFiniteNumber | NotPlain | Circular | UnsupportedProperty

  datatype Outcome<+T> = Ok(value: T) | Err(error: Error)

  const ZERO_TEXT: Text := [ZERO]

  // ----- one step of the walk: the entries of a container, in the order they are visited

  datatype Entry = Entry(key: Option<Text>, value: Value)

  function PropertyName(p: Property): Text {
    p.key
  }

  /** Array elements in index order with holes as null; object properties in code-unit order. */
  function Entries(o: Object): seq<Entry> {
    match o
    case ArrayObject(slots) => seq(|slots|, i requires 0 <= i < |slots| =>
        Entry(None, if slots[i].Some? then slots[i].value else NullValue))
    case PlainObject(properties) =>
      var sorted := SortBy(properties, PropertyName);
      seq(|sorted|, i requires 0 <= i < |sorted| => Entry(Some(sorted[i].key), sorted[i].value))
    case ForeignObject => []
  }

  // ----- the property order of the language

  /** An array index: canonical decimal digits of a value below 2^32 - 1. */
  predicate IsArrayIndex(key: Text) {
    1 <= |key| <= 10 && (forall i :: 0 <= i < |key| ==> IsDigit(key[i])) &&
    (key[0] == ZERO ==> |key| == 1) && DigitsValue(key) < 0xFFFF_FFFF
  }

  function DigitsValue(key: Text): int
    requires forall i :: 0 <= i < |key| ==> IsDigit(key[i])
  {
    if key == [] then 0 else DigitsValue(key[..|key| - 1]) * 10 + (key[|key| - 1] - ZERO)
  }

  /** Canonical decimals compare by length first; see `IndexKeyIsNumeric`. */
  function IndexKey(key: Text): Text
    requires |key| < 0x1_0000
  {
    [|key|] + key
  }

  function MemberRank(m: Member): Text {
    if IsArrayIndex(m.key) then [0] + IndexKey(m.key) else [1] + m.key
  }

  function IndexMembers(members: seq<Member>): seq<Member> {
    if members == [] then []
    else (if IsArrayIndex(members[0].key) then [members[0]] else []) + IndexMembers(members[1..])
  }

  function NamedMembers(members: seq<Member>): seq<Member> {
    if members == [] then []
    else (if IsArrayIndex(members[0].key) then [] else [members[0]]) + NamedMembers(members[1..])
  }

  /** Own keys of an object built by inserting `members`: array indices ascending, then insertion order. */
  function PropertyOrder(members: seq<Member>): seq<Member> {
    SortBy(IndexMembers(members), MemberRank) + NamedMembers(members)
  }

  // ----- the recursive normaliser

  function BuildMembers(entries: seq<Entry>, values: seq<Json>): seq<Member>
    requires |entries| == |values|
  {
    seq(|entries|, i requires 0 <= i < |entries| =>
      Member(if entries[i].key.Some? then entries[i].key.value else [], values[i]))
  }

  function Build(isArray: bool, entries: seq<Entry>, values: seq<Json>): Json
    requires |entries| == |values|
  {
    if isArray then Arr(values) else Obj(PropertyOrder(BuildMembers(entries, values)))
  }

  function NormalScalar(v: Value): Outcome<Json> {
    match v
    case NullValue => Ok(Null)
    case BoolValue(b) => Ok(Bool(b))
    case StringValue(s) => Ok(Str(s))
    case NumberValue(n) => (match n
                            case Finite(token) => Ok(Num(token))
                            case NegativeZero => Ok(Num(ZERO_TEXT))
                            case NonFinite => Err(NonFiniteNumber))
    case _ => Err(NotPlain)
  }

  ghost predicate Closed(h: Heap) {
    forall r, i :: r in h && 0 <= i < |Entries(h[r])| && Entries(h[r])[i].value.Reference? ==>
      Entries(h[r])[i].value.ref in h
  }

  ghost predicate Known(h: Heap, v: Value) {
    v.Reference? ==> v.ref in h
  }

  /** The normal form of the unfolding of `v`; `ancestors` are the containers it is nested in. */
  ghost function Normal(h: Heap, v: Value, ancestors: set<Ref>): Outcome<Json>
    requires Closed(h) && Known(h, v)
    decreases h.Keys - ancestors, 1, 0
  {
    if !v.Reference? then NormalScalar(v)
    else if h[v.ref].ForeignObject? then Err(NotPlain)
    else if v.ref in ancestors then Err(Circular)
    else
      assert h.Keys - (ancestors + {v.ref}) < h.Keys - ancestors by {
        assert v.ref in h.Keys - ancestors;
      }
      match NormalEntries(h, Entries(h[v.ref]), ancestors + {v.ref})
      case Err(e) => Err(e)
      case Ok(values) => Ok(Build(h[v.ref].ArrayObject?, Entries(h[v.ref]), values))
  }

  ghost function NormalEntry(h: Heap, e: Entry, ancestors: set<Ref>): Outcome<Json>
    requires Closed(h) && Known(h, e.value)
    decreases h.Keys - ancestors, 2, 0
  {
    if e.key.Some? && e.value.Unsupported? then Err(UnsupportedProperty) else Normal(h, e.value, ancestors)
  }

  ghost function NormalEntries(h: Heap, entries: seq<Entry>, ancestors: set<Ref>): (r: Outcome<seq<Json>>)
    requires Closed(h) && forall i :: 0 <= i < |entries| ==> Known(h, entries[i].value)
    ensures r.Ok? ==> |r.value| == |entries|
    decreases h.Keys - ancestors, 3, |entries|
  {
    if entries == [] then Ok([]) else
    match NormalEntry(h, entries[0], ancestors)
    case Err(e) => Err(e)
    case Ok(v) =>
      match NormalEntries(h, entries[1..], ancestors)
      case Err(e) => Err(e)
      case Ok(more) => Ok([v] + more)
  }
}
