/**
 `parseExactJson` of `src/contracts/exact-json.ts`: a scanner over explicit container frames that
 sees what the native reader discards (repeated object keys, nesting depth), followed by the native
 reader itself.
 */
module ExactJson {
  import opened Options
  import opened CodeUnits
  import opened JsonGrammar

  datatype Failure = InvalidJson | DepthLimit | DuplicateKey

  datatype Stage = First | Next | After

  datatype Frame =
    | ObjectFrame(keys: set<Text>, stage: Stage)
    | ArrayFrame(stage: Stage)

  datatype Outcome = Finished(rest: Text) | Failed(kind: Failure)

  // ----- the scanner as a function of the text that is left

  /** The string token loop after the opening quotation mark: escapes are skipped, not decoded. */
  function SkipBody(t: Text): (r: Option<Text>)
    ensures r.Some? ==> |r.value| < |t|
  {
    if t == [] then None
    else if t[0] == QUOTE then Some(t[1..])
    else if t[0] == BACKSLASH then
      if |t| < 2 then None else
      var width := if t[1] == LOWER_U then 6 else 2;
      if |t| < width then None else SkipBody(t[width..])
    else if t[0] < 0x20 then None
    else SkipBody(t[1..])
  }

  function SkipString(t: Text): (r: Option<Text>)
    ensures r.Some? ==> |r.value| < |t| - 1
  {
    if StartsWith(t, QUOTE) then SkipBody(t[1..]) else None
  }

  /** A scalar token: everything up to a delimiter. */
  function SkipScalar(t: Text): (r: Text)
    ensures |r| <= |t|
    ensures Delimited(r)
  {
    if Delimited(t) then t else SkipScalar(t[1..])
  }

  /** An object key is a whole JSON document of its own. */
  function DecodeKey(token: Text): Option<Text> {
    match ReadDocument(token)
    case Some(Str(s)) => Some(s)
    case _ => None
  }

  predicate Exceeds(depth: nat, bound: Option<nat>) {
    bound.Some? && depth >= bound.value
  }

  datatype Position = At(rest: Text, frames: seq<Frame>) | Stuck(kind: Failure)

  /** `readValue`: open a container or pass one scalar. */
  function OpenValue(t: Text, frames: seq<Frame>, bound: Option<nat>): (p: Position)
    ensures p.At? ==> |p.rest| < |t|
  {
    var u := SkipSpace(t);
    if StartsWith(u, OPEN_BRACE) || StartsWith(u, OPEN_BRACKET) then
      if Exceeds(|frames|, bound) then Stuck(DepthLimit)
      else At(u[1..], frames + [if u[0] == OPEN_BRACE then ObjectFrame({}, First) else ArrayFrame(First)])
    else if StartsWith(u, QUOTE) then
      match SkipString(u)
      case None => Stuck(InvalidJson)
      case Some(rest) => At(rest, frames)
    else if u == [] || SkipScalar(u) == u then Stuck(InvalidJson)
    else At(SkipScalar(u), frames)
  }

  function EndOf(frame: Frame): CodeUnit {
    if frame.ObjectFrame? then CLOSE_BRACE else CLOSE_BRACKET
  }

  /** Behind an element: leave the container, or expect another element. */
  function Behind(u: Text, below: seq<Frame>, frame: Frame): (p: Position)
    requires u != []
    ensures p.At? ==> |p.rest| < |u|
  {
    if u[0] == EndOf(frame) then At(u[1..], below)
    else if u[0] != COMMA then Stuck(InvalidJson)
    else
      var w := SkipSpace(u[1..]);
      if StartsWith(w, EndOf(frame)) then Stuck(InvalidJson)
      else At(w, below + [frame.(stage := Next)])
  }

  /** A member: its key, not seen before, its separator and the start of its value. */
  function OpenMember(u: Text, below: seq<Frame>, keys: set<Text>, bound: Option<nat>): (p: Position)
    ensures p.At? ==> |p.rest| < |u|
  {
    match SkipString(u)
    case None => Stuck(InvalidJson)
    case Some(rest) =>
      match DecodeKey(u[..|u| - |rest|])
      case None => Stuck(InvalidJson)
      case Some(key) => BehindKey(rest, below, keys, key, bound)
  }

  /** A new key is followed by its separator and the start of its value. */
  function BehindKey(rest: Text, below: seq<Frame>, keys: set<Text>, key: Text, bound: Option<nat>): (p: Position)
    ensures p.At? ==> |p.rest| < |rest|
  {
    if key in keys then Stuck(DuplicateKey) else
    var w := SkipSpace(rest);
    if !StartsWith(w, COLON) then Stuck(InvalidJson)
    else OpenValue(w[1..], below + [ObjectFrame(keys + {key}, After)], bound)
  }

  function BareTurn(u: Text, below: seq<Frame>, frame: Frame, bound: Option<nat>): (p: Position)
    ensures p.At? ==> |p.rest| < |u|
  {
    if u == [] then Stuck(InvalidJson)
    else if frame.stage == After then Behind(u, below, frame)
    else if frame.stage == First && u[0] == EndOf(frame) then At(u[1..], below)
    else if frame.ArrayFrame? then OpenValue(u, below + [ArrayFrame(After)], bound)
    else OpenMember(u, below, frame.keys, bound)
  }

  /** One turn of the scanning loop with the innermost container `frame`. */
  function Turn(t: Text, below: seq<Frame>, frame: Frame, bound: Option<nat>): (p: Position)
    ensures p.At? ==> |p.rest| < |t|
  {
    BareTurn(SkipSpace(t), below, frame, bound)
  }

  /** The loop, from any state to its end. */
  function Scan(t: Text, frames: seq<Frame>, bound: Option<nat>): Outcome
    decreases |t|
  {
    if frames == [] then Finished(t) else
    match Turn(t, frames[..|frames| - 1], frames[|frames| - 1], bound)
    case Stuck(kind) => Failed(kind)
    case At(rest, next) => Scan(rest, next, bound)
  }

  function ScanFrom(p: Position, bound: Option<nat>): Outcome {
    match p
    case Stuck(kind) => Failed(kind)
    case At(rest, frames) => Scan(rest, frames, bound)
  }

  // ----- what a value owes: no repeated key, no container below the bound, first violation first

  function Verdict(v: Json, depth: nat, bound: Option<nat>): Option<Failure>
    decreases v, 1
  {
    match v
    case Arr(items) => if Exceeds(depth, bound) then Some(DepthLimit) else ItemsVerdict(items, depth + 1, bound)
    case Obj(members) => if Exceeds(depth, bound) then Some(DepthLimit)
                         else MembersVerdict(members, {}, depth + 1, bound)
    case _ => None
  }

  function ItemsVerdict(items: seq<Json>, depth: nat, bound: Option<nat>): Option<Failure>
    decreases items, 0
  {
    if items == [] then None else
    match Verdict(items[0], depth, bound)
    case Some(kind) => Some(kind)
    case None => ItemsVerdict(items[1..], depth, bound)
  }

  function MembersVerdict(members: seq<Member>, seen: set<Text>, depth: nat, bound: Option<nat>): Option<Failure>
    decreases members, 0
  {
    if members == [] then None
    else if members[0].key in seen then Some(DuplicateKey)
    else
      match Verdict(members[0].value, depth, bound)
      case Some(kind) => Some(kind)
      case None => MembersVerdict(members[1..], seen + {members[0].key}, depth, bound)
  }

  // ----- the scanner follows the grammar on every valid text

  lemma SpaceBeforeValue(t: Text)
    ensures SkipSpace(SkipSpace(t)) == SkipSpace(t)
    ensures ReadValue(SkipSpace(t)) == ReadValue(t)
  {
  }

  lemma SpaceBeforeElements(t: Text)
    ensures ReadElements(SkipSpace(t)) == ReadElements(t)
  {
    SpaceBeforeValue(t);
  }

  lemma SpaceBeforeMembers(t: Text)
    ensures ReadMembers(SkipSpace(t)) == ReadMembers(t)
  {
    SpaceBeforeValue(t);
    assert ReadKey(SkipSpace(t)) == ReadKey(t);
  }

  lemma {:induction false} BodySkipped(t: Text)
    requires ReadChars(t).Some?
    ensures SkipBody(t) == Some(ReadChars(t).value.rest)
  {
    if !StartsWith(t, QUOTE) {
      BodySkipped(ReadChar(t).value.rest);
    }
  }

  lemma {:induction false} CharsLocal(t: Text, n: nat)
    requires ReadChars(t).Some? && n == |t| - |ReadChars(t).value.rest|
    ensures n <= |t| && ReadChars(t[..n]) == Some(Read(ReadChars(t).value.value, []))
  {
    if !StartsWith(t, QUOTE) {
      var first := ReadChar(t).value;
      var width := |t| - |first.rest|;
      CharsLocal(first.rest, n - width);
      CharLocal(t, n);
    }
  }

  lemma CharLocal(t: Text, n: nat)
    requires ReadChar(t).Some? && |t| - |ReadChar(t).value.rest| <= n <= |t|
    ensures ReadChar(t[..n]) ==
            Some(Read(ReadChar(t).value.value, ReadChar(t).value.rest[..n - (|t| - |ReadChar(t).value.rest|)]))
  {
    var rest := ReadChar(t).value.rest;
    if t[0] == BACKSLASH && t[1] == LOWER_U {
      assert t[..n][2..6] == t[2..6];
      assert t[..n][6..] == t[6..][..n - 6];
    } else if t[0] == BACKSLASH {
      assert t[..n][2..] == t[2..][..n - 2];
    } else {
      assert t[..n][1..] == t[1..][..n - 1];
    }
  }

  /** On a valid string the token loop stops where the grammar does and the key decodes to it. */
  lemma StringFollowed(t: Text)
    requires ReadString(t).Some?
    ensures SkipString(t) == Some(ReadString(t).value.rest)
    ensures DecodeKey(t[..|t| - |ReadString(t).value.rest|]) == Some(ReadString(t).value.value)
  {
    var r := ReadString(t).value;
    var n := |t| - |r.rest|;
    BodySkipped(t[1..]);
    CharsLocal(t[1..], n - 1);
    var token := t[..n];
    assert token[1..] == t[1..][..n - 1];
    assert SkipSpace(token) == token;
    assert ReadString(token) == Some(Read(r.value, []));
    assert ReadBare(token) == Some(Read(Str(r.value), []));
  }

  predicate IsPlain(c: CodeUnit) {
    c < 0x80 && !IsDelimiter(c)
  }

  /** `r` is what is left of `t` after some undelimited ASCII characters. */
  ghost predicate PlainTo(t: Text, r: Text) {
    t == r || (t != [] && IsPlain(t[0]) && PlainTo(t[1..], r))
  }

  lemma {:induction false} PlainChain(t: Text, u: Text, r: Text)
    requires PlainTo(t, u) && PlainTo(u, r)
    ensures PlainTo(t, r)
  {
    if t != u {
      PlainChain(t[1..], u, r);
    }
  }

  lemma {:induction false} PlainScalar(t: Text, r: Text)
    requires PlainTo(t, r) && Delimited(r)
    ensures SkipScalar(t) == r
  {
    if t != r {
      PlainScalar(t[1..], r);
    }
  }

  lemma {:induction false} DigitsPlain(t: Text)
    ensures PlainTo(t, SkipDigits(t))
  {
    if t != [] && IsDigit(t[0]) {
      DigitsPlain(t[1..]);
    }
  }

  lemma ExponentPlain(t: Text)
    requires SkipExponent(t).Some?
    ensures PlainTo(t, SkipExponent(t).value)
  {
    if StartsWith(t, LOWER_E) || StartsWith(t, UPPER_E) {
      var u := t[1..];
      var w := if StartsWith(u, PLUS) || StartsWith(u, MINUS) then u[1..] else u;
      DigitsPlain(w);
      assert PlainTo(u, SkipDigits(w));
    }
  }

  lemma FractionPlain(t: Text)
    requires SkipFraction(t).Some?
    ensures PlainTo(t, SkipFraction(t).value)
  {
    if StartsWith(t, DOT) {
      DigitsPlain(t[1..]);
    }
  }

  lemma IntPlain(t: Text)
    requires SkipInt(t).Some?
    ensures PlainTo(t, SkipInt(t).value)
  {
    if StartsWith(t, ZERO) {
      assert PlainTo(t[1..], t[1..]);
    } else {
      DigitsPlain(t);
    }
  }

  lemma NumberPlain(t: Text)
    requires SkipNumber(t).Some?
    ensures PlainTo(t, SkipNumber(t).value)
  {
    var a := if StartsWith(t, MINUS) then t[1..] else t;
    var b := SkipInt(a).value;
    var c := SkipFraction(b).value;
    IntPlain(a);
    FractionPlain(b);
    ExponentPlain(c);
    assert PlainTo(t, b);
    PlainChain(t, b, c);
    PlainChain(t, c, SkipExponent(c).value);
  }

  lemma {:induction false} LiteralPlain(t: Text, literal: Text)
    requires literal <= t && forall i :: 0 <= i < |literal| ==> IsPlain(literal[i])
    ensures PlainTo(t, t[|literal|..])
  {
    if literal == [] {
      assert t[0..] == t;
    } else {
      assert t[0] == literal[0];
      assert t[1..][|literal| - 1..] == t[|literal|..];
      LiteralPlain(t[1..], literal[1..]);
    }
  }

  /** A valid scalar reaches exactly to its delimiter. */
  lemma ScalarFollowed(u: Text)
    requires ReadScalar(u).Some? && Delimited(ReadScalar(u).value.rest)
    ensures SkipScalar(u) == ReadScalar(u).value.rest
  {
    if StartsWith(u, LOWER_T) {
      LiteralPlain(u, TRUE_TEXT);
    } else if StartsWith(u, LOWER_F) {
      LiteralPlain(u, FALSE_TEXT);
    } else if StartsWith(u, LOWER_N) {
      LiteralPlain(u, NULL_TEXT);
    } else {
      NumberPlain(u);
    }
    PlainScalar(u, ReadScalar(u).value.rest);
  }

  /**
   On a valid value the scanner ends where the grammar does, or fails with the first violation of the
   value in document order.
   */
  lemma {:induction false} ValueFollowed(t: Text, frames: seq<Frame>, bound: Option<nat>)
    requires ReadValue(t).Some? && Delimited(ReadValue(t).value.rest)
    ensures var r := ReadValue(t).value;
            ScanFrom(OpenValue(t, frames, bound), bound) ==
            match Verdict(r.value, |frames|, bound)
            case None => Scan(r.rest, frames, bound)
            case Some(kind) => Failed(kind)
    decreases |t|, 3
  {
    var u := SkipSpace(t);
    if StartsWith(u, OPEN_BRACKET) {
      if !Exceeds(|frames|, bound) {
        ArrayFollowed(u[1..], frames, bound);
      }
    } else if StartsWith(u, OPEN_BRACE) {
      if !Exceeds(|frames|, bound) {
        ObjectFollowed(u[1..], frames, bound);
      }
    } else if StartsWith(u, QUOTE) {
      StringFollowed(u);
    } else {
      ScalarFollowed(u);
    }
  }

  /** One turn of the loop is one step of the run. */
  lemma TurnScans(t: Text, below: seq<Frame>, frame: Frame, bound: Option<nat>)
    ensures Scan(t, below + [frame], bound) == ScanFrom(Turn(t, below, frame, bound), bound)
  {
    var frames := below + [frame];
    assert frames[..|frames| - 1] == below && frames[|frames| - 1] == frame;
  }

  /** After an element, the closing mark leaves the container. */
  lemma Closes(t: Text, below: seq<Frame>, frame: Frame, bound: Option<nat>)
    requires frame.stage == After && StartsWith(SkipSpace(t), EndOf(frame))
    ensures Scan(t, below + [frame], bound) == Scan(SkipSpace(t)[1..], below, bound)
  {
    TurnScans(t, below, frame, bound);
  }

  /** After an element, a comma asks for another one. */
  lemma Continues(t: Text, below: seq<Frame>, frame: Frame, bound: Option<nat>)
    requires frame.stage == After && StartsWith(SkipSpace(t), COMMA)
    requires !StartsWith(SkipSpace(SkipSpace(t)[1..]), EndOf(frame))
    ensures Scan(t, below + [frame], bound) ==
            Scan(SkipSpace(SkipSpace(t)[1..]), below + [frame.(stage := Next)], bound)
  {
    TurnScans(t, below, frame, bound);
  }

  lemma EmptyContainer(t: Text, below: seq<Frame>, frame: Frame, bound: Option<nat>)
    requires frame.stage == First && StartsWith(SkipSpace(t), EndOf(frame))
    ensures Scan(t, below + [frame], bound) == Scan(SkipSpace(t)[1..], below, bound)
  {
    TurnScans(t, below, frame, bound);
  }

  lemma ElementOpens(t: Text, below: seq<Frame>, stage: Stage, bound: Option<nat>)
    requires stage != After && ReadValue(t).Some?
    ensures Scan(t, below + [ArrayFrame(stage)], bound) ==
            ScanFrom(OpenValue(t, below + [ArrayFrame(After)], bound), bound)
  {
    var u := SkipSpace(t);
    SpaceBeforeValue(t);
    ValueStarts(u);
    TurnScans(t, below, ArrayFrame(stage), bound);
  }

  /** No value starts with a closing mark. */
  lemma ValueStarts(u: Text)
    requires ReadBare(u).Some?
    ensures u != [] && u[0] != CLOSE_BRACKET && u[0] != CLOSE_BRACE && u[0] != COMMA
  {
  }

  lemma ArrayFollowed(t: Text, below: seq<Frame>, bound: Option<nat>)
    requires ReadArray(t).Some?
    ensures var r := ReadArray(t).value;
            Scan(t, below + [ArrayFrame(First)], bound) ==
            match ItemsVerdict(r.value, |below| + 1, bound)
            case None => Scan(r.rest, below, bound)
            case Some(kind) => Failed(kind)
    decreases |t|, 5
  {
    if StartsWith(SkipSpace(t), CLOSE_BRACKET) {
      EmptyContainer(t, below, ArrayFrame(First), bound);
    } else {
      ElementsFollowed(t, below, First, bound);
    }
  }

  lemma {:induction false} ElementsFollowed(t: Text, below: seq<Frame>, stage: Stage, bound: Option<nat>)
    requires stage != After && ReadElements(t).Some?
    ensures var r := ReadElements(t).value;
            Scan(t, below + [ArrayFrame(stage)], bound) ==
            match ItemsVerdict(r.value, |below| + 1, bound)
            case None => Scan(r.rest, below, bound)
            case Some(kind) => Failed(kind)
    decreases |t|, 4
  {
    var items := ReadElements(t).value.value;
    var v := ReadValue(t).value;
    var w := SkipSpace(v.rest);
    var inner := below + [ArrayFrame(After)];
    ElementOpens(t, below, stage, bound);
    ValueFollowed(t, inner, bound);
    if StartsWith(w, CLOSE_BRACKET) {
      Closes(v.rest, below, ArrayFrame(After), bound);
      assert items[1..] == [];
    } else {
      var x := SkipSpace(w[1..]);
      SpaceBeforeElements(w[1..]);
      ValueStarts(x);
      Continues(v.rest, below, ArrayFrame(After), bound);
      ElementsFollowed(x, below, Next, bound);
      assert items[1..] == ReadElements(w[1..]).value.value;
    }
  }

  lemma ObjectFollowed(t: Text, below: seq<Frame>, bound: Option<nat>)
    requires ReadObject(t).Some?
    ensures var r := ReadObject(t).value;
            Scan(t, below + [ObjectFrame({}, First)], bound) ==
            match MembersVerdict(r.value, {}, |below| + 1, bound)
            case None => Scan(r.rest, below, bound)
            case Some(kind) => Failed(kind)
    decreases |t|, 5
  {
    if StartsWith(SkipSpace(t), CLOSE_BRACE) {
      EmptyContainer(t, below, ObjectFrame({}, First), bound);
    } else {
      MembersFollowed(t, below, {}, First, bound);
    }
  }

  lemma MemberOpens(t: Text, below: seq<Frame>, keys: set<Text>, stage: Stage, bound: Option<nat>)
    requires stage != After && ReadKey(t).Some?
    ensures var k := ReadKey(t).value;
            Scan(t, below + [ObjectFrame(keys, stage)], bound) ==
            if k.value in keys then Failed(DuplicateKey)
            else ScanFrom(OpenValue(k.rest, below + [ObjectFrame(keys + {k.value}, After)], bound), bound)
  {
    StringFollowed(SkipSpace(t));
    TurnScans(t, below, ObjectFrame(keys, stage), bound);
  }

  lemma {:induction false} MembersFollowed(t: Text, below: seq<Frame>, keys: set<Text>, stage: Stage,
                                           bound: Option<nat>)
    requires stage != After && ReadMembers(t).Some?
    ensures var r := ReadMembers(t).value;
            Scan(t, below + [ObjectFrame(keys, stage)], bound) ==
            match MembersVerdict(r.value, keys, |below| + 1, bound)
            case None => Scan(r.rest, below, bound)
            case Some(kind) => Failed(kind)
    decreases |t|, 4
  {
    var members := ReadMembers(t).value.value;
    var k := ReadKey(t).value;
    var v := ReadValue(k.rest).value;
    var w := SkipSpace(v.rest);
    var frame := ObjectFrame(keys + {k.value}, After);
    MemberOpens(t, below, keys, stage, bound);
    ValueFollowed(k.rest, below + [frame], bound);
    if StartsWith(w, CLOSE_BRACE) {
      Closes(v.rest, below, frame, bound);
      assert members[1..] == [];
    } else {
      var x := SkipSpace(w[1..]);
      SpaceBeforeMembers(w[1..]);
      assert StartsWith(x, QUOTE);
      Continues(v.rest, below, frame, bound);
      MembersFollowed(x, below, keys + {k.value}, Next, bound);
      assert members[1..] == ReadMembers(w[1..]).value.value;
    }
  }

  // ----- the meaning of acceptance

  /** How deep containers nest; a scalar nests none. */
  function Depth(v: Json): nat
    decreases v, 1
  {
    match v
    case Arr(items) => 1 + ItemsDepth(items)
    case Obj(members) => 1 + MembersDepth(members)
    case _ => 0
  }

  function ItemsDepth(items: seq<Json>): nat
    decreases items, 0
  {
    if items == [] then 0 else
    var a, b := Depth(items[0]), ItemsDepth(items[1..]);
    if a < b then b else a
  }

  function MembersDepth(members: seq<Member>): nat
    decreases members, 0
  {
    if members == [] then 0 else
    var a, b := Depth(members[0].value), MembersDepth(members[1..]);
    if a < b then b else a
  }

  ghost predicate DistinctKeys(members: seq<Member>) {
    forall i, j :: 0 <= i < j < |members| ==> members[i].key != members[j].key
  }

  /** No object anywhere in the value repeats a key. */
  ghost predicate Unrepeated(v: Json) {
    match v
    case Arr(items) => forall i :: 0 <= i < |items| ==> Unrepeated(items[i])
    case Obj(members) => DistinctKeys(members) && forall i :: 0 <= i < |members| ==> Unrepeated(members[i].value)
    case _ => true
  }

  ghost predicate Within(nested: nat, depth: nat, bound: Option<nat>) {
    bound.None? || nested == 0 || depth + nested <= bound.value
  }

  /** A value has no violation exactly when it nests within the bound and repeats no key. */
  lemma {:induction false} VerdictMeans(v: Json, depth: nat, bound: Option<nat>)
    ensures Verdict(v, depth, bound).None? <==> Within(Depth(v), depth, bound) && Unrepeated(v)
    decreases v, 1
  {
    match v
    case Arr(items) => ItemsVerdictMeans(items, depth + 1, bound);
    case Obj(members) =>
      MembersVerdictMeans(members, {}, depth + 1, bound);
    case _ =>
  }

  lemma {:induction false} ItemsVerdictMeans(items: seq<Json>, depth: nat, bound: Option<nat>)
    ensures ItemsVerdict(items, depth, bound).None? <==>
            Within(ItemsDepth(items), depth, bound) && forall i :: 0 <= i < |items| ==> Unrepeated(items[i])
    decreases items, 0
  {
    if items != [] {
      var rest := items[1..];
      VerdictMeans(items[0], depth, bound);
      ItemsVerdictMeans(rest, depth, bound);
      assert (forall i :: 0 <= i < |items| ==> Unrepeated(items[i])) <==>
             Unrepeated(items[0]) && forall i :: 0 <= i < |rest| ==> Unrepeated(rest[i]) by {
        assert forall i :: 0 <= i < |rest| ==> rest[i] == items[i + 1];
        assert forall i :: 1 <= i < |items| ==> items[i] == rest[i - 1];
      }
    }
  }

  ghost predicate FreshKeys(members: seq<Member>, seen: set<Text>) {
    DistinctKeys(members) && forall i :: 0 <= i < |members| ==> members[i].key !in seen
  }

  lemma FreshKeysTail(members: seq<Member>, seen: set<Text>)
    requires members != []
    ensures FreshKeys(members, seen) <==>
            members[0].key !in seen && FreshKeys(members[1..], seen + {members[0].key})
  {
    var rest := members[1..];
    assert forall i :: 0 <= i < |rest| ==> rest[i] == members[i + 1];
    assert forall i :: 1 <= i < |members| ==> members[i] == rest[i - 1];
  }

  ghost predicate MembersUnrepeated(members: seq<Member>) {
    forall i :: 0 <= i < |members| ==> Unrepeated(members[i].value)
  }

  lemma {:induction false} MembersVerdictMeans(members: seq<Member>, seen: set<Text>, depth: nat, bound: Option<nat>)
    ensures MembersVerdict(members, seen, depth, bound).None? <==>
            Within(MembersDepth(members), depth, bound) && FreshKeys(members, seen) && MembersUnrepeated(members)
    decreases members, 0
  {
    if members != [] {
      var rest := members[1..];
      VerdictMeans(members[0].value, depth, bound);
      MembersVerdictMeans(rest, seen + {members[0].key}, depth, bound);
      FreshKeysTail(members, seen);
      assert MembersUnrepeated(members) <==> Unrepeated(members[0].value) && MembersUnrepeated(rest) by {
        assert forall i :: 0 <= i < |rest| ==> rest[i] == members[i + 1];
        assert forall i :: 1 <= i < |members| ==> members[i] == rest[i - 1];
      }
    }
  }

  datatype Parse = Parsed(value: Json) | Rejected(kind: Failure)

  /** The scan, the trailing-data check and the native reader, in that order. */
  function ParseText(source: Text, bound: Option<nat>): Parse {
    match ScanFrom(OpenValue(source, [], bound), bound)
    case Failed(kind) => Rejected(kind)
    case Finished(rest) =>
      if SkipSpace(rest) != [] then Rejected(InvalidJson) else
      match ReadDocument(source)
      case None => Rejected(InvalidJson)
      case Some(v) => Parsed(v)
  }

  /**
   The parser accepts exactly the texts of the grammar that nest within the bound and repeat no key,
   yields the value of the grammar, and on any other valid text names its first violation.
   */
  lemma ParseTextMeans(source: Text, bound: Option<nat>)
    ensures forall v :: ParseText(source, bound) == Parsed(v) <==>
              ReadDocument(source) == Some(v) && Within(Depth(v), 0, bound) && Unrepeated(v)
    ensures ReadDocument(source).Some? ==>
              match Verdict(ReadDocument(source).value, 0, bound)
              case None => ParseText(source, bound).Parsed?
              case Some(kind) => ParseText(source, bound) == Rejected(kind)
  {
    if ReadDocument(source).Some? {
      var r := ReadValue(source).value;
      SpaceThenEnd(r.rest);
      ValueFollowed(source, [], bound);
      VerdictMeans(r.value, 0, bound);
    }
  }

  lemma SpaceThenEnd(t: Text)
    requires SkipSpace(t) == []
    ensures Delimited(t)
  {
  }

  // ----- the scanner as it runs

  lemma Suffix(source: Text, i: nat, j: nat)
    requires i + j <= |source|
    ensures source[i..][j..] == source[i + j..]
  {
  }

  method SkipWhitespace(source: Text, start: nat) returns (offset: nat)
    requires start <= |source|
    ensures start <= offset <= |source| && source[offset..] == SkipSpace(source[start..])
  {
    offset := start;
    while offset < |source| && IsSpace(source[offset])
      invariant start <= offset <= |source|
      invariant SkipSpace(source[offset..]) == SkipSpace(source[start..])
    {
      Suffix(source, offset, 1);
      offset := offset + 1;
    }
  }

  /** The end of the string token at `start`, if it has one. */
  method ReadStringToken(source: Text, start: nat) returns (end: Option<nat>)
    requires start <= |source|
    ensures match end
            case None => SkipString(source[start..]).None?
            case Some(e) => start + 2 <= e <= |source| && SkipString(source[start..]) == Some(source[e..])
  {
    if start == |source| || source[start] != QUOTE {
      return None;
    }
    var offset := start + 1;
    Suffix(source, start, 1);
    ghost var body := source[start + 1..];
    while offset < |source|
      invariant start + 1 <= offset
      invariant offset <= |source| ==> SkipBody(source[offset..]) == SkipBody(body)
      invariant offset > |source| ==> SkipBody(body).None?
    {
      var character := source[offset];
      ghost var here := source[offset..];
      Suffix(source, offset, 1);
      offset := offset + 1;
      if character == QUOTE {
        return Some(offset);
      }
      if character == BACKSLASH {
        if offset >= |source| {
          return None;
        }
        var width := if source[offset] == LOWER_U then 5 else 1;
        if |here| >= width + 1 {
          Suffix(source, offset - 1, width + 1);
        }
        offset := offset + width;
      } else if character < 0x20 {
        return None;
      }
    }
    return None;
  }

  method ScalarEnd(source: Text, start: nat) returns (offset: nat)
    requires start <= |source|
    ensures start <= offset <= |source| && source[offset..] == SkipScalar(source[start..])
  {
    offset := start;
    while offset < |source| && !IsDelimiter(source[offset])
      invariant start <= offset <= |source|
      invariant SkipScalar(source[offset..]) == SkipScalar(source[start..])
    {
      Suffix(source, offset, 1);
      offset := offset + 1;
    }
  }

  datatype Progress = Moved(offset: nat, frames: seq<Frame>) | Halted(kind: Failure)

  /** The running scanner is where the specification says. */
  ghost predicate Tracks(source: Text, now: Progress, p: Position) {
    match now
    case Halted(kind) => p == Stuck(kind)
    case Moved(offset, frames) => offset <= |source| && p == At(source[offset..], frames)
  }

  method AdmitValue(source: Text, start: nat, frames: seq<Frame>, bound: Option<nat>) returns (now: Progress)
    requires start <= |source|
    ensures Tracks(source, now, OpenValue(source[start..], frames, bound))
    ensures now.Moved? ==> now.offset > start
  {
    var offset := SkipWhitespace(source, start);
    if offset == |source| {
      return Halted(InvalidJson);
    }
    var character := source[offset];
    Suffix(source, offset, 1);
    if character == OPEN_BRACE || character == OPEN_BRACKET {
      if bound.Some? && |frames| >= bound.value {
        return Halted(DepthLimit);
      }
      var frame := if character == OPEN_BRACE then ObjectFrame({}, First) else ArrayFrame(First);
      return Moved(offset + 1, frames + [frame]);
    }
    if character == QUOTE {
      var end := ReadStringToken(source, offset);
      match end
      case None => return Halted(InvalidJson);
      case Some(e) => return Moved(e, frames);
    }
    var end := ScalarEnd(source, offset);
    if end == offset {
      return Halted(InvalidJson);
    }
    return Moved(end, frames);
  }

  /** One turn of the loop over the container frames. */
  method ContainerTurn(source: Text, start: nat, frames: seq<Frame>, bound: Option<nat>) returns (now: Progress)
    requires start <= |source| && frames != []
    ensures Tracks(source, now, Turn(source[start..], frames[..|frames| - 1], frames[|frames| - 1], bound))
    ensures now.Moved? ==> now.offset > start
  {
    var below, frame := frames[..|frames| - 1], frames[|frames| - 1];
    var offset := SkipWhitespace(source, start);
    if offset == |source| {
      return Halted(InvalidJson);
    }
    Suffix(source, offset, 1);
    var end := EndOf(frame);
    if frame.stage == After {
      now := AfterElement(source, offset, below, frame);
      return;
    }
    if frame.stage == First && source[offset] == end {
      return Moved(offset + 1, below);
    }
    if frame.ArrayFrame? {
      now := AdmitValue(source, offset, below + [ArrayFrame(After)], bound);
    } else {
      now := MemberTurn(source, offset, below, frame.keys, bound);
    }
  }

  /** Behind an element: the closing mark, or a comma that is not a trailing one. */
  method AfterElement(source: Text, start: nat, below: seq<Frame>, frame: Frame) returns (now: Progress)
    requires start < |source|
    ensures Tracks(source, now, Behind(source[start..], below, frame))
    ensures now.Moved? ==> now.offset > start
  {
    Suffix(source, start, 1);
    if source[start] == EndOf(frame) {
      return Moved(start + 1, below);
    }
    if source[start] != COMMA {
      return Halted(InvalidJson);
    }
    var offset := SkipWhitespace(source, start + 1);
    if offset < |source| && source[offset] == EndOf(frame) {
      return Halted(InvalidJson);
    }
    return Moved(offset, below + [frame.(stage := Next)]);
  }

  /** The key of one member, its separator and the start of its value. */
  method MemberTurn(source: Text, start: nat, below: seq<Frame>, keys: set<Text>, bound: Option<nat>)
    returns (now: Progress)
    requires start < |source|
    ensures Tracks(source, now, OpenMember(source[start..], below, keys, bound))
    ensures now.Moved? ==> now.offset > start
  {
    var token := ReadStringToken(source, start);
    match token
    case None => return Halted(InvalidJson);
    case Some(e) =>
      assert source[start..][..|source[start..]| - |source[e..]|] == source[start..e];
      match DecodeKey(source[start..e])
      case None => return Halted(InvalidJson);
      case Some(key) => now := KeyTurn(source, e, below, keys, key, bound);
  }

  method KeyTurn(source: Text, start: nat, below: seq<Frame>, keys: set<Text>, key: Text, bound: Option<nat>)
    returns (now: Progress)
    requires start <= |source|
    ensures Tracks(source, now, BehindKey(source[start..], below, keys, key, bound))
    ensures now.Moved? ==> now.offset > start
  {
    if key in keys {
      return Halted(DuplicateKey);
    }
    var offset := SkipWhitespace(source, start);
    if offset == |source| || source[offset] != COLON {
      return Halted(InvalidJson);
    }
    Suffix(source, offset, 1);
    now := AdmitValue(source, offset + 1, below + [ObjectFrame(keys + {key}, After)], bound);
  }

  method ScanDocument(source: Text, bound: Option<nat>) returns (now: Progress)
    ensures match ScanFrom(OpenValue(source, [], bound), bound)
            case Failed(kind) => now == Halted(kind)
            case Finished(rest) => now.Moved? && now.offset <= |source| && rest == source[now.offset..]
  {
    assert source[0..] == source;
    now := AdmitValue(source, 0, [], bound);
    while now.Moved? && now.frames != []
      invariant now.Moved? ==> now.offset <= |source|
      invariant match now
                case Halted(kind) => ScanFrom(OpenValue(source, [], bound), bound) == Failed(kind)
                case Moved(offset, frames) =>
                  ScanFrom(OpenValue(source, [], bound), bound) == Scan(source[offset..], frames, bound)
      decreases if now.Moved? then |source| - now.offset + 1 else 0
    {
      now := ContainerTurn(source, now.offset, now.frames, bound);
    }
  }

  // ----- the entry point

  const MAX_SAFE_INTEGER: int := 0x1F_FFFF_FFFF_FFFF

  datatype Exact = Accepted(value: Json) | Refused(kind: Failure) | InvalidBound | InvalidContract

  predicate ValidBound(maximumDepth: Option<int>) {
    maximumDepth.Some? ==> 0 < maximumDepth.value <= MAX_SAFE_INTEGER
  }

  function Bound(maximumDepth: Option<int>): Option<nat>
    requires ValidBound(maximumDepth)
  {
    if maximumDepth.None? then None else Some(maximumDepth.value)
  }

  predicate ValidContract(keys: seq<Text>) {
    [] !in keys && forall i, j :: 0 <= i < j < |keys| ==> keys[i] != keys[j]
  }

  /** The root is an object whose keys are exactly the declared ones. */
  predicate MeetsContract(v: Json, keys: seq<Text>) {
    v.Obj? && (set i | 0 <= i < |v.members| :: v.members[i].key) == set k | k in keys
  }

  method CheckRootKeys(v: Json, keys: seq<Text>) returns (ok: bool)
    ensures ok <==> MeetsContract(v, keys)
  {
    if !v.Obj? {
      return false;
    }
    var actual := set i | 0 <= i < |v.members| :: v.members[i].key;
    var expected := set k | k in keys;
    for i := 0 to |v.members|
      invariant forall k :: 0 <= k < i ==> v.members[k].key in expected
    {
      if v.members[i].key !in expected {
        assert v.members[i].key in actual;
        return false;
      }
    }
    for i := 0 to |keys|
      invariant forall k :: 0 <= k < i ==> keys[k] in actual
    {
      if keys[i] !in actual {
        return false;
      }
    }
    assert actual == expected;
    return true;
  }

  /** Parse one exact JSON document, optionally against a depth bound and a root-key contract. */
  method ParseExactJson(source: Text, contract: Option<seq<Text>>, maximumDepth: Option<int>) returns (result: Exact)
    ensures result.InvalidBound? <==> !ValidBound(maximumDepth)
    ensures ValidBound(maximumDepth) && contract.None? ==>
              forall v :: result == Accepted(v) <==>
                ReadDocument(source) == Some(v) && Within(Depth(v), 0, Bound(maximumDepth)) && Unrepeated(v)
    ensures ValidBound(maximumDepth) && contract.Some? ==>
              forall v :: result == Accepted(v) <==>
                ReadDocument(source) == Some(v) && Within(Depth(v), 0, Bound(maximumDepth)) && Unrepeated(v) &&
                ValidContract(contract.value) && MeetsContract(v, contract.value)
    ensures ValidBound(maximumDepth) && ReadDocument(source).Some? &&
            Verdict(ReadDocument(source).value, 0, Bound(maximumDepth)).Some? ==>
              result == Refused(Verdict(ReadDocument(source).value, 0, Bound(maximumDepth)).value)
  {
    if maximumDepth.Some? && !(0 < maximumDepth.value <= MAX_SAFE_INTEGER) {
      return InvalidBound;
    }
    var bound := Bound(maximumDepth);
    ParseTextMeans(source, bound);
    var now := ScanDocument(source, bound);
    if now.Halted? {
      return Refused(now.kind);
    }
    var offset := SkipWhitespace(source, now.offset);
    if offset != |source| {
      return Refused(InvalidJson);
    }
    match ReadDocument(source)
    case None => return Refused(InvalidJson);
    case Some(value) =>
      assert ParseText(source, bound) == Parsed(value);
      if contract.Some? {
        if !ValidContract(contract.value) {
          return InvalidContract;
        }
        var ok := CheckRootKeys(value, contract.value);
        if !ok {
          return Refused(InvalidJson);
        }
      }
      return Accepted(value);
  }
}
