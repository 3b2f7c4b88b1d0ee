/**
 JSON values and the text grammar of sections 2 to 7 of RFC 8259, as one recursive-descent reader.
 It stands for the native `JSON.parse` and is the reference for the exact scanner and for the
 canonical printer.

 A number is identified with its printed token: printing finite numbers is injective, and a token
 never contains a delimiter.
 */
module JsonGrammar {
  import opened Options
  import opened CodeUnits

  datatype Json =
    | Null
    | Bool(b: bool)
    | Num(token: Text)
    | Str(s: Text)
    | Arr(items: seq<Json>)
    | Obj(members: seq<Member>)

  datatype Member = Member(key: Text, value: Json)

  /** A reader's success: what was read and the text after it. */
  datatype Read<+T> = Read(value: T, rest: Text)

  const TAB: CodeUnit := 0x09
  const LINE_FEED: CodeUnit := 0x0A
  const RETURN: CodeUnit := 0x0D
  const SPACE: CodeUnit := 0x20
  const QUOTE: CodeUnit := 0x22
  const PLUS: CodeUnit := 0x2B
  const COMMA: CodeUnit := 0x2C
  const MINUS: CodeUnit := 0x2D
  const DOT: CodeUnit := 0x2E
  const SLASH: CodeUnit := 0x2F
  const ZERO: CodeUnit := 0x30
  const NINE: CodeUnit := 0x39
  const COLON: CodeUnit := 0x3A
  const UPPER_E: CodeUnit := 0x45
  const OPEN_BRACKET: CodeUnit := 0x5B
  const BACKSLASH: CodeUnit := 0x5C
  const CLOSE_BRACKET: CodeUnit := 0x5D
  const LOWER_B: CodeUnit := 0x62
  const LOWER_E: CodeUnit := 0x65
  const LOWER_F: CodeUnit := 0x66
  const LOWER_N: CodeUnit := 0x6E
  const LOWER_R: CodeUnit := 0x72
  const LOWER_T: CodeUnit := 0x74
  const LOWER_U: CodeUnit := 0x75
  const OPEN_BRACE: CodeUnit := 0x7B
  const CLOSE_BRACE: CodeUnit := 0x7D

  const TRUE_TEXT: Text := [0x74, 0x72, 0x75, 0x65]
  const FALSE_TEXT: Text := [0x66, 0x61, 0x6C, 0x73, 0x65]
  const NULL_TEXT: Text := [0x6E, 0x75, 0x6C, 0x6C]

  // ----- whitespace and delimiters

  predicate IsSpace(c: CodeUnit) {
    c == TAB || c == LINE_FEED || c == RETURN || c == SPACE
  }

  function SkipSpace(t: Text): (r: Text)
    ensures |r| <= |t|
    ensures r == [] || !IsSpace(r[0])
  {
    if t != [] && IsSpace(t[0]) then SkipSpace(t[1..]) else t
  }

  predicate StartsWith(t: Text, c: CodeUnit) {
    t != [] && t[0] == c
  }

  /** A scalar token ends here. */
  predicate IsDelimiter(c: CodeUnit) {
    IsSpace(c) || c == COMMA || c == CLOSE_BRACKET || c == CLOSE_BRACE
  }

  predicate Delimited(t: Text) {
    t == [] || IsDelimiter(t[0])
  }

  // ----- strings

  function HexValue(c: CodeUnit): (v: int)
    ensures -1 <= v < 16
  {
    if 0x30 <= c <= 0x39 then c - 0x30
    else if 0x41 <= c <= 0x46 then c - 0x41 + 10
    else if 0x61 <= c <= 0x66 then c - 0x61 + 10
    else -1
  }

  /** Four hexadecimal digits, most significant first. */
  function HexUnit(t: Text): Option<CodeUnit>
    requires |t| == 4
  {
    var a, b, c, d := HexValue(t[0]), HexValue(t[1]), HexValue(t[2]), HexValue(t[3]);
    if a < 0 || b < 0 || c < 0 || d < 0 then None
    else Some(((a * 16 + b) * 16 + c) * 16 + d)
  }

  /** The unit a two-character escape stands for, by its second character. */
  function SimpleEscape(c: CodeUnit): Option<CodeUnit> {
    if c == QUOTE || c == BACKSLASH || c == SLASH then Some(c)
    else if c == LOWER_B then Some(0x08)
    else if c == LOWER_F then Some(0x0C)
    else if c == LOWER_N then Some(LINE_FEED)
    else if c == LOWER_R then Some(RETURN)
    else if c == LOWER_T then Some(TAB)
    else None
  }

  /** One character of a string body: the unit it stands for and the text after it. */
  function ReadChar(t: Text): (r: Option<Read<CodeUnit>>)
    ensures r.Some? ==> |r.value.rest| < |t|
  {
    if t == [] || t[0] == QUOTE || t[0] < 0x20 then None
    else if t[0] != BACKSLASH then Some(Read(t[0], t[1..]))
    else if |t| < 2 then None
    else if t[1] == LOWER_U then
      if |t| < 6 then None else
      match HexUnit(t[2..6])
      case None => None
      case Some(u) => Some(Read(u, t[6..]))
    else
      match SimpleEscape(t[1])
      case None => None
      case Some(u) => Some(Read(u, t[2..]))
  }

  /** A string body up to and including its closing quotation mark. */
  function ReadChars(t: Text): (r: Option<Read<Text>>)
    ensures r.Some? ==> |r.value.rest| < |t|
  {
    if StartsWith(t, QUOTE) then Some(Read([], t[1..]))
    else
      match ReadChar(t)
      case None => None
      case Some(first) =>
        match ReadChars(first.rest)
        case None => None
        case Some(more) => Some(Read([first.value] + more.value, more.rest))
  }

  function ReadString(t: Text): (r: Option<Read<Text>>)
    ensures r.Some? ==> |r.value.rest| < |t|
  {
    if StartsWith(t, QUOTE) then ReadChars(t[1..]) else None
  }

  // ----- numbers

  predicate IsDigit(c: CodeUnit) {
    ZERO <= c <= NINE
  }

  function SkipDigits(t: Text): (r: Text)
    ensures |r| <= |t|
    ensures r == [] || !IsDigit(r[0])
  {
    if t != [] && IsDigit(t[0]) then SkipDigits(t[1..]) else t
  }

  function SkipDigits1(t: Text): (r: Option<Text>)
    ensures r.Some? ==> |r.value| < |t|
  {
    if t != [] && IsDigit(t[0]) then Some(SkipDigits(t)) else None
  }

  /** int = zero / ( digit1-9 *DIGIT ) */
  function SkipInt(t: Text): (r: Option<Text>)
    ensures r.Some? ==> |r.value| < |t|
  {
    if StartsWith(t, ZERO) then Some(t[1..]) else SkipDigits1(t)
  }

  /** [ frac ] */
  function SkipFraction(t: Text): (r: Option<Text>)
    ensures r.Some? ==> |r.value| <= |t|
  {
    if StartsWith(t, DOT) then SkipDigits1(t[1..]) else Some(t)
  }

  /** [ exp ] */
  function SkipExponent(t: Text): (r: Option<Text>)
    ensures r.Some? ==> |r.value| <= |t|
  {
    if StartsWith(t, LOWER_E) || StartsWith(t, UPPER_E) then
      var u := t[1..];
      SkipDigits1(if StartsWith(u, PLUS) || StartsWith(u, MINUS) then u[1..] else u)
    else Some(t)
  }

  /** number = [ minus ] int [ frac ] [ exp ]; the text after it. */
  function SkipNumber(t: Text): (r: Option<Text>)
    ensures r.Some? ==> |r.value| < |t|
  {
    match SkipInt(if StartsWith(t, MINUS) then t[1..] else t)
    case None => None
    case Some(u) =>
      match SkipFraction(u)
      case None => None
      case Some(w) => SkipExponent(w)
  }

  predicate IsNumberToken(token: Text) {
    SkipNumber(token) == Some([])
  }

  // ----- values

  function ReadLiteral(t: Text, literal: Text, value: Json): (r: Option<Read<Json>>)
    requires literal != []
    ensures r.Some? ==> |r.value.rest| < |t|
  {
    if literal <= t then Some(Read(value, t[|literal|..])) else None
  }

  function ReadScalar(t: Text): (r: Option<Read<Json>>)
    ensures r.Some? ==> |r.value.rest| < |t|
  {
    if StartsWith(t, LOWER_T) then ReadLiteral(t, TRUE_TEXT, Bool(true))
    else if StartsWith(t, LOWER_F) then ReadLiteral(t, FALSE_TEXT, Bool(false))
    else if StartsWith(t, LOWER_N) then ReadLiteral(t, NULL_TEXT, Null)
    else
      match SkipNumber(t)
      case None => None
      case Some(rest) => Some(Read(Num(t[..|t| - |rest|]), rest))
  }

  /** value, with the whitespace before it. */
  function ReadValue(t: Text): (r: Option<Read<Json>>)
    ensures r.Some? ==> |r.value.rest| < |t|
    decreases |t|, 3
  {
    ReadBare(SkipSpace(t))
  }

  function ReadBare(u: Text): (r: Option<Read<Json>>)
    ensures r.Some? ==> |r.value.rest| < |u|
    decreases |u|, 2
  {
    if StartsWith(u, OPEN_BRACKET) then
      match ReadArray(u[1..])
      case None => None
      case Some(a) => Some(Read(Arr(a.value), a.rest))
    else if StartsWith(u, OPEN_BRACE) then
      match ReadObject(u[1..])
      case None => None
      case Some(o) => Some(Read(Obj(o.value), o.rest))
    else if StartsWith(u, QUOTE) then
      match ReadString(u)
      case None => None
      case Some(s) => Some(Read(Str(s.value), s.rest))
    else ReadScalar(u)
  }

  /** An array after its opening bracket. */
  function ReadArray(t: Text): (r: Option<Read<seq<Json>>>)
    ensures r.Some? ==> |r.value.rest| < |t|
    decreases |t|, 5
  {
    var u := SkipSpace(t);
    if StartsWith(u, CLOSE_BRACKET) then Some(Read([], u[1..])) else ReadElements(t)
  }

  /** value *( value-separator value ) end-array */
  function ReadElements(t: Text): (r: Option<Read<seq<Json>>>)
    ensures r.Some? ==> |r.value.rest| < |t|
    decreases |t|, 4
  {
    match ReadValue(t)
    case None => None
    case Some(v) =>
      var u := SkipSpace(v.rest);
      if StartsWith(u, CLOSE_BRACKET) then Some(Read([v.value], u[1..]))
      else if StartsWith(u, COMMA) then
        match ReadElements(u[1..])
        case None => None
        case Some(more) => Some(Read([v.value] + more.value, more.rest))
      else None
  }

  /** An object after its opening brace. */
  function ReadObject(t: Text): (r: Option<Read<seq<Member>>>)
    ensures r.Some? ==> |r.value.rest| < |t|
    decreases |t|, 5
  {
    var u := SkipSpace(t);
    if StartsWith(u, CLOSE_BRACE) then Some(Read([], u[1..])) else ReadMembers(t)
  }

  /** string name-separator; the text after it. */
  function ReadKey(t: Text): (r: Option<Read<Text>>)
    ensures r.Some? ==> |r.value.rest| < |t|
  {
    match ReadString(SkipSpace(t))
    case None => None
    case Some(k) =>
      var u := SkipSpace(k.rest);
      if StartsWith(u, COLON) then Some(Read(k.value, u[1..])) else None
  }

  /** member *( value-separator member ) end-object */
  function ReadMembers(t: Text): (r: Option<Read<seq<Member>>>)
    ensures r.Some? ==> |r.value.rest| < |t|
    decreases |t|, 4
  {
    match ReadKey(t)
    case None => None
    case Some(k) =>
      match ReadValue(k.rest)
      case None => None
      case Some(v) =>
        var u := SkipSpace(v.rest);
        var member := Member(k.value, v.value);
        if StartsWith(u, CLOSE_BRACE) then Some(Read([member], u[1..]))
        else if StartsWith(u, COMMA) then
          match ReadMembers(u[1..])
          case None => None
          case Some(more) => Some(Read([member] + more.value, more.rest))
        else None
  }

  /** JSON-text = ws value ws */
  function ReadDocument(t: Text): Option<Json> {
    match ReadValue(t)
    case None => None
    case Some(v) => if SkipSpace(v.rest) == [] then Some(v.value) else None
  }
}
