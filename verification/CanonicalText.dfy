/**
 The canonical printed form of a normalised value (`canonicalTokens` of `src/contracts/canonical.ts`,
 with the scalar escaping of the native printer), and its unique readability.
 */
module CanonicalText {
  import opened Options
  import opened CodeUnits
  import opened JsonGrammar

  // ----- string escaping

  function HexDigit(n: int): CodeUnit
    requires 0 <= n < 16
  {
    if n < 10 then 0x30 + n else 0x57 + n
  }

  function UnicodeEscape(c: CodeUnit): Text {
    [BACKSLASH, LOWER_U, HexDigit(c / 0x1000), HexDigit(c / 0x100 % 16), HexDigit(c / 16 % 16), HexDigit(c % 16)]
  }

  /** A unit that is not half of a surrogate pair. */
  function EscapeUnit(c: CodeUnit): Text {
    if c == QUOTE || c == BACKSLASH then [BACKSLASH, c]
    else if c == 0x08 then [BACKSLASH, LOWER_B]
    else if c == 0x0C then [BACKSLASH, LOWER_F]
    else if c == LINE_FEED then [BACKSLASH, LOWER_N]
    else if c == RETURN then [BACKSLASH, LOWER_R]
    else if c == TAB then [BACKSLASH, LOWER_T]
    else if c < 0x20 || IsHigh(c) || IsLow(c) then UnicodeEscape(c)
    else [c]
  }

  /** Put one code unit in front. */
  function Cons(c: CodeUnit, r: Text): (t: Text)
    ensures t != [] && t[0] == c && t[1..] == r && |t| == |r| + 1
  {
    [c] + r
  }

  // Printing is written with the text that follows as an argument, so that what is printed and what
  // is read back take the same shape.

  /** Paired surrogates are printed as they are, lone ones are escaped. */
  function EscapeOn(s: Text, r: Text): Text {
    if s == [] then r
    else if StartsPair(s) then Cons(s[0], Cons(s[1], EscapeOn(s[2..], r)))
    else EscapeUnit(s[0]) + EscapeOn(s[1..], r)
  }

  function QuotedOn(s: Text, r: Text): Text {
    Cons(QUOTE, EscapeOn(s, Cons(QUOTE, r)))
  }

  lemma HexDigitsOf(c: CodeUnit)
    ensures ((c / 0x1000 * 16 + c / 0x100 % 16) * 16 + c / 16 % 16) * 16 + c % 16 == c
    ensures c / 0x1000 < 16
  {
  }

  lemma HexDigitReads(n: int)
    requires 0 <= n < 16
    ensures HexValue(HexDigit(n)) == n
  {
  }

  lemma UnicodeEscapeReads(c: CodeUnit)
    ensures HexUnit(UnicodeEscape(c)[2..6]) == Some(c)
  {
    HexDigitsOf(c);
    HexDigitReads(c / 0x1000);
    HexDigitReads(c / 0x100 % 16);
    HexDigitReads(c / 16 % 16);
    HexDigitReads(c % 16);
  }

  lemma EscapeUnitReads(c: CodeUnit, r: Text)
    ensures ReadChar(EscapeUnit(c) + r) == Some(Read(c, r))
    ensures !StartsWith(EscapeUnit(c) + r, QUOTE)
  {
    var t := EscapeUnit(c) + r;
    if |EscapeUnit(c)| == 6 {
      UnicodeEscapeReads(c);
      assert t[2..6] == UnicodeEscape(c)[2..6];
      assert t[6..] == r;
    } else if |EscapeUnit(c)| == 2 {
      assert t[2..] == r;
    } else {
      assert t[1..] == r;
    }
  }

  /** One read character in front of a read body. */
  lemma ReadCharThen(t: Text, c: CodeUnit, u: Text, s: Text, r: Text)
    requires ReadChar(t) == Some(Read(c, u)) && !StartsWith(t, QUOTE) && ReadChars(u) == Some(Read(s, r))
    ensures ReadChars(t) == Some(Read([c] + s, r))
  {
  }

  lemma SurrogateReads(c: CodeUnit, u: Text, s: Text, r: Text)
    requires (IsHigh(c) || IsLow(c)) && ReadChars(u) == Some(Read(s, r))
    ensures ReadChars(Cons(c, u)) == Some(Read([c] + s, r))
  {
    ReadCharThen(Cons(c, u), c, u, s, r);
  }

  lemma {:induction false} EscapeReads(s: Text, r: Text)
    ensures ReadChars(EscapeOn(s, Cons(QUOTE, r))) == Some(Read(s, r))
  {
    var q := Cons(QUOTE, r);
    if StartsPair(s) {
      var u := EscapeOn(s[2..], q);
      EscapeReads(s[2..], r);
      SurrogateReads(s[1], u, s[2..], r);
      SurrogateReads(s[0], Cons(s[1], u), [s[1]] + s[2..], r);
      assert s == [s[0]] + ([s[1]] + s[2..]);
    } else if s != [] {
      var u := EscapeOn(s[1..], q);
      EscapeUnitReads(s[0], u);
      EscapeReads(s[1..], r);
      ReadCharThen(EscapeUnit(s[0]) + u, s[0], u, s[1..], r);
      assert s == [s[0]] + s[1..];
    }
  }

  lemma QuotedReads(s: Text, r: Text)
    ensures ReadString(QuotedOn(s, r)) == Some(Read(s, r))
    ensures StartsWith(QuotedOn(s, r), QUOTE)
  {
    EscapeReads(s, r);
  }

  // ----- numbers

  lemma {:induction false} DigitsThen(t: Text, r: Text)
    requires SkipDigits(t) != [] || r == [] || !IsDigit(r[0])
    ensures SkipDigits(t + r) == SkipDigits(t) + r
  {
    if t != [] && IsDigit(t[0]) {
      assert (t + r)[1..] == t[1..] + r;
      DigitsThen(t[1..], r);
    } else if t == [] {
      assert t + r == r;
    }
  }

  lemma Digits1Then(t: Text, r: Text)
    requires SkipDigits1(t).Some? && Delimited(r)
    ensures SkipDigits1(t + r) == Some(SkipDigits1(t).value + r)
  {
    DigitsThen(t, r);
  }

  lemma IntThen(t: Text, r: Text)
    requires SkipInt(t).Some? && Delimited(r)
    ensures SkipInt(t + r) == Some(SkipInt(t).value + r)
  {
    if StartsWith(t, ZERO) {
      assert (t + r)[1..] == t[1..] + r;
    } else {
      Digits1Then(t, r);
    }
  }

  lemma FractionThen(t: Text, r: Text)
    requires SkipFraction(t).Some? && Delimited(r)
    ensures SkipFraction(t + r) == Some(SkipFraction(t).value + r)
  {
    if StartsWith(t, DOT) {
      assert (t + r)[1..] == t[1..] + r;
      Digits1Then(t[1..], r);
    } else if t == [] {
      assert t + r == r;
    }
  }

  lemma ExponentThen(t: Text, r: Text)
    requires SkipExponent(t).Some? && Delimited(r)
    ensures SkipExponent(t + r) == Some(SkipExponent(t).value + r)
  {
    if StartsWith(t, LOWER_E) || StartsWith(t, UPPER_E) {
      var u := t[1..];
      assert (t + r)[1..] == u + r;
      if StartsWith(u, PLUS) || StartsWith(u, MINUS) {
        assert (u + r)[1..] == u[1..] + r;
        Digits1Then(u[1..], r);
      } else {
        Digits1Then(u, r);
      }
    } else if t == [] {
      assert t + r == r;
    }
  }

  /** What follows the sign of a number. */
  function Unsigned(token: Text): Text {
    if StartsWith(token, MINUS) then token[1..] else token
  }

  lemma UnsignedThen(token: Text, r: Text)
    requires Unsigned(token) != []
    ensures Unsigned(token + r) == Unsigned(token) + r
  {
    if StartsWith(token, MINUS) {
      assert (token + r)[1..] == token[1..] + r;
    }
  }

  lemma NumberThen(token: Text, r: Text)
    requires IsNumberToken(token) && Delimited(r)
    ensures SkipNumber(token + r) == Some(r)
  {
    var a := Unsigned(token);
    var b := SkipInt(a).value;
    var c := SkipFraction(b).value;
    UnsignedThen(token, r);
    IntThen(a, r);
    FractionThen(b, r);
    ExponentThen(c, r);
    assert [] + r == r;
  }

  // ----- values

  /** Every number in the value is a printed number. */
  ghost predicate Printable(v: Json) {
    match v
    case Num(token) => IsNumberToken(token)
    case Arr(items) => forall i :: 0 <= i < |items| ==> Printable(items[i])
    case Obj(members) => forall i :: 0 <= i < |members| ==> Printable(members[i].value)
    case _ => true
  }

  function PrintOn(v: Json, r: Text): Text
    decreases v, 1
  {
    match v
    case Null => NULL_TEXT + r
    case Bool(b) => (if b then TRUE_TEXT else FALSE_TEXT) + r
    case Num(token) => token + r
    case Str(s) => QuotedOn(s, r)
    case Arr(items) => Cons(OPEN_BRACKET, ItemsOn(items, r))
    case Obj(members) => Cons(OPEN_BRACE, MembersOn(members, r))
  }

  /** An array after its opening bracket. */
  function ItemsOn(items: seq<Json>, r: Text): Text
    decreases items, 3
  {
    if items == [] then Cons(CLOSE_BRACKET, r) else ElementsOn(items, r)
  }

  function ElementsOn(items: seq<Json>, r: Text): Text
    requires items != []
    decreases items, 2
  {
    PrintOn(items[0], if |items| == 1 then Cons(CLOSE_BRACKET, r) else Cons(COMMA, ElementsOn(items[1..], r)))
  }

  /** An object after its opening brace. */
  function MembersOn(members: seq<Member>, r: Text): Text
    decreases members, 3
  {
    if members == [] then Cons(CLOSE_BRACE, r) else PairsOn(members, r)
  }

  function PairsOn(members: seq<Member>, r: Text): Text
    requires members != []
    decreases members, 2
  {
    QuotedOn(members[0].key,
      Cons(COLON,
        PrintOn(members[0].value,
                if |members| == 1 then Cons(CLOSE_BRACE, r) else Cons(COMMA, PairsOn(members[1..], r)))))
  }

  function Print(v: Json): Text {
    PrintOn(v, [])
  }

  // ----- unique readability

  /** Nothing printed starts with whitespace or a closing mark. */
  lemma PrintStarts(v: Json, r: Text)
    requires Printable(v)
    ensures var t := PrintOn(v, r);
            t != [] && !IsSpace(t[0]) && t[0] != CLOSE_BRACKET &&
            (v.Num? ==> IsDigit(t[0]) || t[0] == MINUS)
  {
    if v.Num? {
      NumberStarts(v.token);
    }
  }

  lemma NumberStarts(token: Text)
    requires IsNumberToken(token)
    ensures token != [] && (IsDigit(token[0]) || token[0] == MINUS)
  {
  }

  /** Reading the printed form in front of any delimiter gives back the value and leaves the rest. */
  lemma {:induction false} PrintReads(v: Json, r: Text)
    requires Printable(v) && Delimited(r)
    ensures ReadValue(PrintOn(v, r)) == Some(Read(v, r))
    decreases v, 1
  {
    var t := PrintOn(v, r);
    PrintStarts(v, r);
    assert SkipSpace(t) == t;
    match v
    case Arr(items) => ArrayReads(items, r);
    case Obj(members) => ObjectReads(members, r);
    case Str(s) => QuotedReads(s, r);
    case _ => ScalarReads(v, r);
  }

  lemma ScalarReads(v: Json, r: Text)
    requires Printable(v) && Delimited(r) && (v.Null? || v.Bool? || v.Num?)
    ensures ReadBare(PrintOn(v, r)) == Some(Read(v, r))
  {
    var t := PrintOn(v, r);
    PrintStarts(v, r);
    match v
    case Null => assert t[|NULL_TEXT|..] == r;
    case Bool(b) => assert t[|if b then TRUE_TEXT else FALSE_TEXT|..] == r;
    case Num(token) =>
      NumberThen(token, r);
      assert t[..|t| - |r|] == token;
  }

  lemma {:induction false} ArrayReads(items: seq<Json>, r: Text)
    requires forall i :: 0 <= i < |items| ==> Printable(items[i])
    ensures ReadArray(ItemsOn(items, r)) == Some(Read(items, r))
    decreases items, 3
  {
    if items != [] {
      PrintStarts(items[0], if |items| == 1 then Cons(CLOSE_BRACKET, r) else Cons(COMMA, ElementsOn(items[1..], r)));
      ElementsRead(items, r);
    }
  }

  lemma {:induction false} ElementsRead(items: seq<Json>, r: Text)
    requires items != [] && forall i :: 0 <= i < |items| ==> Printable(items[i])
    ensures ReadElements(ElementsOn(items, r)) == Some(Read(items, r))
    decreases items, 2
  {
    if |items| == 1 {
      PrintReads(items[0], Cons(CLOSE_BRACKET, r));
      assert items == [items[0]];
    } else {
      PrintReads(items[0], Cons(COMMA, ElementsOn(items[1..], r)));
      ElementsRead(items[1..], r);
      assert items == [items[0]] + items[1..];
    }
  }

  lemma {:induction false} ObjectReads(members: seq<Member>, r: Text)
    requires forall i :: 0 <= i < |members| ==> Printable(members[i].value)
    ensures ReadObject(MembersOn(members, r)) == Some(Read(members, r))
    decreases members, 3
  {
    if members != [] {
      MembersRead(members, r);
    }
  }

  lemma KeyReads(key: Text, r: Text)
    ensures ReadKey(QuotedOn(key, Cons(COLON, r))) == Some(Read(key, r))
  {
    QuotedReads(key, Cons(COLON, r));
  }

  lemma LastMember(t: Text, k: Text, u: Text, v: Json, r: Text)
    requires ReadKey(t) == Some(Read(k, u)) && ReadValue(u) == Some(Read(v, Cons(CLOSE_BRACE, r)))
    ensures ReadMembers(t) == Some(Read([Member(k, v)], r))
  {
  }

  lemma OneMoreMember(t: Text, k: Text, u: Text, v: Json, w: Text, more: seq<Member>, r: Text)
    requires ReadKey(t) == Some(Read(k, u)) && ReadValue(u) == Some(Read(v, Cons(COMMA, w)))
    requires ReadMembers(w) == Some(Read(more, r))
    ensures ReadMembers(t) == Some(Read([Member(k, v)] + more, r))
  {
  }

  lemma PairsOfOne(m: Member, r: Text)
    ensures PairsOn([m], r) == QuotedOn(m.key, Cons(COLON, PrintOn(m.value, Cons(CLOSE_BRACE, r))))
  {
  }

  lemma PairsOfMore(members: seq<Member>, r: Text)
    requires |members| > 1
    ensures PairsOn(members, r) ==
            QuotedOn(members[0].key, Cons(COLON, PrintOn(members[0].value, Cons(COMMA, PairsOn(members[1..], r)))))
  {
  }

  lemma {:induction false} MembersRead(members: seq<Member>, r: Text)
    requires members != [] && forall i :: 0 <= i < |members| ==> Printable(members[i].value)
    ensures ReadMembers(PairsOn(members, r)) == Some(Read(members, r))
    decreases members, 2
  {
    var m, rest := members[0], members[1..];
    assert members == [m] + rest;
    if |members| == 1 {
      LastRead(m, r);
      assert members == [m];
    } else {
      MembersRead(rest, r);
      NextRead(m, PairsOn(rest, r), rest, r);
      PairsOfMore(members, r);
    }
  }

  lemma {:induction false} LastRead(m: Member, r: Text)
    requires Printable(m.value)
    ensures ReadMembers(PairsOn([m], r)) == Some(Read([m], r))
    decreases m, 2
  {
    PrintReads(m.value, Cons(CLOSE_BRACE, r));
    LastPairReads(m, r);
    PairsOfOne(m, r);
  }

  lemma {:induction false} NextRead(m: Member, w: Text, more: seq<Member>, r: Text)
    requires Printable(m.value) && ReadMembers(w) == Some(Read(more, r))
    ensures ReadMembers(QuotedOn(m.key, Cons(COLON, PrintOn(m.value, Cons(COMMA, w))))) == Some(Read([m] + more, r))
    decreases m, 2
  {
    PrintReads(m.value, Cons(COMMA, w));
    NextPairReads(m, w, more, r);
  }

  lemma LastPairReads(m: Member, r: Text)
    requires ReadValue(PrintOn(m.value, Cons(CLOSE_BRACE, r))) == Some(Read(m.value, Cons(CLOSE_BRACE, r)))
    ensures ReadMembers(QuotedOn(m.key, Cons(COLON, PrintOn(m.value, Cons(CLOSE_BRACE, r))))) == Some(Read([m], r))
  {
    var u := PrintOn(m.value, Cons(CLOSE_BRACE, r));
    KeyReads(m.key, u);
    LastMember(QuotedOn(m.key, Cons(COLON, u)), m.key, u, m.value, r);
  }

  lemma NextPairReads(m: Member, w: Text, more: seq<Member>, r: Text)
    requires ReadValue(PrintOn(m.value, Cons(COMMA, w))) == Some(Read(m.value, Cons(COMMA, w)))
    requires ReadMembers(w) == Some(Read(more, r))
    ensures ReadMembers(QuotedOn(m.key, Cons(COLON, PrintOn(m.value, Cons(COMMA, w))))) == Some(Read([m] + more, r))
  {
    var u := PrintOn(m.value, Cons(COMMA, w));
    KeyReads(m.key, u);
    OneMoreMember(QuotedOn(m.key, Cons(COLON, u)), m.key, u, m.value, w, more, r);
  }

  /** Round trip: the printed form is a document of the grammar that reads as the value. */
  lemma PrintReadsBack(v: Json)
    requires Printable(v)
    ensures ReadDocument(Print(v)) == Some(v)
  {
    PrintReads(v, []);
  }

  /** Distinct values print differently. */
  lemma PrintInjective(v: Json, w: Json)
    requires Printable(v) && Printable(w)
    ensures Print(v) == Print(w) <==> v == w
  {
    PrintReadsBack(v);
    PrintReadsBack(w);
  }
}
