/**
 The framed preimage of a structured identity (`src/contracts/identity-profile.ts`): a length-framed
 header in front of the UTF-8 bytes of the canonical encoding.
 */
module IdentityProfile {
  import opened Options
  import opened CodeUnits
  import opened JsonGrammar
  import opened CanonicalText
  import opened CanonicalTokens
  import opened CanonicalCompare
  import opened Utf8
  import ExactJson

  // ----- the canonical encoding is well-formed UTF-16, token by token

  ghost predicate NoSurrogate(t: Text) {
    forall i :: 0 <= i < |t| ==> !IsHigh(t[i]) && !IsLow(t[i])
  }

  lemma {:induction false} NoSurrogateWellFormed(t: Text)
    requires NoSurrogate(t)
    ensures WellFormed(t)
  {
    if t != [] {
      NoSurrogateWellFormed(t[1..]);
    }
  }

  /** Number tokens are ASCII. */
  lemma {:induction false} PlainWellFormed(t: Text)
    requires ExactJson.PlainTo(t, [])
    ensures WellFormed(t)
  {
    if t != [] {
      PlainWellFormed(t[1..]);
    }
  }

  lemma EscapeUnitWellFormed(c: CodeUnit)
    ensures WellFormed(EscapeUnit(c))
  {
    NoSurrogateWellFormed(EscapeUnit(c));
  }

  /** Lone surrogates are escaped and pairs are kept whole. */
  lemma {:induction false} EscapedWellFormed(s: Text, r: Text)
    requires WellFormed(r)
    ensures WellFormed(EscapeOn(s, r))
  {
    if StartsPair(s) {
      EscapedWellFormed(s[2..], r);
      var rest := EscapeOn(s[2..], r);
      assert EscapeOn(s, r)[2..] == rest;
    } else if s != [] {
      EscapedWellFormed(s[1..], r);
      EscapeUnitWellFormed(s[0]);
      WellFormedThen(EscapeUnit(s[0]), EscapeOn(s[1..], r));
    }
  }

  lemma ScalarWellFormed(v: Json)
    requires IsScalar(v) && Printable(v)
    ensures WellFormed(Print(v))
  {
    match v
    case Str(s) =>
      NoSurrogateWellFormed(Cons(QUOTE, []));
      EscapedWellFormed(s, Cons(QUOTE, []));
    case Null => NoSurrogateWellFormed(NULL_TEXT + []);
    case Bool(b) => NoSurrogateWellFormed((if b then TRUE_TEXT else FALSE_TEXT) + []);
    case Num(token) =>
      ExactJson.NumberPlain(token);
      PlainWellFormed(token);
      assert token + [] == token;
  }

  ghost predicate AllWellFormed(texts: seq<Text>) {
    forall i :: 0 <= i < |texts| ==> WellFormed(texts[i])
  }

  lemma MarkWellFormed(c: CodeUnit, rest: seq<Text>)
    requires c < 0x80 && AllWellFormed(rest)
    ensures AllWellFormed([[c]] + rest)
  {
    NoSurrogateWellFormed([c]);
  }

  lemma {:induction false} TokensWellFormed(v: Json, rest: seq<Text>)
    requires Printable(v) && AllWellFormed(rest)
    ensures AllWellFormed(TokensOn(v, rest))
    decreases v, 1
  {
    match v
    case Arr(items) =>
      ItemsWellFormed(items, 0, rest);
      MarkWellFormed(OPEN_BRACKET, ItemsFrom(items, 0, rest));
    case Obj(members) =>
      MembersWellFormed(members, 0, rest);
      MarkWellFormed(OPEN_BRACE, MembersFrom(members, 0, rest));
    case _ => ScalarWellFormed(v);
  }

  lemma {:induction false} ItemsWellFormed(items: seq<Json>, cursor: nat, rest: seq<Text>)
    requires cursor <= |items| && AllWellFormed(rest) && forall i :: 0 <= i < |items| ==> Printable(items[i])
    ensures AllWellFormed(ItemsFrom(items, cursor, rest))
    decreases items, 0, |items| - cursor
  {
    if cursor == |items| {
      MarkWellFormed(CLOSE_BRACKET, rest);
    } else {
      ItemsWellFormed(items, cursor + 1, rest);
      var more := TokensOn(items[cursor], ItemsFrom(items, cursor + 1, rest));
      TokensWellFormed(items[cursor], ItemsFrom(items, cursor + 1, rest));
      MarkWellFormed(COMMA, more);
      assert [] + more == more;
    }
  }

  lemma {:induction false} MembersWellFormed(members: seq<Member>, cursor: nat, rest: seq<Text>)
    requires cursor <= |members| && AllWellFormed(rest) &&
             forall i :: 0 <= i < |members| ==> Printable(members[i].value)
    ensures AllWellFormed(MembersFrom(members, cursor, rest))
    decreases members, 0, |members| - cursor
  {
    if cursor == |members| {
      MarkWellFormed(CLOSE_BRACE, rest);
    } else {
      var m := members[cursor];
      MembersWellFormed(members, cursor + 1, rest);
      var more := TokensOn(m.value, MembersFrom(members, cursor + 1, rest));
      TokensWellFormed(m.value, MembersFrom(members, cursor + 1, rest));
      ScalarWellFormed(Str(m.key));
      NoSurrogateWellFormed([COLON]);
      NoSurrogateWellFormed([COMMA]);
      assert MembersFrom(members, cursor, rest) == Separator(cursor) + [Print(Str(m.key)), [COLON]] + more;
    }
  }

  // ----- chunks do not show in the bytes

  /** The bytes that reach a hasher when each text is written as UTF-8 on its own. */
  function Written(chunks: seq<Text>): Bytes {
    if chunks == [] then [] else Encode(chunks[0]) + Written(chunks[1..])
  }

  lemma {:induction false} WrittenWhole(chunks: seq<Text>)
    requires AllWellFormed(chunks)
    ensures Written(chunks) == Encode(Concat(chunks)) && WellFormed(Concat(chunks))
  {
    if chunks != [] {
      WrittenWhole(chunks[1..]);
      EncodeThen(chunks[0], Concat(chunks[1..]));
      WellFormedThen(chunks[0], Concat(chunks[1..]));
    }
  }

  lemma {:induction false} GroupTokens(groups: seq<seq<Text>>, tokens: seq<Text>)
    requires AllWellFormed(tokens) && Flatten(groups) <= tokens
    ensures forall i :: 0 <= i < |groups| ==> AllWellFormed(groups[i])
  {
    if groups != [] {
      var n := |groups| - 1;
      var before := Flatten(groups[..n]);
      assert before <= tokens;
      GroupTokens(groups[..n], tokens);
      forall k | 0 <= k < |groups[n]|
        ensures WellFormed(groups[n][k])
      {
        assert groups[n][k] == tokens[|before| + k];
      }
      assert forall i :: 0 <= i < n ==> groups[i] == groups[..n][i];
    }
  }

  lemma ChunksWellFormed(chunks: seq<Text>, tokens: seq<Text>, groups: seq<seq<Text>>)
    requires WholeTokens(chunks, tokens, groups) && AllWellFormed(tokens)
    ensures AllWellFormed(chunks)
  {
    GroupTokens(groups, tokens);
    forall i | 0 <= i < |chunks|
      ensures WellFormed(chunks[i])
    {
      WrittenWhole(groups[i]);
    }
  }

  /** However the tokens of a value are coalesced, its UTF-8 bytes are those of the printed text. */
  lemma ChunkBoundariesVanish(v: Json, chunks: seq<Text>, groups: seq<seq<Text>>)
    requires Printable(v) && WholeTokens(chunks, Tokens(v), groups)
    ensures Written(chunks) == Encode(Print(v)) && WellFormed(Print(v))
  {
    TokensWellFormed(v, []);
    ChunksWellFormed(chunks, Tokens(v), groups);
    WrittenWhole(chunks);
    WholeTokensConcat(chunks, Tokens(v), groups);
    TokensPrint(v, []);
  }

  lemma PrintWellFormed(v: Json)
    requires Printable(v)
    ensures WellFormed(Print(v))
  {
    TokensWellFormed(v, []);
    WrittenWhole(Tokens(v));
    TokensPrint(v, []);
  }

  // ----- the header

  /** The ASCII bytes of "sec.identity", then 0 and 1. */
  const PREFIX: Bytes := [0x73, 0x65, 0x63, 0x2E, 0x69, 0x64, 0x65, 0x6E, 0x74, 0x69, 0x74, 0x79, 0x00, 0x01]

  predicate IsLetter(c: CodeUnit) {
    0x61 <= c <= 0x7A
  }

  predicate InNamespace(c: CodeUnit) {
    IsLetter(c) || IsDigit(c) || c == 0x2E || c == 0x5F || c == 0x2F || c == 0x2D
  }

  /** `requireNamespace` */
  predicate IsNamespace(name: Text) {
    1 <= |name| <= 128 && IsLetter(name[0]) && forall i :: 0 <= i < |name| ==> InNamespace(name[i])
  }

  function Ascii(name: Text): Bytes
    requires IsNamespace(name)
  {
    name
  }

  /** An unsigned 16-bit integer, most significant octet first. */
  function Uint16(n: nat): Bytes
    requires n < 0x1_0000
  {
    [n / 0x100, n % 0x100]
  }

  function Framed(name: Text): Bytes
    requires IsNamespace(name)
  {
    Uint16(|name|) + Ascii(name)
  }

  function Header(domain: Text, schema: Text): Bytes
    requires IsNamespace(domain) && IsNamespace(schema)
  {
    PREFIX + (Framed(domain) + Framed(schema))
  }

  /** The bytes that are hashed for a value with normal form `v`. */
  function Preimage(domain: Text, schema: Text, v: Json): Bytes
    requires IsNamespace(domain) && IsNamespace(schema)
  {
    Header(domain, schema) + Encode(Print(v))
  }

  /** A framed name ends where its length says. */
  lemma FramedDecodes(a: Text, b: Text, u: Bytes, w: Bytes)
    requires IsNamespace(a) && IsNamespace(b) && Framed(a) + u == Framed(b) + w
    ensures a == b && u == w
  {
    var s, t := Framed(a) + u, Framed(b) + w;
    assert s[0] == |a| / 0x100 && s[1] == |a| % 0x100 && t[0] == |b| / 0x100 && t[1] == |b| % 0x100;
    assert |a| == |b|;
    assert s[2..2 + |a|] == a && t[2..2 + |b|] == b;
    assert s[2 + |a|..] == u && t[2 + |b|..] == w;
  }

  lemma CutPrefix(p: Bytes, u: Bytes, w: Bytes)
    requires p + u == p + w
    ensures u == w
  {
    assert (p + u)[|p|..] == u && (p + w)[|p|..] == w;
  }

  lemma HeaderSplit(p: Bytes, a: Bytes, b: Bytes, e: Bytes)
    ensures p + (a + b) + e == p + (a + (b + e))
  {
  }

  /** A header ends where its lengths say. */
  lemma HeaderDecodes(d: Text, s: Text, e: Bytes, d': Text, s': Text, e': Bytes)
    requires IsNamespace(d) && IsNamespace(s) && IsNamespace(d') && IsNamespace(s')
    requires Header(d, s) + e == Header(d', s') + e'
    ensures d == d' && s == s' && e == e'
  {
    HeaderSplit(PREFIX, Framed(d), Framed(s), e);
    HeaderSplit(PREFIX, Framed(d'), Framed(s'), e');
    CutPrefix(PREFIX, Framed(d) + (Framed(s) + e), Framed(d') + (Framed(s') + e'));
    FramedDecodes(d, d', Framed(s) + e, Framed(s') + e');
    FramedDecodes(s, s', e, e');
  }

  /** Framed preimages are equal exactly when domain, schema and normal form are. */
  lemma PreimageInjective(d: Text, s: Text, v: Json, d': Text, s': Text, v': Json)
    requires IsNamespace(d) && IsNamespace(s) && IsNamespace(d') && IsNamespace(s') && Printable(v) && Printable(v')
    ensures Preimage(d, s, v) == Preimage(d', s', v') <==> d == d' && s == s' && v == v'
  {
    if Preimage(d, s, v) == Preimage(d', s', v') {
      HeaderDecodes(d, s, Encode(Print(v)), d', s', Encode(Print(v')));
      PrintWellFormed(v);
      PrintWellFormed(v');
      EncodeInjective(Print(v), Print(v'));
      PrintInjective(v, v');
    }
  }

  // ----- the header as it is written

  /** Write `bytes` at `offset`. */
  method Put(buffer: array<Byte>, offset: nat, bytes: Bytes) returns (after: nat)
    requires offset + |bytes| <= buffer.Length
    modifies buffer
    ensures after == offset + |bytes|
    ensures buffer[..after] == old(buffer[..offset]) + bytes
  {
    for i := 0 to |bytes|
      invariant buffer[..offset + i] == old(buffer[..offset]) + bytes[..i]
    {
      buffer[offset + i] := bytes[i];
    }
    after := offset + |bytes|;
  }

  /** `identityFrameHeader`: none for a name that is not a namespace. */
  method FrameHeader(domain: Text, schema: Text) returns (header: Option<Bytes>)
    ensures header.Some? <==> IsNamespace(domain) && IsNamespace(schema)
    ensures header.Some? ==> header.value == Header(domain, schema)
  {
    if !IsNamespace(domain) || !IsNamespace(schema) {
      return None;
    }
    var buffer := new Byte[|PREFIX| + 4 + |domain| + |schema|];
    var offset := Put(buffer, 0, PREFIX);
    offset := Put(buffer, offset, Uint16(|domain|));
    offset := Put(buffer, offset, Ascii(domain));
    offset := Put(buffer, offset, Uint16(|schema|));
    offset := Put(buffer, offset, Ascii(schema));
    assert buffer[..] == buffer[..offset];
    return Some(buffer[..]);
  }
}
