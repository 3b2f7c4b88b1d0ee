/**
 Token streaming of `src/contracts/canonical.ts`: the frame-driven token producer, the coalescing
 encoder and the streaming comparison, each against the printed form.
 */
module CanonicalTokens {
  import opened CodeUnits
  import opened JsonGrammar
  import opened CanonicalText

  predicate IsScalar(v: Json) {
    !v.Arr? && !v.Obj?
  }

  // ----- the token sequence of a value, in front of the tokens that follow

  function TokensOn(v: Json, rest: seq<Text>): seq<Text>
    decreases v, 1
  {
    match v
    case Arr(items) => [[OPEN_BRACKET]] + ItemsFrom(items, 0, rest)
    case Obj(members) => [[OPEN_BRACE]] + MembersFrom(members, 0, rest)
    case _ => [Print(v)] + rest
  }

  /** The tokens of an array from item `cursor` to its closing bracket. */
  function ItemsFrom(items: seq<Json>, cursor: nat, rest: seq<Text>): seq<Text>
    requires cursor <= |items|
    decreases items, 0, |items| - cursor
  {
    if cursor == |items| then [[CLOSE_BRACKET]] + rest
    else Separator(cursor) + TokensOn(items[cursor], ItemsFrom(items, cursor + 1, rest))
  }

  function MembersFrom(members: seq<Member>, cursor: nat, rest: seq<Text>): seq<Text>
    requires cursor <= |members|
    decreases members, 0, |members| - cursor
  {
    if cursor == |members| then [[CLOSE_BRACE]] + rest
    else
      var m := members[cursor];
      Separator(cursor) + [Print(Str(m.key)), [COLON]] + TokensOn(m.value, MembersFrom(members, cursor + 1, rest))
  }

  function Separator(cursor: nat): seq<Text> {
    if cursor > 0 then [[COMMA]] else []
  }

  function Tokens(v: Json): seq<Text> {
    TokensOn(v, [])
  }

  function Concat(tokens: seq<Text>): Text {
    if tokens == [] then [] else tokens[0] + Concat(tokens[1..])
  }

  // ----- the concatenated tokens are the printed form

  lemma ConcatFirst(token: Text, rest: seq<Text>)
    ensures Concat([token] + rest) == token + Concat(rest)
  {
    assert ([token] + rest)[1..] == rest;
  }

  lemma ConcatMark(c: CodeUnit, rest: seq<Text>)
    ensures Concat([[c]] + rest) == Cons(c, Concat(rest))
  {
    ConcatFirst([c], rest);
  }

  lemma {:induction false} EscapeThen(s: Text, q: Text, r: Text)
    ensures EscapeOn(s, q + r) == EscapeOn(s, q) + r
  {
    if StartsPair(s) {
      EscapeThen(s[2..], q, r);
    } else if s != [] {
      EscapeThen(s[1..], q, r);
    }
  }

  lemma QuotedThen(s: Text, r: Text)
    ensures QuotedOn(s, r) == QuotedOn(s, []) + r
  {
    EscapeThen(s, [QUOTE], r);
    assert Cons(QUOTE, r) == [QUOTE] + r && Cons(QUOTE, []) == [QUOTE];
  }

  lemma ScalarThen(v: Json, r: Text)
    requires IsScalar(v)
    ensures PrintOn(v, r) == Print(v) + r
  {
    match v
    case Str(s) => QuotedThen(s, r);
    case Null => assert NULL_TEXT + [] == NULL_TEXT;
    case Bool(b) => assert TRUE_TEXT + [] == TRUE_TEXT && FALSE_TEXT + [] == FALSE_TEXT;
    case Num(token) => assert token + [] == token;
  }

  lemma {:induction false} TokensPrint(v: Json, rest: seq<Text>)
    ensures Concat(TokensOn(v, rest)) == PrintOn(v, Concat(rest))
    decreases v, 1
  {
    match v
    case Arr(items) =>
      ConcatMark(OPEN_BRACKET, ItemsFrom(items, 0, rest));
      ItemsPrint(items, 0, rest);
    case Obj(members) =>
      ConcatMark(OPEN_BRACE, MembersFrom(members, 0, rest));
      MembersPrint(members, 0, rest);
    case _ =>
      ConcatFirst(Print(v), rest);
      ScalarThen(v, Concat(rest));
  }

  /** What follows the first `cursor` items in the printed form. */
  ghost function ItemsTail(items: seq<Json>, cursor: nat, r: Text): Text
    requires cursor <= |items|
  {
    if cursor == |items| then Cons(CLOSE_BRACKET, r)
    else if cursor == 0 then ElementsOn(items, r)
    else Cons(COMMA, ElementsOn(items[cursor..], r))
  }

  lemma ElementsUnfold(items: seq<Json>, cursor: nat, r: Text)
    requires cursor < |items|
    ensures ElementsOn(items[cursor..], r) == PrintOn(items[cursor], ItemsTail(items, cursor + 1, r))
  {
    assert items[cursor..][1..] == items[cursor + 1..];
  }

  lemma {:induction false} ItemsPrint(items: seq<Json>, cursor: nat, rest: seq<Text>)
    requires cursor <= |items|
    ensures Concat(ItemsFrom(items, cursor, rest)) == ItemsTail(items, cursor, Concat(rest))
    decreases items, 0, |items| - cursor
  {
    if cursor == |items| {
      ConcatMark(CLOSE_BRACKET, rest);
    } else {
      var next := ItemsFrom(items, cursor + 1, rest);
      ItemsPrint(items, cursor + 1, rest);
      TokensPrint(items[cursor], next);
      ElementsUnfold(items, cursor, Concat(rest));
      if cursor == 0 {
        assert items[0..] == items;
        assert ItemsFrom(items, 0, rest) == TokensOn(items[0], next);
      } else {
        ConcatMark(COMMA, TokensOn(items[cursor], next));
      }
    }
  }

  ghost function MembersTail(members: seq<Member>, cursor: nat, r: Text): Text
    requires cursor <= |members|
  {
    if cursor == |members| then Cons(CLOSE_BRACE, r)
    else if cursor == 0 then PairsOn(members, r)
    else Cons(COMMA, PairsOn(members[cursor..], r))
  }

  lemma PairsUnfold(members: seq<Member>, cursor: nat, r: Text)
    requires cursor < |members|
    ensures PairsOn(members[cursor..], r) ==
            QuotedOn(members[cursor].key,
                     Cons(COLON, PrintOn(members[cursor].value, MembersTail(members, cursor + 1, r))))
  {
    assert members[cursor..][1..] == members[cursor + 1..];
  }

  lemma PairTokens(key: Text, more: seq<Text>)
    ensures Concat([Print(Str(key)), [COLON]] + more) == QuotedOn(key, Cons(COLON, Concat(more)))
  {
    assert [Print(Str(key)), [COLON]] + more == [Print(Str(key))] + ([[COLON]] + more);
    ConcatFirst(Print(Str(key)), [[COLON]] + more);
    ConcatMark(COLON, more);
    ScalarThen(Str(key), Cons(COLON, Concat(more)));
  }

  lemma MemberTokens(m: Member, next: seq<Text>, tail: Text)
    requires Concat(TokensOn(m.value, next)) == PrintOn(m.value, tail)
    ensures Concat([Print(Str(m.key)), [COLON]] + TokensOn(m.value, next)) ==
            QuotedOn(m.key, Cons(COLON, PrintOn(m.value, tail)))
  {
    PairTokens(m.key, TokensOn(m.value, next));
  }

  /** The separator in front of a member is part of what follows the members before it. */
  lemma SeparatedTail(members: seq<Member>, cursor: nat, pair: seq<Text>, r: Text)
    requires cursor < |members| && Concat(pair) == PairsOn(members[cursor..], r)
    ensures Concat(Separator(cursor) + pair) == MembersTail(members, cursor, r)
  {
    if cursor == 0 {
      assert members[0..] == members && [] + pair == pair;
    } else {
      ConcatMark(COMMA, pair);
    }
  }

  lemma {:induction false} MembersPrint(members: seq<Member>, cursor: nat, rest: seq<Text>)
    requires cursor <= |members|
    ensures Concat(MembersFrom(members, cursor, rest)) == MembersTail(members, cursor, Concat(rest))
    decreases members, 0, |members| - cursor
  {
    if cursor == |members| {
      ConcatMark(CLOSE_BRACE, rest);
    } else {
      var m := members[cursor];
      var next := MembersFrom(members, cursor + 1, rest);
      var pair := [Print(Str(m.key)), [COLON]] + TokensOn(m.value, next);
      MembersPrint(members, cursor + 1, rest);
      TokensPrint(m.value, next);
      MemberTokens(m, next, MembersTail(members, cursor + 1, Concat(rest)));
      PairsUnfold(members, cursor, Concat(rest));
      SeparatedTail(members, cursor, pair, Concat(rest));
      MembersFromIs(members, cursor, rest, next, pair);
    }
  }

  lemma MembersFromIs(members: seq<Member>, cursor: nat, rest: seq<Text>, next: seq<Text>, pair: seq<Text>)
    requires cursor < |members| && next == MembersFrom(members, cursor + 1, rest)
    requires pair == [Print(Str(members[cursor].key)), [COLON]] + TokensOn(members[cursor].value, next)
    ensures MembersFrom(members, cursor, rest) == Separator(cursor) + pair
  {
  }

  /** Tokens, printed texts and values determine each other. */
  lemma TokensInjective(v: Json, w: Json)
    requires Printable(v) && Printable(w)
    ensures Tokens(v) == Tokens(w) <==> v == w
    ensures Concat(Tokens(v)) == Concat(Tokens(w)) <==> v == w
  {
    TokensPrint(v, []);
    TokensPrint(w, []);
    PrintInjective(v, w);
  }

  // ----- the streaming producer

  datatype Frame = ArrayAt(items: seq<Json>, cursor: nat) | ObjectAt(members: seq<Member>, cursor: nat)

  predicate InRange(f: Frame) {
    match f
    case ArrayAt(items, cursor) => cursor <= |items|
    case ObjectAt(members, cursor) => cursor <= |members|
  }

  ghost function Remaining(f: Frame, rest: seq<Text>): seq<Text>
    requires InRange(f)
  {
    match f
    case ArrayAt(items, cursor) => ItemsFrom(items, cursor, rest)
    case ObjectAt(members, cursor) => MembersFrom(members, cursor, rest)
  }

  /** What the frames, innermost last, still have to yield. */
  ghost function Pending(frames: seq<Frame>): seq<Text>
    requires forall i :: 0 <= i < |frames| ==> InRange(frames[i])
  {
    if frames == [] then []
    else Remaining(frames[|frames| - 1], Pending(frames[..|frames| - 1]))
  }

  lemma PendingTop(below: seq<Frame>, f: Frame)
    requires InRange(f) && forall i :: 0 <= i < |below| ==> InRange(below[i])
    ensures forall i :: 0 <= i < |below + [f]| ==> InRange((below + [f])[i])
    ensures Pending(below + [f]) == Remaining(f, Pending(below))
  {
    var frames := below + [f];
    assert frames[..|frames| - 1] == below;
  }

  /** Rows still to come, so that the loop ends. */
  ghost function Size(v: Json): nat
    decreases v, 1
  {
    match v
    case Arr(items) => 1 + ItemsSize(items, 0)
    case Obj(members) => 1 + MembersSize(members, 0)
    case _ => 0
  }

  ghost function ItemsSize(items: seq<Json>, cursor: nat): nat
    requires cursor <= |items|
    decreases items, 0, |items| - cursor
  {
    if cursor == |items| then 0 else 1 + Size(items[cursor]) + ItemsSize(items, cursor + 1)
  }

  ghost function MembersSize(members: seq<Member>, cursor: nat): nat
    requires cursor <= |members|
    decreases members, 0, |members| - cursor
  {
    if cursor == |members| then 0 else 1 + Size(members[cursor].value) + MembersSize(members, cursor + 1)
  }

  ghost function FrameSize(f: Frame): nat
    requires InRange(f)
  {
    match f
    case ArrayAt(items, cursor) => 1 + ItemsSize(items, cursor)
    case ObjectAt(members, cursor) => 1 + MembersSize(members, cursor)
  }

  ghost function FramesSize(frames: seq<Frame>): nat
    requires forall i :: 0 <= i < |frames| ==> InRange(frames[i])
  {
    if frames == [] then 0 else FrameSize(frames[|frames| - 1]) + FramesSize(frames[..|frames| - 1])
  }

  lemma FramesSizeTop(below: seq<Frame>, f: Frame)
    requires InRange(f) && forall i :: 0 <= i < |below| ==> InRange(below[i])
    ensures forall i :: 0 <= i < |below + [f]| ==> InRange((below + [f])[i])
    ensures FramesSize(below + [f]) == FrameSize(f) + FramesSize(below)
  {
    var frames := below + [f];
    assert frames[..|frames| - 1] == below;
  }

  /** `open`: the first token of an entry, with a frame for a container. */
  method Open(entry: Json, frames: seq<Frame>) returns (token: Text, next: seq<Frame>)
    requires forall i :: 0 <= i < |frames| ==> InRange(frames[i])
    ensures forall i :: 0 <= i < |next| ==> InRange(next[i])
    ensures [token] + Pending(next) == TokensOn(entry, Pending(frames))
    ensures FramesSize(next) == Size(entry) + FramesSize(frames)
  {
    match entry
    case Arr(items) =>
      token, next := [OPEN_BRACKET], frames + [ArrayAt(items, 0)];
      PendingTop(frames, ArrayAt(items, 0));
      FramesSizeTop(frames, ArrayAt(items, 0));
    case Obj(members) =>
      token, next := [OPEN_BRACE], frames + [ObjectAt(members, 0)];
      PendingTop(frames, ObjectAt(members, 0));
      FramesSizeTop(frames, ObjectAt(members, 0));
    case _ =>
      token, next := Print(entry), frames;
  }

  /** Everything one turn of the producer yields. */
  method Yield(frames: seq<Frame>) returns (tokens: seq<Text>, next: seq<Frame>)
    requires frames != [] && forall i :: 0 <= i < |frames| ==> InRange(frames[i])
    ensures forall i :: 0 <= i < |next| ==> InRange(next[i])
    ensures tokens + Pending(next) == Pending(frames)
    ensures FramesSize(next) < FramesSize(frames)
  {
    var below, f := frames[..|frames| - 1], frames[|frames| - 1];
    assert frames == below + [f];
    match f
    case ArrayAt(items, cursor) =>
      if cursor == |items| {
        return [[CLOSE_BRACKET]], below;
      }
      var moved := ArrayAt(items, cursor + 1);
      PendingTop(below, moved);
      FramesSizeTop(below, moved);
      var token;
      token, next := Open(items[cursor], below + [moved]);
      tokens := Separator(cursor) + [token];
    case ObjectAt(members, cursor) =>
      if cursor == |members| {
        return [[CLOSE_BRACE]], below;
      }
      var moved := ObjectAt(members, cursor + 1);
      PendingTop(below, moved);
      FramesSizeTop(below, moved);
      var token;
      token, next := Open(members[cursor].value, below + [moved]);
      tokens := Separator(cursor) + [Print(Str(members[cursor].key)), [COLON]] + [token];
  }

  /** `canonicalTokens` on a normalised value. */
  method StreamTokens(normalized: Json) returns (tokens: seq<Text>)
    ensures tokens == Tokens(normalized)
  {
    var token, frames := Open(normalized, []);
    tokens := [token];
    while frames != []
      invariant forall i :: 0 <= i < |frames| ==> InRange(frames[i])
      invariant tokens + Pending(frames) == Tokens(normalized)
      decreases FramesSize(frames)
    {
      var more;
      more, frames := Yield(frames);
      tokens := tokens + more;
    }
  }
}
