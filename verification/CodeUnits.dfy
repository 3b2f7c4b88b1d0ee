/**
 JavaScript strings as sequences of UTF-16 code units, the locale-independent order that
 `String#<` puts on them, and the stable sort that the contracts build on it.
 */
module CodeUnits {

  type CodeUnit = c: int | 0 <= c < 0x1_0000 witness 0
  type Text = seq<CodeUnit>

  predicate IsHigh(c: CodeUnit) {
    0xD800 <= c <= 0xDBFF
  }

  predicate IsLow(c: CodeUnit) {
    0xDC00 <= c <= 0xDFFF
  }

  /** The text starts with a surrogate pair. */
  predicate StartsPair(t: Text) {
    |t| >= 2 && IsHigh(t[0]) && IsLow(t[1])
  }

  /** `left < right` on strings: the first differing code unit decides, a proper prefix is smaller. */
  predicate Less(left: Text, right: Text) {
    right != [] &&
    (left == [] || left[0] < right[0] || (left[0] == right[0] && Less(left[1..], right[1..])))
  }

  lemma {:induction false} LessIrreflexive(a: Text)
    ensures !Less(a, a)
  {
    if a != [] {
      LessIrreflexive(a[1..]);
    }
  }

  lemma {:induction false} LessTransitive(a: Text, b: Text, c: Text)
    requires Less(a, b) && Less(b, c)
    ensures Less(a, c)
  {
    if a != [] && a[0] == b[0] == c[0] {
      LessTransitive(a[1..], b[1..], c[1..]);
    }
  }

  lemma {:induction false} LessTotal(a: Text, b: Text)
    ensures Less(a, b) || a == b || Less(b, a)
  {
    if a != [] && b != [] && a[0] == b[0] {
      LessTotal(a[1..], b[1..]);
      assert a == [a[0]] + a[1..] && b == [b[0]] + b[1..];
    }
  }

  lemma LessAsymmetric(a: Text, b: Text)
    requires Less(a, b)
    ensures !Less(b, a)
  {
    if Less(b, a) {
      LessTransitive(a, b, a);
      LessIrreflexive(a);
    }
  }

  /** Ordered by key, equal keys allowed. */
  ghost predicate OrderedBy<T>(s: seq<T>, key: T -> Text) {
    forall i, j :: 0 <= i < j < |s| ==> !Less(key(s[j]), key(s[i]))
  }

  /** Ordered by key with no two equal keys. */
  ghost predicate AscendingBy<T>(s: seq<T>, key: T -> Text) {
    forall i, j :: 0 <= i < j < |s| ==> Less(key(s[i]), key(s[j]))
  }

  ghost predicate DistinctBy<T>(s: seq<T>, key: T -> Text) {
    forall i, j :: 0 <= i < j < |s| ==> key(s[i]) != key(s[j])
  }

  ghost predicate Distinct<T>(s: seq<T>) {
    forall i, j :: 0 <= i < j < |s| ==> s[i] != s[j]
  }

  function Identity(t: Text): Text {
    t
  }

  /** `Array.prototype.sort` with a key comparison; stable, as the language requires. */
  function SortBy<T>(s: seq<T>, key: T -> Text): (r: seq<T>)
    ensures |r| == |s|
    ensures multiset(r) == multiset(s)
    ensures OrderedBy(r, key)
  {
    if s == [] then [] else
      assert s == [s[0]] + s[1..];
      InsertBy(s[0], SortBy(s[1..], key), key)
  }

  function InsertBy<T>(x: T, s: seq<T>, key: T -> Text): (r: seq<T>)
    requires OrderedBy(s, key)
    ensures |r| == |s| + 1
    ensures multiset(r) == multiset(s) + multiset{x}
    ensures OrderedBy(r, key)
  {
    if s == [] then [x]
    else if Less(key(s[0]), key(x)) then
      var rest := InsertBy(x, s[1..], key);
      InsertKeepsHead(x, s, rest, key);
      [s[0]] + rest
    else
      InsertAtHead(x, s, key);
      [x] + s
  }

  lemma InsertKeepsHead<T>(x: T, s: seq<T>, rest: seq<T>, key: T -> Text)
    requires s != [] && OrderedBy(s, key) && Less(key(s[0]), key(x))
    requires multiset(rest) == multiset(s[1..]) + multiset{x} && OrderedBy(rest, key)
    ensures OrderedBy([s[0]] + rest, key)
    ensures multiset([s[0]] + rest) == multiset(s) + multiset{x}
  {
    assert s == [s[0]] + s[1..];
    var r := [s[0]] + rest;
    forall i, j | 0 <= i < j < |r|
      ensures !Less(key(r[j]), key(r[i]))
    {
      if i == 0 {
        assert r[j] == rest[j - 1] && rest[j - 1] in multiset(rest);
        if r[j] == x {
          LessAsymmetric(key(s[0]), key(x));
        } else {
          assert r[j] in s[1..];
        }
      } else {
        assert r[i] == rest[i - 1] && r[j] == rest[j - 1];
      }
    }
  }

  lemma InsertAtHead<T>(x: T, s: seq<T>, key: T -> Text)
    requires s != [] && OrderedBy(s, key) && !Less(key(s[0]), key(x))
    ensures OrderedBy([x] + s, key)
    ensures multiset([x] + s) == multiset(s) + multiset{x}
  {
    var r := [x] + s;
    forall i, j | 0 <= i < j < |r|
      ensures !Less(key(r[j]), key(r[i]))
    {
      if i == 0 {
        var y := s[j - 1];
        assert r[j] == y && (j == 1 || !Less(key(y), key(s[0])));
        if Less(key(y), key(x)) {
          LessTotal(key(s[0]), key(x));
          if key(s[0]) != key(x) {
            LessTransitive(key(y), key(x), key(s[0]));
          }
        }
      } else {
        assert r[i] == s[i - 1] && r[j] == s[j - 1];
      }
    }
  }

  /** Sorting elements whose keys are distinct leaves them strictly ascending. */
  lemma {:induction false} SortOfDistinctAscends<T(!new)>(s: seq<T>, key: T -> Text)
    requires DistinctBy(s, key)
    ensures AscendingBy(SortBy(s, key), key)
  {
    if s != [] {
      var rest := SortBy(s[1..], key);
      SortOfDistinctAscends(s[1..], key);
      SameElements(s[1..], rest);
      forall y | y in rest
        ensures key(y) != key(s[0])
      {
        var k :| 0 <= k < |s[1..]| && s[1..][k] == y;
        assert s[k + 1] == y;
      }
      InsertAscends(s[0], rest, key);
    }
  }

  lemma {:induction false} InsertAscends<T(!new)>(x: T, s: seq<T>, key: T -> Text)
    requires AscendingBy(s, key) && OrderedBy(s, key)
    requires forall y :: y in s ==> key(y) != key(x)
    ensures AscendingBy(InsertBy(x, s, key), key)
  {
    var r := InsertBy(x, s, key);
    forall i, j | 0 <= i < j < |r|
      ensures Less(key(r[i]), key(r[j]))
    {
      LessTotal(key(r[i]), key(r[j]));
      if key(r[i]) == key(r[j]) {
        InsertedKeysDiffer(x, s, key, i, j);
      }
    }
  }

  lemma {:induction false} InsertedKeysDiffer<T(!new)>(x: T, s: seq<T>, key: T -> Text, i: nat, j: nat)
    requires AscendingBy(s, key) && OrderedBy(s, key)
    requires forall y :: y in s ==> key(y) != key(x)
    requires i < j <= |s|
    ensures key(InsertBy(x, s, key)[i]) != key(InsertBy(x, s, key)[j])
  {
    var r := InsertBy(x, s, key);
    if s != [] && Less(key(s[0]), key(x)) {
      var rest := InsertBy(x, s[1..], key);
      assert r == [s[0]] + rest;
      if i > 0 {
        InsertedKeysDiffer(x, s[1..], key, i - 1, j - 1);
      } else {
        assert rest[j - 1] in multiset(rest);
        if rest[j - 1] in s[1..] {
          LessIrreflexive(key(s[0]));
        }
      }
    } else {
      assert r == [x] + s;
      if i > 0 {
        LessIrreflexive(key(s[i - 1]));
      }
    }
  }

  /** A strictly ascending sequence is determined by its elements. */
  lemma {:induction false} AscendingUnique<T(!new)>(a: seq<T>, b: seq<T>, key: T -> Text)
    requires AscendingBy(a, key) && AscendingBy(b, key)
    requires forall x :: x in a <==> x in b
    ensures a == b
  {
    assert |b| == 0 || b[0] in b;
    if a != [] {
      assert a[0] in a;
      assert b != [];
      assert b[0] in b;
      SameLeast(a, b, key);
      forall x
        ensures x in a[1..] <==> x in b[1..]
      {
        TailMembers(a, x, key);
        TailMembers(b, x, key);
      }
      AscendingUnique(a[1..], b[1..], key);
      assert a == [a[0]] + a[1..] && b == [b[0]] + b[1..];
    }
  }

  lemma SameLeast<T(!new)>(a: seq<T>, b: seq<T>, key: T -> Text)
    requires a != [] && b != [] && AscendingBy(a, key) && AscendingBy(b, key)
    requires a[0] in b && b[0] in a
    ensures a[0] == b[0]
  {
    if a[0] != b[0] {
      var i :| 0 <= i < |b| && b[i] == a[0];
      var j :| 0 <= j < |a| && a[j] == b[0];
      assert Less(key(b[0]), key(b[i])) && Less(key(a[0]), key(a[j]));
      LessAsymmetric(key(a[0]), key(b[0]));
    }
  }

  lemma TailMembers<T(!new)>(a: seq<T>, x: T, key: T -> Text)
    requires a != [] && AscendingBy(a, key)
    ensures x in a[1..] <==> x in a && x != a[0]
  {
    if x in a[1..] {
      var i :| 0 <= i < |a[1..]| && a[1..][i] == x;
      assert a[i + 1] == x && Less(key(a[0]), key(a[i + 1]));
      LessIrreflexive(key(x));
    }
    if x in a && x != a[0] {
      var i :| 0 <= i < |a| && a[i] == x;
      assert a[1..][i - 1] == x;
    }
  }

  /** `[...new Set(values)]`: first occurrences, in order. */
  function Deduplicated<T(==, !new)>(values: seq<T>): (r: seq<T>)
    ensures Distinct(r)
    ensures forall x :: x in r <==> x in values
  {
    if values == [] then [] else
      var init := values[..|values| - 1];
      var last := values[|values| - 1];
      assert values == init + [last];
      var rest := Deduplicated(init);
      if last in rest then rest else rest + [last]
  }

  /** `uniqueSorted`: the distinct values in code-unit order. */
  function UniqueSorted(values: seq<Text>): (r: seq<Text>)
    ensures AscendingBy(r, Identity)
    ensures forall x :: x in r <==> x in values
  {
    var d := Deduplicated(values);
    SortOfDistinctAscends(d, Identity);
    SameElements(d, SortBy(d, Identity));
    SortBy(d, Identity)
  }

  lemma SameElements<T(!new)>(a: seq<T>, b: seq<T>)
    requires multiset(a) == multiset(b)
    ensures forall x :: x in a <==> x in b
  {
    forall x
      ensures x in a <==> x in b
    {
      assert x in a <==> x in multiset(a);
      assert x in b <==> x in multiset(b);
    }
  }
}
