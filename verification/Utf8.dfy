/**
 The UTF-8 encoding of JavaScript strings (section 3 of RFC 3629), as `Buffer.from(text, 'utf8')`
 performs it: well-formed surrogate pairs become one scalar value, a lone surrogate becomes U+FFFD.
 */
module Utf8 {
  import opened CodeUnits

  type Byte = c: CodeUnit | c < 0x100 witness 0
  type Bytes = seq<Byte>

  /** A Unicode scalar value. */
  type Scalar = c: int | 0 <= c < 0xD800 || 0xE000 <= c < 0x11_0000 witness 0

  const REPLACEMENT: Scalar := 0xFFFD

  function PairScalar(high: CodeUnit, low: CodeUnit): Scalar
    requires IsHigh(high) && IsLow(low)
  {
    0x1_0000 + (high - 0xD800) * 0x400 + (low - 0xDC00)
  }

  function UnitScalar(c: CodeUnit): Scalar {
    if IsHigh(c) || IsLow(c) then REPLACEMENT else c
  }

  function Scalars(t: Text): seq<Scalar> {
    if t == [] then []
    else if StartsPair(t) then [PairScalar(t[0], t[1])] + Scalars(t[2..])
    else [UnitScalar(t[0])] + Scalars(t[1..])
  }

  /** Every surrogate is half of a pair. */
  predicate WellFormed(t: Text) {
    t == [] ||
    if StartsPair(t) then WellFormed(t[2..])
    else !IsHigh(t[0]) && !IsLow(t[0]) && WellFormed(t[1..])
  }

  /** The octets of one scalar value. */
  function Octets(c: Scalar): (b: Bytes)
    ensures b != []
  {
    if c < 0x80 then [c]
    else if c < 0x800 then [0xC0 + c / 0x40, 0x80 + c % 0x40]
    else if c < 0x1_0000 then [0xE0 + c / 0x1000, 0x80 + c / 0x40 % 0x40, 0x80 + c % 0x40]
    else [0xF0 + c / 0x4_0000, 0x80 + c / 0x1000 % 0x40, 0x80 + c / 0x40 % 0x40, 0x80 + c % 0x40]
  }

  function OctetsOf(scalars: seq<Scalar>): Bytes {
    if scalars == [] then [] else Octets(scalars[0]) + OctetsOf(scalars[1..])
  }

  function Encode(t: Text): Bytes {
    OctetsOf(Scalars(t))
  }

  // ----- order

  /** Lexicographic order, the shorter of two prefixes first. */
  predicate Precedes(a: seq<int>, b: seq<int>) {
    b != [] && (a == [] || a[0] < b[0] || (a[0] == b[0] && Precedes(a[1..], b[1..])))
  }

  /** `Buffer.compare` */
  function Compare(a: seq<int>, b: seq<int>): int {
    if Precedes(a, b) then -1 else if Precedes(b, a) then 1 else 0
  }

  lemma {:induction false} PrecedesTotal(a: seq<int>, b: seq<int>)
    ensures Precedes(a, b) || a == b || Precedes(b, a)
    ensures !(Precedes(a, b) && Precedes(b, a))
  {
    if a != [] && b != [] && a[0] == b[0] {
      PrecedesTotal(a[1..], b[1..]);
      assert a == [a[0]] + a[1..] && b == [b[0]] + b[1..];
    }
  }

  /** Equal heads do not matter. */
  lemma {:induction false} CommonPrefix(p: seq<int>, a: seq<int>, b: seq<int>)
    ensures Precedes(p + a, p + b) <==> Precedes(a, b)
  {
    if p == [] {
      assert p + a == a && p + b == b;
    } else {
      assert (p + a)[1..] == p[1..] + a && (p + b)[1..] == p[1..] + b;
      CommonPrefix(p[1..], a, b);
    }
  }

  /** `a` falls behind `b` at a position that both have. */
  ghost predicate FallsBehind(a: seq<int>, b: seq<int>) {
    a != [] && b != [] && (a[0] < b[0] || (a[0] == b[0] && FallsBehind(a[1..], b[1..])))
  }

  lemma {:induction false} FallsBehindThen(a: seq<int>, b: seq<int>, u: seq<int>, w: seq<int>)
    requires FallsBehind(a, b)
    ensures Precedes(a + u, b + w)
  {
    if a[0] == b[0] {
      assert (a + u)[1..] == a[1..] + u && (b + w)[1..] == b[1..] + w;
      FallsBehindThen(a[1..], b[1..], u, w);
    }
  }

  /** The octets of a smaller scalar fall behind those of a greater one. */
  lemma SmallerOctets(x: Scalar, y: Scalar)
    requires x < y
    ensures FallsBehind(Octets(x), Octets(y))
  {
    if |Octets(x)| == |Octets(y)| {
      SameLengthOctets(x, y);
    }
  }

  lemma SameLengthOctets(x: Scalar, y: Scalar)
    requires x < y && |Octets(x)| == |Octets(y)|
    ensures FallsBehind(Octets(x), Octets(y))
  {
    var a, b := Octets(x), Octets(y);
    if |a| == 2 {
      assert FallsBehind(a[1..], b[1..]) || x / 0x40 < y / 0x40;
    } else if |a| == 3 {
      ThreeOctets(x, y);
    } else if |a| == 4 {
      FourOctets(x, y);
    }
  }

  /** Comparing the first units decides, or else the rest does. */
  lemma FallsBehindRest(a: seq<int>, b: seq<int>)
    requires a != [] && b != []
    requires a[0] < b[0] || (a[0] == b[0] && FallsBehind(a[1..], b[1..]))
    ensures FallsBehind(a, b)
  {
  }

  lemma FallsBehindThird(a: seq<int>, b: seq<int>)
    requires |a| == |b| == 3
    requires a[0] < b[0] || (a[0] == b[0] && (a[1] < b[1] || (a[1] == b[1] && a[2] < b[2])))
    ensures FallsBehind(a, b)
  {
    var c, d := a[1..], b[1..];
    if c[0] == d[0] && a[0] == b[0] {
      FallsBehindRest(c[1..], d[1..]);
    }
    if a[0] == b[0] {
      FallsBehindRest(c, d);
    }
  }

  lemma FallsBehindFourth(a: seq<int>, b: seq<int>)
    requires |a| == |b| == 4
    requires a[0] < b[0] ||
             (a[0] == b[0] && (a[1] < b[1] || (a[1] == b[1] && (a[2] < b[2] || (a[2] == b[2] && a[3] < b[3])))))
    ensures FallsBehind(a, b)
  {
    if a[0] == b[0] {
      FallsBehindThird(a[1..], b[1..]);
    }
  }

  lemma SixBitDigits(x: nat)
    ensures x == (x / 0x1000 * 0x40 + x / 0x40 % 0x40) * 0x40 + x % 0x40
    ensures x / 0x1000 == x / 0x4_0000 * 0x40 + x / 0x1000 % 0x40
  {
    assert x / 0x1000 == x / 0x40 / 0x40 && x / 0x4_0000 == x / 0x1000 / 0x40;
  }

  lemma ThreeOctets(x: Scalar, y: Scalar)
    requires x < y && |Octets(x)| == |Octets(y)| == 3
    ensures FallsBehind(Octets(x), Octets(y))
  {
    SixBitDigits(x);
    SixBitDigits(y);
    FallsBehindThird(Octets(x), Octets(y));
  }

  lemma FourOctets(x: Scalar, y: Scalar)
    requires x < y && |Octets(x)| == |Octets(y)| == 4
    ensures FallsBehind(Octets(x), Octets(y))
  {
    SixBitDigits(x);
    SixBitDigits(y);
    FallsBehindFourth(Octets(x), Octets(y));
  }

  /** The byte order of the octets is the code-point order of the scalar values. */
  lemma {:induction false} ByteOrderIsScalarOrder(a: seq<Scalar>, b: seq<Scalar>)
    ensures Precedes(OctetsOf(a), OctetsOf(b)) <==> Precedes(a, b)
    decreases |a| + |b|
  {
    if a == [] || b == [] {
      assert |b| > 0 ==> OctetsOf(b) != [];
    } else if a[0] == b[0] {
      CommonPrefix(Octets(a[0]), OctetsOf(a[1..]), OctetsOf(b[1..]));
      ByteOrderIsScalarOrder(a[1..], b[1..]);
    } else if a[0] < b[0] {
      SmallerOctets(a[0], b[0]);
      FallsBehindThen(Octets(a[0]), Octets(b[0]), OctetsOf(a[1..]), OctetsOf(b[1..]));
    } else {
      SmallerOctets(b[0], a[0]);
      FallsBehindThen(Octets(b[0]), Octets(a[0]), OctetsOf(b[1..]), OctetsOf(a[1..]));
      PrecedesTotal(OctetsOf(a), OctetsOf(b));
    }
  }

  lemma OctetsInjective(a: seq<Scalar>, b: seq<Scalar>)
    requires OctetsOf(a) == OctetsOf(b)
    ensures a == b
  {
    ByteOrderIsScalarOrder(a, b);
    ByteOrderIsScalarOrder(b, a);
    PrecedesTotal(OctetsOf(a), OctetsOf(b));
    PrecedesTotal(a, b);
  }

  // ----- well-formed text

  lemma {:induction false} ScalarsInjective(a: Text, b: Text)
    requires WellFormed(a) && WellFormed(b) && Scalars(a) == Scalars(b)
    ensures a == b
  {
    if a != [] && b != [] {
      assert Scalars(a)[0] == Scalars(b)[0];
      if StartsPair(a) {
        assert StartsPair(b);
        assert Scalars(a)[1..] == Scalars(a[2..]) && Scalars(b)[1..] == Scalars(b[2..]);
        ScalarsInjective(a[2..], b[2..]);
        assert a == [a[0], a[1]] + a[2..] && b == [b[0], b[1]] + b[2..];
      } else {
        assert !StartsPair(b);
        assert Scalars(a)[1..] == Scalars(a[1..]) && Scalars(b)[1..] == Scalars(b[1..]);
        ScalarsInjective(a[1..], b[1..]);
        assert a == [a[0]] + a[1..] && b == [b[0]] + b[1..];
      }
    }
  }

  /** On well-formed text nothing is replaced, so the encoding loses nothing. */
  lemma EncodeInjective(a: Text, b: Text)
    requires WellFormed(a) && WellFormed(b)
    ensures Encode(a) == Encode(b) <==> a == b
  {
    if Encode(a) == Encode(b) {
      OctetsInjective(Scalars(a), Scalars(b));
      ScalarsInjective(a, b);
    }
  }

  /** Comparing encodings compares code points. */
  lemma EncodedOrder(a: Text, b: Text)
    ensures Compare(Encode(a), Encode(b)) == Compare(Scalars(a), Scalars(b))
  {
    ByteOrderIsScalarOrder(Scalars(a), Scalars(b));
    ByteOrderIsScalarOrder(Scalars(b), Scalars(a));
  }

  // ----- concatenation

  lemma PairThen(a: Text, b: Text)
    requires StartsPair(a)
    ensures Scalars(a + b) == [PairScalar(a[0], a[1])] + Scalars(a[2..] + b)
    ensures WellFormed(a + b) <==> WellFormed(a[2..] + b)
  {
    assert (a + b)[2..] == a[2..] + b;
  }

  lemma UnitThen(a: Text, b: Text)
    requires a != [] && !IsHigh(a[0]) && !IsLow(a[0])
    ensures Scalars(a + b) == [UnitScalar(a[0])] + Scalars(a[1..] + b)
    ensures WellFormed(a + b) <==> WellFormed(a[1..] + b)
  {
    assert (a + b)[1..] == a[1..] + b;
  }

  lemma Regrouped<T>(x: T, s: seq<T>, t: seq<T>)
    ensures [x] + (s + t) == [x] + s + t
  {
  }

  lemma {:induction false} WellFormedThen(a: Text, b: Text)
    requires WellFormed(a)
    ensures Scalars(a + b) == Scalars(a) + Scalars(b)
    ensures WellFormed(a + b) <==> WellFormed(b)
  {
    if a == [] {
      assert a + b == b;
    } else if StartsPair(a) {
      PairThen(a, b);
      WellFormedThen(a[2..], b);
      Regrouped(PairScalar(a[0], a[1]), Scalars(a[2..]), Scalars(b));
    } else {
      UnitThen(a, b);
      WellFormedThen(a[1..], b);
      Regrouped(UnitScalar(a[0]), Scalars(a[1..]), Scalars(b));
    }
  }

  lemma {:induction false} OctetsThen(a: seq<Scalar>, b: seq<Scalar>)
    ensures OctetsOf(a + b) == OctetsOf(a) + OctetsOf(b)
  {
    if a == [] {
      assert a + b == b;
    } else {
      assert (a + b)[1..] == a[1..] + b;
      OctetsThen(a[1..], b);
    }
  }

  /** Encoding a well-formed chunk before the rest does not change the bytes. */
  lemma EncodeThen(a: Text, b: Text)
    requires WellFormed(a)
    ensures Encode(a + b) == Encode(a) + Encode(b)
  {
    WellFormedThen(a, b);
    OctetsThen(Scalars(a), Scalars(b));
  }
}
