/**
 The printed key order of canonical values, and the independence of normal forms from the order in
 which keys were inserted.
 */
module CanonicalOrder {
  import opened CodeUnits
  import opened JsonGrammar
  import opened CanonicalText
  import opened CanonicalValue

  // ----- array indices in numeric order

  ghost predicate Digits(a: Text) {
    forall i :: 0 <= i < |a| ==> IsDigit(a[i])
  }

  function Pow10(n: nat): nat {
    if n == 0 then 1 else 10 * Pow10(n - 1)
  }

  lemma {:induction false} ValueBelow(a: Text)
    requires Digits(a)
    ensures 0 <= DigitsValue(a) < Pow10(|a|)
  {
    if a != [] {
      ValueBelow(a[..|a| - 1]);
    }
  }

  lemma {:induction false} ValueAtLeast(a: Text)
    requires Digits(a) && a != [] && a[0] != ZERO
    ensures Pow10(|a| - 1) <= DigitsValue(a)
  {
    if |a| > 1 {
      ValueAtLeast(a[..|a| - 1]);
    } else {
      assert a[..0] == [];
    }
  }

  lemma {:induction false} PowMonotone(m: nat, n: nat)
    requires m <= n
    ensures Pow10(m) <= Pow10(n)
  {
    if m < n {
      PowMonotone(m, n - 1);
    }
  }

  /** Comparing texts of one length looks at the last unit only when the rest is equal. */
  lemma {:induction false} LessByLast(a: Text, b: Text, x: CodeUnit, y: CodeUnit)
    requires |a| == |b|
    ensures Less(a + [x], b + [y]) <==> Less(a, b) || (a == b && x < y)
  {
    if a == [] {
      assert a + [x] == [x] && b + [y] == [y];
    } else {
      assert (a + [x])[1..] == a[1..] + [x] && (b + [y])[1..] == b[1..] + [y];
      LessByLast(a[1..], b[1..], x, y);
      assert a == [a[0]] + a[1..] && b == [b[0]] + b[1..];
    }
  }

  lemma {:induction false} SameLengthNumeric(a: Text, b: Text)
    requires Digits(a) && Digits(b) && |a| == |b|
    ensures Less(a, b) <==> DigitsValue(a) < DigitsValue(b)
    ensures a == b <==> DigitsValue(a) == DigitsValue(b)
  {
    if a != [] {
      var n := |a| - 1;
      assert a == a[..n] + [a[n]] && b == b[..n] + [b[n]];
      SameLengthNumeric(a[..n], b[..n]);
      LessByLast(a[..n], b[..n], a[n], b[n]);
    }
  }

  /** The rank of array indices is their numeric order. */
  lemma IndexKeyIsNumeric(a: Text, b: Text)
    requires IsArrayIndex(a) && IsArrayIndex(b)
    ensures Less(IndexKey(a), IndexKey(b)) <==> DigitsValue(a) < DigitsValue(b)
  {
    assert IndexKey(a)[1..] == a && IndexKey(b)[1..] == b;
    if |a| == |b| {
      SameLengthNumeric(a, b);
    } else if |a| < |b| {
      ShorterIsSmaller(a, b);
    } else {
      ShorterIsSmaller(b, a);
    }
  }

  lemma ShorterIsSmaller(a: Text, b: Text)
    requires IsArrayIndex(a) && IsArrayIndex(b) && |a| < |b|
    ensures DigitsValue(a) < DigitsValue(b)
  {
    ValueBelow(a);
    ValueAtLeast(b);
    PowMonotone(|a|, |b| - 1);
  }

  // ----- the order of an object built in code-unit order

  function MemberKey(m: Member): Text {
    m.key
  }

  lemma RankInjective(a: Member, b: Member)
    requires MemberRank(a) == MemberRank(b)
    ensures a.key == b.key
  {
    assert MemberRank(a)[1..] == MemberRank(b)[1..];
    if IsArrayIndex(a.key) {
      assert MemberRank(a)[1..] == IndexKey(a.key) && IndexKey(a.key)[1..] == a.key;
      assert MemberRank(b)[1..] == IndexKey(b.key) && IndexKey(b.key)[1..] == b.key;
    }
  }

  lemma FirstAscends(first: Member, rest: seq<Member>)
    requires AscendingBy(rest, MemberKey) && forall m :: m in rest ==> Less(first.key, m.key)
    ensures AscendingBy([first] + rest, MemberKey)
  {
  }

  lemma {:induction false} IndexMembersOf(members: seq<Member>)
    requires AscendingBy(members, MemberKey)
    ensures AscendingBy(IndexMembers(members), MemberKey)
    ensures forall m :: m in IndexMembers(members) <==> m in members && IsArrayIndex(m.key)
  {
    if members != [] {
      var rest := members[1..];
      IndexMembersOf(rest);
      assert members == [members[0]] + rest;
      forall m | m in rest
        ensures Less(members[0].key, m.key)
      {
        var i :| 0 <= i < |rest| && rest[i] == m;
        assert members[i + 1] == m;
      }
      FirstAscends(members[0], IndexMembers(rest));
    }
  }

  lemma {:induction false} NamedMembersOf(members: seq<Member>)
    requires AscendingBy(members, MemberKey)
    ensures AscendingBy(NamedMembers(members), MemberKey)
    ensures forall m :: m in NamedMembers(members) <==> m in members && !IsArrayIndex(m.key)
  {
    if members != [] {
      var rest := members[1..];
      NamedMembersOf(rest);
      assert members == [members[0]] + rest;
      forall m | m in rest
        ensures Less(members[0].key, m.key)
      {
        var i :| 0 <= i < |rest| && rest[i] == m;
        assert members[i + 1] == m;
      }
      FirstAscends(members[0], NamedMembers(rest));
    }
  }

  lemma AscendingIsDistinct(members: seq<Member>)
    requires AscendingBy(members, MemberKey)
    ensures DistinctBy(members, MemberKey)
  {
    forall i, j | 0 <= i < j < |members|
      ensures members[i].key != members[j].key
    {
      LessIrreflexive(members[i].key);
    }
  }

  /** Keys print as array indices ascending, then all other keys in code-unit order. */
  lemma PropertyOrderAscends(members: seq<Member>)
    requires AscendingBy(members, MemberKey)
    ensures AscendingBy(PropertyOrder(members), MemberRank)
    ensures forall m :: m in PropertyOrder(members) <==> m in members
  {
    var indices := IndexMembers(members);
    var named := NamedMembers(members);
    IndexMembersOf(members);
    NamedMembersOf(members);
    AscendingIsDistinct(indices);
    forall i, j | 0 <= i < j < |indices|
      ensures MemberRank(indices[i]) != MemberRank(indices[j])
    {
      if MemberRank(indices[i]) == MemberRank(indices[j]) {
        RankInjective(indices[i], indices[j]);
      }
    }
    SortOfDistinctAscends(indices, MemberRank);
    var sorted := SortBy(indices, MemberRank);
    SameElements(indices, sorted);
    NamedAscends(named);
    JoinAscends(sorted, named);
  }

  lemma NamedAscends(named: seq<Member>)
    requires AscendingBy(named, MemberKey) && forall m :: m in named ==> !IsArrayIndex(m.key)
    ensures AscendingBy(named, MemberRank)
  {
    forall i, j | 0 <= i < j < |named|
      ensures Less(MemberRank(named[i]), MemberRank(named[j]))
    {
      assert ([1] + named[i].key)[1..] == named[i].key && ([1] + named[j].key)[1..] == named[j].key;
    }
  }

  lemma JoinAscends(indices: seq<Member>, named: seq<Member>)
    requires AscendingBy(indices, MemberRank) && AscendingBy(named, MemberRank)
    requires forall m :: m in indices ==> IsArrayIndex(m.key)
    requires forall m :: m in named ==> !IsArrayIndex(m.key)
    ensures AscendingBy(indices + named, MemberRank)
  {
    var all := indices + named;
    forall i, j | 0 <= i < j < |all|
      ensures Less(MemberRank(all[i]), MemberRank(all[j]))
    {
      if i < |indices| <= j {
        assert all[i] in indices && all[j] in named;
      }
    }
  }

  // ----- normal forms

  /** Keys in the printed order and numbers printed: what the normaliser produces. */
  ghost predicate NormalForm(v: Json) {
    match v
    case Num(token) => IsNumberToken(token)
    case Arr(items) => forall i :: 0 <= i < |items| ==> NormalForm(items[i])
    case Obj(members) => AscendingBy(members, MemberRank) &&
                         forall i :: 0 <= i < |members| ==> NormalForm(members[i].value)
    case _ => true
  }

  lemma {:induction false} NormalFormPrintable(v: Json)
    requires NormalForm(v)
    ensures Printable(v)
  {
    match v
    case Arr(items) =>
      forall i | 0 <= i < |items|
        ensures Printable(items[i])
      {
        NormalFormPrintable(items[i]);
      }
    case Obj(members) =>
      forall i | 0 <= i < |members|
        ensures Printable(members[i].value)
      {
        NormalFormPrintable(members[i].value);
      }
    case _ =>
  }

  /** A heap of plain data: distinct keys per object, numbers by their printed token. */
  ghost predicate PlainData(h: Heap) {
    && Closed(h)
    && (forall r :: r in h && h[r].PlainObject? ==> DistinctBy(h[r].properties, PropertyName))
    && (forall r, i :: r in h && 0 <= i < |Entries(h[r])| ==> PlainNumber(Entries(h[r])[i].value))
  }

  predicate PlainNumber(v: Value) {
    v.NumberValue? && v.n.Finite? ==> IsNumberToken(v.n.token)
  }

  /** The entries of an object ascend by key. */
  lemma EntriesAscend(o: Object, i: nat, j: nat)
    requires o.PlainObject? && DistinctBy(o.properties, PropertyName) && i < j < |Entries(o)|
    ensures Entries(o)[i].key.Some? && Entries(o)[j].key.Some?
    ensures Less(Entries(o)[i].key.value, Entries(o)[j].key.value)
  {
    SortOfDistinctAscends(o.properties, PropertyName);
    var sorted := SortBy(o.properties, PropertyName);
    assert Less(PropertyName(sorted[i]), PropertyName(sorted[j]));
  }

  lemma BuildIsNormal(o: Object, values: seq<Json>)
    requires !o.ForeignObject? && |values| == |Entries(o)|
    requires o.PlainObject? ==> DistinctBy(o.properties, PropertyName)
    requires forall i :: 0 <= i < |values| ==> NormalForm(values[i])
    ensures NormalForm(Build(o.ArrayObject?, Entries(o), values))
  {
    if o.PlainObject? {
      var members := BuildMembers(Entries(o), values);
      forall i, j | 0 <= i < j < |members|
        ensures Less(MemberKey(members[i]), MemberKey(members[j]))
      {
        EntriesAscend(o, i, j);
      }
      PropertyOrderAscends(members);
      var ordered := PropertyOrder(members);
      forall i | 0 <= i < |ordered|
        ensures NormalForm(ordered[i].value)
      {
        assert ordered[i] in members;
        var k :| 0 <= k < |members| && members[k] == ordered[i];
        assert ordered[i].value == values[k];
      }
    }
  }

  lemma {:induction false} NormalIsNormal(h: Heap, v: Value, ancestors: set<Ref>)
    requires PlainData(h) && Known(h, v) && PlainNumber(v) && Normal(h, v, ancestors).Ok?
    ensures NormalForm(Normal(h, v, ancestors).value)
    decreases h.Keys - ancestors, 1, 0
  {
    if v.Reference? {
      assert v.ref in h.Keys - ancestors;
      var o := h[v.ref];
      EntriesAreNormal(h, Entries(o), ancestors + {v.ref});
      BuildIsNormal(o, NormalEntries(h, Entries(o), ancestors + {v.ref}).value);
    }
  }

  lemma {:induction false} EntriesAreNormal(h: Heap, entries: seq<Entry>, ancestors: set<Ref>)
    requires PlainData(h)
    requires forall i :: 0 <= i < |entries| ==> Known(h, entries[i].value) && PlainNumber(entries[i].value)
    requires NormalEntries(h, entries, ancestors).Ok?
    ensures forall i :: 0 <= i < |entries| ==> NormalForm(NormalEntries(h, entries, ancestors).value[i])
    decreases h.Keys - ancestors, 3, |entries|
  {
    if entries != [] {
      NormalIsNormal(h, entries[0].value, ancestors);
      EntriesAreNormal(h, entries[1..], ancestors);
    }
  }

  // ----- insertion order does not matter

  /** The same object up to the order of its properties. */
  ghost predicate SameObject(a: Object, b: Object) {
    a == b || (a.PlainObject? && b.PlainObject? && multiset(a.properties) == multiset(b.properties))
  }

  ghost predicate SameHeap(g: Heap, h: Heap) {
    g.Keys == h.Keys && forall r :: r in g ==> SameObject(g[r], h[r])
  }

  lemma SameEntries(a: Object, b: Object)
    requires SameObject(a, b)
    requires a.PlainObject? ==> DistinctBy(a.properties, PropertyName)
    requires b.PlainObject? ==> DistinctBy(b.properties, PropertyName)
    ensures Entries(a) == Entries(b)
  {
    if a != b {
      SortOfDistinctAscends(a.properties, PropertyName);
      SortOfDistinctAscends(b.properties, PropertyName);
      SameElements(SortBy(a.properties, PropertyName), SortBy(b.properties, PropertyName));
      AscendingUnique(SortBy(a.properties, PropertyName), SortBy(b.properties, PropertyName), PropertyName);
    }
  }

  /** Reordering the properties of any objects of the heap leaves every normal form and every error as it was. */
  lemma {:induction false} InsertionOrderIrrelevant(g: Heap, h: Heap, v: Value, ancestors: set<Ref>)
    requires PlainData(g) && PlainData(h) && SameHeap(g, h) && Known(g, v)
    ensures Normal(g, v, ancestors) == Normal(h, v, ancestors)
    decreases h.Keys - ancestors, 1, 0
  {
    if v.Reference? && v.ref !in ancestors {
      assert v.ref in h.Keys - ancestors;
      SameEntries(g[v.ref], h[v.ref]);
      EntriesOrderIrrelevant(g, h, Entries(g[v.ref]), ancestors + {v.ref});
    }
  }

  lemma {:induction false} EntriesOrderIrrelevant(g: Heap, h: Heap, entries: seq<Entry>, ancestors: set<Ref>)
    requires PlainData(g) && PlainData(h) && SameHeap(g, h)
    requires forall i :: 0 <= i < |entries| ==> Known(g, entries[i].value)
    ensures NormalEntries(g, entries, ancestors) == NormalEntries(h, entries, ancestors)
    decreases h.Keys - ancestors, 3, |entries|
  {
    if entries != [] {
      InsertionOrderIrrelevant(g, h, entries[0].value, ancestors);
      EntriesOrderIrrelevant(g, h, entries[1..], ancestors);
    }
  }
}
