/**
 What `src/contracts/canonical.ts` derives from the token stream: the coalesced encoding that is
 hashed, the streaming comparison, the sort by key, and the round trip through the exact parser.
 */
module CanonicalCompare {
  import opened Options
  import opened CodeUnits
  import opened JsonGrammar
  import opened CanonicalText
  import opened CanonicalTokens
  import opened CanonicalValue
  import opened CanonicalOrder
  import opened CanonicalNormaliser
  import opened CanonicalJson
  import ExactJson

  // ----- coalescing

  const HASH_BATCH: nat := 8192

  function Flatten(groups: seq<seq<Text>>): seq<Text> {
    if groups == [] then [] else Flatten(groups[..|groups| - 1]) + groups[|groups| - 1]
  }

  /** Each chunk is a run of whole tokens, and the runs make up the stream up to empty tokens at its end. */
  ghost predicate WholeTokens(chunks: seq<Text>, tokens: seq<Text>, groups: seq<seq<Text>>) {
    && |groups| == |chunks|
    && (forall i :: 0 <= i < |chunks| ==> chunks[i] == Concat(groups[i]))
    && (exists silent :: Flatten(groups) + silent == tokens && Concat(silent) == [])
  }

  /** Every chunk holds something, and every chunk but the last reaches the batch size. */
  ghost predicate Batched(chunks: seq<Text>) {
    && (forall i :: 0 <= i < |chunks| ==> chunks[i] != [])
    && (forall i :: 0 <= i < |chunks| - 1 ==> |chunks[i]| >= HASH_BATCH)
  }

  lemma {:induction false} ConcatThen(a: seq<Text>, b: seq<Text>)
    ensures Concat(a + b) == Concat(a) + Concat(b)
  {
    if a == [] {
      assert a + b == b;
    } else {
      assert (a + b)[1..] == a[1..] + b;
      ConcatThen(a[1..], b);
    }
  }

  lemma ConcatOne(t: Text)
    ensures Concat([t]) == t
  {
    assert [t][1..] == [];
  }

  lemma FlattenThen(groups: seq<seq<Text>>, group: seq<Text>)
    ensures Flatten(groups + [group]) == Flatten(groups) + group
  {
    assert (groups + [group])[..|groups|] == groups;
  }

  lemma {:induction false} ChunksConcat(chunks: seq<Text>, groups: seq<seq<Text>>)
    requires |groups| == |chunks| && forall i :: 0 <= i < |chunks| ==> chunks[i] == Concat(groups[i])
    ensures Concat(chunks) == Concat(Flatten(groups))
  {
    if chunks != [] {
      var n := |chunks| - 1;
      ChunksConcat(chunks[..n], groups[..n]);
      assert chunks == chunks[..n] + [chunks[n]];
      ConcatThen(chunks[..n], [chunks[n]]);
      ConcatOne(chunks[n]);
      ConcatThen(Flatten(groups[..n]), groups[n]);
    }
  }

  /** Coalescing changes nothing about the encoded text. */
  lemma WholeTokensConcat(chunks: seq<Text>, tokens: seq<Text>, groups: seq<seq<Text>>)
    requires WholeTokens(chunks, tokens, groups)
    ensures Concat(chunks) == Concat(tokens)
  {
    var silent :| Flatten(groups) + silent == tokens && Concat(silent) == [];
    ChunksConcat(chunks, groups);
    ConcatThen(Flatten(groups), silent);
  }

  /** The chunks so far and the buffer hold the tokens `read` so far. */
  ghost predicate Coalesced(chunks: seq<Text>, buffered: Text, read: seq<Text>, groups: seq<seq<Text>>,
                            current: seq<Text>) {
    && |groups| == |chunks|
    && (forall k :: 0 <= k < |chunks| ==> chunks[k] == Concat(groups[k]))
    && buffered == Concat(current)
    && Flatten(groups) + current == read
  }

  lemma TokenBuffered(chunks: seq<Text>, buffered: Text, read: seq<Text>, groups: seq<seq<Text>>, current: seq<Text>,
                      token: Text)
    requires Coalesced(chunks, buffered, read, groups, current)
    ensures Coalesced(chunks, buffered + token, read + [token], groups, current + [token])
  {
    ConcatThen(current, [token]);
    ConcatOne(token);
    assert Flatten(groups) + (current + [token]) == read + [token];
  }

  lemma BufferYielded(chunks: seq<Text>, buffered: Text, read: seq<Text>, groups: seq<seq<Text>>, current: seq<Text>)
    requires Coalesced(chunks, buffered, read, groups, current)
    ensures Coalesced(chunks + [buffered], [], read, groups + [current], [])
  {
    FlattenThen(groups, current);
    assert Flatten(groups + [current]) + [] == read;
  }

  /** The coalescing loop of `canonicalEncodingChunks`. */
  method Coalesce(tokens: seq<Text>) returns (chunks: seq<Text>)
    ensures Concat(chunks) == Concat(tokens)
    ensures Batched(chunks)
    ensures exists groups :: WholeTokens(chunks, tokens, groups)
  {
    chunks := [];
    var buffered: Text := [];
    ghost var groups: seq<seq<Text>>, current: seq<Text> := [], [];
    for i := 0 to |tokens|
      invariant forall k :: 0 <= k < |chunks| ==> |chunks[k]| >= HASH_BATCH
      invariant Coalesced(chunks, buffered, tokens[..i], groups, current)
    {
      TokenBuffered(chunks, buffered, tokens[..i], groups, current, tokens[i]);
      buffered, current := buffered + tokens[i], current + [tokens[i]];
      assert tokens[..i + 1] == tokens[..i] + [tokens[i]];
      if |buffered| >= HASH_BATCH {
        BufferYielded(chunks, buffered, tokens[..i + 1], groups, current);
        chunks, groups := chunks + [buffered], groups + [current];
        buffered, current := [], [];
      }
    }
    assert tokens[..|tokens|] == tokens;
    if |buffered| > 0 {
      BufferYielded(chunks, buffered, tokens, groups, current);
      chunks, groups := chunks + [buffered], groups + [current];
      current := [];
    }
    assert WholeTokens(chunks, tokens, groups);
    WholeTokensConcat(chunks, tokens, groups);
  }

  // ----- tokens of a heap value

  /** `canonicalTokens`: normalise, then stream. */
  method HeapTokens(h: Heap, value: Value) returns (r: Outcome<seq<Text>>)
    requires Closed(h) && Known(h, value)
    ensures r == match Normal(h, value, {}) case Err(e) => Err(e) case Ok(n) => Ok(Tokens(n))
  {
    var outcome, out := Canonicalise(h, value);
    match outcome
    case Err(e) => return Err(e);
    case Ok(v) =>
      var tokens := StreamTokens(ReadBack(out, v));
      return Ok(tokens);
  }

  /** `canonicalEncodingChunks` */
  method EncodingChunks(h: Heap, value: Value) returns (r: Outcome<seq<Text>>)
    requires Closed(h) && Known(h, value)
    ensures r.Err? <==> Normal(h, value, {}).Err?
    ensures r.Err? ==> r.error == Normal(h, value, {}).error
    ensures r.Ok? ==> Concat(r.value) == Print(Normal(h, value, {}).value) && Batched(r.value)
    ensures r.Ok? ==> exists groups :: WholeTokens(r.value, Tokens(Normal(h, value, {}).value), groups)
  {
    var tokens := HeapTokens(h, value);
    match tokens
    case Err(e) => return Err(e);
    case Ok(stream) =>
      var chunks := Coalesce(stream);
      TokensPrint(Normal(h, value, {}).value, []);
      return Ok(chunks);
  }

  /**
   `canonicalEquals`: the two streams are compared token by token. Failures of the left value come
   before those of the right one.
   */
  method CanonicalEquals(h: Heap, left: Value, right: Value) returns (r: Outcome<bool>)
    requires PlainData(h) && Known(h, left) && Known(h, right) && PlainNumber(left) && PlainNumber(right)
    ensures var a, b := Normal(h, left, {}), Normal(h, right, {});
            if a.Err? then r == Err(a.error)
            else if b.Err? then r == Err(b.error)
            else r.Ok? && (r.value <==> a.value == b.value) && (r.value <==> Print(a.value) == Print(b.value))
  {
    var leftTokens := HeapTokens(h, left);
    if leftTokens.Err? {
      return Err(leftTokens.error);
    }
    var rightTokens := HeapTokens(h, right);
    if rightTokens.Err? {
      return Err(rightTokens.error);
    }
    EqualTokens(h, left, right);
    var same := SameTokens(leftTokens.value, rightTokens.value);
    return Ok(same);
  }

  /** The comparison loop: equal as long as both streams last and agree, and only if they end together. */
  method SameTokens(left: seq<Text>, right: seq<Text>) returns (same: bool)
    ensures same <==> left == right
  {
    var i := 0;
    while i < |left| && i < |right|
      invariant i <= |left| && i <= |right|
      invariant forall k :: 0 <= k < i ==> left[k] == right[k]
    {
      if left[i] != right[i] {
        return false;
      }
      i := i + 1;
    }
    return i == |left| && i == |right|;
  }

  lemma EqualTokens(h: Heap, left: Value, right: Value)
    requires PlainData(h) && Known(h, left) && Known(h, right) && PlainNumber(left) && PlainNumber(right)
    requires Normal(h, left, {}).Ok? && Normal(h, right, {}).Ok?
    ensures var a, b := Normal(h, left, {}).value, Normal(h, right, {}).value;
            (Tokens(a) == Tokens(b) <==> a == b) && (Print(a) == Print(b) <==> a == b)
  {
    NormalIsNormal(h, left, {});
    NormalIsNormal(h, right, {});
    var a, b := Normal(h, left, {}).value, Normal(h, right, {}).value;
    NormalFormPrintable(a);
    NormalFormPrintable(b);
    TokensInjective(a, b);
    PrintInjective(a, b);
  }

  // ----- one representative per key

  /** Canonically equal: both values are supported and have one normal form. */
  ghost predicate Agree(h: Heap, left: Value, right: Value)
    requires Closed(h) && Known(h, left) && Known(h, right)
  {
    Normal(h, left, {}).Ok? && Normal(h, left, {}) == Normal(h, right, {})
  }

  datatype Keyed = Unique(values: seq<Value>) | Conflicting | Unequatable(error: Error)

  ghost predicate Comparable(h: Heap, values: seq<Value>) {
    PlainData(h) && forall i :: 0 <= i < |values| ==> Known(h, values[i]) && PlainNumber(values[i])
  }

  /** No earlier value has this key. */
  ghost predicate IsFirst(values: seq<Value>, keyOf: Value -> Text, i: int) {
    0 <= i < |values| && forall k :: 0 <= k < i ==> keyOf(values[k]) != keyOf(values[i])
  }

  /** `v` is the first value, among the first `n`, that has the key `k`. */
  ghost predicate FirstWith(values: seq<Value>, keyOf: Value -> Text, n: nat, k: Text, v: Value) {
    exists i :: 0 <= i < n && IsFirst(values, keyOf, i) && values[i] == v && keyOf(v) == k
  }

  ghost predicate KeysAgreeTo(h: Heap, values: seq<Value>, keyOf: Value -> Text, n: nat)
    requires Comparable(h, values) && n <= |values|
  {
    forall i, j :: 0 <= i < j < n && keyOf(values[i]) == keyOf(values[j]) ==> Agree(h, values[i], values[j])
  }

  ghost predicate KeysAgree(h: Heap, values: seq<Value>, keyOf: Value -> Text)
    requires Comparable(h, values)
  {
    KeysAgreeTo(h, values, keyOf, |values|)
  }

  lemma OneMoreAgrees(h: Heap, values: seq<Value>, keyOf: Value -> Text, n: nat, f: nat)
    requires Comparable(h, values) && n < |values| && KeysAgreeTo(h, values, keyOf, n)
    requires f < n && IsFirst(values, keyOf, f) && keyOf(values[f]) == keyOf(values[n]) &&
             Agree(h, values[f], values[n])
    ensures KeysAgreeTo(h, values, keyOf, n + 1)
  {
    forall i | 0 <= i < n && keyOf(values[i]) == keyOf(values[n])
      ensures Agree(h, values[i], values[n])
    {
      assert i == f || f < i;
    }
  }

  /** The map holds the first value of every key met so far, and `order` lists its keys. */
  ghost predicate Gathered(values: seq<Value>, keyOf: Value -> Text, n: nat, byKey: map<Text, Value>, order: seq<Text>)
    requires n <= |values|
  {
    && (forall i :: 0 <= i < n ==> keyOf(values[i]) in byKey)
    && (forall k :: k in byKey ==> FirstWith(values, keyOf, n, k, byKey[k]))
    && Distinct(order) && (forall k :: k in order <==> k in byKey)
  }

  lemma FirstGathered(values: seq<Value>, keyOf: Value -> Text, n: nat, byKey: map<Text, Value>, order: seq<Text>,
                      i: int)
    requires n <= |values| && Gathered(values, keyOf, n, byKey, order) && i < n && IsFirst(values, keyOf, i)
    ensures byKey[keyOf(values[i])] == values[i]
  {
    var k := keyOf(values[i]);
    assert FirstWith(values, keyOf, n, k, byKey[k]);
    var j :| 0 <= j < n && IsFirst(values, keyOf, j) && values[j] == byKey[k] && keyOf(values[j]) == k;
    assert i == j by {
      assert !(i < j) && !(j < i);
    }
  }

  lemma NewKeyGathered(values: seq<Value>, keyOf: Value -> Text, n: nat, byKey: map<Text, Value>, order: seq<Text>)
    requires n < |values| && Gathered(values, keyOf, n, byKey, order) && keyOf(values[n]) !in byKey
    ensures Gathered(values, keyOf, n + 1, byKey[keyOf(values[n]) := values[n]], order + [keyOf(values[n])])
  {
    var key := keyOf(values[n]);
    var byKey' := byKey[key := values[n]];
    assert IsFirst(values, keyOf, n);
    forall k | k in byKey'
      ensures FirstWith(values, keyOf, n + 1, k, byKey'[k])
    {
      if k != key {
        assert FirstWith(values, keyOf, n, k, byKey[k]);
      }
    }
  }

  datatype Addition = Added | Refused(reason: Keyed)

  /** A value whose key is already taken is compared with the representative of that key. */
  method CompareWithFirst(h: Heap, values: seq<Value>, keyOf: Value -> Text, n: nat, first: Value) returns (r: Addition)
    requires Comparable(h, values) && n < |values| && KeysAgreeTo(h, values, keyOf, n)
    requires FirstWith(values, keyOf, n, keyOf(values[n]), first)
    ensures r.Added? ==> KeysAgreeTo(h, values, keyOf, n + 1)
    ensures r.Refused? ==> !KeysAgree(h, values, keyOf) && !r.reason.Unique?
  {
    ghost var f :| 0 <= f < n && IsFirst(values, keyOf, f) && values[f] == first;
    var same := CanonicalEquals(h, first, values[n]);
    if same != Ok(true) {
      assert !Agree(h, values[f], values[n]);
      return Refused(if same.Err? then Unequatable(same.error) else Conflicting);
    }
    OneMoreAgrees(h, values, keyOf, n, f);
    return Added;
  }

  /**
   `uniqueSortedByKey`. It succeeds exactly when values with one key are canonically equal, and then
   yields the first value of every key, in strictly ascending key order.
   */
  method UniqueSortedByKey(h: Heap, values: seq<Value>, keyOf: Value -> Text) returns (r: Keyed)
    requires Comparable(h, values)
    ensures r.Unique? <==> KeysAgree(h, values, keyOf)
    ensures r.Unique? ==> AscendingBy(r.values, keyOf)
    ensures r.Unique? ==> forall v :: v in r.values <==> FirstWith(values, keyOf, |values|, keyOf(v), v)
  {
    var byKey: map<Text, Value> := map[];
    var order: seq<Text> := [];
    for n := 0 to |values|
      invariant Gathered(values, keyOf, n, byKey, order) && KeysAgreeTo(h, values, keyOf, n)
    {
      var key := keyOf(values[n]);
      if key !in byKey {
        NewKeyGathered(values, keyOf, n, byKey, order);
        NewKeyAgrees(h, values, keyOf, n, byKey, order);
        byKey, order := byKey[key := values[n]], order + [key];
      } else {
        var addition := CompareWithFirst(h, values, keyOf, n, byKey[key]);
        if addition.Refused? {
          return addition.reason;
        }
        StillGathered(values, keyOf, n, byKey, order);
      }
    }
    var sorted := SortBy(order, Identity);
    SortedKeys(values, keyOf, byKey, order, sorted);
    r := Unique(seq(|sorted|, i requires 0 <= i < |sorted| => Looked(byKey, sorted[i])));
    SortedRepresentatives(values, keyOf, byKey, order, sorted, r.values);
  }

  lemma NewKeyAgrees(h: Heap, values: seq<Value>, keyOf: Value -> Text, n: nat, byKey: map<Text, Value>,
                     order: seq<Text>)
    requires Comparable(h, values) && n < |values| && KeysAgreeTo(h, values, keyOf, n)
    requires Gathered(values, keyOf, n, byKey, order) && keyOf(values[n]) !in byKey
    ensures KeysAgreeTo(h, values, keyOf, n + 1)
  {
  }

  function Looked(byKey: map<Text, Value>, key: Text): Value {
    if key in byKey then byKey[key] else NullValue
  }

  lemma StillGathered(values: seq<Value>, keyOf: Value -> Text, n: nat, byKey: map<Text, Value>, order: seq<Text>)
    requires n < |values| && Gathered(values, keyOf, n, byKey, order) && keyOf(values[n]) in byKey
    ensures Gathered(values, keyOf, n + 1, byKey, order)
  {
    forall k | k in byKey
      ensures FirstWith(values, keyOf, n + 1, k, byKey[k])
    {
      assert FirstWith(values, keyOf, n, k, byKey[k]);
    }
  }

  lemma SortedKeys(values: seq<Value>, keyOf: Value -> Text, byKey: map<Text, Value>, order: seq<Text>,
                   sorted: seq<Text>)
    requires Gathered(values, keyOf, |values|, byKey, order) && sorted == SortBy(order, Identity)
    ensures AscendingBy(sorted, Identity) && forall k :: k in sorted <==> k in byKey
  {
    SortOfDistinctAscends(order, Identity);
    SameElements(order, sorted);
  }

  lemma SortedRepresentatives(values: seq<Value>, keyOf: Value -> Text, byKey: map<Text, Value>, order: seq<Text>,
                              sorted: seq<Text>, r: seq<Value>)
    requires Gathered(values, keyOf, |values|, byKey, order)
    requires AscendingBy(sorted, Identity) && forall k :: k in sorted <==> k in byKey
    requires |r| == |sorted| && forall i :: 0 <= i < |r| ==> r[i] == Looked(byKey, sorted[i])
    ensures AscendingBy(r, keyOf)
    ensures forall v :: v in r <==> FirstWith(values, keyOf, |values|, keyOf(v), v)
  {
    forall i | 0 <= i < |sorted|
      ensures keyOf(r[i]) == sorted[i] && FirstWith(values, keyOf, |values|, sorted[i], r[i])
    {
      assert sorted[i] in byKey;
    }
    forall i, j | 0 <= i < j < |r|
      ensures Less(keyOf(r[i]), keyOf(r[j]))
    {
      assert Less(Identity(sorted[i]), Identity(sorted[j]));
    }
    forall v | FirstWith(values, keyOf, |values|, keyOf(v), v)
      ensures v in r
    {
      var i :| 0 <= i < |values| && IsFirst(values, keyOf, i) && values[i] == v;
      FirstGathered(values, keyOf, |values|, byKey, order, i);
      assert keyOf(v) in sorted;
      var k :| 0 <= k < |sorted| && sorted[k] == keyOf(v);
      assert r[k] == v;
    }
  }

  // ----- round trip through the exact parser

  /** Keys in the printed order do not repeat. */
  lemma {:induction false} NormalFormUnrepeated(v: Json)
    requires NormalForm(v)
    ensures ExactJson.Unrepeated(v)
  {
    match v
    case Arr(items) =>
      forall i | 0 <= i < |items|
        ensures ExactJson.Unrepeated(items[i])
      {
        NormalFormUnrepeated(items[i]);
      }
    case Obj(members) =>
      forall i, j | 0 <= i < j < |members|
        ensures members[i].key != members[j].key
      {
        if members[i].key == members[j].key {
          assert MemberRank(members[i]) == MemberRank(members[j]);
          LessIrreflexive(MemberRank(members[i]));
        }
      }
      forall i | 0 <= i < |members|
        ensures ExactJson.Unrepeated(members[i].value)
      {
        NormalFormUnrepeated(members[i].value);
      }
    case _ =>
  }

  /** Parsing the canonical encoding gives the normal form exactly when the bound admits its nesting. */
  lemma EncodingParses(h: Heap, value: Value, bound: Option<nat>)
    requires PlainData(h) && Known(h, value) && PlainNumber(value) && Normal(h, value, {}).Ok?
    ensures var n := Normal(h, value, {}).value;
            var parse := ExactJson.ParseText(Concat(Tokens(n)), bound);
            (parse == ExactJson.Parsed(n) <==> ExactJson.Within(ExactJson.Depth(n), 0, bound)) &&
            (parse.Parsed? <==> ExactJson.Within(ExactJson.Depth(n), 0, bound))
  {
    var n := Normal(h, value, {}).value;
    NormalIsNormal(h, value, {});
    NormalFormPrintable(n);
    NormalFormUnrepeated(n);
    TokensPrint(n, []);
    PrintReadsBack(n);
    ExactJson.ParseTextMeans(Print(n), bound);
  }
}
