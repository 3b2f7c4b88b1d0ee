/**
 The documentation source contract from its two JSON texts (`src/contracts/documentation-source.ts`):
 exact parsing, decoding of the fields, and the checks of `DocumentationSource`.
 */
module DocumentationText {
  import opened Options
  import opened CodeUnits
  import opened Utf8
  import opened JsonGrammar
  import opened ExactJson
  import opened DocumentationSource

  const MAXIMUM_DEPTH: int := 8

  const SCHEMA: Text := Ascii("schema")
  const SOURCE_ROOT: Text := Ascii("source_root")
  const SOURCE_ROOTS: Text := Ascii("source_roots")
  const SOURCE_MANIFEST: Text := Ascii("source_manifest")
  const AUDITED: Text := Ascii("audited_namespaces")
  const NON_DOCUMENTATION: Text := Ascii("non_documentation_roots")
  const EXCLUDED: Text := Ascii("excluded_from_source_hash")
  const ENTRY: Text := Ascii("entry")
  const DELIVERY: Text := Ascii("delivery_number")
  const ARCHIVE: Text := Ascii("archive_name")
  const SCOPE: Text := Ascii("scope")
  const AUTHORITY: Text := Ascii("authority_limit")
  const SOURCE_SET: Text := Ascii("source_set_sha256")
  const MEMBER_LIST: Text := Ascii("members")
  const PATH: Text := Ascii("path")
  const BYTES: Text := Ascii("bytes")
  const SHA256: Text := Ascii("sha256")

  const BASELINE_KEYS: seq<Text> := [SCHEMA, SOURCE_ROOT, SOURCE_ROOTS, SOURCE_MANIFEST, AUDITED, NON_DOCUMENTATION,
                                     EXCLUDED, ENTRY, DELIVERY, ARCHIVE, SCOPE, AUTHORITY]
  const MANIFEST_KEYS: seq<Text> := [SCHEMA, SOURCE_SET, MEMBER_LIST]
  const MEMBER_KEYS: seq<Text> := [PATH, BYTES, SHA256]

  const BASELINE_SCHEMA: Text := Ascii("sec.documentation-baseline/2")
  const MANIFEST_SCHEMA: Text := Ascii("sec.documentation-source-manifest/2")
  const PARENT: Text := Ascii("..")
  const MANIFEST_NAME: Text := Ascii("source-manifest.json")
  const ENTRY_PREFIX: Text := Ascii("../")

  /** The safe integer that a number token denotes natively; none for any other number and for negative zero. */
  type Integers = Text -> Option<int>

  // ----- fields

  /** The object has a member with this key and value. */
  ghost predicate Has(v: Json, key: Text, x: Json) {
    v.Obj? && Member(key, x) in v.members
  }

  function Lookup(members: seq<Member>, key: Text): Option<Json> {
    if members == [] then None
    else if members[0].key == key then Some(members[0].value)
    else Lookup(members[1..], key)
  }

  function Field(v: Json, key: Text): Option<Json> {
    if v.Obj? then Lookup(v.members, key) else None
  }

  lemma {:induction false} LookupFinds(members: seq<Member>, key: Text, x: Json)
    requires DistinctKeys(members)
    ensures Lookup(members, key) == Some(x) <==> Member(key, x) in members
  {
    if members != [] {
      var rest := members[1..];
      assert forall i :: 0 <= i < |rest| ==> rest[i] == members[i + 1];
      LookupFinds(rest, key, x);
      assert Member(key, x) in members <==> members[0] == Member(key, x) || Member(key, x) in rest;
    }
  }

  lemma FieldHas(v: Json, key: Text, x: Json)
    requires Unrepeated(v)
    ensures Field(v, key) == Some(x) <==> Has(v, key, x)
  {
    if v.Obj? {
      LookupFinds(v.members, key, x);
    }
  }

  function AsStrings(texts: seq<Text>): seq<Json> {
    seq(|texts|, i requires 0 <= i < |texts| => Str(texts[i]))
  }

  function TextAt(v: Json, key: Text): Option<Text> {
    match Field(v, key)
    case Some(Str(s)) => Some(s)
    case _ => None
  }

  lemma TextAtHas(v: Json, key: Text, s: Text)
    requires Unrepeated(v)
    ensures TextAt(v, key) == Some(s) <==> Has(v, key, Str(s))
  {
    FieldHas(v, key, Str(s));
  }

  /** An array of strings. */
  function TextsAt(v: Json, key: Text): Option<seq<Text>> {
    match Field(v, key)
    case Some(Arr(items)) =>
      if forall i :: 0 <= i < |items| ==> items[i].Str? then
        Some(seq(|items|, i requires 0 <= i < |items| && items[i].Str? => items[i].s))
      else None
    case _ => None
  }

  lemma TextsAtHas(v: Json, key: Text, texts: seq<Text>)
    requires Unrepeated(v)
    ensures TextsAt(v, key) == Some(texts) <==> Has(v, key, Arr(AsStrings(texts)))
  {
    FieldHas(v, key, Arr(AsStrings(texts)));
    if TextsAt(v, key) == Some(texts) {
      assert Field(v, key).value.items == AsStrings(texts);
    }
    if Has(v, key, Arr(AsStrings(texts))) {
      assert TextsAt(v, key).value == texts;
    }
  }

  // ----- the baseline

  /** `text` */
  predicate IsText(t: Text) {
    t != [] && 0 !in t && WellFormed(t)
  }

  ghost predicate HasText(v: Json, key: Text) {
    exists s :: Has(v, key, Str(s)) && IsText(s)
  }

  predicate TextFits(v: Json, key: Text) {
    TextAt(v, key).Some? && IsText(TextAt(v, key).value)
  }

  lemma TextFitsHas(v: Json, key: Text)
    requires Unrepeated(v)
    ensures TextFits(v, key) <==> HasText(v, key)
  {
    if TextFits(v, key) {
      TextAtHas(v, key, TextAt(v, key).value);
    }
    if HasText(v, key) {
      var s :| Has(v, key, Str(s)) && IsText(s);
      TextAtHas(v, key, s);
    }
  }

  /** The baseline object says exactly this boundary. */
  ghost predicate IsBaseline(v: Json, b: Boundary) {
    && Has(v, SCHEMA, Str(BASELINE_SCHEMA)) && Has(v, SOURCE_ROOT, Str(PARENT)) &&
       Has(v, SOURCE_MANIFEST, Str(MANIFEST_NAME))
    && Has(v, SOURCE_ROOTS, Arr(AsStrings(b.sourceRoots))) && Has(v, AUDITED, Arr(AsStrings(b.audited)))
    && Has(v, NON_DOCUMENTATION, Arr(AsStrings(b.nonDocumentation))) && Has(v, EXCLUDED, Arr(AsStrings(b.excluded)))
    && Has(v, ENTRY, Str(ENTRY_PREFIX + b.entrypoint)) && IsText(ENTRY_PREFIX + b.entrypoint)
    && HasText(v, DELIVERY) && HasText(v, ARCHIVE) && HasText(v, SCOPE) && HasText(v, AUTHORITY)
  }

  function DecodeLists(v: Json, entrypoint: Text): Option<Boundary> {
    var roots, audited := TextsAt(v, SOURCE_ROOTS), TextsAt(v, AUDITED);
    var nonDocumentation, excluded := TextsAt(v, NON_DOCUMENTATION), TextsAt(v, EXCLUDED);
    if roots.None? || audited.None? || nonDocumentation.None? || excluded.None? then None
    else Some(Boundary(roots.value, audited.value, nonDocumentation.value, excluded.value, entrypoint))
  }

  predicate HeaderFits(v: Json) {
    && TextAt(v, SCHEMA) == Some(BASELINE_SCHEMA) && TextAt(v, SOURCE_ROOT) == Some(PARENT)
    && TextAt(v, SOURCE_MANIFEST) == Some(MANIFEST_NAME)
    && TextFits(v, DELIVERY) && TextFits(v, ARCHIVE) && TextFits(v, SCOPE) && TextFits(v, AUTHORITY)
  }

  /** The fields of `parseDocumentationBoundary`. */
  function DecodeBaseline(v: Json): Option<Boundary> {
    if !HeaderFits(v) || !TextFits(v, ENTRY) || !(ENTRY_PREFIX <= TextAt(v, ENTRY).value) then None
    else DecodeLists(v, TextAt(v, ENTRY).value[|ENTRY_PREFIX|..])
  }

  lemma HeaderFitsHas(v: Json)
    requires Unrepeated(v)
    ensures HeaderFits(v) <==>
            && Has(v, SCHEMA, Str(BASELINE_SCHEMA)) && Has(v, SOURCE_ROOT, Str(PARENT)) &&
               Has(v, SOURCE_MANIFEST, Str(MANIFEST_NAME))
            && HasText(v, DELIVERY) && HasText(v, ARCHIVE) && HasText(v, SCOPE) && HasText(v, AUTHORITY)
  {
    TextAtHas(v, SCHEMA, BASELINE_SCHEMA);
    TextAtHas(v, SOURCE_ROOT, PARENT);
    TextAtHas(v, SOURCE_MANIFEST, MANIFEST_NAME);
    TextFitsHas(v, DELIVERY);
    TextFitsHas(v, ARCHIVE);
    TextFitsHas(v, SCOPE);
    TextFitsHas(v, AUTHORITY);
  }

  lemma ListsHave(v: Json, b: Boundary)
    requires Unrepeated(v)
    ensures DecodeLists(v, b.entrypoint) == Some(b) <==>
            && Has(v, SOURCE_ROOTS, Arr(AsStrings(b.sourceRoots))) && Has(v, AUDITED, Arr(AsStrings(b.audited)))
            && Has(v, NON_DOCUMENTATION, Arr(AsStrings(b.nonDocumentation))) &&
               Has(v, EXCLUDED, Arr(AsStrings(b.excluded)))
  {
    TextsAtHas(v, SOURCE_ROOTS, b.sourceRoots);
    TextsAtHas(v, AUDITED, b.audited);
    TextsAtHas(v, NON_DOCUMENTATION, b.nonDocumentation);
    TextsAtHas(v, EXCLUDED, b.excluded);
  }

  lemma EntryHas(v: Json, entrypoint: Text)
    requires Unrepeated(v)
    ensures Has(v, ENTRY, Str(ENTRY_PREFIX + entrypoint)) && IsText(ENTRY_PREFIX + entrypoint) <==>
            TextFits(v, ENTRY) && ENTRY_PREFIX <= TextAt(v, ENTRY).value &&
            TextAt(v, ENTRY).value[|ENTRY_PREFIX|..] == entrypoint
  {
    var prefix := ENTRY_PREFIX;
    TextAtHas(v, ENTRY, prefix + entrypoint);
    assert (prefix + entrypoint)[|prefix|..] == entrypoint;
    if TextFits(v, ENTRY) && prefix <= TextAt(v, ENTRY).value && TextAt(v, ENTRY).value[|prefix|..] == entrypoint {
      assert TextAt(v, ENTRY).value == prefix + entrypoint;
    }
  }

  /** Decoding finds exactly what the object says. */
  lemma DecodeBaselineExactly(v: Json, b: Boundary)
    requires Unrepeated(v)
    ensures DecodeBaseline(v) == Some(b) <==> IsBaseline(v, b)
  {
    HeaderFitsHas(v);
    ListsHave(v, b);
    EntryHas(v, b.entrypoint);
  }

  // ----- the manifest

  /** A member object with exactly these three fields. */
  ghost predicate IsMember(integers: Integers, v: Json, m: SourceMember) {
    && MeetsContract(v, MEMBER_KEYS)
    && Has(v, PATH, Str(m.path)) && Has(v, SHA256, Str(m.sha256))
    && exists token :: Has(v, BYTES, Num(token)) && integers(token) == Some(m.bytes)
  }

  function DecodeMember(integers: Integers, v: Json): Option<SourceMember> {
    if !MeetsContract(v, MEMBER_KEYS) then None else
    match (TextAt(v, PATH), Field(v, BYTES), TextAt(v, SHA256))
    case (Some(path), Some(Num(token)), Some(sha256)) =>
      if integers(token).Some? then Some(SourceMember(path, integers(token).value, sha256)) else None
    case _ => None
  }

  lemma DecodeMemberExactly(integers: Integers, v: Json, m: SourceMember)
    requires Unrepeated(v)
    ensures DecodeMember(integers, v) == Some(m) <==> IsMember(integers, v, m)
  {
    TextAtHas(v, PATH, m.path);
    TextAtHas(v, SHA256, m.sha256);
    if DecodeMember(integers, v) == Some(m) {
      FieldHas(v, BYTES, Field(v, BYTES).value);
    }
    if IsMember(integers, v, m) {
      var token :| Has(v, BYTES, Num(token)) && integers(token) == Some(m.bytes);
      FieldHas(v, BYTES, Num(token));
    }
  }

  function DecodeMembers(integers: Integers, items: seq<Json>): Option<seq<SourceMember>> {
    if items == [] then Some([]) else
    match (DecodeMember(integers, items[0]), DecodeMembers(integers, items[1..]))
    case (Some(first), Some(rest)) => Some([first] + rest)
    case _ => None
  }

  ghost predicate AreMembers(integers: Integers, items: seq<Json>, members: seq<SourceMember>) {
    |items| == |members| && forall i :: 0 <= i < |items| ==> IsMember(integers, items[i], members[i])
  }

  lemma {:induction false} DecodeMembersExactly(integers: Integers, items: seq<Json>, members: seq<SourceMember>)
    requires forall i :: 0 <= i < |items| ==> Unrepeated(items[i])
    ensures DecodeMembers(integers, items) == Some(members) <==> AreMembers(integers, items, members)
  {
    if items != [] && members != [] {
      var rest, more := items[1..], members[1..];
      DecodeMemberExactly(integers, items[0], members[0]);
      DecodeMembersExactly(integers, rest, more);
      assert members == [members[0]] + more;
      AreMembersFirst(integers, items, members);
    }
  }

  lemma AreMembersFirst(integers: Integers, items: seq<Json>, members: seq<SourceMember>)
    requires items != [] && members != []
    ensures AreMembers(integers, items, members) <==>
            IsMember(integers, items[0], members[0]) && AreMembers(integers, items[1..], members[1..])
  {
    var rest, more := items[1..], members[1..];
    if AreMembers(integers, rest, more) && IsMember(integers, items[0], members[0]) {
      forall i | 0 <= i < |items|
        ensures IsMember(integers, items[i], members[i])
      {
        if i > 0 {
          assert items[i] == rest[i - 1] && members[i] == more[i - 1];
        }
      }
    }
  }

  /** The manifest object says exactly this manifest. */
  ghost predicate IsManifest(integers: Integers, v: Json, m: Manifest) {
    && Has(v, SCHEMA, Str(MANIFEST_SCHEMA)) && Has(v, SOURCE_SET, Str(m.sourceSet))
    && exists items :: Has(v, MEMBER_LIST, Arr(items)) && AreMembers(integers, items, m.members)
  }

  function DecodeManifest(integers: Integers, v: Json): Option<Manifest> {
    match (TextAt(v, SCHEMA), TextAt(v, SOURCE_SET), Field(v, MEMBER_LIST))
    case (Some(schema), Some(sourceSet), Some(Arr(items))) =>
      var members := DecodeMembers(integers, items);
      if schema == MANIFEST_SCHEMA && members.Some? then Some(Manifest(sourceSet, members.value)) else None
    case _ => None
  }

  lemma ListedUnrepeated(v: Json, items: seq<Json>)
    requires Unrepeated(v) && Has(v, MEMBER_LIST, Arr(items))
    ensures forall i :: 0 <= i < |items| ==> Unrepeated(items[i])
  {
    var k :| 0 <= k < |v.members| && v.members[k] == Member(MEMBER_LIST, Arr(items));
    assert Unrepeated(v.members[k].value);
  }

  lemma DecodeManifestExactly(integers: Integers, v: Json, m: Manifest)
    requires Unrepeated(v)
    ensures DecodeManifest(integers, v) == Some(m) <==> IsManifest(integers, v, m)
  {
    TextAtHas(v, SCHEMA, MANIFEST_SCHEMA);
    TextAtHas(v, SOURCE_SET, m.sourceSet);
    if DecodeManifest(integers, v) == Some(m) {
      var items := Field(v, MEMBER_LIST).value.items;
      FieldHas(v, MEMBER_LIST, Arr(items));
      ListedUnrepeated(v, items);
      DecodeMembersExactly(integers, items, m.members);
    }
    if IsManifest(integers, v, m) {
      var items :| Has(v, MEMBER_LIST, Arr(items)) && AreMembers(integers, items, m.members);
      FieldHas(v, MEMBER_LIST, Arr(items));
      ListedUnrepeated(v, items);
      DecodeMembersExactly(integers, items, m.members);
    }
  }

  // ----- the whole contract

  /** A decoded file: its text and its length in bytes. */
  datatype File = File(text: Text, bytes: nat)

  /** A small enough file whose text is exact JSON with exactly these root keys. */
  ghost predicate Says(f: File, keys: seq<Text>, v: Json) {
    && f.bytes <= FILE_BYTES && ReadDocument(f.text) == Some(v)
    && ExactJson.Within(Depth(v), 0, Some(MAXIMUM_DEPTH)) && Unrepeated(v) && MeetsContract(v, keys)
  }

  /** The root keys are distinct, as the parser demands of them. */
  lemma KeysValid()
    ensures ValidContract(BASELINE_KEYS) && ValidContract(MANIFEST_KEYS)
  {
    assert |SCHEMA| == 6 && |SOURCE_ROOT| == 11 && |SOURCE_ROOTS| == 12 && |SOURCE_MANIFEST| == 15 && |AUDITED| == 18;
    assert |NON_DOCUMENTATION| == 23 && |EXCLUDED| == 25 && |ENTRY| == 5 && |DELIVERY| == 15 && |ARCHIVE| == 12;
    assert |SCOPE| == 5 && |AUTHORITY| == 15 && |SOURCE_SET| == 17 && |MEMBER_LIST| == 7;
    assert SOURCE_ROOTS[0] == 0x73 && ARCHIVE[0] == 0x61 && ENTRY[0] == 0x65 && SCOPE[0] == 0x73;
    assert SOURCE_MANIFEST[0] == 0x73 && DELIVERY[0] == 0x64 && AUTHORITY[0] == 0x61;
  }

  /** `decodeDocumentationJson` */
  method DecodeFile(f: File, keys: seq<Text>) returns (r: Option<Json>)
    requires ValidContract(keys)
    ensures forall v :: r == Some(v) <==> Says(f, keys, v)
  {
    if f.bytes > FILE_BYTES {
      return None;
    }
    var parsed := ParseExactJson(f.text, Some(keys), Some(MAXIMUM_DEPTH));
    return if parsed.Accepted? then Some(parsed.value) else None;
  }

  /** What the two files say is a boundary and a manifest that hold together. */
  ghost predicate Agrees(env: Env, integers: Integers, baseline: File, digest: Text, manifest: File, b: Boundary,
                         m: Manifest) {
    && (exists v :: Says(baseline, BASELINE_KEYS, v) && IsBaseline(v, b))
    && (exists v :: Says(manifest, MANIFEST_KEYS, v) && IsManifest(integers, v, m))
    && ContractHolds(env, b, m, baseline.bytes, digest)
  }

  datatype Source = Source(boundary: Boundary, manifest: Manifest)

  /**
   `parseDocumentationSourceContract`: accepts exactly the pairs of texts that say a boundary and a
   manifest that hold together, and yields those.
   */
  method ParseSource(env: Env, integers: Integers, baseline: File, digest: Text, manifest: File)
    returns (r: Option<Source>)
    ensures forall b, m :: r == Some(Source(b, m)) <==> Agrees(env, integers, baseline, digest, manifest, b, m)
  {
    KeysValid();
    var first := DecodeFile(baseline, BASELINE_KEYS);
    if first.None? {
      return None;
    }
    forall b
      ensures DecodeBaseline(first.value) == Some(b) <==> IsBaseline(first.value, b)
    {
      DecodeBaselineExactly(first.value, b);
    }
    var second := DecodeFile(manifest, MANIFEST_KEYS);
    if second.None? {
      return None;
    }
    forall m
      ensures DecodeManifest(integers, second.value) == Some(m) <==> IsManifest(integers, second.value, m)
    {
      DecodeManifestExactly(integers, second.value, m);
    }
    var b, m := DecodeBaseline(first.value), DecodeManifest(integers, second.value);
    if b.None? || m.None? {
      return None;
    }
    var ok := CheckContract(env, b.value, m.value, baseline.bytes, digest);
    return if ok then Some(Source(b.value, m.value)) else None;
  }
}
