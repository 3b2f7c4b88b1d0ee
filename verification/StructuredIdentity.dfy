/**
 Issuing, verifying and migrating structured identities (`src/contracts/structured-identity.ts`) over
 hashers that own one engine each (`src/contracts/content-digest.ts`).
 */
module StructuredIdentity {
  import opened Options
  import opened CodeUnits
  import opened JsonGrammar
  import opened CanonicalText
  import opened CanonicalTokens
  import opened CanonicalValue
  import opened CanonicalOrder
  import opened CanonicalCompare
  import opened Utf8
  import opened IdentityProfile

  // ----- digest texts

  datatype Algorithm = Sha256 | Blake3

  const DIGEST_BYTES: nat := 32

  /** "sha256:" or "blake3:" */
  function Label(a: Algorithm): Text {
    match a
    case Sha256 => [0x73, 0x68, 0x61, 0x32, 0x35, 0x36, 0x3A]
    case Blake3 => [0x62, 0x6C, 0x61, 0x6B, 0x65, 0x33, 0x3A]
  }

  predicate IsLowerHex(c: CodeUnit) {
    IsDigit(c) || 0x61 <= c <= 0x66
  }

  predicate IsDigest(t: Text, a: Algorithm) {
    Label(a) <= t && |t| == 71 && forall i :: 7 <= i < |t| ==> IsLowerHex(t[i])
  }

  function Hex(b: Bytes): Text {
    if b == [] then [] else [HexDigit(b[0] / 16), HexDigit(b[0] % 16)] + Hex(b[1..])
  }

  function DigestText(a: Algorithm, b: Bytes): Text {
    Label(a) + Hex(b)
  }

  lemma {:induction false} HexIsHex(b: Bytes)
    ensures |Hex(b)| == 2 * |b| && forall i :: 0 <= i < |Hex(b)| ==> IsLowerHex(Hex(b)[i])
  {
    if b != [] {
      HexIsHex(b[1..]);
    }
  }

  lemma {:induction false} HexInjective(b: Bytes, c: Bytes)
    requires Hex(b) == Hex(c)
    ensures b == c
  {
    HexIsHex(b);
    HexIsHex(c);
    if b != [] {
      assert Hex(b)[0] == Hex(c)[0] && Hex(b)[1] == Hex(c)[1];
      assert Hex(b)[2..] == Hex(b[1..]) && Hex(c)[2..] == Hex(c[1..]);
      assert b[0] == b[0] / 16 * 16 + b[0] % 16 && c[0] == c[0] / 16 * 16 + c[0] % 16;
      HexInjective(b[1..], c[1..]);
      assert b == [b[0]] + b[1..] && c == [c[0]] + c[1..];
    }
  }

  lemma DigestTextParses(a: Algorithm, b: Bytes)
    ensures IsDigest(DigestText(a, b), a) <==> |b| == DIGEST_BYTES
  {
    HexIsHex(b);
  }

  lemma DigestTextInjective(a: Algorithm, b: Bytes, c: Bytes)
    ensures DigestText(a, b) == DigestText(a, c) <==> b == c
  {
    if DigestText(a, b) == DigestText(a, c) {
      assert DigestText(a, b)[7..] == Hex(b) && DigestText(a, c)[7..] == Hex(c);
      HexInjective(b, c);
    }
  }

  // ----- hashers

  /** What a provider does: the hash it computes, whether it can create an engine, which calls throw. */
  datatype Provider = Provider(hash: Bytes -> Bytes, creates: bool, throws: nat -> bool)

  predicate Quiet(p: Provider, preimage: Bytes)
  {
    p.creates && |p.hash(preimage)| == DIGEST_BYTES && |preimage| <= MAX_SAFE_INTEGER
  }

  ghost predicate Silent(throws: nat -> bool) {
    forall n :: !throws(n)
  }

  ghost predicate NeverThrows(p: Provider) {
    Silent(p.throws)
  }

  const MAX_SAFE_INTEGER: nat := 9007199254740991

  class Engine {
    const provider: Provider
    var calls: nat
    var fed: Bytes
    var destroyed: nat

    constructor (provider: Provider)
      ensures this.provider == provider && calls == 0 && fed == [] && destroyed == 0
    {
      this.provider := provider;
      calls, fed, destroyed := 0, [], 0;
    }

    method Update(bytes: Bytes) returns (ok: bool)
      modifies this
      ensures ok == !provider.throws(old(calls)) && calls == old(calls) + 1 && destroyed == old(destroyed)
      ensures fed == if ok then old(fed) + bytes else old(fed)
    {
      ok := !provider.throws(calls);
      calls := calls + 1;
      if ok {
        fed := fed + bytes;
      }
    }

    method Digest() returns (r: Option<Bytes>)
      modifies this
      ensures r == (if provider.throws(old(calls)) then None else Some(provider.hash(fed)))
      ensures fed == old(fed) && destroyed == old(destroyed)
    {
      r := if provider.throws(calls) then None else Some(provider.hash(fed));
      calls := calls + 1;
    }

    /** Destruction is counted whether or not it throws. */
    method Destroy() returns (ok: bool)
      modifies this
      ensures ok == !provider.throws(old(calls)) && destroyed == old(destroyed) + 1 && fed == old(fed)
    {
      ok := !provider.throws(calls);
      calls, destroyed := calls + 1, destroyed + 1;
    }
  }

  class ContentHasher {
    var engine: Engine?
    var consumed: nat
    const first: Engine

    /** An open hasher owns the undestroyed engine; a closed one has destroyed it once. */
    ghost predicate Valid()
      reads this, first
    {
      && (engine != null ==> engine == first && first.destroyed == 0 && |first.fed| == consumed <= MAX_SAFE_INTEGER)
      && (engine == null ==> first.destroyed == 1)
    }

    constructor (e: Engine)
      requires e.destroyed == 0 && e.fed == []
      ensures Valid() && engine == e && first == e
    {
      engine, consumed, first := e, 0, e;
    }

    /** Idempotent; it fails only if the engine fails to be destroyed. */
    method Dispose() returns (ok: bool)
      requires Valid()
      modifies this, first
      ensures Valid() && engine == null && first.fed == old(first.fed)
      ensures old(engine) == null || NeverThrows(first.provider) ==> ok
    {
      var current := engine;
      engine := null;
      ok := true;
      if current != null {
        ok := current.Destroy();
      }
    }

    /** A failed update closes the hasher. */
    method Update(bytes: Bytes) returns (ok: bool)
      requires Valid()
      modifies this, first
      ensures Valid() && ok == (engine != null)
      ensures ok ==> old(engine) != null && first.fed == old(first.fed) + bytes
      ensures old(engine) != null && |old(first.fed)| + |bytes| <= MAX_SAFE_INTEGER && NeverThrows(first.provider) ==>
                ok
    {
      if engine == null {
        return false;
      }
      if |bytes| > MAX_SAFE_INTEGER - consumed {
        var _ := Dispose();
        return false;
      }
      ok := engine.Update(bytes);
      if ok {
        consumed := consumed + |bytes|;
      } else {
        var _ := Dispose();
      }
    }

    /** Finishing is terminal, whether or not there is a digest. */
    method Finish() returns (r: Option<Text>)
      requires Valid()
      modifies this, first
      ensures Valid() && engine == null
      ensures r.Some? ==> old(engine) != null && IsDigest(r.value, Blake3)
      ensures r.Some? ==> r.value == DigestText(Blake3, first.provider.hash(old(first.fed)))
      ensures (&& old(engine) != null && NeverThrows(first.provider)
               && |first.provider.hash(old(first.fed))| == DIGEST_BYTES) ==> r.Some?
    {
      if engine == null {
        return None;
      }
      var current := engine;
      engine := null;
      var bytes := current.Digest();
      var destroyed := current.Destroy();
      if bytes.None? || |bytes.value| != DIGEST_BYTES || !destroyed {
        return None;
      }
      DigestTextParses(Blake3, bytes.value);
      return Some(DigestText(Blake3, bytes.value));
    }
  }

  // ----- identities

  datatype Identity = Identity(domain: Text, schema: Text, digest: Text)

  datatype Candidate = NotARecord | Record(fields: map<Text, Option<Text>>)   // None: not string data

  const PROFILE_KEY: Text := [0x70, 0x72, 0x6F, 0x66, 0x69, 0x6C, 0x65]   // "profile"
  const DOMAIN_KEY: Text := [0x64, 0x6F, 0x6D, 0x61, 0x69, 0x6E]   // "domain"
  const SCHEMA_KEY: Text := [0x73, 0x63, 0x68, 0x65, 0x6D, 0x61]   // "schema"
  const DIGEST_KEY: Text := [0x64, 0x69, 0x67, 0x65, 0x73, 0x74]   // "digest"
  /** "blake3-256-canonical-json-v1" */
  const PROFILE: Text := [0x62, 0x6C, 0x61, 0x6B, 0x65, 0x33, 0x2D, 0x32, 0x35, 0x36, 0x2D, 0x63, 0x61, 0x6E, 0x6F,
                          0x6E, 0x69, 0x63, 0x61, 0x6C, 0x2D, 0x6A, 0x73, 0x6F, 0x6E, 0x2D, 0x76, 0x31]

  /** The record that is published for an identity. */
  function AsRecord(i: Identity): Candidate {
    Record(map[PROFILE_KEY := Some(PROFILE), DOMAIN_KEY := Some(i.domain), SCHEMA_KEY := Some(i.schema),
               DIGEST_KEY := Some(i.digest)])
  }

  /** `parseIdentity` */
  function ParseIdentity(c: Candidate, domain: Text, schema: Text): Option<Identity> {
    if !IsNamespace(domain) || !IsNamespace(schema) || c.NotARecord? then None
    else if c.fields.Keys != {PROFILE_KEY, DOMAIN_KEY, SCHEMA_KEY, DIGEST_KEY} then None
    else if c.fields[PROFILE_KEY] != Some(PROFILE) || c.fields[DOMAIN_KEY] != Some(domain) ||
    c.fields[SCHEMA_KEY] != Some(schema) then None
    else match c.fields[DIGEST_KEY]
         case None => None
         case Some(digest) => if IsDigest(digest, Blake3) then Some(Identity(domain, schema, digest)) else None
  }

  /** Parsing accepts exactly the published records of identities in the expected domain and schema. */
  lemma ParseIdentityExactly(c: Candidate, domain: Text, schema: Text, i: Identity)
    ensures ParseIdentity(c, domain, schema) == Some(i) <==>
            c == AsRecord(i) && i.domain == domain && i.schema == schema &&
            IsNamespace(domain) && IsNamespace(schema) && IsDigest(i.digest, Blake3)
  {
    KeysDiffer();
    if ParseIdentity(c, domain, schema) == Some(i) {
      assert c.fields == AsRecord(i).fields;
    }
    if c == AsRecord(i) {
      assert c.fields.Keys == {PROFILE_KEY, DOMAIN_KEY, SCHEMA_KEY, DIGEST_KEY};
    }
  }

  lemma KeysDiffer()
    ensures |PROFILE_KEY| != |DOMAIN_KEY| == |SCHEMA_KEY| == |DIGEST_KEY|
    ensures DOMAIN_KEY[1] != SCHEMA_KEY[1] && DOMAIN_KEY[1] != DIGEST_KEY[1] && SCHEMA_KEY[1] != DIGEST_KEY[1]
  {
  }

  /** The identity of a value with normal form `v`. */
  function IdentityOf(hash: Bytes -> Bytes, domain: Text, schema: Text, v: Json): Identity
    requires IsNamespace(domain) && IsNamespace(schema)
  {
    Identity(domain, schema, DigestText(Blake3, hash(Preimage(domain, schema, v))))
  }

  /** Distinct preimages of the two identities do not collide. */
  ghost predicate NoCollision(hash: Bytes -> Bytes, a: Bytes, b: Bytes) {
    hash(a) == hash(b) ==> a == b
  }

  /** Without a collision, identities are equal exactly when domain, schema and normal form are. */
  lemma IdentityExact(hash: Bytes -> Bytes, d: Text, s: Text, v: Json, d': Text, s': Text, v': Json)
    requires IsNamespace(d) && IsNamespace(s) && IsNamespace(d') && IsNamespace(s') && Printable(v) && Printable(v')
    requires NoCollision(hash, Preimage(d, s, v), Preimage(d', s', v'))
    ensures IdentityOf(hash, d, s, v).digest == IdentityOf(hash, d', s', v').digest <==> d == d' && s == s' && v == v'
  {
    DigestTextInjective(Blake3, hash(Preimage(d, s, v)), hash(Preimage(d', s', v')));
    PreimageInjective(d, s, v, d', s', v');
  }

  // ----- issuing

  datatype Issue = Issued(identity: Identity) | InvalidName | UnsupportedValue(error: Error) | HashFailed

  lemma {:induction false} WrittenNext(chunks: seq<Text>, i: nat)
    requires i < |chunks|
    ensures Written(chunks[..i + 1]) == Written(chunks[..i]) + Encode(chunks[i])
  {
    if i == 0 {
      assert chunks[..1][1..] == [] && chunks[..0] == [] && chunks[..1][0] == chunks[0];
    } else {
      WrittenNext(chunks[1..], i - 1);
      assert chunks[..i + 1][1..] == chunks[1..][..i] && chunks[..i][1..] == chunks[1..][..i - 1];
    }
  }

  lemma {:induction false} WrittenPart(chunks: seq<Text>, i: nat)
    requires i <= |chunks|
    ensures |Written(chunks[..i])| <= |Written(chunks)|
    decreases |chunks| - i
  {
    if i == |chunks| {
      assert chunks[..i] == chunks;
    } else {
      WrittenNext(chunks, i);
      WrittenPart(chunks, i + 1);
    }
  }

  /** Feed the chunks one by one; stop at the first failure. */
  method Feed(hasher: ContentHasher, chunks: seq<Text>) returns (ok: bool)
    requires hasher.Valid() && hasher.engine != null
    modifies hasher, hasher.first
    ensures hasher.Valid()
    ensures ok ==> hasher.engine != null && hasher.first.fed == old(hasher.first.fed) + Written(chunks)
    ensures (&& NeverThrows(hasher.first.provider)
             && |old(hasher.first.fed)| + |Written(chunks)| <= MAX_SAFE_INTEGER) ==> ok
  {
    ghost var before := hasher.first.fed;
    for i := 0 to |chunks|
      invariant hasher.Valid() && hasher.engine != null
      invariant hasher.first.fed == before + Written(chunks[..i])
    {
      FedNext(before, chunks, i);
      ok := hasher.Update(Encode(chunks[i]));
      if !ok {
        return;
      }
    }
    assert chunks[..|chunks|] == chunks;
    return true;
  }

  /** The encoding of a plain value is written as the UTF-8 bytes of its printed normal form. */
  lemma ValueWritten(h: Heap, value: Value, chunks: seq<Text>)
    requires PlainData(h) && Known(h, value) && PlainNumber(value) && Normal(h, value, {}).Ok?
    requires exists groups :: WholeTokens(chunks, Tokens(Normal(h, value, {}).value), groups)
    ensures Written(chunks) == Encode(Print(Normal(h, value, {}).value)) && Printable(Normal(h, value, {}).value)
  {
    NormalIsNormal(h, value, {});
    NormalFormPrintable(Normal(h, value, {}).value);
    var groups :| WholeTokens(chunks, Tokens(Normal(h, value, {}).value), groups);
    ChunkBoundariesVanish(Normal(h, value, {}).value, chunks, groups);
  }

  /** Header, chunks and digest through one hasher. */
  method HashFramed(h: Heap, value: Value, header: Bytes, hasher: ContentHasher) returns (failure: Option<Issue>,
                    digest: Text)
    requires PlainData(h) && Known(h, value) && PlainNumber(value)
    requires hasher.Valid() && hasher.engine != null && hasher.first.fed == []
    modifies hasher, hasher.first
    ensures hasher.Valid()
    ensures failure.None? ==> Normal(h, value, {}).Ok? && IsDigest(digest, Blake3) && hasher.engine == null
    ensures failure.None? ==>
              digest == DigestText(Blake3,
                                   hasher.first.provider.hash(header + Encode(Print(Normal(h, value, {}).value))))
    ensures failure.Some? ==>
              || failure.value.HashFailed?
              || (failure.value.UnsupportedValue? && Normal(h, value, {}) == Err(failure.value.error))
    ensures (&& NeverThrows(hasher.first.provider) && Normal(h, value, {}).Ok?
             && Quiet(hasher.first.provider, header + Encode(Print(Normal(h, value, {}).value)))) ==> failure.None?
    ensures NeverThrows(hasher.first.provider) && Normal(h, value, {}).Err? && |header| <= MAX_SAFE_INTEGER ==>
              failure == Some(UnsupportedValue(Normal(h, value, {}).error))
  {
    digest := [];
    var ok := hasher.Update(header);
    if !ok {
      return Some(HashFailed), [];
    }
    assert [] + header == header;
    var chunks := EncodingChunks(h, value);
    if chunks.Err? {
      return Some(UnsupportedValue(chunks.error)), [];
    }
    ValueWritten(h, value, chunks.value);
    ok := Feed(hasher, chunks.value);
    if !ok {
      return Some(HashFailed), [];
    }
    var finished := hasher.Finish();
    if finished.None? {
      return Some(HashFailed), [];
    }
    return None, finished.value;
  }

  /**
   `structuredIdentity`. What is issued is the digest of the framed preimage; a provider that does not
   fail always issues; and the engine, if one was created, is destroyed exactly once on every path.
   */
  method IssueIdentity(h: Heap, value: Value, domain: Text, schema: Text, p: Provider) returns (r: Issue,
                       engine: Engine?)
    requires PlainData(h) && Known(h, value) && PlainNumber(value)
    ensures engine != null ==> fresh(engine) && engine.destroyed == 1
    ensures r.InvalidName? <==> !(IsNamespace(domain) && IsNamespace(schema))
    ensures r.UnsupportedValue? ==> Normal(h, value, {}) == Err(r.error)
    ensures r.Issued? ==> engine != null && Normal(h, value, {}).Ok? && IsDigest(r.identity.digest, Blake3) &&
                          r.identity == IdentityOf(p.hash, domain, schema, Normal(h, value, {}).value)
    ensures (&& IsNamespace(domain) && IsNamespace(schema) && NeverThrows(p) && Normal(h, value, {}).Ok?
             && Quiet(p, Preimage(domain, schema, Normal(h, value, {}).value))) ==> r.Issued?
  {
    var header := FrameHeader(domain, schema);
    if header.None? {
      return InvalidName, null;
    }
    if !p.creates {
      return HashFailed, null;
    }
    engine := new Engine(p);
    var hasher := new ContentHasher(engine);
    var failure, digest := HashFramed(h, value, header.value, hasher);
    var disposed := hasher.Dispose();
    if failure.Some? {
      return if disposed then failure.value else HashFailed, engine;
    }
    return Issued(Identity(domain, schema, digest)), engine;
  }

  datatype Verification = Verified(accepted: bool) | Malformed | NotIssued(reason: Issue)

  /** `verifyStructuredIdentity`: accepts exactly the published record of the value's own identity. */
  method VerifyIdentity(h: Heap, value: Value, candidate: Candidate, domain: Text, schema: Text, p: Provider)
    returns (r: Verification, engine: Engine?)
    requires PlainData(h) && Known(h, value) && PlainNumber(value)
    ensures engine != null ==> fresh(engine) && engine.destroyed == 1
    ensures r.Malformed? <==> ParseIdentity(candidate, domain, schema).None?
    ensures r.Verified? ==> IsNamespace(domain) && IsNamespace(schema) && Normal(h, value, {}).Ok?
    ensures (&& ParseIdentity(candidate, domain, schema).Some? && NeverThrows(p) && Normal(h, value, {}).Ok?
             && Quiet(p, Preimage(domain, schema, Normal(h, value, {}).value))) ==> r.Verified?
    ensures r.Verified? ==>
              (r.accepted <==> candidate == AsRecord(IdentityOf(p.hash, domain, schema, Normal(h, value, {}).value)))
  {
    var captured := ParseIdentity(candidate, domain, schema);
    if captured.None? {
      return Malformed, null;
    }
    ParseIdentityExactly(candidate, domain, schema, captured.value);
    var issue;
    issue, engine := IssueIdentity(h, value, domain, schema, p);
    if !issue.Issued? {
      return NotIssued(issue), engine;
    }
    ParseIdentityExactly(candidate, domain, schema, issue.identity);
    return Verified(captured.value.digest == issue.identity.digest), engine;
  }

  /**
   A record issued for one value verifies another one exactly when their normal forms are equal, unless
   the two preimages collide.
   */
  method VerifyIssued(h: Heap, issued: Value, value: Value, domain: Text, schema: Text, p: Provider)
    returns (r: Option<bool>)
    requires PlainData(h) && Known(h, issued) && PlainNumber(issued) && Known(h, value) && PlainNumber(value)
    ensures r.Some? ==>
              IsNamespace(domain) && IsNamespace(schema) && Normal(h, issued, {}).Ok? && Normal(h, value, {}).Ok?
    ensures (&& r.Some?
             && NoCollision(p.hash, Preimage(domain, schema, Normal(h, issued, {}).value),
                            Preimage(domain, schema, Normal(h, value, {}).value))) ==>
              (r.value <==> Normal(h, issued, {}) == Normal(h, value, {}))
    ensures (&& IsNamespace(domain) && IsNamespace(schema) && NeverThrows(p)
             && Normal(h, issued, {}).Ok? && Quiet(p, Preimage(domain, schema, Normal(h, issued, {}).value))
             && Normal(h, value, {}).Ok? && Quiet(p, Preimage(domain, schema, Normal(h, value, {}).value))) ==> r.Some?
  {
    var issue, _ := IssueIdentity(h, issued, domain, schema, p);
    if !issue.Issued? {
      return None;
    }
    ParseIdentityExactly(AsRecord(issue.identity), domain, schema, issue.identity);
    var verification, _ := VerifyIdentity(h, value, AsRecord(issue.identity), domain, schema, p);
    if !verification.Verified? {
      return None;
    }
    NormalPrintable(h, issued);
    NormalPrintable(h, value);
    ghost var v, v' := Normal(h, issued, {}).value, Normal(h, value, {}).value;
    if NoCollision(p.hash, Preimage(domain, schema, v), Preimage(domain, schema, v')) {
      SameRecord(p.hash, domain, schema, v, v');
    }
    return Some(verification.accepted);
  }

  lemma NormalPrintable(h: Heap, value: Value)
    requires PlainData(h) && Known(h, value) && PlainNumber(value) && Normal(h, value, {}).Ok?
    ensures Printable(Normal(h, value, {}).value)
  {
    NormalIsNormal(h, value, {});
    NormalFormPrintable(Normal(h, value, {}).value);
  }

  lemma SameRecord(hash: Bytes -> Bytes, domain: Text, schema: Text, v: Json, v': Json)
    requires IsNamespace(domain) && IsNamespace(schema) && Printable(v) && Printable(v')
    requires NoCollision(hash, Preimage(domain, schema, v), Preimage(domain, schema, v'))
    ensures AsRecord(IdentityOf(hash, domain, schema, v)) == AsRecord(IdentityOf(hash, domain, schema, v')) <==> v == v'
  {
    var i, j := IdentityOf(hash, domain, schema, v), IdentityOf(hash, domain, schema, v');
    if AsRecord(i) == AsRecord(j) {
      RecordDigest(i, j);
      IdentityExact(hash, domain, schema, v, domain, schema, v');
    }
  }

  lemma RecordDigest(i: Identity, j: Identity)
    requires AsRecord(i) == AsRecord(j)
    ensures i == j
  {
    KeysDiffer();
    var a, b := AsRecord(i).fields, AsRecord(j).fields;
    assert a[DIGEST_KEY] == b[DIGEST_KEY] && a[DOMAIN_KEY] == b[DOMAIN_KEY] && a[SCHEMA_KEY] == b[SCHEMA_KEY];
  }

  // ----- migration

  /** A SHA-256 hasher: dropping it is all that disposal does. */
  class LegacyHasher {
    const hash: Bytes -> Bytes
    const throws: nat -> bool
    var calls: nat
    var open: bool
    var fed: Bytes

    constructor (hash: Bytes -> Bytes, throws: nat -> bool)
      ensures this.hash == hash && this.throws == throws && open && fed == [] && calls == 0
    {
      this.hash, this.throws := hash, throws;
      calls, open, fed := 0, true, [];
    }

    method Update(bytes: Bytes) returns (ok: bool)
      modifies this
      ensures ok == open && (ok ==> old(open) && fed == old(fed) + bytes)
      ensures old(open) && Silent(throws) ==> ok
    {
      ok := open && !throws(calls);
      calls := calls + 1;
      if ok {
        fed := fed + bytes;
      } else {
        open := false;
      }
    }

    method Finish() returns (r: Option<Text>)
      modifies this
      ensures !open && (r.Some? ==> old(open) && r.value == DigestText(Sha256, hash(old(fed))))
      ensures old(open) && Silent(throws) && |hash(old(fed))| == DIGEST_BYTES ==> r.Some?
    {
      var was := open;
      open := false;
      if !was || throws(calls) || |hash(fed)| != DIGEST_BYTES {
        return None;
      }
      return Some(DigestText(Sha256, hash(fed)));
    }
  }

  /** `previous` is the SHA-256 digest of `bytes`. */
  predicate Retained(hash: Bytes -> Bytes, previous: Text, bytes: Bytes) {
    |hash(bytes)| == DIGEST_BYTES && previous == DigestText(Sha256, hash(bytes))
  }

  datatype Migration = Migrated(previous: Text, current: Identity) | NotMigrated

  /** Feeding one more chunk behind what was fed before. */
  lemma FedNext(before: Bytes, chunks: seq<Text>, i: nat)
    requires i < |chunks|
    ensures before + Written(chunks[..i]) + Encode(chunks[i]) == before + Written(chunks[..i + 1])
    ensures |before + Written(chunks[..i])| + |Encode(chunks[i])| <= |before| + |Written(chunks)|
  {
    WrittenNext(chunks, i);
    WrittenPart(chunks, i + 1);
  }

  /** One chunk for both hashers. */
  method FeedOne(legacy: LegacyHasher, current: ContentHasher, bytes: Bytes) returns (ok: bool)
    requires current.Valid()
    modifies legacy, current, current.first
    ensures current.Valid()
    ensures ok ==> legacy.fed == old(legacy.fed) + bytes && current.first.fed == old(current.first.fed) + bytes
    ensures ok ==> legacy.open && old(legacy.open) && current.engine != null
    ensures (&& old(legacy.open) && old(current.engine) != null && Silent(legacy.throws) &&
             NeverThrows(current.first.provider)
             && |old(current.first.fed)| + |bytes| <= MAX_SAFE_INTEGER) ==> ok
  {
    ok := legacy.Update(bytes);
    if ok {
      ok := current.Update(bytes);
    }
  }

  /** One traversal feeds both hashers. */
  method FeedBoth(legacy: LegacyHasher, current: ContentHasher, chunks: seq<Text>) returns (ok: bool)
    requires current.Valid() && legacy.open && current.engine != null
    modifies legacy, current, current.first
    ensures current.Valid()
    ensures ok ==> legacy.fed == old(legacy.fed) + Written(chunks)
    ensures ok ==> current.first.fed == old(current.first.fed) + Written(chunks)
    ensures ok ==> legacy.open && current.engine != null
    ensures (&& Silent(legacy.throws) && NeverThrows(current.first.provider)
             && |old(current.first.fed)| + |Written(chunks)| <= MAX_SAFE_INTEGER) ==> ok
  {
    ghost var a, b := legacy.fed, current.first.fed;
    for i := 0 to |chunks|
      invariant current.Valid() && legacy.open && current.engine != null
      invariant legacy.fed == a + Written(chunks[..i]) && current.first.fed == b + Written(chunks[..i])
    {
      FedNext(a, chunks, i);
      FedNext(b, chunks, i);
      ok := FeedOne(legacy, current, Encode(chunks[i]));
      if !ok {
        return;
      }
    }
    assert chunks[..|chunks|] == chunks;
    return true;
  }

  /**
   `migrateStructuredIdentity`. The replacement is the identity that direct issuance gives, and it is
   only given for the value whose encoding has the retained SHA-256. The SHA-256 hasher stays open on
   the one path where the provider cannot create an engine.
   */
  method MigrateIdentity(h: Heap, value: Value, previous: Text, domain: Text, schema: Text, p: Provider, sha: Provider)
    returns (r: Migration, engine: Engine?, legacy: LegacyHasher?)
    requires PlainData(h) && Known(h, value) && PlainNumber(value)
    ensures engine != null ==> fresh(engine) && engine.destroyed == 1
    ensures legacy != null ==> fresh(legacy) && (legacy.open <==> !p.creates)
    ensures legacy == null <==> !IsDigest(previous, Sha256)
    ensures r.Migrated? ==>
              IsNamespace(domain) && IsNamespace(schema) && Normal(h, value, {}).Ok? && r.previous == previous &&
              previous == DigestText(Sha256, sha.hash(Encode(Print(Normal(h, value, {}).value)))) &&
              r.current == IdentityOf(p.hash, domain, schema, Normal(h, value, {}).value)
    ensures (&& IsNamespace(domain) && IsNamespace(schema) && NeverThrows(p) && NeverThrows(sha) &&
             Normal(h, value, {}).Ok?
             && Quiet(p, Preimage(domain, schema, Normal(h, value, {}).value))
             && Retained(sha.hash, previous, Encode(Print(Normal(h, value, {}).value)))) ==> r.Migrated?
  {
    if !IsDigest(previous, Sha256) {
      NotRetained(h, value, previous, sha.hash);
      return NotMigrated, null, null;
    }
    legacy := new LegacyHasher(sha.hash, sha.throws);
    if !p.creates {
      return NotMigrated, null, legacy;
    }
    engine := new Engine(p);
    var current := new ContentHasher(engine);
    var digest := MigrateThrough(h, value, previous, domain, schema, legacy, current);
    legacy.open := false;
    var _ := current.Dispose();
    return if digest.Some? then Migrated(previous, Identity(domain, schema, digest.value)) else NotMigrated, engine,
           legacy;
  }

  lemma NotRetained(h: Heap, value: Value, previous: Text, hash: Bytes -> Bytes)
    requires PlainData(h) && Known(h, value) && !IsDigest(previous, Sha256)
    ensures Normal(h, value, {}).Ok? ==> !Retained(hash, previous, Encode(Print(Normal(h, value, {}).value)))
  {
    if Normal(h, value, {}).Ok? {
      DigestTextParses(Sha256, hash(Encode(Print(Normal(h, value, {}).value))));
    }
  }

  method MigrateThrough(h: Heap, value: Value, previous: Text, domain: Text, schema: Text, legacy: LegacyHasher,
                        current: ContentHasher)
    returns (digest: Option<Text>)
    requires PlainData(h) && Known(h, value) && PlainNumber(value)
    requires current.Valid() && current.engine != null && current.first.fed == [] && legacy.fed == [] && legacy.open
    modifies legacy, current, current.first
    ensures current.Valid()
    ensures digest.Some? ==>
              IsNamespace(domain) && IsNamespace(schema) && Normal(h, value, {}).Ok? &&
              previous == DigestText(Sha256, legacy.hash(Encode(Print(Normal(h, value, {}).value)))) &&
              digest.value ==
              DigestText(Blake3, current.first.provider.hash(Preimage(domain, schema, Normal(h, value, {}).value)))
    ensures (&& IsNamespace(domain) && IsNamespace(schema) && Normal(h, value, {}).Ok?
             && NeverThrows(current.first.provider) && Silent(legacy.throws)
             && Quiet(current.first.provider, Preimage(domain, schema, Normal(h, value, {}).value))
             && Retained(legacy.hash, previous, Encode(Print(Normal(h, value, {}).value)))) ==> digest.Some?
  {
    var header := FrameHeader(domain, schema);
    if header.None? {
      return None;
    }
    var ok := current.Update(header.value);
    if !ok {
      return None;
    }
    assert [] + header.value == header.value;
    var chunks := EncodingChunks(h, value);
    if chunks.Err? {
      return None;
    }
    ValueWritten(h, value, chunks.value);
    ok := FeedBoth(legacy, current, chunks.value);
    if !ok {
      return None;
    }
    assert [] + Written(chunks.value) == Written(chunks.value);
    var observed := legacy.Finish();
    if observed != Some(previous) {
      return None;
    }
    digest := current.Finish();
  }
}
