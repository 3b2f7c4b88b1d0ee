/**
 The documentation source contract (`src/contracts/documentation-source.ts`) after its JSON is decoded:
 path order, root containment, and the checks on boundary and manifest.
 */
module DocumentationSource {
  import opened CodeUnits
  import opened Utf8

  /** What is taken from elsewhere: portable logical paths, their alias keys, and the digests. */
  datatype Env = Env(portable: Text -> bool, aliasKey: Text -> Text, setDigest: seq<SourceMember> -> Text)

  datatype SourceMember = SourceMember(path: Text, bytes: int, sha256: Text)

  datatype Boundary = Boundary(sourceRoots: seq<Text>, audited: seq<Text>, nonDocumentation: seq<Text>,
                               excluded: seq<Text>, entrypoint: Text)

  datatype Manifest = Manifest(sourceSet: Text, members: seq<SourceMember>)

  const SEPARATOR: CodeUnit := 0x2F
  const FILE_BYTES: int := 16_000_000
  const TOTAL_BYTES: int := 80_000_000
  const MEMBERS: int := 100_000

  function Ascii(s: string): Text {
    seq(|s|, i requires 0 <= i < |s| => if s[i] as int < 0x80 then s[i] as int else 0x3F)
  }

  const BASELINE: Text := Ascii(".documentation/baseline.json")
  const NON_SOURCE: seq<Text> := [Ascii(".documentation/figures.json"), Ascii(".documentation/requirements.json"),
                                  Ascii(".documentation/source-manifest.json")]

  // ----- order

  /** `compareDocumentationPaths` */
  function ComparePaths(a: Text, b: Text): int {
    Compare(Encode(a), Encode(b))
  }

  /** On paths of scalar values the comparison is the order of code points. */
  lemma PathOrder(a: Text, b: Text)
    requires WellFormed(a) && WellFormed(b)
    ensures ComparePaths(a, b) < 0 <==> Precedes(Scalars(a), Scalars(b))
    ensures ComparePaths(a, b) == 0 <==> a == b
  {
    EncodedOrder(a, b);
    PrecedesTotal(Scalars(a), Scalars(b));
    PrecedesTotal(Encode(a), Encode(b));
    EncodeInjective(a, b);
  }

  lemma {:induction false} PrecedesTransitive(a: seq<int>, b: seq<int>, c: seq<int>)
    requires Precedes(a, b) && Precedes(b, c)
    ensures Precedes(a, c)
  {
    if a != [] && a[0] == b[0] == c[0] {
      PrecedesTransitive(a[1..], b[1..], c[1..]);
    }
  }

  // ----- containment

  /** `documentationPathWithin`: the root itself, or the root, a separator and more. */
  predicate PathWithin(file: Text, root: Text) {
    root <= file && (|file| == |root| || file[|root|] == SEPARATOR)
  }

  /** Two roots that hold one path are nested. */
  lemma SharedPathNests(file: Text, a: Text, b: Text)
    requires PathWithin(file, a) && PathWithin(file, b) && |a| <= |b|
    ensures PathWithin(b, a)
  {
    assert b[..|a|] == file[..|a|] == a;
    if |a| < |b| {
      assert b[|a|] == file[|a|];
    }
  }

  ghost predicate Overlap(a: Text, b: Text) {
    PathWithin(a, b) || PathWithin(b, a)
  }

  ghost predicate Apart(roots: seq<Text>) {
    forall i, j :: 0 <= i < j < |roots| ==> !Overlap(roots[i], roots[j])
  }

  ghost predicate OnlyRoot(file: Text, roots: seq<Text>, i: int) {
    && 0 <= i < |roots| && PathWithin(file, roots[i])
    && (forall j :: 0 <= j < |roots| && PathWithin(file, roots[j]) ==> j == i)
  }

  ghost predicate InExactlyOne(file: Text, roots: seq<Text>) {
    exists i :: OnlyRoot(file, roots, i)
  }

  lemma SharedPathOverlaps(file: Text, a: Text, b: Text)
    requires PathWithin(file, a) && PathWithin(file, b)
    ensures Overlap(a, b)
  {
    if |a| <= |b| {
      SharedPathNests(file, a, b);
    } else {
      SharedPathNests(file, b, a);
    }
  }

  /** Among roots that do not overlap, a path that has a root has one root. */
  lemma OneRoot(file: Text, roots: seq<Text>, i: nat)
    requires Apart(roots) && i < |roots| && PathWithin(file, roots[i])
    ensures InExactlyOne(file, roots)
  {
    forall j | 0 <= j < |roots| && PathWithin(file, roots[j])
      ensures j == i
    {
      SharedPathOverlaps(file, roots[i], roots[j]);
      assert !(i < j) && !(j < i);
    }
    assert OnlyRoot(file, roots, i);
  }

  // ----- the boundary

  predicate IsPath(env: Env, path: Text) {
    WellFormed(path) && env.portable(path)
  }

  ghost predicate IsPathList(env: Env, paths: seq<Text>, allowEmpty: bool) {
    && (allowEmpty || paths != []) && |paths| <= MEMBERS
    && (forall i :: 0 <= i < |paths| ==> IsPath(env, paths[i]))
    && DistinctBy(paths, env.aliasKey)
  }

  ghost predicate InSome(file: Text, roots: seq<Text>) {
    exists i :: 0 <= i < |roots| && PathWithin(file, roots[i])
  }

  /** An exemption lies strictly inside an audited namespace and away from every source root. */
  ghost predicate Exempt(b: Boundary, exemption: Text) {
    && (exists i :: 0 <= i < |b.audited| && exemption != b.audited[i] && PathWithin(exemption, b.audited[i]))
    && (forall i :: 0 <= i < |b.sourceRoots| ==> !Overlap(exemption, b.sourceRoots[i]))
  }

  ghost predicate ListsHold(env: Env, b: Boundary) {
    && IsPathList(env, b.sourceRoots, false) && IsPathList(env, b.audited, false)
    && IsPathList(env, b.nonDocumentation, true) && IsPathList(env, b.excluded, false)
  }

  ghost predicate ExemptionsHold(b: Boundary) {
    forall k :: 0 <= k < |b.nonDocumentation| ==> Exempt(b, b.nonDocumentation[k])
  }

  ghost predicate BoundaryHolds(env: Env, b: Boundary) {
    && ListsHold(env, b)
    && SortBy(b.excluded, EncodedPath) == NON_SOURCE
    && IsPath(env, b.entrypoint)
    && InSome(BASELINE, b.sourceRoots) && Apart(b.sourceRoots) && ExemptionsHold(b)
  }

  function EncodedPath(path: Text): Text {
    Encode(path)
  }

  method CheckPathList(env: Env, paths: seq<Text>, allowEmpty: bool) returns (ok: bool)
    ensures ok <==> IsPathList(env, paths, allowEmpty)
  {
    if (!allowEmpty && paths == []) || |paths| > MEMBERS {
      return false;
    }
    var seen: set<Text> := {};
    for i := 0 to |paths|
      invariant forall k :: 0 <= k < i ==> IsPath(env, paths[k])
      invariant forall j, k :: 0 <= j < k < i ==> env.aliasKey(paths[j]) != env.aliasKey(paths[k])
      invariant seen == set k | 0 <= k < i :: env.aliasKey(paths[k])
    {
      if !IsPath(env, paths[i]) || env.aliasKey(paths[i]) in seen {
        return false;
      }
      seen := seen + {env.aliasKey(paths[i])};
    }
    return true;
  }

  method Holds(file: Text, roots: seq<Text>) returns (found: bool)
    ensures found <==> InSome(file, roots)
  {
    for i := 0 to |roots|
      invariant forall k :: 0 <= k < i ==> !PathWithin(file, roots[k])
    {
      if PathWithin(file, roots[i]) {
        return true;
      }
    }
    return false;
  }

  /** The nested loops over pairs of roots. */
  method RootsApart(roots: seq<Text>) returns (apart: bool)
    ensures apart <==> Apart(roots)
  {
    for i := 0 to |roots|
      invariant forall a, b :: 0 <= a < i && a < b < |roots| ==> !Overlap(roots[a], roots[b])
    {
      for j := i + 1 to |roots|
        invariant forall b :: i < b < j ==> !Overlap(roots[i], roots[b])
      {
        if PathWithin(roots[i], roots[j]) || PathWithin(roots[j], roots[i]) {
          return false;
        }
      }
    }
    return true;
  }

  method CheckExemption(b: Boundary, exemption: Text) returns (ok: bool)
    ensures ok <==> Exempt(b, exemption)
  {
    var audited := false;
    for i := 0 to |b.audited|
      invariant audited <==> exists k :: 0 <= k < i && exemption != b.audited[k] && PathWithin(exemption, b.audited[k])
    {
      audited := audited || (exemption != b.audited[i] && PathWithin(exemption, b.audited[i]));
    }
    if !audited {
      return false;
    }
    for i := 0 to |b.sourceRoots|
      invariant forall k :: 0 <= k < i ==> !Overlap(exemption, b.sourceRoots[k])
    {
      if PathWithin(exemption, b.sourceRoots[i]) || PathWithin(b.sourceRoots[i], exemption) {
        return false;
      }
    }
    return true;
  }

  method CheckLists(env: Env, b: Boundary) returns (ok: bool)
    ensures ok <==> ListsHold(env, b)
  {
    ok := CheckPathList(env, b.sourceRoots, false);
    if !ok {
      return;
    }
    ok := CheckPathList(env, b.audited, false);
    if !ok {
      return;
    }
    ok := CheckPathList(env, b.nonDocumentation, true);
    if !ok {
      return;
    }
    ok := CheckPathList(env, b.excluded, false);
  }

  method CheckExemptions(b: Boundary) returns (ok: bool)
    ensures ok <==> ExemptionsHold(b)
  {
    ok := true;
    for k := 0 to |b.nonDocumentation|
      invariant ok && forall i :: 0 <= i < k ==> Exempt(b, b.nonDocumentation[i])
    {
      ok := CheckExemption(b, b.nonDocumentation[k]);
      if !ok {
        return;
      }
    }
  }

  /** `parseDocumentationBoundary` on decoded fields. */
  method CheckBoundary(env: Env, b: Boundary) returns (ok: bool)
    ensures ok <==> BoundaryHolds(env, b)
  {
    ok := CheckLists(env, b);
    if !ok {
      return;
    }
    if SortBy(b.excluded, EncodedPath) != NON_SOURCE || !IsPath(env, b.entrypoint) {
      return false;
    }
    ok := Holds(BASELINE, b.sourceRoots);
    if !ok {
      return;
    }
    ok := RootsApart(b.sourceRoots);
    if !ok {
      return;
    }
    ok := CheckExemptions(b);
  }

  // ----- the manifest

  predicate IsBareDigest(t: Text) {
    |t| == 64 && forall i :: 0 <= i < |t| ==> 0x30 <= t[i] <= 0x39 || 0x61 <= t[i] <= 0x66
  }

  predicate MemberValid(env: Env, m: SourceMember) {
    IsPath(env, m.path) && m.path !in NON_SOURCE && 0 <= m.bytes <= FILE_BYTES && IsBareDigest(m.sha256)
  }

  function TotalBytes(members: seq<SourceMember>): int {
    if members == [] then 0 else TotalBytes(members[..|members| - 1]) + members[|members| - 1].bytes
  }

  /** Strictly ascending in code-point order. */
  ghost predicate AscendingPaths(members: seq<SourceMember>) {
    forall i, j :: 0 <= i < j < |members| ==> Precedes(Scalars(members[i].path), Scalars(members[j].path))
  }

  function AliasOf(env: Env): SourceMember -> Text {
    (m: SourceMember) => env.aliasKey(m.path)
  }

  ghost predicate MembersHold(env: Env, roots: seq<Text>, members: seq<SourceMember>) {
    && EachHolds(env, roots, members)
    && DistinctBy(members, AliasOf(env))
    && AscendingPaths(members)
    && TotalBytes(members) <= TOTAL_BYTES
  }

  /** The manifest lists the baseline with these bytes. */
  ghost predicate Binds(members: seq<SourceMember>, bytes: int, digest: Text) {
    exists i :: 0 <= i < |members| && members[i] == SourceMember(BASELINE, bytes, digest)
  }

  ghost predicate Lists(members: seq<SourceMember>, path: Text) {
    exists i :: 0 <= i < |members| && members[i].path == path
  }

  /** What an accepted source contract guarantees. */
  ghost predicate ContractHolds(env: Env, b: Boundary, m: Manifest, baselineBytes: int, baselineDigest: Text) {
    && BoundaryHolds(env, b)
    && IsBareDigest(m.sourceSet) && |m.members| <= MEMBERS
    && MembersHold(env, b.sourceRoots, m.members)
    && Binds(m.members, baselineBytes, baselineDigest) && Lists(m.members, b.entrypoint)
    && env.setDigest(m.members) == m.sourceSet
  }

  lemma {:induction false} TotalGrows(members: seq<SourceMember>, i: nat)
    requires i <= |members| && forall k :: 0 <= k < |members| ==> members[k].bytes >= 0
    ensures TotalBytes(members[..i]) <= TotalBytes(members)
    decreases |members| - i
  {
    if i == |members| {
      assert members[..i] == members;
    } else {
      assert members[..i + 1][..i] == members[..i];
      TotalGrows(members, i + 1);
    }
  }

  /** A new last member above the previous one is above all of them. */
  lemma AscendsByLast(members: seq<SourceMember>, m: SourceMember)
    requires AscendingPaths(members)
    requires members != [] ==> Precedes(Scalars(members[|members| - 1].path), Scalars(m.path))
    ensures AscendingPaths(members + [m])
  {
    var all := members + [m];
    forall i, j | 0 <= i < j < |all|
      ensures Precedes(Scalars(all[i].path), Scalars(all[j].path))
    {
      if j == |members| && i < |members| - 1 {
        PrecedesTransitive(Scalars(members[i].path), Scalars(members[|members| - 1].path), Scalars(m.path));
      }
    }
  }

  lemma AliasFresh(env: Env, members: seq<SourceMember>, m: SourceMember, seen: set<Text>)
    requires DistinctBy(members, AliasOf(env)) && seen == Aliases(env, members)
    ensures DistinctBy(members + [m], AliasOf(env)) <==> env.aliasKey(m.path) !in seen
  {
    var all := members + [m];
    if env.aliasKey(m.path) in seen {
      var k :| 0 <= k < |members| && env.aliasKey(members[k].path) == env.aliasKey(m.path);
      assert AliasOf(env)(all[k]) == AliasOf(env)(all[|members|]);
    } else {
      forall i, j | 0 <= i < j < |all|
        ensures AliasOf(env)(all[i]) != AliasOf(env)(all[j])
      {
        if j < |members| {
          assert AliasOf(env)(members[i]) != AliasOf(env)(members[j]);
        } else {
          assert env.aliasKey(all[i].path) in seen;
        }
      }
    }
  }

  lemma AscendsMeans(members: seq<SourceMember>, m: SourceMember)
    requires AscendingPaths(members) && WellFormed(m.path) &&
             (members != [] ==> WellFormed(members[|members| - 1].path))
    ensures AscendingPaths(members + [m]) <==> members == [] || ComparePaths(members[|members| - 1].path, m.path) < 0
  {
    var all := members + [m];
    if members == [] {
      AscendsByLast(members, m);
    } else {
      var n := |members| - 1;
      PathOrder(members[n].path, m.path);
      if ComparePaths(members[n].path, m.path) < 0 {
        AscendsByLast(members, m);
      } else {
        assert all[n] == members[n] && all[n + 1] == m;
      }
    }
  }

  lemma TotalOfLast(members: seq<SourceMember>, m: SourceMember)
    ensures TotalBytes(members + [m]) == TotalBytes(members) + m.bytes
  {
    assert (members + [m])[..|members|] == members;
  }

  ghost predicate EachHolds(env: Env, roots: seq<Text>, members: seq<SourceMember>) {
    forall i :: 0 <= i < |members| ==> MemberValid(env, members[i]) && InSome(members[i].path, roots)
  }

  lemma EachOfLast(env: Env, roots: seq<Text>, members: seq<SourceMember>, m: SourceMember)
    requires EachHolds(env, roots, members)
    ensures EachHolds(env, roots, members + [m]) <==> MemberValid(env, m) && InSome(m.path, roots)
  {
    assert (members + [m])[|members|] == m;
  }

  /** The checks of one more member decide whether the longer prefix holds. */
  lemma OneMoreMember(env: Env, roots: seq<Text>, members: seq<SourceMember>, m: SourceMember, seen: set<Text>)
    requires MembersHold(env, roots, members) && seen == Aliases(env, members)
    ensures MembersHold(env, roots, members + [m]) <==>
            && MemberValid(env, m) && env.aliasKey(m.path) !in seen
            && (members == [] || ComparePaths(members[|members| - 1].path, m.path) < 0)
            && InSome(m.path, roots) && TotalBytes(members) + m.bytes <= TOTAL_BYTES
  {
    AliasFresh(env, members, m, seen);
    TotalOfLast(members, m);
    EachOfLast(env, roots, members, m);
    if MemberValid(env, m) {
      assert members != [] ==> MemberValid(env, members[|members| - 1]);
      AscendsMeans(members, m);
    }
  }

  lemma {:induction false} PrefixHolds(env: Env, roots: seq<Text>, members: seq<SourceMember>, i: nat)
    requires MembersHold(env, roots, members) && i <= |members|
    ensures MembersHold(env, roots, members[..i])
  {
    TotalGrows(members, i);
    var part := members[..i];
    assert forall k :: 0 <= k < i ==> part[k] == members[k];
    forall a, b | 0 <= a < b < |part|
      ensures AliasOf(env)(part[a]) != AliasOf(env)(part[b])
    {
      assert AliasOf(env)(members[a]) != AliasOf(env)(members[b]);
    }
  }

  /** The alias keys of the members so far. */
  ghost function Aliases(env: Env, members: seq<SourceMember>): set<Text> {
    set k | 0 <= k < |members| :: env.aliasKey(members[k].path)
  }

  lemma AliasesNext(env: Env, members: seq<SourceMember>, m: SourceMember)
    ensures Aliases(env, members + [m]) == Aliases(env, members) + {env.aliasKey(m.path)}
  {
    var all := members + [m];
    assert all[|members|] == m;
    forall t | t in Aliases(env, members)
      ensures t in Aliases(env, all)
    {
      var k :| 0 <= k < |members| && env.aliasKey(members[k].path) == t;
      assert env.aliasKey(all[k].path) == t;
    }
  }

  /** The checks on one more member. */
  method Admits(env: Env, roots: seq<Text>, members: seq<SourceMember>, seen: set<Text>, total: int,
                value: SourceMember)
    returns (ok: bool)
    requires MembersHold(env, roots, members) && seen == Aliases(env, members) && total == TotalBytes(members)
    ensures ok <==> MembersHold(env, roots, members + [value])
  {
    OneMoreMember(env, roots, members, value, seen);
    if !MemberValid(env, value) || env.aliasKey(value.path) in seen {
      return false;
    }
    if members != [] && ComparePaths(members[|members| - 1].path, value.path) >= 0 {
      return false;
    }
    ok := Holds(value.path, roots);
    ok := ok && total + value.bytes <= TOTAL_BYTES;
  }

  /** The member loop of `parseDocumentationSourceContract`. */
  method CheckMembers(env: Env, roots: seq<Text>, raw: seq<SourceMember>) returns (ok: bool)
    ensures ok <==> MembersHold(env, roots, raw)
  {
    var members: seq<SourceMember> := [];
    var seen: set<Text> := {};
    var totalBytes := 0;
    for i := 0 to |raw|
      invariant members == raw[..i] && MembersHold(env, roots, members)
      invariant seen == Aliases(env, members) && totalBytes == TotalBytes(members)
    {
      var value := raw[i];
      assert raw[..i + 1] == members + [value];
      ok := Admits(env, roots, members, seen, totalBytes, value);
      if !ok {
        if MembersHold(env, roots, raw) {
          PrefixHolds(env, roots, raw, i + 1);
        }
        return;
      }
      AliasesNext(env, members, value);
      TotalOfLast(members, value);
      seen := seen + {env.aliasKey(value.path)};
      totalBytes := totalBytes + value.bytes;
      members := members + [value];
    }
    assert raw[..|raw|] == raw;
    return true;
  }

  /** `parseDocumentationSourceContract` on decoded fields: it accepts exactly the contracts that hold. */
  method CheckContract(env: Env, b: Boundary, m: Manifest, baselineBytes: int, baselineDigest: Text) returns (ok: bool)
    ensures ok <==> ContractHolds(env, b, m, baselineBytes, baselineDigest)
  {
    ok := CheckBoundary(env, b);
    if !ok {
      return;
    }
    if !IsBareDigest(m.sourceSet) || |m.members| > MEMBERS {
      return false;
    }
    ok := CheckMembers(env, b.sourceRoots, m.members);
    if !ok {
      return;
    }
    DistinctPaths(env, b.sourceRoots, m.members);
    ok := BaselineBound(m.members, baselineBytes, baselineDigest);
    if !ok {
      return;
    }
    ok := IsListed(m.members, b.entrypoint);
    ok := ok && env.setDigest(m.members) == m.sourceSet;
  }

  method IsListed(members: seq<SourceMember>, path: Text) returns (found: bool)
    ensures found <==> Lists(members, path)
  {
    for i := 0 to |members|
      invariant forall k :: 0 <= k < i ==> members[k].path != path
    {
      if members[i].path == path {
        return true;
      }
    }
    return false;
  }

  function PathOf(m: SourceMember): Text {
    m.path
  }

  lemma DistinctPaths(env: Env, roots: seq<Text>, members: seq<SourceMember>)
    requires MembersHold(env, roots, members)
    ensures DistinctBy(members, PathOf)
  {
    forall i, k | 0 <= i < k < |members|
      ensures PathOf(members[i]) != PathOf(members[k])
    {
      PrecedesTotal(Scalars(members[i].path), Scalars(members[k].path));
    }
  }

  /** The first member at the baseline path binds the baseline bytes; there is no second one. */
  method BaselineBound(members: seq<SourceMember>, bytes: int, digest: Text) returns (ok: bool)
    requires DistinctBy(members, PathOf)
    ensures ok <==> Binds(members, bytes, digest)
  {
    for i := 0 to |members|
      invariant forall k :: 0 <= k < i ==> members[k].path != BASELINE
    {
      if members[i].path == BASELINE {
        forall k | i < k < |members|
          ensures members[k].path != BASELINE
        {
          assert PathOf(members[i]) != PathOf(members[k]);
        }
        return members[i].bytes == bytes && members[i].sha256 == digest;
      }
    }
    return false;
  }

  /** Every member of an accepted contract lies in exactly one source root. */
  lemma MemberInOneRoot(env: Env, b: Boundary, m: Manifest, baselineBytes: int, baselineDigest: Text, i: nat)
    requires ContractHolds(env, b, m, baselineBytes, baselineDigest) && i < |m.members|
    ensures InExactlyOne(m.members[i].path, b.sourceRoots)
  {
    assert InSome(m.members[i].path, b.sourceRoots);
    var k :| 0 <= k < |b.sourceRoots| && PathWithin(m.members[i].path, b.sourceRoots[k]);
    OneRoot(m.members[i].path, b.sourceRoots, k);
  }
}
