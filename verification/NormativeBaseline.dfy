/**
 The normative baseline manifest: generation one (tools/v2/build_normative_baseline.py),
 the promotion of one gate at a time (tools/v2/transition_normative_baseline.py) and
 the validation of a manifest (tools/v2/build_requirement_registry.py).
 */
module NormativeBaseline {
  import opened Wrappers
  import opened RepositoryPaths
  import opened ReviewChain
  import opened SourceText
  import opened Sorting

  type Bytes = seq<bv8>

  /** A commit as the path texts that `git show` finds in it, and their contents. */
  type Tree = map<string, Bytes>

  datatype Classification =
    | ApprovedNormative
    | MixedSource
    | VerifiedEvidenceIndex
    | Informative
    | Superseded
    | ProposedGate
    | Unsupported(name: string)

  predicate Allowed(c: Classification) {
    !c.Unsupported?
  }

  predicate Excluded(c: Classification) {
    c.VerifiedEvidenceIndex? || c.Informative? || c.Superseded?
  }

  /** One source of the policy document; None where a field is missing or has another type. */
  datatype PolicySource = PolicySource(
    path: Option<string>,
    classification: Classification,
    precedence: Option<int>,
    regions: Option<seq<Option<string>>>,
    supersededBy: Option<string>)

  datatype Policy = Policy(schemaSupported: bool, sources: seq<PolicySource>)

  /** What a source document declares about itself. */
  datatype Declaration = Declaration(authority: Classification, regions: seq<string>)

  /**
   The repository and the library calls of the tools: `peel` is `git rev-parse x^{commit}`,
   `digest` is SHA-256 in hexadecimal, the others parse contents, and `before` is the
   order of strings.
   */
  datatype World = World(
    vocabulary: Vocabulary,
    peel: map<string, string>,
    trees: map<string, Tree>,
    digest: Bytes -> string,
    policy: Bytes -> Option<Policy>,
    declaration: Bytes -> Option<Declaration>,
    lines: Bytes -> Option<seq<Line>>,
    before: (string, string) -> bool)

  /** A commit is named by a lower-case SHA, and peeling that name gives it again. */
  ghost predicate LawfulCommits(w: World) {
    forall x | x in w.peel && w.peel[x] in w.trees ::
      && IsSha(w.peel[x]) && Lower(w.peel[x]) == w.peel[x]
      && w.peel[x] in w.peel && w.peel[w.peel[x]] == w.peel[x]
  }

  /** SHA-256 as hashlib prints it. */
  ghost predicate LawfulDigest(w: World) {
    forall b: Bytes :: IsSha256(w.digest(b)) && Lower(w.digest(b)) == w.digest(b)
  }

  datatype FileEntry = FileEntry(
    path: string,
    classification: Classification,
    authorityClass: Option<Classification>,
    precedence: Option<int>,
    sha: string,
    regions: Option<seq<Region>>,
    supersededBy: Option<string>)

  datatype Transition = Transition(promotedPath: string, candidate: string)

  datatype Document = Document(path: string, sha: string)

  datatype Manifest = Manifest(
    schemaSupported: bool,
    generation: int,
    normativeSha: string,
    generatedAt: int,
    files: seq<FileEntry>,
    reviewChain: Option<seq<Review>>,
    policy: Option<Document>,
    evidence: Option<Document>,
    previousSha: Option<string>,
    transition: Option<Transition>)

  function Commit(w: World, sha: string): Option<string> {
    if IsSha(sha) && Lower(sha) in w.peel && w.peel[Lower(sha)] in w.trees then Some(w.peel[Lower(sha)]) else None
  }

  // ----- paths and contents -----

  function Stripped(w: World, path: string): string {
    w.vocabulary.strip(path)
  }

  function Relative(w: World, path: string): Option<string> {
    w.vocabulary.relative(path)
  }

  function At(tree: Tree, path: Option<string>): Option<Bytes> {
    if path.Some? && path.value in tree then Some(tree[path.value]) else None
  }

  /** `_candidate_blob`, which strips and normalizes the path that it is given. */
  function CandidateBlob(w: World, tree: Tree, path: string): Option<Bytes> {
    At(tree, Relative(w, path))
  }

  /** `_candidate_blob_sha256` and the loader of `_git_source_loader`, which normalize the path but do not strip it. */
  function SourceBlob(w: World, tree: Tree, path: string): Option<Bytes> {
    At(tree, w.vocabulary.posix(path))
  }

  // ----- validation of a manifest -----

  predicate RegionsDeclared(w: World, f: FileEntry) {
    f.classification.MixedSource? ==>
      && f.regions.Some? && f.regions.value != []
      && (forall i | 0 <= i < |f.regions.value| :: Stripped(w, f.regions.value[i].anchor) != "")
      && (forall i, j | 0 <= i < j < |f.regions.value| ::
            Stripped(w, f.regions.value[i].anchor) != Stripped(w, f.regions.value[j].anchor))
  }

  predicate FileValid(w: World, tree: Tree, f: FileEntry) {
    && Stripped(w, f.path) != ""
    && Allowed(f.classification)
    && SourceBlob(w, tree, Stripped(w, f.path)).Some? && IsSha(f.sha)
    && w.digest(SourceBlob(w, tree, Stripped(w, f.path)).value) == Lower(f.sha)
    && RegionsDeclared(w, f)
  }

  predicate ManifestValid(w: World, tree: Tree, m: Manifest) {
    && m.schemaSupported && m.generation >= 1 && IsSha(m.normativeSha) && m.files != []
    && (forall i | 0 <= i < |m.files| :: FileValid(w, tree, m.files[i]))
    && (forall i, j | 0 <= i < j < |m.files| :: Stripped(w, m.files[i].path) != Stripped(w, m.files[j].path))
  }

  // ----- what a valid manifest promises, property by property -----

  predicate HeaderValid(m: Manifest) {
    m.schemaSupported && m.generation >= 1 && IsSha(m.normativeSha)
  }

  /** Every path is a text that leads to a content with the recorded digest, and no two are the same once stripped. */
  predicate DigestsMatch(w: World, tree: Tree, files: seq<FileEntry>) {
    && (forall i | 0 <= i < |files| ::
          var path := w.vocabulary.strip(files[i].path);
          && path != "" && w.vocabulary.posix(path).Some? && w.vocabulary.posix(path).value in tree && IsSha(files[i].sha)
          && w.digest(tree[w.vocabulary.posix(path).value]) == Lower(files[i].sha))
    && (forall i, j | 0 <= i < j < |files| :: w.vocabulary.strip(files[i].path) != w.vocabulary.strip(files[j].path))
  }

  /** A mixed file declares regions, none with a blank anchor and no two with the same. */
  predicate MixedDeclared(w: World, files: seq<FileEntry>) {
    forall i | 0 <= i < |files| && files[i].classification.MixedSource? ::
      && files[i].regions.Some? && files[i].regions.value != []
      && (forall k | 0 <= k < |files[i].regions.value| :: w.vocabulary.strip(files[i].regions.value[k].anchor) != "")
      && (forall k, l | 0 <= k < l < |files[i].regions.value| ::
            w.vocabulary.strip(files[i].regions.value[k].anchor) != w.vocabulary.strip(files[i].regions.value[l].anchor))
  }

  lemma ManifestValidExactly(w: World, tree: Tree, m: Manifest)
    ensures ManifestValid(w, tree, m)
       <==> && HeaderValid(m) && m.files != [] && DigestsMatch(w, tree, m.files) && MixedDeclared(w, m.files)
            && forall i | 0 <= i < |m.files| :: !m.files[i].classification.Unsupported?
  {
  }

  /** The loop of the validator, with the set of paths seen so far. */
  method ValidateManifest(w: World, tree: Tree, m: Manifest) returns (r: Result<seq<FileEntry>, Rejection>)
    ensures r == if ManifestValid(w, tree, m) then Ok(m.files) else Err(ValueError)
  {
    if !m.schemaSupported || m.generation < 1 || !IsSha(m.normativeSha) || m.files == [] { return Err(ValueError); }
    var seen: set<string> := {};
    var result: seq<FileEntry> := [];
    for i := 0 to |m.files|
      invariant result == m.files[..i]
      invariant seen == set k | 0 <= k < i :: Stripped(w, m.files[k].path)
      invariant forall k | 0 <= k < i :: FileValid(w, tree, m.files[k])
      invariant forall k, l | 0 <= k < l < i :: Stripped(w, m.files[k].path) != Stripped(w, m.files[l].path)
    {
      var file := m.files[i];
      if Stripped(w, file.path) in seen { return Err(ValueError); }
      seen := seen + {Stripped(w, file.path)};
      if !FileValid(w, tree, file) { return Err(ValueError); }
      result := result + [file];
    }
    assert m.files[..|m.files|] == m.files;
    return Ok(result);
  }

  // ----- generation one -----

  function StrippedAnchors(w: World, raw: seq<Option<string>>): seq<string> {
    seq(|raw|, i requires 0 <= i < |raw| => if raw[i].None? then "" else Stripped(w, raw[i].value))
  }

  /** `_policy_regions`: the anchors, stripped; None if one is missing or repeated. */
  function PolicyRegions(w: World, value: Option<seq<Option<string>>>): Option<seq<string>> {
    if value.None? || value.value == [] then None
    else if exists i | 0 <= i < |value.value| :: value.value[i].None? || Stripped(w, value.value[i].value) == "" then None
    else
      var anchors := StrippedAnchors(w, value.value);
      if Distinct(anchors) then Some(anchors) else None
  }

  lemma RepeatedRegion(w: World, value: seq<Option<string>>, i: nat, j: nat)
    requires i < j < |value| && value[i].Some? && value[j].Some?
    requires Stripped(w, value[i].value) == Stripped(w, value[j].value)
    ensures PolicyRegions(w, Some(value)).None?
  {
    var anchors := StrippedAnchors(w, value);
    assert anchors[i] == anchors[j];
  }

  /** The loop over the regions, with the set of anchors seen so far. */
  method BuildPolicyRegions(w: World, value: Option<seq<Option<string>>>) returns (r: Option<seq<string>>)
    ensures r == PolicyRegions(w, value)
  {
    if value.None? || value.value == [] { return None; }
    var raw := value.value;
    var regions: seq<string> := [];
    var seen: set<string> := {};
    for i := 0 to |raw|
      invariant forall k | 0 <= k < i :: raw[k].Some? && Stripped(w, raw[k].value) != ""
      invariant |regions| == i && forall k | 0 <= k < i :: regions[k] == Stripped(w, raw[k].value)
      invariant seen == (set k | 0 <= k < i :: regions[k]) && Distinct(regions)
    {
      if raw[i].None? || Stripped(w, raw[i].value) == "" { return None; }
      var anchor := Stripped(w, raw[i].value);
      if anchor in seen {
        var k :| 0 <= k < i && regions[k] == anchor;
        RepeatedRegion(w, raw, k, i);
        return None;
      }
      seen := seen + {anchor};
      regions := regions + [anchor];
    }
    assert regions == StrippedAnchors(w, raw);
    return Some(regions);
  }

  function AsRegions(anchors: seq<string>): seq<Region> {
    seq(|anchors|, i requires 0 <= i < |anchors| => Region(anchors[i], false))
  }

  /** The manifest entry of one policy source, or None where the builder raises. */
  function EntryFor(w: World, tree: Tree, s: PolicySource): Option<FileEntry> {
    var path := if s.path.None? then None else Relative(w, s.path.value);
    if path.None? || !Allowed(s.classification) || s.precedence.None? || s.precedence.value < 1 then None
    else
      var content := CandidateBlob(w, tree, path.value);
      if content.None? || w.declaration(content.value).None? then None
      else DeclaredEntry(w, s, path.value, content.value, w.declaration(content.value).value)
  }

  /** The entry, if what the document declares agrees with the policy. */
  function DeclaredEntry(w: World, s: PolicySource, path: string, content: Bytes, declared: Declaration): Option<FileEntry> {
    var anchors := PolicyRegions(w, s.regions);
    var target := if s.supersededBy.None? then None else Relative(w, s.supersededBy.value);
    if declared.authority != s.classification then None
    else if s.classification.MixedSource? && anchors != Some(declared.regions) then None
    else if !s.classification.MixedSource? && (s.regions.Some? || declared.regions != []) then None
    else if s.classification.Superseded? && target.None? then None
    else if !s.classification.Superseded? && s.supersededBy.Some? then None
    else Some(FileEntry(
      path, s.classification, None, s.precedence, w.digest(content),
      if s.classification.MixedSource? then Some(AsRegions(declared.regions)) else None,
      if s.classification.Superseded? then target else None))
  }

  function Paths(files: seq<FileEntry>): seq<string> {
    seq(|files|, i requires 0 <= i < |files| => files[i].path)
  }

  predicate TargetsKnown(entries: seq<FileEntry>) {
    forall i | 0 <= i < |entries| && entries[i].supersededBy.Some? :: entries[i].supersededBy.value in Paths(entries)
  }

  /** sorted(entries, key=path) */
  function SortFiles(w: World, files: seq<FileEntry>): (r: seq<FileEntry>)
    ensures multiset(r) == multiset(files)
  {
    SortBy(ByPath(w), files)
  }

  function ByPath(w: World): (FileEntry, FileEntry) -> bool {
    (f: FileEntry, g: FileEntry) => w.before(f.path, g.path)
  }

  ghost predicate InPathOrder(w: World, files: seq<FileEntry>) {
    forall i, j | 0 <= i < j < |files| :: !w.before(files[j].path, files[i].path)
  }

  lemma SortFilesOrdered(w: World, files: seq<FileEntry>)
    requires WeakOrder(w.before)
    ensures InPathOrder(w, SortFiles(w, files))
  {
    forall f, g, h
      ensures ByPath(w)(f, g) ==> !ByPath(w)(g, f)
      ensures !ByPath(w)(f, g) && !ByPath(w)(g, h) ==> !ByPath(w)(f, h)
    {
      ByPathIs(w, f, g);
      ByPathIs(w, g, h);
      ByPathIs(w, f, h);
      ByPathIs(w, g, f);
    }
    SortOrdered(ByPath(w), files);
    var r := SortFiles(w, files);
    forall i, j | 0 <= i < j < |r|
      ensures !w.before(r[j].path, r[i].path)
    {
      ByPathIs(w, r[j], r[i]);
    }
  }

  lemma ByPathIs(w: World, f: FileEntry, g: FileEntry)
    ensures ByPath(w)(f, g) == w.before(f.path, g.path)
  {
  }

  function AllEntries(w: World, tree: Tree, sources: seq<PolicySource>): Option<seq<FileEntry>> {
    if sources == [] then Some([])
    else
      var front := AllEntries(w, tree, sources[..|sources| - 1]);
      var last := EntryFor(w, tree, sources[|sources| - 1]);
      if front.None? || last.None? then None else Some(front.value + [last.value])
  }

  function ManifestFiles(w: World, tree: Tree, policy: Policy): Option<seq<FileEntry>> {
    if !policy.schemaSupported || policy.sources == [] then None
    else
      var entries := AllEntries(w, tree, policy.sources);
      if entries.None? || !Distinct(Paths(entries.value)) || !TargetsKnown(entries.value) then None
      else Some(SortFiles(w, entries.value))
  }

  lemma {:induction false} EntriesPrefix(w: World, tree: Tree, sources: seq<PolicySource>, i: nat)
    requires i <= |sources| && AllEntries(w, tree, sources).Some?
    ensures var all := AllEntries(w, tree, sources).value;
      |all| == |sources| && AllEntries(w, tree, sources[..i]) == Some(all[..i])
    decreases |sources|
  {
    if sources == [] {
    } else if i == |sources| {
      assert sources[..i] == sources;
      EntriesPrefix(w, tree, sources[..i - 1], i - 1);
      assert AllEntries(w, tree, sources).value[..i] == AllEntries(w, tree, sources).value;
    } else {
      var front := sources[..|sources| - 1];
      EntriesPrefix(w, tree, front, i);
      assert front[..i] == sources[..i];
      assert AllEntries(w, tree, sources).value[..i] == AllEntries(w, tree, front).value[..i];
    }
  }

  ghost predicate EntriesUsable(w: World, tree: Tree, sources: seq<PolicySource>) {
    AllEntries(w, tree, sources).Some? && Distinct(Paths(AllEntries(w, tree, sources).value))
  }

  lemma UsablePrefix(w: World, tree: Tree, sources: seq<PolicySource>, i: nat)
    requires i <= |sources| && EntriesUsable(w, tree, sources)
    ensures EntriesUsable(w, tree, sources[..i])
  {
    EntriesPrefix(w, tree, sources, i);
    var all := AllEntries(w, tree, sources).value;
    assert Paths(all[..i]) == Paths(all)[..i];
  }

  function PathSet(files: seq<FileEntry>): set<string> {
    set k | 0 <= k < |files| :: files[k].path
  }

  lemma PathSetGrows(files: seq<FileEntry>, f: FileEntry)
    ensures PathSet(files + [f]) == PathSet(files) + {f.path}
  {
    var longer := files + [f];
    assert longer[|files|] == f && forall k | 0 <= k < |files| :: longer[k] == files[k];
    assert forall x | x in PathSet(files) :: x in PathSet(longer) by {
      forall x | x in PathSet(files)
        ensures x in PathSet(longer)
      {
        var k :| 0 <= k < |files| && files[k].path == x;
        assert longer[k].path == x;
      }
    }
  }

  lemma OneMoreEntry(w: World, tree: Tree, sources: seq<PolicySource>, i: nat, entries: seq<FileEntry>, paths: set<string>)
    requires i < |sources| && AllEntries(w, tree, sources[..i]) == Some(entries) && EntriesUsable(w, tree, sources[..i])
    requires paths == PathSet(entries)
    ensures EntriesUsable(w, tree, sources[..i + 1]) <==>
              EntryFor(w, tree, sources[i]).Some? && EntryFor(w, tree, sources[i]).value.path !in paths
    ensures EntryFor(w, tree, sources[i]).Some? ==>
              AllEntries(w, tree, sources[..i + 1]) == Some(entries + [EntryFor(w, tree, sources[i]).value])
  {
    assert sources[..i + 1][..i] == sources[..i];
    var entry := EntryFor(w, tree, sources[i]);
    if entry.Some? {
      var ps := Paths(entries + [entry.value]);
      assert ps == Paths(entries) + [entry.value.path];
      if entry.value.path in paths {
        var k :| 0 <= k < |entries| && entries[k].path == entry.value.path;
        assert ps[k] == ps[|entries|];
      }
    }
  }

  /** The checks on one policy source, and its entry. */
  method BuildEntry(w: World, tree: Tree, s: PolicySource) returns (r: Option<FileEntry>)
    ensures r == EntryFor(w, tree, s)
  {
    var path := if s.path.None? then None else Relative(w, s.path.value);
    if path.None? || !Allowed(s.classification) { return None; }
    if s.precedence.None? || s.precedence.value < 1 { return None; }
    var content := CandidateBlob(w, tree, path.value);
    if content.None? || w.declaration(content.value).None? { return None; }
    var declared := w.declaration(content.value).value;
    if declared.authority != s.classification { return None; }
    var entry := FileEntry(path.value, s.classification, None, s.precedence, w.digest(content.value), None, None);
    if s.classification.MixedSource? {
      var anchors := BuildPolicyRegions(w, s.regions);
      if anchors != Some(declared.regions) { return None; }
      entry := entry.(regions := Some(AsRegions(declared.regions)));
    } else if s.regions.Some? || declared.regions != [] {
      return None;
    }
    if s.classification.Superseded? {
      var target := if s.supersededBy.None? then None else Relative(w, s.supersededBy.value);
      if target.None? { return None; }
      entry := entry.(supersededBy := target);
    } else if s.supersededBy.Some? {
      return None;
    }
    return Some(entry);
  }

  /** The loop over the policy sources, with the set of paths seen so far. */
  method BuildManifestFiles(w: World, tree: Tree, policy: Policy) returns (r: Option<seq<FileEntry>>)
    ensures r == ManifestFiles(w, tree, policy)
  {
    if !policy.schemaSupported || policy.sources == [] { return None; }
    var entries: seq<FileEntry> := [];
    var paths: set<string> := {};
    var sources := policy.sources;
    for i := 0 to |sources|
      invariant AllEntries(w, tree, sources[..i]) == Some(entries)
      invariant EntriesUsable(w, tree, sources[..i])
      invariant paths == PathSet(entries)
    {
      OneMoreEntry(w, tree, sources, i, entries, paths);
      if EntriesUsable(w, tree, sources) { UsablePrefix(w, tree, sources, i + 1); }
      var entry := BuildEntry(w, tree, sources[i]);
      if entry.None? || entry.value.path in paths { return None; }
      PathSetGrows(entries, entry.value);
      paths := paths + {entry.value.path};
      entries := entries + [entry.value];
    }
    assert sources[..|sources|] == sources;
    if !TargetsKnown(entries) { return None; }
    return Some(SortFiles(w, entries));
  }

  // ----- what the policy says of each file -----

  /** The file is the source's path once normalized, with the digest of what the builder reads there, as the document itself declares it. */
  predicate LocatedBy(w: World, tree: Tree, s: PolicySource, f: FileEntry) {
    && s.path.Some? && w.vocabulary.relative(s.path.value) == Some(f.path)
    && w.vocabulary.relative(f.path).Some? && w.vocabulary.relative(f.path).value in tree
    && var content := tree[w.vocabulary.relative(f.path).value];
       f.sha == w.digest(content)
       && w.declaration(content).Some? && w.declaration(content).value.authority == s.classification
       && RegionsAgree(w, s, w.declaration(content).value.regions, f)
  }

  /** A mixed document lists the regions of the policy, none blank and none twice; another has none on either side. */
  predicate RegionsAgree(w: World, s: PolicySource, declared: seq<string>, f: FileEntry) {
    if s.classification.MixedSource? then
      && s.regions.Some? && f.regions.Some? && |declared| == |s.regions.value| == |f.regions.value| > 0
      && (forall k | 0 <= k < |declared| ::
            && s.regions.value[k].Some? && declared[k] == w.vocabulary.strip(s.regions.value[k].value) != ""
            && f.regions.value[k] == Region(declared[k], false))
      && (forall k, l | 0 <= k < l < |declared| :: declared[k] != declared[l])
    else s.regions == None && declared == [] && f.regions == None
  }

  predicate TargetAgrees(w: World, s: PolicySource, f: FileEntry) {
    if s.classification.Superseded? then
      s.supersededBy.Some? && f.supersededBy.Some? && w.vocabulary.relative(s.supersededBy.value) == f.supersededBy
    else s.supersededBy == None && f.supersededBy == None
  }

  predicate Describes(w: World, tree: Tree, s: PolicySource, f: FileEntry) {
    && LocatedBy(w, tree, s, f) && TargetAgrees(w, s, f)
    && f.classification == s.classification && !s.classification.Unsupported? && f.authorityClass == None
    && f.precedence == s.precedence && s.precedence.Some? && s.precedence.value >= 1
  }

  lemma PolicyRegionsExactly(w: World, s: PolicySource, declared: seq<string>, f: FileEntry)
    requires s.classification.MixedSource?
    ensures RegionsAgree(w, s, declared, f)
       <==> PolicyRegions(w, s.regions) == Some(declared) && f.regions == Some(AsRegions(declared))
  {
    if RegionsAgree(w, s, declared, f) {
      assert StrippedAnchors(w, s.regions.value) == declared;
      assert f.regions.value == AsRegions(declared);
    } else if PolicyRegions(w, s.regions) == Some(declared) {
      assert forall k | 0 <= k < |declared| :: declared[k] == StrippedAnchors(w, s.regions.value)[k];
    }
  }

  /** The builder makes this entry of the source exactly when the entry describes it. */
  lemma EntryExactly(w: World, tree: Tree, s: PolicySource, f: FileEntry)
    ensures EntryFor(w, tree, s) == Some(f) <==> Describes(w, tree, s, f)
  {
    var content := if s.path.None? || Relative(w, s.path.value).None? then None
                   else CandidateBlob(w, tree, Relative(w, s.path.value).value);
    if content.Some? && w.declaration(content.value).Some? && s.classification.MixedSource? {
      PolicyRegionsExactly(w, s, w.declaration(content.value).value.regions, f);
    }
  }

  predicate DescribesAll(w: World, tree: Tree, sources: seq<PolicySource>, entries: seq<FileEntry>) {
    |entries| == |sources| && forall i | 0 <= i < |sources| :: Describes(w, tree, sources[i], entries[i])
  }

  lemma DescribesMore(w: World, tree: Tree, sources: seq<PolicySource>, entries: seq<FileEntry>, n: nat)
    requires |entries| == |sources| == n + 1
    ensures DescribesAll(w, tree, sources, entries)
       <==> DescribesAll(w, tree, sources[..n], entries[..n]) && Describes(w, tree, sources[n], entries[n])
  {
    assert forall i | 0 <= i < n :: sources[..n][i] == sources[i] && entries[..n][i] == entries[i];
  }

  lemma {:induction false} EntriesExactly(w: World, tree: Tree, sources: seq<PolicySource>, entries: seq<FileEntry>)
    ensures AllEntries(w, tree, sources) == Some(entries) <==> DescribesAll(w, tree, sources, entries)
    decreases |sources|
  {
    if sources != [] {
      var n := |sources| - 1;
      if |entries| == |sources| {
        EntriesExactly(w, tree, sources[..n], entries[..n]);
        EntryExactly(w, tree, sources[n], entries[n]);
        DescribesMore(w, tree, sources, entries, n);
        assert entries == entries[..n] + [entries[n]];
      } else if AllEntries(w, tree, sources[..n]).Some? {
        EntriesExactly(w, tree, sources[..n], AllEntries(w, tree, sources[..n]).value);
      }
    }
  }

  /** No path twice, and every replacement is in the policy. */
  predicate PathsUsable(entries: seq<FileEntry>) {
    (forall i, j | 0 <= i < j < |entries| :: entries[i].path != entries[j].path) && TargetsListed(entries)
  }

  /** One entry for each source, sorted by path. */
  ghost predicate FollowsPolicy(w: World, tree: Tree, policy: Policy, files: seq<FileEntry>) {
    && policy.schemaSupported && policy.sources != []
    && exists entries ::
         DescribesAll(w, tree, policy.sources, entries) && PathsUsable(entries) && files == SortFiles(w, entries)
  }

  predicate TargetsListed(entries: seq<FileEntry>) {
    forall i | 0 <= i < |entries| && entries[i].supersededBy.Some? :: HasPath(entries, entries[i].supersededBy.value)
  }

  predicate HasPath(entries: seq<FileEntry>, path: string) {
    exists k | 0 <= k < |entries| :: entries[k].path == path
  }

  lemma TargetsExactly(entries: seq<FileEntry>)
    ensures TargetsKnown(entries) <==> TargetsListed(entries)
  {
    forall path
      ensures path in Paths(entries) <==> HasPath(entries, path)
    {
      if HasPath(entries, path) {
        var k :| 0 <= k < |entries| && entries[k].path == path;
        assert Paths(entries)[k] == path;
      }
    }
  }

  lemma PathsExactly(entries: seq<FileEntry>)
    ensures PathsUsable(entries) <==> Distinct(Paths(entries)) && TargetsKnown(entries)
  {
    assert forall i | 0 <= i < |entries| :: Paths(entries)[i] == entries[i].path;
    TargetsExactly(entries);
  }

  /** The builder gives these files exactly when they follow the policy. */
  lemma ManifestFilesExactly(w: World, tree: Tree, policy: Policy, files: seq<FileEntry>)
    ensures ManifestFiles(w, tree, policy) == Some(files) <==> FollowsPolicy(w, tree, policy, files)
  {
    if ManifestFiles(w, tree, policy) == Some(files) {
      var entries := AllEntries(w, tree, policy.sources).value;
      EntriesExactly(w, tree, policy.sources, entries);
      PathsExactly(entries);
    } else if FollowsPolicy(w, tree, policy, files) {
      var entries :| DescribesAll(w, tree, policy.sources, entries) && PathsUsable(entries) && files == SortFiles(w, entries);
      EntriesExactly(w, tree, policy.sources, entries);
      PathsExactly(entries);
    }
  }

  datatype InitialRequest = InitialRequest(
    candidate: string, policyPath: string, chain: seq<Review>,
    evidenceSha: string, evidencePath: string, generatedAt: int)

  function LastReview(w: World, reviews: seq<Review>): Option<int> {
    if reviews == [] then None else Time(w.vocabulary, reviews[|reviews| - 1])
  }

  function PolicyAt(w: World, tree: Tree, policyPath: string): Option<(Document, Policy)> {
    var path := Relative(w, policyPath);
    var content := if path.None? then None else CandidateBlob(w, tree, path.value);
    if content.None? || w.policy(content.value).None? then None
    else Some((Document(path.value, w.digest(content.value)), w.policy(content.value).value))
  }

  ghost function Reviews(w: World, commit: string, chain: seq<Review>, evidenceSha: string, evidencePath: string)
    : Result<seq<Review>, Rejection>
  {
    Validated(w.vocabulary, REVIEW_ROLES, chain, Some(commit), Some(evidenceSha), Some(evidencePath))
  }

  /** The generation-one manifest, or a rejection. */
  ghost function Initial(w: World, q: InitialRequest): Result<Manifest, Rejection>
  {
    var commit := Commit(w, q.candidate);
    if commit.None? then Err(ValueError)
    else
      var tree := w.trees[commit.value];
      var policy := PolicyAt(w, tree, q.policyPath);
      var files := if policy.None? then None else ManifestFiles(w, tree, policy.value.1);
      var reviews := Reviews(w, commit.value, q.chain, q.evidenceSha, q.evidencePath);
      var evidence := Relative(w, q.evidencePath);
      if files.None? || !IsSha256(q.evidenceSha) || reviews.Err? || evidence.None? then Err(ValueError)
      else if LastReview(w, reviews.value).None? || q.generatedAt <= LastReview(w, reviews.value).value then Err(ValueError)
      else Ok(Manifest(
        true, 1, commit.value, q.generatedAt, files.value, Some(reviews.value), Some(policy.value.0),
        Some(Document(evidence.value, Lower(q.evidenceSha))), None, None))
  }

  // ----- exactly what generation one is -----

  /** The reviews are of this commit and this note, all made before the manifest, and stored in normal form. */
  ghost predicate Reviewed(w: World, commit: string, chain: seq<Review>, evidenceSha: string, evidencePath: string,
                           generatedAt: int, stored: Option<seq<Review>>)
  {
    && Vouched(w.vocabulary, REVIEW_ROLES, chain, Some(commit), Some(evidenceSha), Some(evidencePath))
    && stored.Some? && StoredFrom(w.vocabulary, chain, stored.value)
    && forall i | 0 <= i < |chain| && chain[i].reviewedAt.Some? ::
         var at := w.vocabulary.time(chain[i].reviewedAt.value); at.Some? ==> at.value < generatedAt
  }

  lemma StoredFromUnique(v: Vocabulary, chain: seq<Review>, a: seq<Review>, b: seq<Review>)
    requires StoredFrom(v, chain, a) && StoredFrom(v, chain, b)
    ensures a == b
  {
    assert forall i | 0 <= i < |chain| :: a[i] == b[i];
  }

  /** The last review decides whether all were made before. */
  lemma LastIsLatest(w: World, chain: seq<Review>, stored: seq<Review>, generatedAt: int)
    requires Dated(w.vocabulary, chain) && StoredFrom(w.vocabulary, chain, stored) && chain != []
    ensures LastReview(w, stored).Some?
    ensures generatedAt > LastReview(w, stored).value
       <==> forall i | 0 <= i < |chain| && chain[i].reviewedAt.Some? ::
              var at := w.vocabulary.time(chain[i].reviewedAt.value); at.Some? ==> at.value < generatedAt
  {
    var n := |chain| - 1;
    assert stored[n].reviewedAt == chain[n].reviewedAt;
  }

  lemma ReviewedExactly(w: World, commit: string, chain: seq<Review>, evidenceSha: string, evidencePath: string,
                        generatedAt: int, stored: Option<seq<Review>>)
    ensures var r := Reviews(w, commit, chain, evidenceSha, evidencePath);
      Reviewed(w, commit, chain, evidenceSha, evidencePath, generatedAt, stored)
      <==> r.Ok? && stored == Some(r.value) && LastReview(w, r.value).Some? && generatedAt > LastReview(w, r.value).value
  {
    AcceptedExactly(w.vocabulary, REVIEW_ROLES, chain, Some(commit), Some(evidenceSha), Some(evidencePath));
    var r := Reviews(w, commit, chain, evidenceSha, evidencePath);
    if r.Ok? {
      LastIsLatest(w, chain, r.value, generatedAt);
      if stored.Some? && StoredFrom(w.vocabulary, chain, stored.value) {
        StoredFromUnique(w.vocabulary, chain, stored.value, r.value);
      }
    }
  }

  /** The manifest names the policy that was read, by its path and its digest. */
  predicate PolicyRead(w: World, tree: Tree, policyPath: string, named: Option<Document>, policy: Policy) {
    && named.Some? && w.vocabulary.relative(policyPath) == Some(named.value.path)
    && w.vocabulary.relative(named.value.path).Some? && w.vocabulary.relative(named.value.path).value in tree
    && var content := tree[w.vocabulary.relative(named.value.path).value];
       named.value.sha == w.digest(content) && w.policy(content) == Some(policy)
  }

  lemma PolicyReadExactly(w: World, tree: Tree, policyPath: string, named: Option<Document>, policy: Policy)
    ensures PolicyRead(w, tree, policyPath, named, policy)
       <==> named.Some? && PolicyAt(w, tree, policyPath) == Some((named.value, policy))
  {
  }

  predicate FirstHeader(w: World, q: InitialRequest, m: Manifest) {
    && Commit(w, q.candidate) == Some(m.normativeSha)
    && m.schemaSupported && m.generation == 1 && m.generatedAt == q.generatedAt
    && m.previousSha == None && m.transition == None
    && IsSha256(q.evidenceSha) && m.evidence.Some? && m.evidence.value.sha == Lower(q.evidenceSha)
    && w.vocabulary.relative(q.evidencePath) == Some(m.evidence.value.path)
  }

  /** Generation one of the request: its commit, its reviews and note, its policy, and the files that the policy describes. */
  ghost predicate Requested(w: World, q: InitialRequest, m: Manifest) {
    && FirstHeader(w, q, m) && m.normativeSha in w.trees
    && Reviewed(w, m.normativeSha, q.chain, q.evidenceSha, q.evidencePath, q.generatedAt, m.reviewChain)
    && exists policy ::
         && PolicyRead(w, w.trees[m.normativeSha], q.policyPath, m.policy, policy)
         && FollowsPolicy(w, w.trees[m.normativeSha], policy, m.files)
  }

  lemma InitialIsRequested(w: World, q: InitialRequest, m: Manifest)
    requires Initial(w, q) == Ok(m)
    ensures FirstHeader(w, q, m) && m.normativeSha in w.trees
    ensures Reviewed(w, m.normativeSha, q.chain, q.evidenceSha, q.evidencePath, q.generatedAt, m.reviewChain)
    ensures exists policy ::
              && PolicyRead(w, w.trees[m.normativeSha], q.policyPath, m.policy, policy)
              && FollowsPolicy(w, w.trees[m.normativeSha], policy, m.files)
  {
    var tree := w.trees[m.normativeSha];
    var policy := PolicyAt(w, tree, q.policyPath).value.1;
    ReviewedExactly(w, m.normativeSha, q.chain, q.evidenceSha, q.evidencePath, q.generatedAt, m.reviewChain);
    PolicyReadExactly(w, tree, q.policyPath, m.policy, policy);
    ManifestFilesExactly(w, tree, policy, m.files);
  }

  lemma RequestedIsInitial(w: World, q: InitialRequest, m: Manifest)
    requires Requested(w, q, m)
    ensures Initial(w, q) == Ok(m)
  {
    var tree := w.trees[m.normativeSha];
    var policy :| PolicyRead(w, tree, q.policyPath, m.policy, policy) && FollowsPolicy(w, tree, policy, m.files);
    ReviewedExactly(w, m.normativeSha, q.chain, q.evidenceSha, q.evidencePath, q.generatedAt, m.reviewChain);
    PolicyReadExactly(w, tree, q.policyPath, m.policy, policy);
    ManifestFilesExactly(w, tree, policy, m.files);
  }

  /** The builder gives this generation one exactly when it is the one requested. */
  lemma InitialExactly(w: World, q: InitialRequest, m: Manifest)
    ensures (Initial(w, q) == Ok(m)) == Requested(w, q, m)
  {
    if Initial(w, q) == Ok(m) {
      InitialIsRequested(w, q, m);
    } else if Requested(w, q, m) {
      RequestedIsInitial(w, q, m);
    }
  }

  /**
   build_initial_manifest. Generation one describes its commit under a stored review chain, and
   passes the validator exactly when no two of its paths are the same once stripped.
   */
  method BuildInitialManifest(w: World, q: InitialRequest) returns (r: Result<Manifest, Rejection>)
    ensures r == Initial(w, q)
    ensures r.Ok? ==> Requested(w, q, r.value)
    ensures LawfulPaths(w.vocabulary) && LawfulCommits(w) && r.Ok? ==> Sound(w, r.value) && r.value.generation == 1
    ensures LawfulPaths(w.vocabulary) && LawfulCommits(w) && LawfulDigest(w) && r.Ok? ==>
      (ManifestValid(w, w.trees[r.value.normativeSha], r.value) <==> StrippedApart(w, Paths(r.value.files)))
  {
    FirstGeneration(w, q);
    if Initial(w, q).Ok? { InitialExactly(w, q, Initial(w, q).value); }
    var commit := Commit(w, q.candidate);
    if commit.None? { return Err(ValueError); }
    var tree := w.trees[commit.value];
    var policy := PolicyAt(w, tree, q.policyPath);
    if policy.None? { return Err(ValueError); }
    var files := BuildManifestFiles(w, tree, policy.value.1);
    if files.None? { return Err(ValueError); }
    if !IsSha256(q.evidenceSha) { return Err(ValueError); }
    var reviews := ValidateReviewChain(
      w.vocabulary, REVIEW_ROLES, q.chain, Some(commit.value), Some(q.evidenceSha), Some(q.evidencePath));
    if reviews.Err? { return Err(ValueError); }
    var last := LastReview(w, reviews.value);
    if last.None? || q.generatedAt <= last.value { return Err(ValueError); }
    var evidence := Relative(w, q.evidencePath);
    if evidence.None? { return Err(ValueError); }
    return Ok(Manifest(
      true, 1, commit.value, q.generatedAt, files.value, Some(reviews.value), Some(policy.value.0),
      Some(Document(evidence.value, Lower(q.evidenceSha))), None, None));
  }

  // ----- the promotion of one gate -----

  datatype Promotion = Promotion(
    path: string, candidate: string, chain: seq<Review>,
    evidenceSha: string, evidencePath: string, generatedAt: int)

  predicate FileWellFormed(w: World, f: FileEntry) {
    Allowed(f.classification) && IsSha(f.sha) && Stripped(w, f.path) != ""
  }

  /** The files that the promotion of `path` may start from. */
  predicate Promotable(w: World, files: seq<FileEntry>, path: string) {
    && files != [] && (forall i | 0 <= i < |files| :: FileWellFormed(w, files[i]))
    && (exists i | 0 <= i < |files| :: files[i].path == path && files[i].classification == ProposedGate)
    && Distinct(Paths(files))
  }

  predicate Readable(w: World, tree: Tree, files: seq<FileEntry>) {
    forall i | 0 <= i < |files| :: SourceBlob(w, tree, files[i].path).Some?
  }

  function PromotedFile(w: World, tree: Tree, path: string, f: FileEntry): FileEntry
    requires SourceBlob(w, tree, f.path).Some?
  {
    var rehashed := f.(sha := w.digest(SourceBlob(w, tree, f.path).value));
    if f.path != path then rehashed
    else rehashed.(classification := ApprovedNormative, authorityClass := Some(ApprovedNormative), regions := None)
  }

  function PromotedFiles(w: World, tree: Tree, path: string, files: seq<FileEntry>): seq<FileEntry>
    requires Readable(w, tree, files)
  {
    seq(|files|, i requires 0 <= i < |files| => PromotedFile(w, tree, path, files[i]))
  }

  ghost function Promoted(w: World, m: Manifest, p: Promotion): Result<Manifest, Rejection>
  {
    var current, reviewed := Commit(w, m.normativeSha), Commit(w, p.candidate);
    if !m.schemaSupported || current.None? || reviewed.None? || reviewed == current then Err(ValueError)
    else
      var tree := w.trees[reviewed.value];
      var reviews := Reviews(w, reviewed.value, p.chain, p.evidenceSha, p.evidencePath);
      if reviews.Err? || Stripped(w, p.path) == "" || w.vocabulary.posix(p.path).None? then Err(ValueError)
      else if m.generation < 1 || !Promotable(w, m.files, p.path) then Err(ValueError)
      else if LastReview(w, reviews.value).None? || p.generatedAt <= LastReview(w, reviews.value).value then Err(ValueError)
      else if !Readable(w, tree, m.files) then Err(ValueError)
      else Ok(m.(
        generation := m.generation + 1,
        normativeSha := reviewed.value,
        generatedAt := p.generatedAt,
        files := PromotedFiles(w, tree, p.path, m.files),
        reviewChain := Some(reviews.value),
        previousSha := Some(m.normativeSha),
        transition := Some(Transition(p.path, reviewed.value))))
  }

  // ----- exactly what a promotion is -----

  /** Each content of the new commit under its path, with its digest; the gate is approved and loses its regions. */
  predicate FilePromoted(w: World, tree: Tree, path: string, f: FileEntry, g: FileEntry) {
    && w.vocabulary.posix(f.path).Some? && w.vocabulary.posix(f.path).value in tree
    && var sha := w.digest(tree[w.vocabulary.posix(f.path).value]);
       if f.path == path then
         g == FileEntry(f.path, ApprovedNormative, Some(ApprovedNormative), f.precedence, sha, None, f.supersededBy)
       else g == f.(sha := sha)
  }

  predicate FilesPromoted(w: World, tree: Tree, path: string, files: seq<FileEntry>, next: seq<FileEntry>) {
    && |next| == |files| > 0
    && (exists i | 0 <= i < |files| :: files[i].path == path && files[i].classification == ProposedGate)
    && (forall i, j | 0 <= i < j < |files| :: files[i].path != files[j].path)
    && (forall i | 0 <= i < |files| ::
          && !files[i].classification.Unsupported? && IsSha(files[i].sha) && w.vocabulary.strip(files[i].path) != ""
          && FilePromoted(w, tree, path, files[i], next[i]))
  }

  predicate NextHeader(w: World, m: Manifest, p: Promotion, next: Manifest) {
    && m.schemaSupported && m.generation >= 1
    && Commit(w, m.normativeSha).Some? && Commit(w, p.candidate) == Some(next.normativeSha)
    && next.normativeSha != Commit(w, m.normativeSha).value
    && w.vocabulary.strip(p.path) != "" && w.vocabulary.posix(p.path).Some?
    && next == m.(generation := m.generation + 1, normativeSha := next.normativeSha, generatedAt := p.generatedAt,
                  files := next.files, reviewChain := next.reviewChain,
                  previousSha := Some(m.normativeSha), transition := Some(Transition(p.path, next.normativeSha)))
  }

  /** The next manifest: another commit, reviews of it, and the files as they are there with the one gate approved. */
  ghost predicate PromotesTo(w: World, m: Manifest, p: Promotion, next: Manifest) {
    && NextHeader(w, m, p, next) && next.normativeSha in w.trees
    && Reviewed(w, next.normativeSha, p.chain, p.evidenceSha, p.evidencePath, p.generatedAt, next.reviewChain)
    && FilesPromoted(w, w.trees[next.normativeSha], p.path, m.files, next.files)
  }

  lemma FilesPromotedExactly(w: World, tree: Tree, path: string, files: seq<FileEntry>, next: seq<FileEntry>)
    ensures FilesPromoted(w, tree, path, files, next)
       <==> Promotable(w, files, path) && Readable(w, tree, files) && next == PromotedFiles(w, tree, path, files)
  {
    assert forall i | 0 <= i < |files| :: Paths(files)[i] == files[i].path;
    if |next| == |files| && Readable(w, tree, files) {
      forall i | 0 <= i < |files|
        ensures FilePromoted(w, tree, path, files[i], next[i]) <==> next[i] == PromotedFiles(w, tree, path, files)[i]
      {
      }
      assert next == PromotedFiles(w, tree, path, files)
        <==> forall i | 0 <= i < |files| :: next[i] == PromotedFiles(w, tree, path, files)[i];
    }
  }

  lemma PromotionPromotes(w: World, m: Manifest, p: Promotion, next: Manifest)
    requires Promoted(w, m, p) == Ok(next)
    ensures NextHeader(w, m, p, next) && next.normativeSha in w.trees
    ensures Reviewed(w, next.normativeSha, p.chain, p.evidenceSha, p.evidencePath, p.generatedAt, next.reviewChain)
    ensures FilesPromoted(w, w.trees[next.normativeSha], p.path, m.files, next.files)
  {
    ReviewedExactly(w, next.normativeSha, p.chain, p.evidenceSha, p.evidencePath, p.generatedAt, next.reviewChain);
    FilesPromotedExactly(w, w.trees[next.normativeSha], p.path, m.files, next.files);
  }

  lemma PromotesByPromotion(w: World, m: Manifest, p: Promotion, next: Manifest)
    requires PromotesTo(w, m, p, next)
    ensures Promoted(w, m, p) == Ok(next)
  {
    ReviewedExactly(w, next.normativeSha, p.chain, p.evidenceSha, p.evidencePath, p.generatedAt, next.reviewChain);
    FilesPromotedExactly(w, w.trees[next.normativeSha], p.path, m.files, next.files);
  }

  /** The transition gives this manifest exactly when it is the promotion of the one gate. */
  lemma PromotedExactly(w: World, m: Manifest, p: Promotion, next: Manifest)
    ensures (Promoted(w, m, p) == Ok(next)) == PromotesTo(w, m, p, next)
  {
    if Promoted(w, m, p) == Ok(next) {
      PromotionPromotes(w, m, p, next);
    } else if PromotesTo(w, m, p, next) {
      PromotesByPromotion(w, m, p, next);
    }
  }

  /** The copied files are rewritten one after the other; None if one is not in the commit. */
  method RewriteFiles(w: World, tree: Tree, path: string, copied: seq<FileEntry>) returns (r: Option<seq<FileEntry>>)
    ensures r.Some? <==> Readable(w, tree, copied)
    ensures r.Some? ==> r.value == PromotedFiles(w, tree, path, copied)
  {
    var files := copied;
    for i := 0 to |files|
      invariant |files| == |copied|
      invariant forall k | i <= k < |files| :: files[k] == copied[k]
      invariant forall k | 0 <= k < i :: SourceBlob(w, tree, copied[k].path).Some?
      invariant forall k | 0 <= k < i :: files[k] == PromotedFile(w, tree, path, copied[k])
    {
      var file := files[i];
      var content := SourceBlob(w, tree, file.path);
      if content.None? { return None; }
      file := file.(sha := w.digest(content.value));
      if file.path == path {
        file := file.(classification := ApprovedNormative, authorityClass := Some(ApprovedNormative), regions := None);
      }
      files := files[i := file];
    }
    assert Readable(w, tree, copied);
    assert files == PromotedFiles(w, tree, path, copied);
    return Some(files);
  }

  /**
   transition_manifest. The next generation has one gate fewer, the same paths and the link to
   its predecessor, and is sound against its own commit if the manifest was against its own.
   */
  method TransitionManifest(w: World, m: Manifest, p: Promotion) returns (r: Result<Manifest, Rejection>)
    ensures r == Promoted(w, m, p)
    ensures r.Ok? ==> PromotesTo(w, m, p, r.value)
    ensures r.Ok? ==> Advances(m, p, r.value) && PromotesOnly(m.files, r.value.files, p.path)
    ensures r.Ok? && LawfulCommits(w) && Sound(w, m) ==> Sound(w, r.value)
  {
    NextGenerationSound(w, m, p);
    if Promoted(w, m, p).Ok? { PromotedExactly(w, m, p, Promoted(w, m, p).value); }
    if !m.schemaSupported { return Err(ValueError); }
    var current, reviewed := Commit(w, m.normativeSha), Commit(w, p.candidate);
    if current.None? || reviewed.None? || reviewed == current { return Err(ValueError); }
    var reviews := ValidateReviewChain(
      w.vocabulary, REVIEW_ROLES, p.chain, Some(reviewed.value), Some(p.evidenceSha), Some(p.evidencePath));
    if reviews.Err? || Stripped(w, p.path) == "" || w.vocabulary.posix(p.path).None? { return Err(ValueError); }
    if m.generation < 1 || !Promotable(w, m.files, p.path) { return Err(ValueError); }
    var last := LastReview(w, reviews.value);
    if last.None? || p.generatedAt <= last.value { return Err(ValueError); }
    var files := RewriteFiles(w, w.trees[reviewed.value], p.path, m.files);
    if files.None? { return Err(ValueError); }
    return Ok(m.(
      generation := m.generation + 1,
      normativeSha := reviewed.value,
      generatedAt := p.generatedAt,
      files := files.value,
      reviewChain := Some(reviews.value),
      previousSha := Some(m.normativeSha),
      transition := Some(Transition(p.path, reviewed.value))));
  }

  // ----- what every manifest of a run satisfies -----

  /** A normalized path; only its outer white space can make the builder read another one. */
  predicate PathSound(w: World, path: string) {
    NormalPath(w.vocabulary, path) && Relative(w, path).Some?
  }

  /** The content whose digest a manifest records: the builder strips the path once more, a promotion does not. */
  function Recorded(w: World, tree: Tree, generation: int, path: string): Option<Bytes> {
    if generation == 1 then CandidateBlob(w, tree, path) else SourceBlob(w, tree, path)
  }

  predicate FileSound(w: World, tree: Tree, generation: int, f: FileEntry) {
    && Allowed(f.classification) && PathSound(w, f.path) && RegionsDeclared(w, f)
    && Recorded(w, tree, generation, f.path).Some? && f.sha == w.digest(Recorded(w, tree, generation, f.path).value)
  }

  predicate FilesSound(w: World, tree: Tree, generation: int, files: seq<FileEntry>) {
    && files != [] && Distinct(Paths(files))
    && forall i | 0 <= i < |files| :: FileSound(w, tree, generation, files[i])
  }

  /** The manifest describes the commit it names, and holds a review chain for that commit. */
  ghost predicate Sound(w: World, m: Manifest) {
    && m.schemaSupported && m.generation >= 1
    && Commit(w, m.normativeSha) == Some(m.normativeSha) && m.normativeSha in w.trees
    && FilesSound(w, w.trees[m.normativeSha], m.generation, m.files)
    && m.reviewChain.Some?
    && StoredChain(w.vocabulary, REVIEW_ROLES, m.reviewChain.value, m.normativeSha)
  }

  lemma CommitNormal(w: World, sha: string)
    requires LawfulCommits(w) && Commit(w, sha).Some?
    ensures var commit := Commit(w, sha).value;
      commit in w.trees && IsSha(commit) && Lower(commit) == commit && Commit(w, commit) == Some(commit)
  {
    assert w.peel[Lower(sha)] == Commit(w, sha).value;
  }

  lemma RegionsSound(w: World, s: PolicySource)
    requires LawfulPaths(w.vocabulary) && PolicyRegions(w, s.regions).Some?
    ensures var anchors := PolicyRegions(w, s.regions).value;
      && anchors != [] && Distinct(anchors)
      && forall i | 0 <= i < |anchors| :: Stripped(w, anchors[i]) == anchors[i] != ""
  {
    var anchors := PolicyRegions(w, s.regions).value;
    forall i | 0 <= i < |anchors|
      ensures Stripped(w, anchors[i]) == anchors[i] != ""
    {
      assert anchors[i] == Stripped(w, s.regions.value[i].value);
    }
  }

  lemma AsRegionsDeclared(w: World, f: FileEntry, anchors: seq<string>)
    requires f.regions == Some(AsRegions(anchors)) && anchors != [] && Distinct(anchors)
    requires forall i | 0 <= i < |anchors| :: Stripped(w, anchors[i]) == anchors[i] != ""
    ensures RegionsDeclared(w, f)
  {
    assert forall i | 0 <= i < |anchors| :: f.regions.value[i].anchor == anchors[i];
  }

  lemma PathOfRelative(w: World, raw: string, path: string)
    requires LawfulPaths(w.vocabulary) && Relative(w, raw) == Some(path) && Relative(w, path).Some?
    ensures PathSound(w, path)
  {
    assert NormalPath(w.vocabulary, path);
  }

  lemma EntrySound(w: World, tree: Tree, s: PolicySource)
    requires LawfulPaths(w.vocabulary) && EntryFor(w, tree, s).Some?
    ensures FileSound(w, tree, 1, EntryFor(w, tree, s).value)
  {
    var f := EntryFor(w, tree, s).value;
    PathOfRelative(w, s.path.value, f.path);
    if s.classification.MixedSource? {
      RegionsSound(w, s);
      AsRegionsDeclared(w, f, PolicyRegions(w, s.regions).value);
    }
  }

  lemma {:induction false} EntriesSound(w: World, tree: Tree, sources: seq<PolicySource>)
    requires LawfulPaths(w.vocabulary) && AllEntries(w, tree, sources).Some?
    ensures forall f | f in AllEntries(w, tree, sources).value :: FileSound(w, tree, 1, f)
    decreases |sources|
  {
    if sources != [] {
      EntriesSound(w, tree, sources[..|sources| - 1]);
      EntrySound(w, tree, sources[|sources| - 1]);
    }
  }

  lemma {:induction false} DistinctFile(files: seq<FileEntry>, f: FileEntry)
    requires Distinct(Paths(files))
    ensures multiset(files)[f] <= 1
    ensures f in files ==> forall g | g in files && g.path == f.path :: g == f
  {
    if files != [] {
      assert files == [files[0]] + files[1..];
      assert Paths(files)[1..] == Paths(files[1..]);
      forall g | g in files[1..]
        ensures g.path != files[0].path
      {
        var k :| 0 <= k < |files[1..]| && files[1..][k] == g;
        assert Paths(files)[0] != Paths(files)[k + 1];
      }
      DistinctFile(files[1..], f);
    }
  }

  /** A permutation of files with distinct paths has distinct paths. */
  lemma PathsKept(files: seq<FileEntry>, r: seq<FileEntry>)
    requires Distinct(Paths(files)) && multiset(r) == multiset(files)
    ensures Distinct(Paths(r))
  {
    MembersKept(files, r);
    forall i, j | 0 <= i < j < |r|
      ensures r[i].path != r[j].path
    {
      assert r[i] in r && r[j] in r;
      DistinctFile(files, r[i]);
      if r[i].path == r[j].path { Repeated(r, i, j); }
    }
  }

  /** Generation one has distinct paths, each with the digest of the content that the builder read for it. */
  lemma ManifestFilesSound(w: World, tree: Tree, policy: Policy)
    requires LawfulPaths(w.vocabulary) && ManifestFiles(w, tree, policy).Some?
    ensures FilesSound(w, tree, 1, ManifestFiles(w, tree, policy).value)
  {
    var entries := AllEntries(w, tree, policy.sources).value;
    var files := SortFiles(w, entries);
    EntriesSound(w, tree, policy.sources);
    EntriesPrefix(w, tree, policy.sources, 0);
    PathsKept(entries, files);
    MembersKept(entries, files);
    forall i | 0 <= i < |files|
      ensures FileSound(w, tree, 1, files[i])
    {
      assert files[i] in files;
    }
  }

  /** The reviews are stored for the commit. */
  lemma ReviewsStored(w: World, commit: string, chain: seq<Review>, evidenceSha: string, evidencePath: string)
    requires IsSha(commit) && Lower(commit) == commit && Reviews(w, commit, chain, evidenceSha, evidencePath).Ok?
    ensures StoredChain(w.vocabulary, REVIEW_ROLES, Reviews(w, commit, chain, evidenceSha, evidencePath).value, commit)
  {
    ValidatedIsStored(w.vocabulary, REVIEW_ROLES, chain, commit, Some(evidenceSha), Some(evidencePath),
                      Reviews(w, commit, chain, evidenceSha, evidencePath).value);
  }

  lemma InitialSound(w: World, q: InitialRequest, m: Manifest)
    requires LawfulPaths(w.vocabulary) && LawfulCommits(w) && Initial(w, q) == Ok(m)
    ensures Sound(w, m) && m.generation == 1
  {
    var commit := Commit(w, q.candidate).value;
    CommitNormal(w, q.candidate);
    ManifestFilesSound(w, w.trees[commit], PolicyAt(w, w.trees[commit], q.policyPath).value.1);
    ReviewsStored(w, commit, q.chain, q.evidenceSha, q.evidencePath);
  }

  lemma FirstGeneration(w: World, q: InitialRequest)
    ensures LawfulPaths(w.vocabulary) && LawfulCommits(w) && Initial(w, q).Ok? ==>
      Sound(w, Initial(w, q).value) && Initial(w, q).value.generation == 1
    ensures LawfulPaths(w.vocabulary) && LawfulCommits(w) && LawfulDigest(w) && Initial(w, q).Ok? ==>
      var m := Initial(w, q).value;
      (ManifestValid(w, w.trees[m.normativeSha], m) <==> StrippedApart(w, Paths(m.files)))
  {
    if LawfulPaths(w.vocabulary) && LawfulCommits(w) && Initial(w, q).Ok? {
      InitialSound(w, q, Initial(w, q).value);
      if LawfulDigest(w) { SoundManifestValid(w, Initial(w, q).value); }
    }
  }

  lemma PromotedFilesSound(w: World, tree: Tree, path: string, files: seq<FileEntry>, generation: int)
    requires Readable(w, tree, files) && generation > 1 && files != [] && Distinct(Paths(files))
    requires forall i | 0 <= i < |files| ::
      Allowed(files[i].classification) && PathSound(w, files[i].path) && RegionsDeclared(w, files[i])
    ensures FilesSound(w, tree, generation, PromotedFiles(w, tree, path, files))
    ensures Paths(PromotedFiles(w, tree, path, files)) == Paths(files)
  {
    var next := PromotedFiles(w, tree, path, files);
    forall i | 0 <= i < |next|
      ensures FileSound(w, tree, generation, next[i]) && next[i].path == files[i].path
    {
      assert next[i] == PromotedFile(w, tree, path, files[i]);
    }
    assert Paths(next) == Paths(files);
  }

  /** A promotion keeps a manifest sound. */
  lemma PromotedSound(w: World, m: Manifest, p: Promotion)
    requires LawfulCommits(w) && Sound(w, m) && Promoted(w, m, p).Ok?
    ensures Sound(w, Promoted(w, m, p).value)
    ensures Paths(Promoted(w, m, p).value.files) == Paths(m.files)
  {
    var commit := Commit(w, p.candidate).value;
    CommitNormal(w, p.candidate);
    forall i | 0 <= i < |m.files|
      ensures Allowed(m.files[i].classification) && PathSound(w, m.files[i].path) && RegionsDeclared(w, m.files[i])
    {
      assert FileSound(w, w.trees[m.normativeSha], m.generation, m.files[i]);
    }
    PromotedFilesSound(w, w.trees[commit], p.path, m.files, m.generation + 1);
    ReviewsStored(w, commit, p.chain, p.evidenceSha, p.evidencePath);
  }

  function ProposedCount(files: seq<FileEntry>): nat {
    if files == [] then 0
    else (if files[0].classification == ProposedGate then 1 else 0) + ProposedCount(files[1..])
  }

  /** Changing one gate, and no other classification, lowers the count by one. */
  lemma {:induction false} CountChanged(files: seq<FileEntry>, next: seq<FileEntry>, i: int)
    requires |files| == |next| && i < |files|
    requires forall k | 0 <= k < |files| && k != i :: files[k].classification == next[k].classification
    requires 0 <= i ==> files[i].classification == ProposedGate && next[i].classification != ProposedGate
    ensures ProposedCount(next) + (if 0 <= i then 1 else 0) == ProposedCount(files)
    decreases |files|
  {
    if files != [] {
      CountChanged(files[1..], next[1..], if i > 0 then i - 1 else -1);
    }
  }

  lemma OneGate(w: World, files: seq<FileEntry>, path: string) returns (i: nat)
    requires Promotable(w, files, path)
    ensures i < |files| && files[i].path == path && files[i].classification == ProposedGate
    ensures forall k | 0 <= k < |files| && files[k].path == path :: k == i
  {
    i :| 0 <= i < |files| && files[i].path == path && files[i].classification == ProposedGate;
    forall k | 0 <= k < |files| && files[k].path == path
      ensures k == i
    {
      assert Paths(files)[k] == Paths(files)[i];
    }
  }

  /** One gate is promoted; every other file keeps its classification. */
  lemma OneGateFewer(w: World, m: Manifest, p: Promotion)
    requires Promoted(w, m, p).Ok?
    ensures var next := Promoted(w, m, p).value;
      && |next.files| == |m.files|
      && ProposedCount(next.files) + 1 == ProposedCount(m.files)
      && (forall k | 0 <= k < |m.files| && m.files[k].path != p.path ::
            next.files[k] == m.files[k].(sha := next.files[k].sha))
      && (forall k | 0 <= k < |m.files| && m.files[k].path == p.path ::
            m.files[k].classification == ProposedGate && next.files[k].classification == ApprovedNormative)
  {
    var next := Promoted(w, m, p).value;
    var i := OneGate(w, m.files, p.path);
    CountChanged(m.files, next.files, i);
  }

  lemma NextGenerationSound(w: World, m: Manifest, p: Promotion)
    ensures Promoted(w, m, p).Ok? ==>
      Advances(m, p, Promoted(w, m, p).value) && PromotesOnly(m.files, Promoted(w, m, p).value.files, p.path)
    ensures Promoted(w, m, p).Ok? && LawfulCommits(w) && Sound(w, m) ==> Sound(w, Promoted(w, m, p).value)
  {
    if Promoted(w, m, p).Ok? {
      PromotionStep(w, m, p, Promoted(w, m, p).value);
      PromotionOnly(w, m, p, Promoted(w, m, p).value);
      if LawfulCommits(w) && Sound(w, m) { PromotedSound(w, m, p); }
    }
  }

  // ----- when the validator accepts -----

  ghost predicate StrippedApart(w: World, paths: seq<string>) {
    forall i, j | 0 <= i < j < |paths| :: Stripped(w, paths[i]) != Stripped(w, paths[j])
  }

  /** Each stripped path leads to a content with the same digest as the path itself. */
  ghost predicate StrippedSame(w: World, tree: Tree, paths: seq<string>) {
    forall i | 0 <= i < |paths| ::
      && SourceBlob(w, tree, paths[i]).Some? && SourceBlob(w, tree, Stripped(w, paths[i])).Some?
      && w.digest(SourceBlob(w, tree, paths[i]).value) == w.digest(SourceBlob(w, tree, Stripped(w, paths[i])).value)
  }

  lemma SoundFileValid(w: World, tree: Tree, generation: int, f: FileEntry)
    requires LawfulDigest(w) && generation >= 1 && FileSound(w, tree, generation, f)
    ensures FileValid(w, tree, f) <==> (generation > 1 ==> StrippedSame(w, tree, [f.path]))
  {
    var content := SourceBlob(w, tree, Stripped(w, f.path));
    assert IsSha(f.sha) && Lower(f.sha) == f.sha;
    assert FileValid(w, tree, f) <==> content.Some? && w.digest(content.value) == f.sha;
    assert [f.path][0] == f.path;
  }

  /**
   The validator strips the paths. It accepts a sound manifest exactly when the stripped paths are
   apart and, after the first generation, which was built with stripped paths, lead to the contents
   that were recorded.
   */
  lemma SoundManifestValid(w: World, m: Manifest)
    requires LawfulDigest(w) && Sound(w, m)
    ensures ManifestValid(w, w.trees[m.normativeSha], m)
       <==> StrippedApart(w, Paths(m.files))
            && (m.generation > 1 ==> StrippedSame(w, w.trees[m.normativeSha], Paths(m.files)))
  {
    var tree, paths := w.trees[m.normativeSha], Paths(m.files);
    forall i | 0 <= i < |m.files|
      ensures FileValid(w, tree, m.files[i]) <==> (m.generation > 1 ==> StrippedSame(w, tree, [paths[i]]))
    {
      SoundFileValid(w, tree, m.generation, m.files[i]);
    }
    assert forall i | 0 <= i < |m.files| :: m.files[i].path == paths[i];
    SameByPath(w, tree, paths);
  }

  lemma SameByPath(w: World, tree: Tree, paths: seq<string>)
    ensures StrippedSame(w, tree, paths) <==> forall i | 0 <= i < |paths| :: StrippedSame(w, tree, [paths[i]])
  {
    forall i | 0 <= i < |paths|
      ensures StrippedSame(w, tree, [paths[i]]) <==>
                && SourceBlob(w, tree, paths[i]).Some? && SourceBlob(w, tree, Stripped(w, paths[i])).Some?
                && w.digest(SourceBlob(w, tree, paths[i]).value) == w.digest(SourceBlob(w, tree, Stripped(w, paths[i])).value)
    {
      assert [paths[i]][0] == paths[i];
    }
  }

  /** No path has white space around it. */
  predicate PlainPaths(w: World, files: seq<FileEntry>) {
    forall i | 0 <= i < |files| :: Stripped(w, files[i].path) == files[i].path
  }

  /** In particular a sound manifest passes when no path has white space around it. */
  lemma PlainPathsValid(w: World, m: Manifest)
    requires LawfulDigest(w) && Sound(w, m) && PlainPaths(w, m.files)
    ensures ManifestValid(w, w.trees[m.normativeSha], m)
  {
    var tree, paths := w.trees[m.normativeSha], Paths(m.files);
    SoundManifestValid(w, m);
    forall i | 0 <= i < |paths|
      ensures Stripped(w, paths[i]) == paths[i]
      ensures m.generation > 1 ==> SourceBlob(w, tree, paths[i]).Some?
    {
      assert FileSound(w, tree, m.generation, m.files[i]);
    }
  }

  // ----- which contents extraction reads -----

  /** Extraction reads, under each path as it stands, a content that has the recorded digest. */
  ghost predicate ReadsRecorded(w: World, tree: Tree, files: seq<FileEntry>) {
    forall i | 0 <= i < |files| ::
      SourceBlob(w, tree, files[i].path).Some? && w.digest(SourceBlob(w, tree, files[i].path).value) == Lower(files[i].sha)
  }

  /**
   The validator compares the recorded digests with the contents at the stripped paths. Extraction
   reads contents with those digests exactly when stripping a path does not lead to another content.
   */
  lemma ValidReadsRecorded(w: World, tree: Tree, m: Manifest)
    requires ManifestValid(w, tree, m)
    ensures ReadsRecorded(w, tree, m.files) <==> StrippedSame(w, tree, Paths(m.files))
  {
    forall i | 0 <= i < |m.files|
      ensures Paths(m.files)[i] == m.files[i].path && FileValid(w, tree, m.files[i])
    {
    }
  }

  /**
   Extraction and promotions find the contents of a sound manifest in its own commit exactly when the
   commit has the paths as they are listed; after a promotion it has, with the recorded digests.
   */
  lemma SoundReadable(w: World, m: Manifest)
    requires Sound(w, m)
    ensures Readable(w, w.trees[m.normativeSha], m.files)
       <==> forall i | 0 <= i < |m.files| :: m.files[i].path in w.trees[m.normativeSha]
    ensures m.generation > 1 ==> Readable(w, w.trees[m.normativeSha], m.files)
    ensures m.generation > 1 && LawfulDigest(w) ==> ReadsRecorded(w, w.trees[m.normativeSha], m.files)
  {
    var tree := w.trees[m.normativeSha];
    forall i | 0 <= i < |m.files|
      ensures SourceBlob(w, tree, m.files[i].path).Some? <==> m.files[i].path in tree
      ensures m.generation > 1 ==> SourceBlob(w, tree, m.files[i].path).Some?
      ensures m.generation > 1 && LawfulDigest(w) ==>
        w.digest(SourceBlob(w, tree, m.files[i].path).value) == Lower(m.files[i].sha)
    {
      assert FileSound(w, tree, m.generation, m.files[i]);
    }
  }

  // ----- runs -----

  /** Generation one and then one promotion after the other. */
  ghost predicate Run(w: World, q: InitialRequest, ps: seq<Promotion>, ms: seq<Manifest>) {
    && |ms| == |ps| + 1
    && Initial(w, q) == Ok(ms[0])
    && forall k | 0 <= k < |ps| :: Promoted(w, ms[k], ps[k]) == Ok(ms[k + 1])
  }

  /** What one promotion does to a manifest. */
  predicate Advances(m: Manifest, p: Promotion, next: Manifest) {
    && next.generation == m.generation + 1
    && Paths(next.files) == Paths(m.files)
    && ProposedCount(next.files) + 1 == ProposedCount(m.files)
    && next.previousSha == Some(m.normativeSha)
    && next.transition == Some(Transition(p.path, next.normativeSha))
  }

  lemma PromotionStep(w: World, m: Manifest, p: Promotion, next: Manifest)
    requires Promoted(w, m, p) == Ok(next)
    ensures Advances(m, p, next)
  {
    OneGateFewer(w, m, p);
    forall k | 0 <= k < |m.files|
      ensures Paths(next.files)[k] == Paths(m.files)[k]
    {
      assert next.files[k] == PromotedFile(w, w.trees[next.normativeSha], p.path, m.files[k]);
    }
  }

  /** The k-th manifest has generation k + 1 and the paths of the first, and k gates fewer. */
  predicate Keeps(first: Manifest, m: Manifest, k: nat) {
    && m.generation == k + 1
    && Paths(m.files) == Paths(first.files) && ProposedCount(m.files) + k == ProposedCount(first.files)
  }

  lemma {:induction false} StepsKeep(ps: seq<Promotion>, ms: seq<Manifest>, k: nat)
    requires |ms| == |ps| + 1 && k < |ms| && ms[0].generation == 1
    requires forall l | 0 <= l < |ps| :: Advances(ms[l], ps[l], ms[l + 1])
    ensures Keeps(ms[0], ms[k], k)
    decreases k
  {
    if k > 0 {
      StepsKeep(ps, ms, k - 1);
      assert Advances(ms[k - 1], ps[k - 1], ms[k]);
    }
  }

  lemma RunKeeps(w: World, q: InitialRequest, ps: seq<Promotion>, ms: seq<Manifest>, k: nat)
    requires Run(w, q, ps, ms) && k < |ms|
    ensures Keeps(ms[0], ms[k], k)
  {
    forall l | 0 <= l < |ps|
      ensures Advances(ms[l], ps[l], ms[l + 1])
    {
      PromotionStep(w, ms[l], ps[l], ms[l + 1]);
    }
    StepsKeep(ps, ms, k);
  }

  lemma {:induction false} StepsSound(w: World, ms: seq<Manifest>, k: nat)
    requires k < |ms| && Sound(w, ms[0]) && forall l | 0 < l < |ms| :: Sound(w, ms[l - 1]) ==> Sound(w, ms[l])
    ensures Sound(w, ms[k])
    decreases k
  {
    if k > 0 { StepsSound(w, ms, k - 1); }
  }

  lemma RunSound(w: World, q: InitialRequest, ps: seq<Promotion>, ms: seq<Manifest>, k: nat)
    requires LawfulPaths(w.vocabulary) && LawfulCommits(w) && Run(w, q, ps, ms) && k < |ms|
    ensures Sound(w, ms[k])
  {
    InitialSound(w, q, ms[0]);
    forall l | 0 < l < |ms| && Sound(w, ms[l - 1])
      ensures Sound(w, ms[l])
    {
      assert Promoted(w, ms[l - 1], ps[l - 1]) == Ok(ms[l - 1 + 1]);
      PromotedSound(w, ms[l - 1], ps[l - 1]);
    }
    StepsSound(w, ms, k);
  }

  /** Every manifest of a run is sound against its own commit, and k promotions have made what they should. */
  lemma RunInvariant(w: World, q: InitialRequest, ps: seq<Promotion>, ms: seq<Manifest>, k: nat)
    requires LawfulPaths(w.vocabulary) && LawfulCommits(w) && Run(w, q, ps, ms) && k < |ms|
    ensures Sound(w, ms[k]) && Keeps(ms[0], ms[k], k)
  {
    RunSound(w, q, ps, ms, k);
    RunKeeps(w, q, ps, ms, k);
  }

  /**
   Generation one passes the validator exactly when the stripped paths are apart, and a later one
   exactly when besides they lead to the contents that its promotion recorded.
   */
  lemma RunValid(w: World, q: InitialRequest, ps: seq<Promotion>, ms: seq<Manifest>, k: nat)
    requires LawfulPaths(w.vocabulary) && LawfulCommits(w) && LawfulDigest(w) && Run(w, q, ps, ms) && k < |ms|
    ensures ms[k].normativeSha in w.trees
    ensures ManifestValid(w, w.trees[ms[k].normativeSha], ms[k])
       <==> StrippedApart(w, Paths(ms[0].files))
            && (k > 0 ==> StrippedSame(w, w.trees[ms[k].normativeSha], Paths(ms[0].files)))
  {
    RunInvariant(w, q, ps, ms, k);
    SoundManifestValid(w, ms[k]);
  }

  /** A run has at most as many promotions as generation one has gates. */
  lemma RunBounded(w: World, q: InitialRequest, ps: seq<Promotion>, ms: seq<Manifest>)
    requires Run(w, q, ps, ms)
    ensures |ps| <= ProposedCount(ms[0].files)
  {
    RunKeeps(w, q, ps, ms, |ps|);
  }

  /** Adjacent generations name different commits, and the later one names the earlier. */
  lemma RunLinked(w: World, q: InitialRequest, ps: seq<Promotion>, ms: seq<Manifest>, k: nat)
    requires LawfulPaths(w.vocabulary) && LawfulCommits(w) && Run(w, q, ps, ms) && k < |ps|
    ensures ms[k + 1].normativeSha != ms[k].normativeSha
    ensures ms[k + 1].previousSha == Some(ms[k].normativeSha)
    ensures ms[k + 1].transition == Some(Transition(ps[k].path, ms[k + 1].normativeSha))
  {
    RunSound(w, q, ps, ms, k);
    PromotionStep(w, ms[k], ps[k], ms[k + 1]);
  }

  /** Only the promoted gate changes its classification. */
  predicate PromotesOnly(files: seq<FileEntry>, next: seq<FileEntry>, path: string) {
    && |next| == |files|
    && forall k | 0 <= k < |files| ::
         && next[k].path == files[k].path
         && if files[k].path == path
            then files[k].classification == ProposedGate && next[k].classification == ApprovedNormative
            else next[k].classification == files[k].classification
  }

  lemma PromotionOnly(w: World, m: Manifest, p: Promotion, next: Manifest)
    requires Promoted(w, m, p) == Ok(next)
    ensures PromotesOnly(m.files, next.files, p.path)
  {
    OneGateFewer(w, m, p);
    forall k | 0 <= k < |m.files|
      ensures next.files[k].path == m.files[k].path
    {
      assert next.files[k] == PromotedFile(w, w.trees[next.normativeSha], p.path, m.files[k]);
    }
  }

  ghost predicate PromotedBetween(ps: seq<Promotion>, j: nat, k: nat, path: string) {
    exists l :: j <= l < k && l < |ps| && ps[l].path == path
  }

  /** The classification of file `i` at `k`, seen from `j`. */
  ghost predicate StaysUnlessPromoted(ps: seq<Promotion>, ms: seq<Manifest>, j: nat, k: nat, i: nat)
    requires j <= k < |ms| && i < |ms[j].files|
  {
    && |ms[k].files| == |ms[j].files| && ms[k].files[i].path == ms[j].files[i].path
    && if PromotedBetween(ps, j, k, ms[j].files[i].path)
       then ms[j].files[i].classification == ProposedGate && ms[k].files[i].classification == ApprovedNormative
       else ms[k].files[i].classification == ms[j].files[i].classification
  }

  lemma StaysStep(ps: seq<Promotion>, ms: seq<Manifest>, j: nat, k: nat, i: nat)
    requires |ms| == |ps| + 1 && j < k < |ms| && i < |ms[j].files|
    requires StaysUnlessPromoted(ps, ms, j, k - 1, i)
    requires PromotesOnly(ms[k - 1].files, ms[k].files, ps[k - 1].path)
    ensures StaysUnlessPromoted(ps, ms, j, k, i)
  {
    var path := ms[j].files[i].path;
    assert PromotedBetween(ps, j, k, path) <==> PromotedBetween(ps, j, k - 1, path) || ps[k - 1].path == path;
  }

  ghost predicate GateSteps(ps: seq<Promotion>, ms: seq<Manifest>) {
    |ms| == |ps| + 1 && forall k | 0 <= k < |ps| :: PromotesOnly(ms[k].files, ms[k + 1].files, ps[k].path)
  }

  lemma RunGateSteps(w: World, q: InitialRequest, ps: seq<Promotion>, ms: seq<Manifest>)
    requires Run(w, q, ps, ms)
    ensures GateSteps(ps, ms)
  {
    forall k | 0 <= k < |ps|
      ensures PromotesOnly(ms[k].files, ms[k + 1].files, ps[k].path)
    {
      PromotionOnly(w, ms[k], ps[k], ms[k + 1]);
    }
  }

  lemma {:induction false} GateStepsStay(ps: seq<Promotion>, ms: seq<Manifest>, j: nat, k: nat, i: nat)
    requires GateSteps(ps, ms) && j <= k < |ms| && i < |ms[j].files|
    ensures StaysUnlessPromoted(ps, ms, j, k, i)
    decreases k
  {
    if j < k {
      GateStepsStay(ps, ms, j, k - 1, i);
      StaysStep(ps, ms, j, k, i);
    }
  }

  /** A file keeps its classification through a run unless it is the gate of one of the promotions. */
  lemma ApprovedStays(w: World, q: InitialRequest, ps: seq<Promotion>, ms: seq<Manifest>, j: nat, k: nat, i: nat)
    requires Run(w, q, ps, ms) && j <= k < |ms| && i < |ms[j].files|
    ensures StaysUnlessPromoted(ps, ms, j, k, i)
  {
    RunGateSteps(w, q, ps, ms);
    GateStepsStay(ps, ms, j, k, i);
  }

  // ----- paths with white space in front -----

  function Repeat(c: char, n: nat): string {
    seq(n, _ => c)
  }

  const SAMPLE_SHA: string := Repeat('a', 40)
  const SAMPLE_DIGEST: string := Repeat('0', 64)

  function SampleSource(path: string): PolicySource {
    PolicySource(Some(path), ApprovedNormative, Some(1), None, None)
  }

  /** One commit with the files "a" and "policy"; the policy names the sources. */
  function SampleWorld(v: Vocabulary, sources: seq<PolicySource>): World {
    World(
      v,
      map[SAMPLE_SHA := SAMPLE_SHA],
      map[SAMPLE_SHA := SampleTree()],
      _ => SAMPLE_DIGEST, _ => Some(Policy(true, sources)), _ => Some(Declaration(ApprovedNormative, [])),
      _ => Some([Marker("m"), Words("It MUST hold.", true)]), (_, _) => false)
  }

  function SampleTree(): Tree {
    map["a" := [], "policy" := []]
  }

  function SampleRequest(): InitialRequest {
    InitialRequest(SAMPLE_SHA, "policy", SampleChain(SAMPLE_SHA, SAMPLE_DIGEST, "note"), SAMPLE_DIGEST, "note", 4)
  }

  function SampleFile(path: string): FileEntry {
    FileEntry(path, ApprovedNormative, None, Some(1), SAMPLE_DIGEST, None, None)
  }

  lemma SampleHexadecimal()
    ensures IsSha(SAMPLE_SHA) && Lower(SAMPLE_SHA) == SAMPLE_SHA
    ensures IsSha256(SAMPLE_DIGEST) && Lower(SAMPLE_DIGEST) == SAMPLE_DIGEST
  {
  }

  lemma SampleLawful(v: Vocabulary, sources: seq<PolicySource>)
    ensures var w := SampleWorld(v, sources);
      && LawfulCommits(w) && LawfulDigest(w)
      && Commit(w, SAMPLE_SHA) == Some(SAMPLE_SHA) && w.trees[SAMPLE_SHA] == SampleTree()
  {
    SampleHexadecimal();
  }

  lemma SampleEntries(v: Vocabulary, sources: seq<PolicySource>)
    requires SampleTexts(v)
    ensures EntryFor(SampleWorld(v, sources), SampleTree(), SampleSource("./ a")) == Some(SampleFile(" a"))
    ensures EntryFor(SampleWorld(v, sources), SampleTree(), SampleSource("a")) == Some(SampleFile("a"))
  {
    assert PlainPath(v, "a");
  }

  lemma SamplePolicy(v: Vocabulary, sources: seq<PolicySource>)
    requires SampleTexts(v)
    ensures PolicyAt(SampleWorld(v, sources), SampleTree(), "policy")
         == Some((Document("policy", SAMPLE_DIGEST), Policy(true, sources)))
  {
  }

  lemma SampleReviews(v: Vocabulary, sources: seq<PolicySource>)
    requires SampleTexts(v)
    ensures var w := SampleWorld(v, sources);
            var reviews := Reviews(w, SAMPLE_SHA, SampleRequest().chain, SAMPLE_DIGEST, "note");
      reviews.Ok? && LastReview(w, reviews.value) == Some(3)
  {
    SampleHexadecimal();
    SampleChainAccepted(v, SAMPLE_SHA, SAMPLE_DIGEST, "note");
  }

  lemma SampleInitial(v: Vocabulary, sources: seq<PolicySource>, files: seq<FileEntry>)
    requires SampleTexts(v) && ManifestFiles(SampleWorld(v, sources), SampleTree(), Policy(true, sources)) == Some(files)
    ensures var r := Initial(SampleWorld(v, sources), SampleRequest());
      r.Ok? && r.value.files == files && r.value.normativeSha == SAMPLE_SHA
  {
    SampleHexadecimal();
    SampleLawful(v, sources);
    SamplePolicy(v, sources);
    SampleReviews(v, sources);
  }

  lemma OneEntry(w: World, tree: Tree, first: PolicySource)
    requires EntryFor(w, tree, first).Some?
    ensures AllEntries(w, tree, [first]) == Some([EntryFor(w, tree, first).value])
  {
    assert [first][..0] == [];
    assert AllEntries(w, tree, []) == Some([]);
    assert [] + [EntryFor(w, tree, first).value] == [EntryFor(w, tree, first).value];
  }

  lemma TwoEntries(w: World, tree: Tree, first: PolicySource, second: PolicySource)
    requires EntryFor(w, tree, first).Some? && EntryFor(w, tree, second).Some?
    ensures AllEntries(w, tree, [first, second]) == Some([EntryFor(w, tree, first).value, EntryFor(w, tree, second).value])
  {
    OneEntry(w, tree, first);
    assert [first, second][..1] == [first];
    assert [EntryFor(w, tree, first).value] + [EntryFor(w, tree, second).value]
        == [EntryFor(w, tree, first).value, EntryFor(w, tree, second).value];
  }

  lemma BothStripped(w: World, tree: Tree, m: Manifest, f: FileEntry, g: FileEntry)
    requires f in m.files && g in m.files && f.path != g.path && Stripped(w, f.path) == Stripped(w, g.path)
    ensures !ManifestValid(w, tree, m)
  {
    var i :| 0 <= i < |m.files| && m.files[i] == f;
    var j :| 0 <= j < |m.files| && m.files[j] == g;
    assert Stripped(w, m.files[i].path) == Stripped(w, m.files[j].path) && i != j;
  }

  lemma TwoApart(files: seq<FileEntry>)
    requires |files| == 2 && files[0].path != files[1].path && files[0].supersededBy == files[1].supersededBy == None
    ensures Distinct(Paths(files)) && TargetsKnown(files)
  {
  }

  lemma AllListed(w: World, tree: Tree, policy: Policy, entries: seq<FileEntry>)
    requires policy.schemaSupported && policy.sources != [] && AllEntries(w, tree, policy.sources) == Some(entries)
    requires Distinct(Paths(entries)) && TargetsKnown(entries)
    ensures ManifestFiles(w, tree, policy).Some?
    ensures forall f | f in entries :: f in ManifestFiles(w, tree, policy).value
  {
    MembersKept(entries, SortFiles(w, entries));
  }

  lemma TwoFiles(v: Vocabulary, sources: seq<PolicySource>)
    requires SampleTexts(v) && sources == [SampleSource("./ a"), SampleSource("a")]
    ensures var w := SampleWorld(v, sources); var files := ManifestFiles(w, SampleTree(), Policy(true, sources));
      files.Some? && SampleFile(" a") in files.value && SampleFile("a") in files.value
  {
    var w := SampleWorld(v, sources);
    SampleEntries(v, sources);
    TwoEntries(w, SampleTree(), SampleSource("./ a"), SampleSource("a"));
    var entries := [SampleFile(" a"), SampleFile("a")];
    TwoApart(entries);
    AllListed(w, SampleTree(), Policy(true, sources), entries);
    assert entries[0] in entries && entries[1] in entries;
  }

  lemma SampleRefused(v: Vocabulary, sources: seq<PolicySource>)
    requires SampleTexts(v) && sources == [SampleSource("./ a"), SampleSource("a")]
    ensures var w := SampleWorld(v, sources); var r := Initial(w, SampleRequest());
      r.Ok? && r.value.normativeSha == SAMPLE_SHA && !ManifestValid(w, SampleTree(), r.value)
  {
    var w := SampleWorld(v, sources);
    TwoFiles(v, sources);
    SampleInitial(v, sources, ManifestFiles(w, SampleTree(), Policy(true, sources)).value);
    BothStripped(w, SampleTree(), Initial(w, SampleRequest()).value, SampleFile(" a"), SampleFile("a"));
  }

  /** "./ a" and "a" are two paths to the builder, and one to the validator. */
  lemma UnstrippedPathsRefused()
    ensures var w := SampleWorld(PlainVocabulary(), [SampleSource("./ a"), SampleSource("a")]);
            var r := Initial(w, SampleRequest());
      && LawfulPaths(w.vocabulary) && LawfulCommits(w) && LawfulDigest(w)
      && r.Ok? && r.value.normativeSha == SAMPLE_SHA && !ManifestValid(w, SampleTree(), r.value)
  {
    PlainTexts();
    PlainLawful();
    SampleLawful(PlainVocabulary(), [SampleSource("./ a"), SampleSource("a")]);
    SampleRefused(PlainVocabulary(), [SampleSource("./ a"), SampleSource("a")]);
  }

  lemma SingleSorted(w: World, f: FileEntry)
    ensures SortFiles(w, [f]) == [f]
  {
    var r := SortFiles(w, [f]);
    MembersKept([f], r);
    assert r[0] in r;
  }

  lemma OneListed(w: World, tree: Tree, policy: Policy, f: FileEntry)
    requires policy.schemaSupported && policy.sources != [] && AllEntries(w, tree, policy.sources) == Some([f])
    requires f.supersededBy == None
    ensures ManifestFiles(w, tree, policy) == Some([f])
  {
    SingleSorted(w, f);
    assert [f][0] == f && |Paths([f])| == 1;
  }

  /** The one path that a sample policy names, and the path under which the manifest lists it. */
  predicate SamplePath(raw: string, path: string) {
    (raw == "./ a" && path == " a") || (raw == "a" && path == "a")
  }

  lemma SampleBuilt(v: Vocabulary, raw: string, path: string)
    requires SampleTexts(v) && SamplePath(raw, path)
    ensures var r := Initial(SampleWorld(v, [SampleSource(raw)]), SampleRequest());
      r.Ok? && r.value.normativeSha == SAMPLE_SHA && r.value.files == [SampleFile(path)] && r.value.generation == 1
  {
    var sources := [SampleSource(raw)];
    var w := SampleWorld(v, sources);
    SampleEntries(v, sources);
    OneEntry(w, SampleTree(), SampleSource(raw));
    OneListed(w, SampleTree(), Policy(true, sources), SampleFile(path));
    SampleInitial(v, sources, [SampleFile(path)]);
  }

  lemma SampleValid(v: Vocabulary, raw: string, path: string)
    requires SampleTexts(v) && LawfulPaths(v) && SamplePath(raw, path)
    ensures var w := SampleWorld(v, [SampleSource(raw)]); var r := Initial(w, SampleRequest());
      r.Ok? && ManifestValid(w, SampleTree(), r.value)
  {
    var sources := [SampleSource(raw)];
    SampleBuilt(v, raw, path);
    SampleLawful(v, sources);
    FirstGeneration(SampleWorld(v, sources), SampleRequest());
  }

  lemma SampleUnread(v: Vocabulary, sources: seq<PolicySource>)
    requires SampleTexts(v)
    ensures !Readable(SampleWorld(v, sources), SampleTree(), [SampleFile(" a")])
  {
    assert [SampleFile(" a")][0].path == " a";
  }

  /**
   Alone, "./ a" gives a generation one that is valid although the commit has no file " a": the
   builder and the validator read "a", while promotions and extraction read " a" and find nothing.
   */
  lemma UnstrippedPathUnread(w: World) returns (m: Manifest)
    requires w == SampleWorld(PlainVocabulary(), [SampleSource("./ a")])
    ensures LawfulPaths(w.vocabulary) && LawfulCommits(w) && LawfulDigest(w)
    ensures Initial(w, SampleRequest()) == Ok(m) && m.normativeSha == SAMPLE_SHA && m.files == [SampleFile(" a")]
    ensures ManifestValid(w, SampleTree(), m) && !Readable(w, SampleTree(), m.files)
  {
    PlainTexts();
    PlainLawful();
    SampleLawful(PlainVocabulary(), [SampleSource("./ a")]);
    SampleBuilt(PlainVocabulary(), "./ a", " a");
    SampleValid(PlainVocabulary(), "./ a", " a");
    SampleUnread(PlainVocabulary(), [SampleSource("./ a")]);
    m := Initial(w, SampleRequest()).value;
  }

  // ----- a path whose recorded content is not the one that is read -----

  const OTHER_DIGEST: string := Repeat('1', 64)

  /** The sample commit with another file whose name is that of the first behind a blank. */
  function TwinTree(): Tree {
    map["a" := [], " a" := [1], "policy" := []]
  }

  function TwinDigest(): Bytes -> string {
    b => if b == [] then SAMPLE_DIGEST else OTHER_DIGEST
  }

  /** The two files have different digests and different statements. */
  function TwinLines(): Bytes -> Option<seq<Line>> {
    b => Some([Marker("m"), Words(if b == [] then "It MUST hold." else "It MUST NOT hold.", true)])
  }

  function TwinWorld(v: Vocabulary): World {
    SampleWorld(v, [SampleSource("./ a")]).(
      trees := map[SAMPLE_SHA := TwinTree()], digest := TwinDigest(), lines := TwinLines())
  }

  lemma TwinLawful(v: Vocabulary)
    ensures var w := TwinWorld(v);
      && LawfulCommits(w) && LawfulDigest(w)
      && Commit(w, SAMPLE_SHA) == Some(SAMPLE_SHA) && w.trees[SAMPLE_SHA] == TwinTree()
  {
    SampleHexadecimal();
  }

  lemma TwinEntry(v: Vocabulary)
    requires SampleTexts(v)
    ensures EntryFor(TwinWorld(v), TwinTree(), SampleSource("./ a")) == Some(SampleFile(" a"))
    ensures PolicyAt(TwinWorld(v), TwinTree(), "policy")
         == Some((Document("policy", SAMPLE_DIGEST), Policy(true, [SampleSource("./ a")])))
  {
    assert PlainPath(v, "a") && PlainPath(v, "policy");
  }

  lemma TwinReviews(v: Vocabulary)
    requires SampleTexts(v)
    ensures var reviews := Reviews(TwinWorld(v), SAMPLE_SHA, SampleRequest().chain, SAMPLE_DIGEST, "note");
      reviews.Ok? && LastReview(TwinWorld(v), reviews.value) == Some(3)
  {
    SampleReviews(v, []);
  }

  lemma TwinListed(v: Vocabulary)
    requires SampleTexts(v)
    ensures ManifestFiles(TwinWorld(v), TwinTree(), Policy(true, [SampleSource("./ a")])) == Some([SampleFile(" a")])
  {
    TwinEntry(v);
    OneEntry(TwinWorld(v), TwinTree(), SampleSource("./ a"));
    OneListed(TwinWorld(v), TwinTree(), Policy(true, [SampleSource("./ a")]), SampleFile(" a"));
  }

  lemma TwinBuilt(v: Vocabulary)
    requires SampleTexts(v)
    ensures var r := Initial(TwinWorld(v), SampleRequest());
      r.Ok? && r.value.normativeSha == SAMPLE_SHA && r.value.files == [SampleFile(" a")] && r.value.generation == 1
  {
    SampleHexadecimal();
    TwinLawful(v);
    TwinEntry(v);
    TwinListed(v);
    TwinReviews(v);
  }

  /**
   With both "a" and " a" in the commit, "./ a" gives a valid generation one that records the digest
   of "a", while extraction reads " a", which has another digest.
   */
  lemma OtherContentRead(w: World) returns (m: Manifest)
    requires w == TwinWorld(PlainVocabulary())
    ensures LawfulPaths(w.vocabulary) && LawfulCommits(w) && LawfulDigest(w)
    ensures Initial(w, SampleRequest()) == Ok(m) && m.normativeSha == SAMPLE_SHA && m.files == [SampleFile(" a")]
    ensures ManifestValid(w, TwinTree(), m) && Readable(w, TwinTree(), m.files) && !ReadsRecorded(w, TwinTree(), m.files)
  {
    var v := PlainVocabulary();
    PlainTexts();
    PlainLawful();
    TwinLawful(v);
    TwinBuilt(v);
    FirstGeneration(w, SampleRequest());
    m := Initial(w, SampleRequest()).value;
    TwinRead(v, w);
  }

  lemma TwinDigests(v: Vocabulary)
    ensures Lower(SAMPLE_DIGEST) == SAMPLE_DIGEST != OTHER_DIGEST
    ensures TwinWorld(v).digest(TwinTree()["a"]) == SAMPLE_DIGEST && TwinWorld(v).digest(TwinTree()[" a"]) == OTHER_DIGEST
  {
    assert OTHER_DIGEST[0] != SAMPLE_DIGEST[0];
    assert TwinTree()["a"] == [] && TwinTree()[" a"] == [1] && [1] != [];
  }

  lemma TwinRead(v: Vocabulary, w: World)
    requires SampleTexts(v) && w == TwinWorld(v)
    ensures Readable(w, TwinTree(), [SampleFile(" a")]) && !ReadsRecorded(w, TwinTree(), [SampleFile(" a")])
  {
    var files := [SampleFile(" a")];
    assert files[0].path == " a" && SourceBlob(w, TwinTree(), " a") == Some([1]);
    TwinDigests(v);
  }
}
