/**
 The requirement registry of tools/v2/build_requirement_registry.py: extraction of the
 requirements of a manifest, validation and rebuilding of a registry, and the
 transition of a registry when one gate is promoted.
 */
module RequirementRegistry {
  import opened Wrappers
  import opened Sorting
  import opened ReviewChain
  import opened SourceText
  import opened NormativeBaseline

  datatype Kind = Normative | Gate

  /** The fields of a requirement that come from its source document. */
  datatype Source = Source(
    id: string, logicalId: string, version: int, kind: Kind, classification: Classification,
    path: string, anchor: string, region: string, statementAnchor: string,
    statement: string, statementSha: string, sourceSha: string, fileSha: string, line: nat)

  /** A JSON member that may be missing, null or a text. */
  datatype Slot = Absent | Null | Text(value: string)

  datatype RedMapping = RedMapping(test: Option<string>, command: Option<string>, missingBehavior: Option<string>)

  /** The fields that reviewers decide; `details` stands for those that no other code here reads. */
  datatype Governance = Governance(
    task: int, owner: Slot, assignedAt: Slot, role: Option<string>, intendedRed: Option<RedMapping>,
    proofClassification: string, finalTarget: string, environment: string, details: string)

  datatype Entry = Entry(source: Source, governance: Governance)

  datatype Registry = Registry(
    schemaSupported: bool, normativeSha: string, generation: int,
    requirements: seq<Entry>, reviewChain: Option<seq<Review>>)

  /** The text rules of the registry: slugs, hashes and the placeholder vocabularies. */
  datatype Rules = Rules(
    logicalId: (string, string) -> string,
    textDigest: string -> string,
    concrete: string -> bool,
    anchorAccepted: string -> bool,
    ownerAccepted: string -> bool,
    stampAccepted: string -> bool,
    roleAccepted: string -> bool,
    redAccepted: RedMapping -> bool,
    detailsAccepted: string -> bool)

  // ----- extraction -----

  /** The bounds of a region, if it has them. */
  ghost function FindBounds(w: World, lines: seq<Line>, region: Region): (b: Option<Bounds>)
    ensures b.Some? ==> b.value.start <= b.value.end <= |lines|
  {
    var anchor := w.vocabulary.strip(region.anchor);
    if anchor != "" && !region.hasLineBounds && exists s, e :: Bounded(lines, anchor, s, e) then
      var s, e :| Bounded(lines, anchor, s, e);
      Some(Bounds(anchor, s, e))
    else None
  }

  ghost function FindAllBounds(w: World, lines: seq<Line>, regions: seq<Region>): (b: Option<seq<Bounds>>)
    ensures b.Some? ==> BoundsWithin(lines, b.value)
  {
    if regions == [] then Some([])
    else
      var front := FindAllBounds(w, lines, regions[..|regions| - 1]);
      var last := FindBounds(w, lines, regions[|regions| - 1]);
      if front.None? || last.None? then None else Some(front.value + [last.value])
  }

  ghost function FileBounds(w: World, lines: seq<Line>, f: FileEntry): (b: Option<seq<Bounds>>)
    ensures b.Some? ==> BoundsWithin(lines, b.value)
  {
    if !f.classification.MixedSource? then Some([Bounds("root", 0, |lines|)])
    else if f.regions.None? then None
    else FindAllBounds(w, lines, f.regions.value)
  }

  function SourceOf(r: Rules, f: FileEntry, l: Located): Source {
    var anchor := l.region + ":" + l.statement.anchor;
    var logical := r.logicalId(f.path, anchor);
    Source(
      logical + "-v1", logical, 1, if f.classification.ProposedGate? then Gate else Normative, f.classification,
      f.path, anchor, l.region, l.statement.anchor,
      l.statement.text, r.textDigest(l.statement.text), Lower(f.sha), Lower(f.sha), l.statement.line + 1)
  }

  function SourcesOf(r: Rules, f: FileEntry, ls: seq<Located>): seq<Source> {
    seq(|ls|, i requires 0 <= i < |ls| => SourceOf(r, f, ls[i]))
  }

  /** The statements found in one file, or None where the extraction raises. */
  ghost function FileStatements(w: World, tree: Tree, f: FileEntry): Option<seq<Located>> {
    if Excluded(f.classification) then Some([])
    else if SourceBlob(w, tree, f.path).None? || w.lines(SourceBlob(w, tree, f.path).value).None? then None
    else
      var lines := w.lines(SourceBlob(w, tree, f.path).value).value;
      var bounds := FileBounds(w, lines, f);
      if bounds.None? || ExtractAll(lines, bounds.value).Err? then None
      else Some(ExtractAll(lines, bounds.value).value)
  }

  ghost function AllSources(w: World, r: Rules, tree: Tree, files: seq<FileEntry>): Option<seq<Source>> {
    if files == [] then Some([])
    else
      var f := files[|files| - 1];
      var front, last := AllSources(w, r, tree, files[..|files| - 1]), FileStatements(w, tree, f);
      if front.None? || last.None? then None else Some(front.value + SourcesOf(r, f, last.value))
  }

  function Ids(sources: seq<Source>): seq<string> {
    seq(|sources|, i requires 0 <= i < |sources| => sources[i].id)
  }

  /** build_source_requirements */
  ghost function Requirements(w: World, r: Rules, tree: Tree, m: Manifest): Option<seq<Source>> {
    if !ManifestValid(w, tree, m) then None
    else
      var all := AllSources(w, r, tree, m.files);
      if all.None? || !Distinct(Ids(all.value)) then None else all
  }

  predicate DistinctAnchors(sources: seq<Source>) {
    forall i, j | 0 <= i < j < |sources| :: !(sources[i].path == sources[j].path && sources[i].anchor == sources[j].anchor)
  }

  lemma {:induction false} SourcesNamed(w: World, r: Rules, tree: Tree, files: seq<FileEntry>)
    requires AllSources(w, r, tree, files).Some?
    ensures forall s | s in AllSources(w, r, tree, files).value :: s.id == r.logicalId(s.path, s.anchor) + "-v1"
    decreases |files|
  {
    if files != [] {
      SourcesNamed(w, r, tree, files[..|files| - 1]);
    }
  }

  /** Once the ids are distinct, the separate check of the anchors cannot fail. */
  lemma AnchorCheckRedundant(w: World, r: Rules, tree: Tree, m: Manifest)
    requires Requirements(w, r, tree, m).Some?
    ensures DistinctAnchors(Requirements(w, r, tree, m).value)
  {
    SourcesNamed(w, r, tree, m.files);
    var sources := Requirements(w, r, tree, m).value;
    forall i, j | 0 <= i < j < |sources|
      ensures !(sources[i].path == sources[j].path && sources[i].anchor == sources[j].anchor)
    {
      assert sources[i] in sources && sources[j] in sources;
      assert Ids(sources)[i] != Ids(sources)[j];
    }
  }

  method FileRegions(w: World, lines: seq<Line>, f: FileEntry) returns (b: Option<seq<Bounds>>)
    ensures b == FileBounds(w, lines, f)
    ensures b.Some? ==> BoundsWithin(lines, b.value)
  {
    if !f.classification.MixedSource? { return Some([Bounds("root", 0, |lines|)]); }
    if f.regions.None? { return None; }
    var regions := f.regions.value;
    var found: seq<Bounds> := [];
    for i := 0 to |regions|
      invariant FindAllBounds(w, lines, regions[..i]) == Some(found)
    {
      var anchor := w.vocabulary.strip(regions[i].anchor);
      assert regions[..i + 1][..i] == regions[..i];
      if anchor == "" {
        BoundsRefused(w, lines, regions, i);
        return None;
      }
      var bounds := RegionBounds(lines, Region(anchor, regions[i].hasLineBounds));
      if bounds.Err? {
        BoundsRefused(w, lines, regions, i);
        return None;
      }
      BoundsFound(w, lines, regions[i], bounds.value.0, bounds.value.1);
      found := found + [Bounds(anchor, bounds.value.0, bounds.value.1)];
    }
    assert regions[..|regions|] == regions;
    return Some(found);
  }

  lemma BoundsFound(w: World, lines: seq<Line>, region: Region, s: nat, e: nat)
    requires w.vocabulary.strip(region.anchor) != "" && !region.hasLineBounds
    requires Bounded(lines, w.vocabulary.strip(region.anchor), s, e)
    ensures FindBounds(w, lines, region) == Some(Bounds(w.vocabulary.strip(region.anchor), s, e))
  {
    var b := FindBounds(w, lines, region).value;
    BoundsUnique(lines, w.vocabulary.strip(region.anchor), s, e, b.start, b.end);
  }

  lemma {:induction false} BoundsRefused(w: World, lines: seq<Line>, regions: seq<Region>, i: nat)
    requires i < |regions| && FindBounds(w, lines, regions[i]).None?
    ensures FindAllBounds(w, lines, regions).None?
    decreases |regions|
  {
    if i < |regions| - 1 {
      BoundsRefused(w, lines, regions[..|regions| - 1], i);
    }
  }

  lemma {:induction false} SourcesRefused(w: World, r: Rules, tree: Tree, files: seq<FileEntry>, i: nat)
    requires i < |files| && FileStatements(w, tree, files[i]).None?
    ensures AllSources(w, r, tree, files).None?
    decreases |files|
  {
    if i < |files| - 1 {
      SourcesRefused(w, r, tree, files[..|files| - 1], i);
    }
  }

  /** The statements of one file: its lines, its regions, and the scan over them. */
  method ExtractFile(w: World, tree: Tree, f: FileEntry) returns (out: Option<seq<Located>>)
    ensures out == FileStatements(w, tree, f)
  {
    if Excluded(f.classification) { return Some([]); }
    var content := SourceBlob(w, tree, f.path);
    if content.None? || w.lines(content.value).None? { return None; }
    var lines := w.lines(content.value).value;
    var bounds := FileRegions(w, lines, f);
    if bounds.None? { return None; }
    var extracted := ExtractStatements(lines, bounds.value);
    if extracted.Err? { return None; }
    return Some(extracted.value);
  }

  // ----- that no statement is dropped -----

  /** One bound for each declared region, between the markers of its stripped anchor. */
  ghost predicate RegionsFound(w: World, lines: seq<Line>, regions: seq<Region>, bounds: seq<Bounds>) {
    && |bounds| == |regions|
    && forall k | 0 <= k < |regions| ::
         && !regions[k].hasLineBounds && bounds[k].anchor == Stripped(w, regions[k].anchor) != ""
         && Bounded(lines, bounds[k].anchor, bounds[k].start, bounds[k].end)
  }

  /** What is scanned of a file: the declared regions of a mixed one, and otherwise all its lines. */
  ghost predicate BoundsOf(w: World, lines: seq<Line>, f: FileEntry, bounds: seq<Bounds>) {
    if f.classification.MixedSource? then f.regions.Some? && RegionsFound(w, lines, f.regions.value, bounds)
    else bounds == [Bounds("root", 0, |lines|)]
  }

  lemma {:induction false} RegionsFoundExactly(w: World, lines: seq<Line>, regions: seq<Region>, bounds: seq<Bounds>)
    ensures FindAllBounds(w, lines, regions) == Some(bounds) <==> RegionsFound(w, lines, regions, bounds)
    decreases |regions|
  {
    if regions != [] {
      var n := |regions| - 1;
      if |bounds| == |regions| {
        RegionsFoundExactly(w, lines, regions[..n], bounds[..n]);
        assert bounds == bounds[..n] + [bounds[n]];
        BoundExactly(w, lines, regions[n], bounds[n]);
        RegionsFoundSplit(w, lines, regions, bounds, n);
      } else if FindAllBounds(w, lines, regions[..n]).Some? {
        RegionsFoundExactly(w, lines, regions[..n], FindAllBounds(w, lines, regions[..n]).value);
      }
    }
  }

  ghost predicate RegionFound(w: World, lines: seq<Line>, region: Region, b: Bounds) {
    && !region.hasLineBounds && b.anchor == Stripped(w, region.anchor) != ""
    && Bounded(lines, b.anchor, b.start, b.end)
  }

  lemma RegionsFoundSplit(w: World, lines: seq<Line>, regions: seq<Region>, bounds: seq<Bounds>, n: nat)
    requires |bounds| == |regions| == n + 1
    ensures RegionsFound(w, lines, regions, bounds)
       <==> RegionsFound(w, lines, regions[..n], bounds[..n]) && RegionFound(w, lines, regions[n], bounds[n])
  {
    assert forall k | 0 <= k < n :: regions[..n][k] == regions[k] && bounds[..n][k] == bounds[k];
  }

  lemma BoundExactly(w: World, lines: seq<Line>, region: Region, b: Bounds)
    ensures FindBounds(w, lines, region) == Some(b) <==> RegionFound(w, lines, region, b)
  {
    if RegionFound(w, lines, region, b) { BoundsFound(w, lines, region, b.start, b.end); }
  }

  /** The list has every statement of every region of the file's content, as it stands at the file's path. */
  ghost predicate Scanned(w: World, tree: Tree, f: FileEntry, out: seq<Located>) {
    && SourceBlob(w, tree, f.path).Some? && w.lines(SourceBlob(w, tree, f.path).value).Some?
    && var lines := w.lines(SourceBlob(w, tree, f.path).value).value;
       exists bounds, cuts ::
         BoundsOf(w, lines, f, bounds) && BoundsWithin(lines, bounds) && RegionsListed(lines, bounds, out, cuts)
  }

  /** Extraction passes over informative, superseded and evidence files, and lists every statement of the others. */
  lemma FileScannedExactly(w: World, tree: Tree, f: FileEntry, out: seq<Located>)
    requires Allowed(f.classification)
    ensures if f.classification.ApprovedNormative? || f.classification.MixedSource? || f.classification.ProposedGate?
      then FileStatements(w, tree, f) == Some(out) <==> Scanned(w, tree, f, out)
      else FileStatements(w, tree, f) == Some([])
  {
    if !Excluded(f.classification) && SourceBlob(w, tree, f.path).Some? && w.lines(SourceBlob(w, tree, f.path).value).Some? {
      var lines := w.lines(SourceBlob(w, tree, f.path).value).value;
      if FileStatements(w, tree, f) == Some(out) {
        var bounds := FileBounds(w, lines, f).value;
        FileBoundsExactly(w, lines, f, bounds);
        ExtractedInOrder(lines, bounds, out);
        var cuts :| RegionsListed(lines, bounds, out, cuts);
      }
      if bounds, cuts :| BoundsOf(w, lines, f, bounds) && BoundsWithin(lines, bounds) && RegionsListed(lines, bounds, out, cuts) {
        FileBoundsExactly(w, lines, f, bounds);
        ExtractedInOrder(lines, bounds, out);
      }
    }
  }

  lemma FileBoundsExactly(w: World, lines: seq<Line>, f: FileEntry, bounds: seq<Bounds>)
    ensures FileBounds(w, lines, f) == Some(bounds) <==> BoundsOf(w, lines, f, bounds)
  {
    if f.classification.MixedSource? && f.regions.Some? { RegionsFoundExactly(w, lines, f.regions.value, bounds); }
  }

  /** The requirement that a statement of a file becomes. */
  predicate RequirementOf(r: Rules, f: FileEntry, l: Located, s: Source) {
    && s.path == f.path && s.classification == f.classification && (s.kind.Gate? <==> f.classification.ProposedGate?)
    && s.region == l.region && s.statementAnchor == l.statement.anchor && s.anchor == l.region + ":" + l.statement.anchor
    && s.logicalId == r.logicalId(f.path, s.anchor) && s.version == 1 && s.id == s.logicalId + "-v1"
    && s.statement == l.statement.text && s.statementSha == r.textDigest(l.statement.text)
    && s.sourceSha == s.fileSha == Lower(f.sha) && s.line == l.statement.line + 1
  }

  ghost predicate FileListed(w: World, r: Rules, tree: Tree, f: FileEntry, out: seq<Source>, first: nat, next: nat) {
    && FileStatements(w, tree, f).Some?
    && var ls := FileStatements(w, tree, f).value;
       next == first + |ls| <= |out|
       && forall i | 0 <= i < |ls| :: RequirementOf(r, f, ls[i], out[first + i])
  }

  /** The list has the requirements of every file, one file after the other; `cuts[k]` is where those of file k begin. */
  ghost predicate FilesListed(w: World, r: Rules, tree: Tree, files: seq<FileEntry>, out: seq<Source>, cuts: seq<nat>) {
    && |cuts| == |files| + 1 && cuts[0] == 0 && cuts[|files|] == |out|
    && forall k | 0 <= k < |files| :: FileListed(w, r, tree, files[k], out, cuts[k], cuts[k + 1])
  }

  lemma FileStaysListed(w: World, r: Rules, tree: Tree, f: FileEntry, before: seq<Source>, out: seq<Source>, first: nat, next: nat)
    requires FileListed(w, r, tree, f, before, first, next) && before <= out
    ensures FileListed(w, r, tree, f, out, first, next)
  {
  }

  lemma LastFileListed(w: World, r: Rules, tree: Tree, f: FileEntry, before: seq<Source>, out: seq<Source>)
    requires FileStatements(w, tree, f).Some? && out == before + SourcesOf(r, f, FileStatements(w, tree, f).value)
    ensures FileListed(w, r, tree, f, out, |before|, |out|)
  {
  }

  lemma {:induction false} AllFilesListed(w: World, r: Rules, tree: Tree, files: seq<FileEntry>) returns (cuts: seq<nat>)
    requires AllSources(w, r, tree, files).Some?
    ensures FilesListed(w, r, tree, files, AllSources(w, r, tree, files).value, cuts)
    decreases |files|
  {
    if files == [] {
      cuts := [0];
    } else {
      var n := |files| - 1;
      var front := AllFilesListed(w, r, tree, files[..n]);
      var before, out := AllSources(w, r, tree, files[..n]).value, AllSources(w, r, tree, files).value;
      cuts := front + [|out|];
      forall k | 0 <= k < |files|
        ensures FileListed(w, r, tree, files[k], out, cuts[k], cuts[k + 1])
      {
        if k < n {
          assert FileListed(w, r, tree, files[..n][k], before, front[k], front[k + 1]);
          FileStaysListed(w, r, tree, files[k], before, out, front[k], front[k + 1]);
        } else {
          LastFileListed(w, r, tree, files[n], before, out);
        }
      }
    }
  }

  lemma {:induction false} FileCutsAscend(w: World, r: Rules, tree: Tree, files: seq<FileEntry>, out: seq<Source>,
                                          cuts: seq<nat>, k: nat)
    requires FilesListed(w, r, tree, files, out, cuts) && files != [] && k < |files|
    ensures cuts[k] <= cuts[|files| - 1]
    decreases |files| - k
  {
    if k < |files| - 1 {
      assert FileListed(w, r, tree, files[k], out, cuts[k], cuts[k + 1]);
      FileCutsAscend(w, r, tree, files, out, cuts, k + 1);
    }
  }

  lemma FileListedWithin(w: World, r: Rules, tree: Tree, f: FileEntry, out: seq<Source>, first: nat, next: nat, n: nat)
    requires FileListed(w, r, tree, f, out, first, next) && next <= n <= |out|
    ensures FileListed(w, r, tree, f, out[..n], first, next)
  {
  }

  lemma ListedSources(w: World, r: Rules, tree: Tree, f: FileEntry, out: seq<Source>, first: nat)
    requires FileListed(w, r, tree, f, out, first, |out|)
    ensures out == out[..first] + SourcesOf(r, f, FileStatements(w, tree, f).value)
  {
    var ls := FileStatements(w, tree, f).value;
    forall i | 0 <= i < |ls|
      ensures out[first + i] == SourceOf(r, f, ls[i])
    {
      assert RequirementOf(r, f, ls[i], out[first + i]);
    }
  }

  lemma {:induction false} ListedFiles(w: World, r: Rules, tree: Tree, files: seq<FileEntry>, out: seq<Source>, cuts: seq<nat>)
    requires FilesListed(w, r, tree, files, out, cuts)
    ensures AllSources(w, r, tree, files) == Some(out)
    decreases |files|
  {
    if files != [] {
      var n := |files| - 1;
      assert FileListed(w, r, tree, files[n], out, cuts[n], cuts[n + 1]);
      forall k | 0 <= k < n
        ensures FileListed(w, r, tree, files[..n][k], out[..cuts[n]], cuts[..n + 1][k], cuts[..n + 1][k + 1])
      {
        assert FileListed(w, r, tree, files[k], out, cuts[k], cuts[k + 1]);
        FileCutsAscend(w, r, tree, files, out, cuts, k + 1);
        FileListedWithin(w, r, tree, files[k], out, cuts[k], cuts[k + 1], cuts[n]);
      }
      ListedFiles(w, r, tree, files[..n], out[..cuts[n]], cuts[..n + 1]);
      ListedSources(w, r, tree, files[n], out, cuts[n]);
    }
  }

  ghost predicate Lists(w: World, r: Rules, tree: Tree, files: seq<FileEntry>, out: seq<Source>) {
    exists cuts :: FilesListed(w, r, tree, files, out, cuts)
  }

  /** The requirements of a valid manifest are exactly those of all its files, in file order and then in line order. */
  lemma RequirementsInOrder(w: World, r: Rules, tree: Tree, m: Manifest, out: seq<Source>)
    ensures Requirements(w, r, tree, m) == Some(out)
       <==> ManifestValid(w, tree, m) && Lists(w, r, tree, m.files, out) && Distinct(Ids(out))
  {
    if Requirements(w, r, tree, m) == Some(out) {
      var cuts := AllFilesListed(w, r, tree, m.files);
    }
    if Lists(w, r, tree, m.files, out) {
      var cuts :| FilesListed(w, r, tree, m.files, out, cuts);
      ListedFiles(w, r, tree, m.files, out, cuts);
    }
  }

  /** build_source_requirements. It lists every statement of every normative file, and refuses only where that is impossible. */
  method BuildSourceRequirements(w: World, r: Rules, tree: Tree, m: Manifest) returns (out: Option<seq<Source>>)
    ensures out == Requirements(w, r, tree, m)
    ensures out.Some? ==> ManifestValid(w, tree, m) && Lists(w, r, tree, m.files, out.value) && Distinct(Ids(out.value))
  {
    if Requirements(w, r, tree, m).Some? { RequirementsInOrder(w, r, tree, m, Requirements(w, r, tree, m).value); }
    var valid := ValidateManifest(w, tree, m);
    if valid.Err? { return None; }
    var files := valid.value;
    var requirements: seq<Source> := [];
    for i := 0 to |files|
      invariant AllSources(w, r, tree, files[..i]) == Some(requirements)
    {
      assert files[..i + 1][..i] == files[..i];
      var extracted := ExtractFile(w, tree, files[i]);
      if extracted.None? {
        SourcesRefused(w, r, tree, files, i);
        return None;
      }
      requirements := requirements + SourcesOf(r, files[i], extracted.value);
    }
    assert files[..|files|] == files;
    if !Distinct(Ids(requirements)) { return None; }
    AnchorCheckRedundant(w, r, tree, m);
    if !DistinctAnchors(requirements) { return None; }
    return Some(requirements);
  }

  // ----- validation -----

  /** The same requirement, possibly on another line. */
  predicate SameButLine(a: Source, b: Source) {
    a == b.(line := a.line)
  }

  predicate ProofAccepted(r: Rules, c: Classification, g: Governance) {
    && r.concrete(g.proofClassification) && r.concrete(g.finalTarget) && r.concrete(g.environment)
    && (c.ProposedGate? || g.proofClassification == "production" ==>
          g.finalTarget == "hosted-production" && g.environment == "hosted-production")
  }

  predicate OwnerAccepted(r: Rules, g: Governance) {
    if g.owner.Text? then r.ownerAccepted(g.owner.value) && g.assignedAt.Text? && r.stampAccepted(g.assignedAt.value)
    else !g.assignedAt.Text?
  }

  predicate GovernanceAccepted(r: Rules, c: Classification, g: Governance) {
    && g.task >= 1
    && g.role.Some? && r.roleAccepted(g.role.value)
    && OwnerAccepted(r, g)
    && ProofAccepted(r, c, g)
    && g.intendedRed.Some? && r.redAccepted(g.intendedRed.value)
    && r.detailsAccepted(g.details)
  }

  predicate EntryAccepted(r: Rules, e: Entry, s: Source) {
    && r.concrete(e.source.path) && r.anchorAccepted(e.source.anchor) && !Excluded(e.source.classification)
    && SameButLine(e.source, s)
    && r.concrete(e.source.statement)
    && GovernanceAccepted(r, e.source.classification, e.governance)
  }

  /** The ids of the entries, in their order, are those of the sources, and so are all source fields but the line. */
  predicate MatchesSources(entries: seq<Entry>, sources: seq<Source>) {
    |entries| == |sources| && forall i | 0 <= i < |sources| :: SameButLine(entries[i].source, sources[i])
  }

  /** validate_registry */
  ghost predicate RegistryValid(w: World, r: Rules, tree: Tree, reg: Registry, m: Manifest) {
    && reg.schemaSupported && IsSha(m.normativeSha) && reg.normativeSha == Lower(m.normativeSha)
    && reg.generation == m.generation && reg.requirements != []
    && Requirements(w, r, tree, m).Some?
    && var sources := Requirements(w, r, tree, m).value;
       |reg.requirements| == |sources|
       && forall i | 0 <= i < |sources| :: EntryAccepted(r, reg.requirements[i], sources[i])
  }

  // ----- what a valid registry promises, property by property -----

  /** The entries are those of the sources, in their order: every field but the line, all of it normative text. */
  predicate Extracted(r: Rules, entries: seq<Entry>, sources: seq<Source>) {
    && |entries| == |sources|
    && forall i | 0 <= i < |sources| ::
         && entries[i].source == sources[i].(line := entries[i].source.line)
         && (sources[i].classification.ApprovedNormative? || sources[i].classification.MixedSource?
             || sources[i].classification.ProposedGate? || sources[i].classification.Unsupported?)
         && r.concrete(sources[i].path) && r.anchorAccepted(sources[i].anchor) && r.concrete(sources[i].statement)
  }

  /** An owner has an accepted id and an accepted time, and there is no time without an owner. */
  predicate Attributed(r: Rules, entries: seq<Entry>) {
    forall i | 0 <= i < |entries| ::
      match (entries[i].governance.owner, entries[i].governance.assignedAt)
      case (Text(owner), Text(stamp)) => r.ownerAccepted(owner) && r.stampAccepted(stamp)
      case (Text(owner), _) => false
      case (_, assignedAt) => assignedAt == Null || assignedAt == Absent
  }

  /** Every requirement has a task, a role and a RED mapping that are accepted. */
  predicate Planned(r: Rules, entries: seq<Entry>) {
    forall i | 0 <= i < |entries| ::
      var g := entries[i].governance;
      && g.task >= 1 && r.detailsAccepted(g.details)
      && g.role.Some? && r.roleAccepted(g.role.value)
      && g.intendedRed.Some? && r.redAccepted(g.intendedRed.value)
  }

  /** Gates, and whatever is proved in production, have hosted production as their target. */
  predicate Targeted(r: Rules, entries: seq<Entry>) {
    forall i | 0 <= i < |entries| ::
      var g := entries[i].governance;
      && r.concrete(g.proofClassification) && r.concrete(g.finalTarget) && r.concrete(g.environment)
      && (entries[i].source.classification.ProposedGate? || g.proofClassification == "production" ==>
            g.finalTarget == "hosted-production" && g.environment == "hosted-production")
  }

  lemma EntriesAcceptedExactly(r: Rules, entries: seq<Entry>, sources: seq<Source>)
    ensures |entries| == |sources| && (forall i | 0 <= i < |sources| :: EntryAccepted(r, entries[i], sources[i]))
       <==> Extracted(r, entries, sources) && Attributed(r, entries) && Planned(r, entries) && Targeted(r, entries)
  {
  }

  /** The registry names the manifest's commit and generation, and its entries keep every promise against the sources. */
  ghost predicate Vetted(w: World, r: Rules, tree: Tree, reg: Registry, m: Manifest) {
    && reg.schemaSupported && IsSha(m.normativeSha) && reg.normativeSha == Lower(m.normativeSha)
    && reg.generation == m.generation && reg.requirements != []
    && exists sources ::
         && Requirements(w, r, tree, m) == Some(sources) && Extracted(r, reg.requirements, sources)
         && Attributed(r, reg.requirements) && Planned(r, reg.requirements) && Targeted(r, reg.requirements)
  }

  lemma RegistryValidExactly(w: World, r: Rules, tree: Tree, reg: Registry, m: Manifest)
    ensures RegistryValid(w, r, tree, reg, m) <==> Vetted(w, r, tree, reg, m)
  {
    if Requirements(w, r, tree, m).Some? {
      EntriesAcceptedExactly(r, reg.requirements, Requirements(w, r, tree, m).value);
    }
  }

  // ----- rebuilding -----

  function EntryIds(entries: seq<Entry>): seq<string> {
    seq(|entries|, i requires 0 <= i < |entries| => entries[i].source.id)
  }

  /** The reviewed mappings cover the sources: the same ids, each once, and the same source fields. */
  ghost predicate Covers(entries: seq<Entry>, sources: seq<Source>) {
    && (forall e | e in entries :: e.source.id != "")
    && Distinct(EntryIds(entries))
    && (forall e | e in entries :: e.source.id in Ids(sources))
    && (forall i | 0 <= i < |sources| :: HasMapping(entries, sources[i]))
  }

  ghost predicate HasMapping(entries: seq<Entry>, s: Source) {
    exists e :: e in entries && SameButLine(e.source, s)
  }

  ghost function MappingFor(entries: seq<Entry>, s: Source): (e: Entry)
    requires HasMapping(entries, s)
    ensures e in entries && SameButLine(e.source, s)
  {
    var e :| e in entries && SameButLine(e.source, s);
    e
  }

  ghost function Reissued(entries: seq<Entry>, sources: seq<Source>): seq<Entry>
    requires Covers(entries, sources)
  {
    seq(|sources|, i requires 0 <= i < |sources| => Entry(sources[i], MappingFor(entries, sources[i]).governance))
  }

  function KeptChain(m: Manifest): Option<seq<Review>> {
    if m.reviewChain.Some? && m.reviewChain.value != [] then m.reviewChain else None
  }

  ghost function Rebuilt(w: World, r: Rules, tree: Tree, m: Manifest, existing: Option<seq<Entry>>): Option<Registry> {
    var sources := Requirements(w, r, tree, m);
    if sources.None? || existing.None? || !Covers(existing.value, sources.value) then None
    else Some(Registry(true, Lower(m.normativeSha), m.generation, Reissued(existing.value, sources.value), KeptChain(m)))
  }

  lemma SameIdSameEntry(entries: seq<Entry>, a: Entry, b: Entry)
    requires Distinct(EntryIds(entries)) && a in entries && b in entries && a.source.id == b.source.id
    ensures a == b
  {
    var i :| 0 <= i < |entries| && entries[i] == a;
    var j :| 0 <= j < |entries| && entries[j] == b;
    assert EntryIds(entries)[i] == EntryIds(entries)[j];
  }

  /** `table` finds each entry under its id, which no other entry has. */
  ghost predicate Indexes(table: map<string, Entry>, entries: seq<Entry>) {
    && (forall e | e in entries :: e.source.id != "" && e.source.id in table && table[e.source.id] == e)
    && (forall x | x in table :: table[x] in entries && table[x].source.id == x)
    && Distinct(EntryIds(entries))
  }

  lemma IndexOne(table: map<string, Entry>, front: seq<Entry>, e: Entry)
    requires Indexes(table, front) && e.source.id != "" && e.source.id !in table
    ensures Indexes(table[e.source.id := e], front + [e])
  {
    assert EntryIds(front + [e]) == EntryIds(front) + [e.source.id];
    forall i | 0 <= i < |front|
      ensures EntryIds(front)[i] != e.source.id
    {
      assert front[i] in front;
    }
  }

  lemma RepeatedId(entries: seq<Entry>, i: nat, e: Entry)
    requires i < |entries| && e in entries[..i] && e.source.id == entries[i].source.id
    ensures !Distinct(EntryIds(entries))
  {
    var k :| 0 <= k < i && entries[..i][k] == e;
    assert EntryIds(entries)[k] == EntryIds(entries)[i];
  }

  /** A table of the mappings by id, or None if an id is empty or repeated. */
  method IndexMappings(mappings: seq<Entry>) returns (byId: Option<map<string, Entry>>)
    ensures byId.Some? ==> Indexes(byId.value, mappings)
    ensures byId.None? ==> (exists e :: e in mappings && e.source.id == "") || !Distinct(EntryIds(mappings))
  {
    var table: map<string, Entry> := map[];
    for i := 0 to |mappings|
      invariant Indexes(table, mappings[..i])
    {
      var e := mappings[i];
      assert e in mappings;
      if e.source.id == "" { return None; }
      if e.source.id in table {
        RepeatedId(mappings, i, table[e.source.id]);
        return None;
      }
      IndexOne(table, mappings[..i], e);
      assert mappings[..i + 1] == mappings[..i] + [e];
      table := table[e.source.id := e];
    }
    assert mappings[..|mappings|] == mappings;
    return Some(table);
  }

  /** One entry for each source, or None if a source has no mapping that agrees with it. */
  method ReissueEntries(mappings: seq<Entry>, byId: map<string, Entry>, sources: seq<Source>)
    returns (out: Option<seq<Entry>>)
    requires Indexes(byId, mappings)
    ensures out.Some? <==> forall i | 0 <= i < |sources| :: HasMapping(mappings, sources[i])
    ensures out.Some? ==> |out.value| == |sources| && forall i | 0 <= i < |sources| ::
              out.value[i] == Entry(sources[i], MappingFor(mappings, sources[i]).governance)
  {
    var entries: seq<Entry> := [];
    for i := 0 to |sources|
      invariant |entries| == i
      invariant forall k | 0 <= k < i :: HasMapping(mappings, sources[k])
      invariant forall k | 0 <= k < i :: entries[k] == Entry(sources[k], MappingFor(mappings, sources[k]).governance)
    {
      var source := sources[i];
      if source.id !in byId { return None; }
      var previous := byId[source.id];
      if !SameButLine(previous.source, source) {
        NoOtherMapping(mappings, previous, source);
        return None;
      }
      SameIdSameEntry(mappings, previous, MappingFor(mappings, source));
      entries := entries + [previous.(source := previous.source.(line := source.line))];
    }
    return Some(entries);
  }

  lemma IndexedCovers(byId: map<string, Entry>, mappings: seq<Entry>, sources: seq<Source>)
    requires Indexes(byId, mappings)
    ensures Covers(mappings, sources) <==>
              (forall x | x in byId :: x in Ids(sources)) && forall i | 0 <= i < |sources| :: HasMapping(mappings, sources[i])
  {
    if forall x | x in byId :: x in Ids(sources) {
      forall e | e in mappings
        ensures e.source.id in Ids(sources)
      {
        assert e.source.id in byId;
      }
    }
  }

  /** The builder: a table of the mappings, then one entry for each source. */
  method BuildRegistry(w: World, r: Rules, tree: Tree, m: Manifest, existing: Option<seq<Entry>>)
    returns (out: Option<Registry>)
    ensures out == Rebuilt(w, r, tree, m, existing)
  {
    var extracted := BuildSourceRequirements(w, r, tree, m);
    if extracted.None? || existing.None? { return None; }
    var sources, mappings := extracted.value, existing.value;
    var table := IndexMappings(mappings);
    if table.None? { return None; }
    IndexedCovers(table.value, mappings, sources);
    if exists x | x in table.value :: x !in Ids(sources) { return None; }
    var entries := ReissueEntries(mappings, table.value, sources);
    if entries.None? { return None; }
    assert entries.value == Reissued(mappings, sources);
    return Some(Registry(true, Lower(m.normativeSha), m.generation, entries.value, KeptChain(m)));
  }

  lemma NoOtherMapping(entries: seq<Entry>, e: Entry, s: Source)
    requires Distinct(EntryIds(entries)) && e in entries && e.source.id == s.id && !SameButLine(e.source, s)
    ensures !HasMapping(entries, s)
  {
    forall f | f in entries && SameButLine(f.source, s)
      ensures false
    {
      SameIdSameEntry(entries, e, f);
    }
  }

  /** The rebuilt entries are in extraction order and satisfy the source part of the validation. */
  lemma RebuiltMatches(w: World, r: Rules, tree: Tree, m: Manifest, existing: seq<Entry>)
    requires Rebuilt(w, r, tree, m, Some(existing)).Some?
    ensures var out, sources := Rebuilt(w, r, tree, m, Some(existing)).value.requirements, Requirements(w, r, tree, m).value;
      && MatchesSources(out, sources) && EntryIds(out) == Ids(sources)
      && |existing| == |sources|
      && (forall e | e in out :: exists f :: f in existing && f.source.id == e.source.id && f.governance == e.governance)
  {
    var sources := Requirements(w, r, tree, m).value;
    var out := Reissued(existing, sources);
    assert EntryIds(out) == Ids(sources);
    forall e | e in out
      ensures exists f :: f in existing && f.source.id == e.source.id && f.governance == e.governance
    {
      var i :| 0 <= i < |out| && out[i] == e;
      var f := MappingFor(existing, sources[i]);
      assert f in existing && f.source.id == e.source.id && f.governance == e.governance;
    }
    SameSize(EntryIds(existing), Ids(sources), existing, sources);
  }

  lemma SameSize(a: seq<string>, b: seq<string>, entries: seq<Entry>, sources: seq<Source>)
    requires a == EntryIds(entries) && b == Ids(sources) && Covers(entries, sources) && Distinct(b)
    ensures |entries| == |sources|
  {
    forall x
      ensures x in a <==> x in b
    {
      if x in a { var i :| 0 <= i < |a| && a[i] == x; assert entries[i] in entries; }
      if x in b {
        var i :| 0 <= i < |b| && b[i] == x;
        var e := MappingFor(entries, sources[i]);
        var j :| 0 <= j < |entries| && entries[j] == e;
        assert a[j] == x;
      }
    }
    DistinctSize(a);
    DistinctSize(b);
    assert (set x | x in a) == (set x | x in b);
  }

  lemma {:induction false} DistinctSize(s: seq<string>)
    requires Distinct(s)
    ensures |set x | x in s| == |s|
  {
    if s != [] {
      DistinctSize(s[1..]);
      assert s == [s[0]] + s[1..];
      assert (set x | x in s) == {s[0]} + (set x | x in s[1..]);
      assert s[0] !in s[1..];
    }
  }

  /** The order in which the mappings are listed makes no difference. */
  lemma RebuiltPermutation(w: World, r: Rules, tree: Tree, m: Manifest, existing: seq<Entry>, others: seq<Entry>)
    requires multiset(existing) == multiset(others)
    ensures Rebuilt(w, r, tree, m, Some(existing)) == Rebuilt(w, r, tree, m, Some(others))
  {
    var sources := Requirements(w, r, tree, m);
    if sources.Some? {
      if Covers(existing, sources.value) { CoversPermuted(existing, others, sources.value); }
      if Covers(others, sources.value) {
        CoversPermuted(others, existing, sources.value);
        assert Reissued(existing, sources.value) == Reissued(others, sources.value);
      }
    }
  }

  lemma SameMembers(s: seq<Entry>, t: seq<Entry>, e: Entry)
    requires multiset(s) == multiset(t)
    ensures e in s <==> e in t
  {
    assert e in multiset(s) <==> e in multiset(t);
  }

  lemma CoversPermuted(existing: seq<Entry>, others: seq<Entry>, sources: seq<Source>)
    requires multiset(existing) == multiset(others) && Covers(existing, sources)
    ensures Covers(others, sources)
    ensures forall i | 0 <= i < |sources| :: MappingFor(existing, sources[i]) == MappingFor(others, sources[i])
  {
    forall e
      ensures e in existing <==> e in others
    {
      SameMembers(existing, others, e);
    }
    DistinctPermuted(existing, others);
    forall i | 0 <= i < |sources|
      ensures HasMapping(others, sources[i])
      ensures MappingFor(existing, sources[i]) == MappingFor(others, sources[i])
    {
      assert MappingFor(existing, sources[i]) in others;
      SameIdSameEntry(others, MappingFor(existing, sources[i]), MappingFor(others, sources[i]));
    }
  }

  lemma DistinctPermuted(s: seq<Entry>, t: seq<Entry>)
    requires multiset(s) == multiset(t) && Distinct(EntryIds(s))
    ensures Distinct(EntryIds(t))
  {
    forall i, j | 0 <= i < j < |t|
      ensures t[i].source.id != t[j].source.id
    {
      SameMembers(s, t, t[i]);
      SameMembers(s, t, t[j]);
      if t[i].source.id == t[j].source.id {
        SameIdSameEntry(s, t[i], t[j]);
        Repeated(t, i, j);
        Once(s, t[i]);
      }
    }
  }

  lemma Once(s: seq<Entry>, e: Entry)
    requires Distinct(EntryIds(s)) && e in s
    ensures multiset(s)[e] == 1
  {
    var k :| 0 <= k < |s| && s[k] == e;
    assert s == s[..k] + [e] + s[k + 1..];
    forall l | 0 <= l < |s| && l != k
      ensures s[l] != e
    {
      assert EntryIds(s)[l] != EntryIds(s)[k];
    }
    assert e !in s[..k] && e !in s[k + 1..];
  }

  predicate HasId(sources: seq<Source>, id: string) {
    exists k | 0 <= k < |sources| :: sources[k].id == id
  }

  lemma IdListed(sources: seq<Source>, id: string)
    ensures HasId(sources, id) <==> id in Ids(sources)
  {
    if HasId(sources, id) {
      var k :| 0 <= k < |sources| && sources[k].id == id;
      assert Ids(sources)[k] == id;
    }
  }

  /** The reviewed mappings have ids, no two the same, and all of them extracted. */
  predicate MappingsNamed(existing: seq<Entry>, sources: seq<Source>) {
    && (forall i | 0 <= i < |existing| :: existing[i].source.id != "" && HasId(sources, existing[i].source.id))
    && (forall i, j | 0 <= i < j < |existing| :: existing[i].source.id != existing[j].source.id)
  }

  /** The source with the reviewed fields of a mapping that has all its fields but the line. */
  predicate ReemittedOne(existing: seq<Entry>, s: Source, e: Entry) {
    exists i | 0 <= i < |existing| ::
      existing[i].source == s.(line := existing[i].source.line) && e == Entry(s, existing[i].governance)
  }

  predicate Reemitted(existing: seq<Entry>, sources: seq<Source>, out: seq<Entry>) {
    |out| == |sources| && forall k | 0 <= k < |sources| :: ReemittedOne(existing, sources[k], out[k])
  }

  lemma MappingsCover(existing: seq<Entry>, sources: seq<Source>)
    ensures Covers(existing, sources) <==>
      MappingsNamed(existing, sources) && forall k | 0 <= k < |sources| :: HasMapping(existing, sources[k])
  {
    forall i | 0 <= i < |existing|
      ensures existing[i] in existing && EntryIds(existing)[i] == existing[i].source.id
      ensures HasId(sources, existing[i].source.id) <==> existing[i].source.id in Ids(sources)
    {
      IdListed(sources, existing[i].source.id);
    }
    assert Distinct(EntryIds(existing)) <==> forall i, j | 0 <= i < j < |existing| :: existing[i].source.id != existing[j].source.id;
  }

  lemma ReissuedOne(existing: seq<Entry>, s: Source, e: Entry)
    requires Distinct(EntryIds(existing)) && HasMapping(existing, s)
    ensures e == Entry(s, MappingFor(existing, s).governance) <==> ReemittedOne(existing, s, e)
  {
    var found := MappingFor(existing, s);
    var i :| 0 <= i < |existing| && existing[i] == found;
    forall k | 0 <= k < |existing| && existing[k].source == s.(line := existing[k].source.line)
      ensures existing[k] == found
    {
      assert existing[k] in existing;
      SameIdSameEntry(existing, existing[k], found);
    }
  }

  lemma ReissuedExactly(existing: seq<Entry>, sources: seq<Source>, out: seq<Entry>)
    requires Covers(existing, sources)
    ensures out == Reissued(existing, sources) <==> Reemitted(existing, sources, out)
  {
    if |out| == |sources| {
      forall k | 0 <= k < |sources|
        ensures out[k] == Reissued(existing, sources)[k] <==> ReemittedOne(existing, sources[k], out[k])
      {
        ReissuedOne(existing, sources[k], out[k]);
      }
      assert out == Reissued(existing, sources) <==> forall k | 0 <= k < |sources| :: out[k] == Reissued(existing, sources)[k];
    }
  }

  lemma ReemittedMapped(existing: seq<Entry>, sources: seq<Source>, out: seq<Entry>)
    requires Reemitted(existing, sources, out)
    ensures forall k | 0 <= k < |sources| :: HasMapping(existing, sources[k])
  {
    forall k | 0 <= k < |sources|
      ensures HasMapping(existing, sources[k])
    {
      assert ReemittedOne(existing, sources[k], out[k]);
      var i :| 0 <= i < |existing| && existing[i].source == sources[k].(line := existing[i].source.line);
      assert existing[i] in existing && SameButLine(existing[i].source, sources[k]);
    }
  }

  /** A rebuild succeeds exactly when the mappings are those of the sources, and gives each source with its mapping. */
  lemma RebuiltExactly(w: World, r: Rules, tree: Tree, m: Manifest, existing: seq<Entry>, out: Registry)
    ensures Rebuilt(w, r, tree, m, Some(existing)) == Some(out)
       <==> && out.schemaSupported && out.normativeSha == Lower(m.normativeSha) && out.generation == m.generation
            && out.reviewChain == (if m.reviewChain == Some([]) then None else m.reviewChain)
            && exists sources ::
                 && Requirements(w, r, tree, m) == Some(sources) && MappingsNamed(existing, sources)
                 && Reemitted(existing, sources, out.requirements)
  {
    if Requirements(w, r, tree, m).Some? {
      var sources := Requirements(w, r, tree, m).value;
      MappingsCover(existing, sources);
      if Reemitted(existing, sources, out.requirements) { ReemittedMapped(existing, sources, out.requirements); }
      if Covers(existing, sources) { ReissuedExactly(existing, sources, out.requirements); }
    }
  }

  /** Rebuilding from the rebuilt entries gives them back. */
  lemma RebuiltFixedPoint(w: World, r: Rules, tree: Tree, m: Manifest, existing: seq<Entry>)
    requires Rebuilt(w, r, tree, m, Some(existing)).Some?
    ensures var out := Rebuilt(w, r, tree, m, Some(existing));
      Rebuilt(w, r, tree, m, Some(out.value.requirements)) == out
  {
    var sources := Requirements(w, r, tree, m).value;
    var out := Reissued(existing, sources);
    assert EntryIds(out) == Ids(sources);
    forall i | 0 <= i < |sources|
      ensures sources[i].id != "" && out[i] in out && HasMapping(out, sources[i])
    {
      assert MappingFor(existing, sources[i]) in existing;
      assert out[i] in out && SameButLine(out[i].source, sources[i]);
    }
    assert Covers(out, sources);
    forall i | 0 <= i < |sources|
      ensures MappingFor(out, sources[i]) == out[i]
    {
      SameIdSameEntry(out, MappingFor(out, sources[i]), out[i]);
    }
    assert Reissued(out, sources) == out;
  }

  // ----- the transition of one gate -----

  method ValidateRegistry(w: World, r: Rules, tree: Tree, reg: Registry, m: Manifest) returns (ok: bool)
    ensures ok == RegistryValid(w, r, tree, reg, m)
  {
    if !reg.schemaSupported || !IsSha(m.normativeSha) || reg.normativeSha != Lower(m.normativeSha)
       || reg.generation != m.generation || reg.requirements == [] {
      return false;
    }
    var expected := BuildSourceRequirements(w, r, tree, m);
    if expected.None? || Ids(expected.value) != EntryIds(reg.requirements) {
      IdsFollow(r, reg.requirements, expected);
      return false;
    }
    assert |Ids(expected.value)| == |EntryIds(reg.requirements)|;
    ok := CheckEntries(r, reg.requirements, expected.value);
  }

  method CheckEntries(r: Rules, entries: seq<Entry>, expected: seq<Source>) returns (ok: bool)
    requires |entries| == |expected|
    ensures ok <==> forall k | 0 <= k < |expected| :: EntryAccepted(r, entries[k], expected[k])
  {
    for i := 0 to |expected|
      invariant forall k | 0 <= k < i :: EntryAccepted(r, entries[k], expected[k])
    {
      if !EntryAccepted(r, entries[i], expected[i]) { return false; }
    }
    return true;
  }

  lemma IdsFollow(r: Rules, entries: seq<Entry>, sources: Option<seq<Source>>)
    ensures sources.Some? && |entries| == |sources.value|
            && (forall i | 0 <= i < |entries| :: EntryAccepted(r, entries[i], sources.value[i]))
            ==> Ids(sources.value) == EntryIds(entries)
  {
  }

  predicate OfPath(sources: seq<Source>, path: string, c: Classification) {
    && (exists i | 0 <= i < |sources| :: sources[i].path == path)
    && (forall i | 0 <= i < |sources| && sources[i].path == path :: sources[i].classification == c)
  }

  function StatementShas(sources: seq<Source>, path: string): set<string> {
    set i | 0 <= i < |sources| && sources[i].path == path :: sources[i].statementSha
  }

  /** What the source compares before it changes anything. */
  predicate Comparable(prev: seq<Source>, next: seq<Source>, reg: Registry, path: string) {
    && OfPath(prev, path, ProposedGate) && OfPath(next, path, ApprovedNormative)
    && StatementShas(prev, path) == StatementShas(next, path)
    && (forall e | e in reg.requirements :: e.source.id in Ids(next))
    && (forall s | s in next :: s.id in EntryIds(reg.requirements))
  }

  function ById(sources: seq<Source>, id: string): (s: Source)
    requires id in Ids(sources)
    ensures s in sources && s.id == id
  {
    assert exists i :: 0 <= i < |sources| && sources[i].id == id by {
      var i :| 0 <= i < |Ids(sources)| && Ids(sources)[i] == id;
      assert sources[i].id == id;
    }
    Find(sources, id)
  }

  function Find(sources: seq<Source>, id: string): (s: Source)
    requires exists i :: 0 <= i < |sources| && sources[i].id == id
    ensures s in sources && s.id == id
  {
    if sources[0].id == id then sources[0] else Find(sources[1..], id)
  }

  function Refreshed(entries: seq<Entry>, next: seq<Source>): seq<Entry>
    requires forall e | e in entries :: e.source.id in Ids(next)
  {
    seq(|entries|, i requires 0 <= i < |entries| =>
      entries[i].(source := ById(next, entries[i].source.id)))
  }

  /** A new commit, the next generation, and a review chain for it. */
  ghost predicate NextGeneration(w: World, m: Manifest, next: Manifest) {
    && IsSha(next.normativeSha) && IsSha(m.normativeSha) && Lower(next.normativeSha) != Lower(m.normativeSha)
    && next.generation == m.generation + 1 && next.reviewChain.Some?
    && Validated(w.vocabulary, REVIEW_ROLES, next.reviewChain.value, Some(Lower(next.normativeSha)), None, None).Ok?
  }

  /** The registry with the next manifest's header and every entry's source fields replaced. */
  function Refresh(reg: Registry, next: Manifest, after: seq<Source>): Registry
    requires forall e | e in reg.requirements :: e.source.id in Ids(after)
  {
    reg.(normativeSha := Lower(next.normativeSha), generation := next.generation,
         reviewChain := next.reviewChain, requirements := Refreshed(reg.requirements, after))
  }

  /** transition_registry_gate, with the repository root given. */
  ghost function Transitioned(w: World, r: Rules, reg: Registry, m: Manifest, next: Manifest, path: string,
                              tree: Tree, nextTree: Tree): Option<Registry>
  {
    if !NextGeneration(w, m, next) || !RegistryValid(w, r, tree, reg, m) then None
    else
      var before, after := Requirements(w, r, tree, m), Requirements(w, r, nextTree, next);
      if after.None? || !Comparable(before.value, after.value, reg, path) then None
      else
        var out := Refresh(reg, next, after.value);
        if RegistryValid(w, r, nextTree, out, next) then Some(out) else None
  }

  /** The copied entries are rewritten one after the other. */
  method RefreshEntries(copied: seq<Entry>, after: seq<Source>) returns (entries: seq<Entry>)
    requires forall e | e in copied :: e.source.id in Ids(after)
    ensures entries == Refreshed(copied, after)
  {
    entries := copied;
    for i := 0 to |entries|
      invariant |entries| == |copied|
      invariant forall k | i <= k < |entries| :: entries[k] == copied[k]
      invariant forall k | 0 <= k < i :: entries[k] == Refreshed(copied, after)[k]
    {
      assert entries[i] in copied;
      entries := entries[i := entries[i].(source := ById(after, entries[i].source.id))];
    }
  }

  /** The same ids in the same order, and under each of them the same reviewed fields. */
  ghost predicate KeepsGovernance(entries: seq<Entry>, next: seq<Entry>) {
    && |next| == |entries|
    && forall i | 0 <= i < |entries| ::
         next[i].source.id == entries[i].source.id && next[i].governance == entries[i].governance
  }

  lemma RefreshedKeeps(entries: seq<Entry>, after: seq<Source>)
    requires forall e | e in entries :: e.source.id in Ids(after)
    ensures KeepsGovernance(entries, Refreshed(entries, after))
  {
    forall i | 0 <= i < |entries|
      ensures Refreshed(entries, after)[i].source.id == entries[i].source.id
    {
      assert entries[i] in entries;
    }
  }

  lemma TransitionKeeps(w: World, r: Rules, reg: Registry, m: Manifest, next: Manifest, path: string,
                        tree: Tree, nextTree: Tree, out: Registry)
    requires Transitioned(w, r, reg, m, next, path, tree, nextTree) == Some(out)
    ensures RegistryValid(w, r, tree, reg, m) && RegistryValid(w, r, nextTree, out, next)
    ensures KeepsGovernance(reg.requirements, out.requirements)
  {
    RefreshedKeeps(reg.requirements, Requirements(w, r, nextTree, next).value);
  }

  // ----- exactly what a transition accepts -----

  predicate HasStatementAt(sources: seq<Source>, path: string, sha: string) {
    exists k | 0 <= k < |sources| :: sources[k].path == path && sources[k].statementSha == sha
  }

  /** Each statement that the first list has at the path, by its hash, the second list has there too. */
  predicate StatementsIn(prev: seq<Source>, next: seq<Source>, path: string) {
    forall i | 0 <= i < |prev| && prev[i].path == path :: HasStatementAt(next, path, prev[i].statementSha)
  }

  /** There are requirements at the path, and all of them are of this classification. */
  predicate AllAt(sources: seq<Source>, path: string, c: Classification) {
    && (exists i | 0 <= i < |sources| :: sources[i].path == path)
    && (forall i | 0 <= i < |sources| && sources[i].path == path :: sources[i].classification == c)
  }

  /** The file had requirements, all of them gates, and has the same statements now, all of them approved. */
  predicate GateMoved(prev: seq<Source>, next: seq<Source>, path: string) {
    && AllAt(prev, path, ProposedGate) && AllAt(next, path, ApprovedNormative)
    && StatementsIn(prev, next, path) && StatementsIn(next, prev, path)
  }

  predicate HasEntry(entries: seq<Entry>, id: string) {
    exists i | 0 <= i < |entries| :: entries[i].source.id == id
  }

  predicate SameIds(entries: seq<Entry>, next: seq<Source>) {
    && (forall i | 0 <= i < |entries| :: HasId(next, entries[i].source.id))
    && (forall k | 0 <= k < |next| :: HasEntry(entries, next[k].id))
  }

  lemma StatementShasIncluded(prev: seq<Source>, next: seq<Source>, path: string)
    ensures StatementShas(prev, path) <= StatementShas(next, path) <==> StatementsIn(prev, next, path)
  {
    if StatementShas(prev, path) <= StatementShas(next, path) {
      forall i | 0 <= i < |prev| && prev[i].path == path
        ensures HasStatementAt(next, path, prev[i].statementSha)
      {
        assert prev[i].statementSha in StatementShas(next, path);
      }
    }
  }

  lemma EntryListed(entries: seq<Entry>, id: string)
    ensures HasEntry(entries, id) <==> id in EntryIds(entries)
  {
    if HasEntry(entries, id) {
      var i :| 0 <= i < |entries| && entries[i].source.id == id;
      assert EntryIds(entries)[i] == id;
    }
  }

  lemma SameIdsExactly(entries: seq<Entry>, next: seq<Source>)
    ensures SameIds(entries, next)
       <==> (forall e | e in entries :: e.source.id in Ids(next)) && (forall s | s in next :: s.id in EntryIds(entries))
  {
    forall id
      ensures HasId(next, id) <==> id in Ids(next)
      ensures HasEntry(entries, id) <==> id in EntryIds(entries)
    {
      IdListed(next, id);
      EntryListed(entries, id);
    }
    assert forall i | 0 <= i < |entries| :: entries[i] in entries;
    assert forall k | 0 <= k < |next| :: next[k] in next;
  }

  lemma StatementsSame(prev: seq<Source>, next: seq<Source>, path: string)
    ensures StatementShas(prev, path) == StatementShas(next, path)
       <==> StatementsIn(prev, next, path) && StatementsIn(next, prev, path)
  {
    StatementShasIncluded(prev, next, path);
    StatementShasIncluded(next, prev, path);
  }

  lemma OfPathExactly(sources: seq<Source>, path: string, c: Classification)
    ensures OfPath(sources, path, c) <==> AllAt(sources, path, c)
  {
  }

  lemma ComparableExactly(prev: seq<Source>, next: seq<Source>, reg: Registry, path: string)
    ensures Comparable(prev, next, reg, path) <==> GateMoved(prev, next, path) && SameIds(reg.requirements, next)
  {
    OfPathExactly(prev, path, ProposedGate);
    OfPathExactly(next, path, ApprovedNormative);
    StatementsSame(prev, next, path);
    SameIdsExactly(reg.requirements, next);
  }

  predicate ReplacedOne(e: Entry, next: seq<Source>, o: Entry) {
    o.governance == e.governance && exists k | 0 <= k < |next| :: next[k].id == e.source.id && o.source == next[k]
  }

  /** Every entry with the source fields that the next extraction has under its id. */
  predicate SourcesReplaced(entries: seq<Entry>, next: seq<Source>, out: seq<Entry>) {
    |out| == |entries| && forall i | 0 <= i < |entries| :: ReplacedOne(entries[i], next, out[i])
  }

  lemma RefreshedOne(e: Entry, next: seq<Source>, o: Entry)
    requires Distinct(Ids(next)) && e.source.id in Ids(next)
    ensures o == e.(source := ById(next, e.source.id)) <==> ReplacedOne(e, next, o)
  {
    var found := ById(next, e.source.id);
    var k :| 0 <= k < |next| && next[k] == found;
    forall l | 0 <= l < |next| && next[l].id == e.source.id
      ensures next[l] == found
    {
      assert Ids(next)[l] == Ids(next)[k];
    }
  }

  lemma RefreshedExactly(entries: seq<Entry>, next: seq<Source>, out: seq<Entry>)
    requires Distinct(Ids(next)) && forall e | e in entries :: e.source.id in Ids(next)
    ensures out == Refreshed(entries, next) <==> SourcesReplaced(entries, next, out)
  {
    if |out| == |entries| {
      forall i | 0 <= i < |entries|
        ensures entries[i] in entries && (out[i] == Refreshed(entries, next)[i] <==> ReplacedOne(entries[i], next, out[i]))
      {
        assert entries[i] in entries;
        RefreshedOne(entries[i], next, out[i]);
      }
      assert out == Refreshed(entries, next) <==> forall i | 0 <= i < |out| :: out[i] == Refreshed(entries, next)[i];
    }
  }

  /** Another commit and the next generation, with reviews of its own. */
  predicate NewGeneration(w: World, m: Manifest, next: Manifest) {
    && IsSha(m.normativeSha) && IsSha(next.normativeSha) && Lower(m.normativeSha) != Lower(next.normativeSha)
    && next.generation == m.generation + 1 && next.reviewChain.Some?
    && Vouched(w.vocabulary, REVIEW_ROLES, next.reviewChain.value, Some(Lower(next.normativeSha)), None, None)
  }

  lemma NextGenerationExactly(w: World, m: Manifest, next: Manifest)
    ensures NextGeneration(w, m, next) <==> NewGeneration(w, m, next)
  {
    if next.reviewChain.Some? {
      AcceptedExactly(w.vocabulary, REVIEW_ROLES, next.reviewChain.value, Some(Lower(next.normativeSha)), None, None);
    }
  }

  /** The statements of the gate are kept, no requirement is added or removed, and every entry has its new source fields. */
  predicate EntriesMoved(prev: seq<Source>, after: seq<Source>, path: string, entries: seq<Entry>, out: seq<Entry>) {
    GateMoved(prev, after, path) && SameIds(entries, after) && SourcesReplaced(entries, after, out)
  }

  /** The transition from one manifest to the next, with a valid registry on each side. */
  ghost predicate Moves(w: World, r: Rules, reg: Registry, m: Manifest, next: Manifest, path: string,
                        tree: Tree, nextTree: Tree, out: Registry)
  {
    && NewGeneration(w, m, next) && out.reviewChain == next.reviewChain
    && RegistryValid(w, r, tree, reg, m) && RegistryValid(w, r, nextTree, out, next)
    && exists prev, after ::
         && Requirements(w, r, tree, m) == Some(prev) && Requirements(w, r, nextTree, next) == Some(after)
         && EntriesMoved(prev, after, path, reg.requirements, out.requirements)
  }

  lemma EntriesMovedExactly(prev: seq<Source>, after: seq<Source>, path: string, reg: Registry, out: seq<Entry>)
    requires Distinct(Ids(after))
    ensures EntriesMoved(prev, after, path, reg.requirements, out)
       <==> Comparable(prev, after, reg, path) && out == Refreshed(reg.requirements, after)
  {
    ComparableExactly(prev, after, reg, path);
    if Comparable(prev, after, reg, path) { RefreshedExactly(reg.requirements, after, out); }
  }

  lemma TransitionMoves(w: World, r: Rules, reg: Registry, m: Manifest, next: Manifest, path: string,
                        tree: Tree, nextTree: Tree, out: Registry) returns (prev: seq<Source>, after: seq<Source>)
    requires Transitioned(w, r, reg, m, next, path, tree, nextTree) == Some(out)
    ensures NewGeneration(w, m, next) && out.reviewChain == next.reviewChain
    ensures Requirements(w, r, tree, m) == Some(prev) && Requirements(w, r, nextTree, next) == Some(after)
    ensures EntriesMoved(prev, after, path, reg.requirements, out.requirements)
  {
    prev, after := Requirements(w, r, tree, m).value, Requirements(w, r, nextTree, next).value;
    NextGenerationExactly(w, m, next);
    EntriesMovedExactly(prev, after, path, reg, out.requirements);
  }

  lemma RefreshDetermined(w: World, r: Rules, reg: Registry, m: Manifest, next: Manifest, tree: Tree, nextTree: Tree,
                          after: seq<Source>, out: Registry)
    requires RegistryValid(w, r, tree, reg, m) && RegistryValid(w, r, nextTree, out, next)
    requires forall e | e in reg.requirements :: e.source.id in Ids(after)
    requires out.reviewChain == next.reviewChain && out.requirements == Refreshed(reg.requirements, after)
    ensures out == Refresh(reg, next, after)
  {
  }

  lemma MoveIsTransition(w: World, r: Rules, reg: Registry, m: Manifest, next: Manifest, path: string,
                         tree: Tree, nextTree: Tree, out: Registry)
    requires Moves(w, r, reg, m, next, path, tree, nextTree, out)
    ensures Transitioned(w, r, reg, m, next, path, tree, nextTree) == Some(out)
  {
    var prev, after := Requirements(w, r, tree, m).value, Requirements(w, r, nextTree, next).value;
    NextGenerationExactly(w, m, next);
    EntriesMovedExactly(prev, after, path, reg, out.requirements);
    RefreshDetermined(w, r, reg, m, next, tree, nextTree, after, out);
  }

  /** A transition gives a registry exactly when there is such a move to it, and there is at most one. */
  lemma TransitionedExactly(w: World, r: Rules, reg: Registry, m: Manifest, next: Manifest, path: string,
                            tree: Tree, nextTree: Tree, out: Registry)
    ensures (Transitioned(w, r, reg, m, next, path, tree, nextTree) == Some(out)) == Moves(w, r, reg, m, next, path, tree, nextTree, out)
  {
    if Transitioned(w, r, reg, m, next, path, tree, nextTree) == Some(out) {
      var prev, after := TransitionMoves(w, r, reg, m, next, path, tree, nextTree, out);
    } else if Moves(w, r, reg, m, next, path, tree, nextTree, out) {
      MoveIsTransition(w, r, reg, m, next, path, tree, nextTree, out);
    }
  }

  /**
   transition_registry_gate. What it returns is valid for the next manifest and keeps every id and
   every reviewed field, in their order, whatever the contents of the two commits.
   */
  method TransitionRegistryGate(w: World, r: Rules, reg: Registry, m: Manifest, next: Manifest, path: string,
                                tree: Tree, nextTree: Tree) returns (out: Option<Registry>)
    ensures out == Transitioned(w, r, reg, m, next, path, tree, nextTree)
    ensures out.Some? ==> RegistryValid(w, r, tree, reg, m) && RegistryValid(w, r, nextTree, out.value, next)
    ensures out.Some? ==> KeepsGovernance(reg.requirements, out.value.requirements)
    ensures out.Some? ==> Moves(w, r, reg, m, next, path, tree, nextTree, out.value)
  {
    if !IsSha(next.normativeSha) || !IsSha(m.normativeSha) { return None; }
    if Lower(next.normativeSha) == Lower(m.normativeSha) { return None; }
    if next.generation != m.generation + 1 || next.reviewChain.None? { return None; }
    var reviews := ValidateReviewChain(
      w.vocabulary, REVIEW_ROLES, next.reviewChain.value, Some(Lower(next.normativeSha)), None, None);
    if reviews.Err? { return None; }
    var valid := ValidateRegistry(w, r, tree, reg, m);
    if !valid { return None; }
    var before := BuildSourceRequirements(w, r, tree, m);
    var after := BuildSourceRequirements(w, r, nextTree, next);
    if after.None? || !Comparable(before.value, after.value, reg, path) { return None; }
    var entries := RefreshEntries(reg.requirements, after.value);
    var transitioned := reg.(normativeSha := Lower(next.normativeSha), generation := next.generation,
                             reviewChain := next.reviewChain, requirements := entries);
    assert transitioned == Refresh(reg, next, after.value);
    valid := ValidateRegistry(w, r, nextTree, transitioned, next);
    if !valid { return None; }
    TransitionKeeps(w, r, reg, m, next, path, tree, nextTree, transitioned);
    TransitionedExactly(w, r, reg, m, next, path, tree, nextTree, transitioned);
    return Some(transitioned);
  }

  // ----- a promotion over unchanged contents -----

  /** The second commit has every content that the first has under a path of the manifest, stripped or not. */
  ghost predicate SameContents(w: World, tree: Tree, nextTree: Tree, files: seq<FileEntry>) {
    forall i | 0 <= i < |files| ::
      SameAt(w, tree, nextTree, files[i].path) && SameAt(w, tree, nextTree, Stripped(w, files[i].path))
  }

  predicate SameAt(w: World, tree: Tree, nextTree: Tree, path: string) {
    SourceBlob(w, tree, path).Some? ==> SourceBlob(w, nextTree, path) == SourceBlob(w, tree, path)
  }

  function Regraded(s: Source, path: string): Source {
    if s.path == path then s.(kind := Normative, classification := ApprovedNormative) else s
  }

  function RegradedAll(sources: seq<Source>, path: string): seq<Source> {
    seq(|sources|, i requires 0 <= i < |sources| => Regraded(sources[i], path))
  }

  /** How a promotion over unchanged contents changes a file entry. */
  predicate FileStep(path: string, f: FileEntry, g: FileEntry) {
    if f.path == path then
      f.classification == ProposedGate
      && g == f.(classification := ApprovedNormative, authorityClass := Some(ApprovedNormative), regions := None)
    else g == f
  }

  /** The digest recorded for a path is that of the content which the validator reads for it. */
  lemma RecordedStays(w: World, m: Manifest, p: Promotion, next: Manifest, i: nat)
    requires Sound(w, m) && Promoted(w, m, p) == Ok(next) && i < |m.files| == |next.files|
    requires LawfulDigest(w) && ManifestValid(w, w.trees[m.normativeSha], m)
    requires SameContents(w, w.trees[m.normativeSha], w.trees[next.normativeSha], m.files)
    requires StrippedSame(w, w.trees[next.normativeSha], Paths(m.files))
    ensures next.files[i].sha == m.files[i].sha
  {
    var tree, nextTree, f := w.trees[m.normativeSha], w.trees[next.normativeSha], m.files[i];
    assert next.files[i] == PromotedFile(w, nextTree, p.path, f);
    assert FileSound(w, tree, m.generation, f) && FileValid(w, tree, f);
    assert Paths(m.files)[i] == f.path;
    assert SameAt(w, tree, nextTree, Stripped(w, f.path));
  }

  lemma PromotedFileSteps(w: World, m: Manifest, p: Promotion, next: Manifest, i: nat)
    requires Sound(w, m) && Promoted(w, m, p) == Ok(next) && i < |m.files|
    requires LawfulDigest(w) && ManifestValid(w, w.trees[m.normativeSha], m)
    requires SameContents(w, w.trees[m.normativeSha], w.trees[next.normativeSha], m.files)
    requires StrippedSame(w, w.trees[next.normativeSha], Paths(m.files))
    ensures |next.files| == |m.files| && FileStep(p.path, m.files[i], next.files[i])
  {
    OneGateFewer(w, m, p);
    RecordedStays(w, m, p, next, i);
    assert next.files[i] == PromotedFile(w, w.trees[next.normativeSha], p.path, m.files[i]);
  }

  lemma SameStatements(w: World, tree: Tree, nextTree: Tree, path: string, f: FileEntry, g: FileEntry)
    requires FileStep(path, f, g) && SameAt(w, tree, nextTree, f.path) && FileStatements(w, tree, f).Some?
    ensures FileStatements(w, nextTree, g) == FileStatements(w, tree, f)
  {
  }

  lemma StepSources(r: Rules, path: string, f: FileEntry, g: FileEntry, ls: seq<Located>)
    requires FileStep(path, f, g)
    ensures SourcesOf(r, g, ls) == RegradedAll(SourcesOf(r, f, ls), path)
  {
  }

  ghost predicate FileSteps(w: World, tree: Tree, nextTree: Tree, path: string, files: seq<FileEntry>, next: seq<FileEntry>) {
    && |files| == |next|
    && forall i | 0 <= i < |files| :: FileStep(path, files[i], next[i]) && SameAt(w, tree, nextTree, files[i].path)
  }

  /** The requirements are extracted again, regraded in the promoted file. */
  lemma {:induction false} StepAllSources(w: World, r: Rules, tree: Tree, nextTree: Tree, path: string,
                                          files: seq<FileEntry>, next: seq<FileEntry>)
    requires FileSteps(w, tree, nextTree, path, files, next) && AllSources(w, r, tree, files).Some?
    ensures AllSources(w, r, nextTree, next) == Some(RegradedAll(AllSources(w, r, tree, files).value, path))
    decreases |files|
  {
    if files == [] {
      assert next == [] && RegradedAll([], path) == [];
    } else {
      var f, g := files[|files| - 1], next[|next| - 1];
      StepAllSources(w, r, tree, nextTree, path, files[..|files| - 1], next[..|next| - 1]);
      SameStatements(w, tree, nextTree, path, f, g);
      var ls := FileStatements(w, tree, f).value;
      StepSources(r, path, f, g, ls);
      RegradedConcat(AllSources(w, r, tree, files[..|files| - 1]).value, SourcesOf(r, f, ls), path);
    }
  }

  lemma RegradedConcat(a: seq<Source>, b: seq<Source>, path: string)
    ensures RegradedAll(a + b, path) == RegradedAll(a, path) + RegradedAll(b, path)
  {
  }

  lemma PromotionFileSteps(w: World, m: Manifest, p: Promotion, next: Manifest)
    requires Sound(w, m) && Promoted(w, m, p) == Ok(next)
    requires LawfulDigest(w) && ManifestValid(w, w.trees[m.normativeSha], m)
    requires SameContents(w, w.trees[m.normativeSha], w.trees[next.normativeSha], m.files)
    requires StrippedSame(w, w.trees[next.normativeSha], Paths(m.files))
    ensures FileSteps(w, w.trees[m.normativeSha], w.trees[next.normativeSha], p.path, m.files, next.files)
  {
    OneGateFewer(w, m, p);
    forall i | 0 <= i < |m.files|
      ensures FileStep(p.path, m.files[i], next.files[i])
    {
      PromotedFileSteps(w, m, p, next, i);
    }
  }

  /** The next manifest is valid exactly when the stripped paths lead to the contents that the promotion recorded. */
  lemma PromotionValidity(w: World, m: Manifest, p: Promotion, next: Manifest)
    requires LawfulCommits(w) && LawfulDigest(w) && Sound(w, m) && Promoted(w, m, p) == Ok(next)
    requires ManifestValid(w, w.trees[m.normativeSha], m)
    ensures Sound(w, next)
    ensures ManifestValid(w, w.trees[next.normativeSha], next)
       <==> StrippedSame(w, w.trees[next.normativeSha], Paths(m.files))
  {
    PromotedSound(w, m, p);
    PromotionStep(w, m, p, next);
    SoundManifestValid(w, m);
    SoundManifestValid(w, next);
  }

  lemma StepRequirements(w: World, r: Rules, tree: Tree, nextTree: Tree, path: string, m: Manifest, next: Manifest)
    requires FileSteps(w, tree, nextTree, path, m.files, next.files) && ManifestValid(w, nextTree, next)
    requires Requirements(w, r, tree, m).Some?
    ensures Requirements(w, r, nextTree, next) == Some(RegradedAll(Requirements(w, r, tree, m).value, path))
  {
    StepAllSources(w, r, tree, nextTree, path, m.files, next.files);
    var before := Requirements(w, r, tree, m).value;
    assert Ids(RegradedAll(before, path)) == Ids(before);
  }

  lemma PromotionRequirements(w: World, r: Rules, m: Manifest, p: Promotion, next: Manifest)
    requires LawfulCommits(w) && LawfulDigest(w) && Sound(w, m) && Promoted(w, m, p) == Ok(next)
    requires SameContents(w, w.trees[m.normativeSha], w.trees[next.normativeSha], m.files)
    requires StrippedSame(w, w.trees[next.normativeSha], Paths(m.files))
    requires Requirements(w, r, w.trees[m.normativeSha], m).Some?
    ensures Requirements(w, r, w.trees[next.normativeSha], next)
         == Some(RegradedAll(Requirements(w, r, w.trees[m.normativeSha], m).value, p.path))
  {
    PromotionValidity(w, m, p, next);
    PromotionFileSteps(w, m, p, next);
    StepRequirements(w, r, w.trees[m.normativeSha], w.trees[next.normativeSha], p.path, m, next);
  }

  lemma {:induction false} SourcesClassified(w: World, r: Rules, tree: Tree, files: seq<FileEntry>, s: Source)
    requires AllSources(w, r, tree, files).Some? && s in AllSources(w, r, tree, files).value
    ensures exists i :: 0 <= i < |files| && files[i].path == s.path && files[i].classification == s.classification
    decreases |files|
  {
    var front := files[..|files| - 1];
    if s in AllSources(w, r, tree, front).value {
      SourcesClassified(w, r, tree, front, s);
      var i :| 0 <= i < |front| && front[i].path == s.path && front[i].classification == s.classification;
      assert files[i] == front[i];
    } else {
      var f := files[|files| - 1];
      assert s in SourcesOf(r, f, FileStatements(w, tree, f).value);
    }
  }

  /** Every requirement of the promoted file was a gate. */
  lemma GateSources(w: World, r: Rules, m: Manifest, p: Promotion, next: Manifest, s: Source)
    requires Sound(w, m) && Promoted(w, m, p) == Ok(next)
    requires Requirements(w, r, w.trees[m.normativeSha], m).Some?
    requires s in Requirements(w, r, w.trees[m.normativeSha], m).value && s.path == p.path
    ensures s.classification == ProposedGate
  {
    SourcesClassified(w, r, w.trees[m.normativeSha], m.files, s);
    OneGateFewer(w, m, p);
  }

  ghost predicate GateHasRequirement(sources: seq<Source>, path: string) {
    exists i :: 0 <= i < |sources| && sources[i].path == path
  }

  ghost predicate GatesOnly(sources: seq<Source>, path: string) {
    forall i | 0 <= i < |sources| && sources[i].path == path :: sources[i].classification == ProposedGate
  }

  lemma RegradedComparable(r: Rules, reg: Registry, before: seq<Source>, path: string)
    requires GatesOnly(before, path) && MatchesSources(reg.requirements, before)
    ensures Comparable(before, RegradedAll(before, path), reg, path) <==> GateHasRequirement(before, path)
  {
    IdsCovered(r, reg.requirements, before, path);
    RegradedShas(before, path);
    var after := RegradedAll(before, path);
    forall i | 0 <= i < |before| && before[i].path == path
      ensures after[i].path == path && after[i].classification == ApprovedNormative
    {
    }
  }

  lemma PromotionComparable(w: World, r: Rules, reg: Registry, m: Manifest, p: Promotion, next: Manifest)
    requires Sound(w, m) && Promoted(w, m, p) == Ok(next)
    requires RegistryValid(w, r, w.trees[m.normativeSha], reg, m)
    ensures var before := Requirements(w, r, w.trees[m.normativeSha], m).value;
      Comparable(before, RegradedAll(before, p.path), reg, p.path) <==> GateHasRequirement(before, p.path)
  {
    var before := Requirements(w, r, w.trees[m.normativeSha], m).value;
    forall i | 0 <= i < |before| && before[i].path == p.path
      ensures before[i].classification == ProposedGate
    {
      GateSources(w, r, m, p, next, before[i]);
    }
    RegradedComparable(r, reg, before, p.path);
  }

  lemma RegradedShas(before: seq<Source>, path: string)
    ensures StatementShas(RegradedAll(before, path), path) == StatementShas(before, path)
    ensures forall i | 0 <= i < |before| :: RegradedAll(before, path)[i].path == before[i].path
  {
    var after := RegradedAll(before, path);
    forall x | x in StatementShas(before, path)
      ensures x in StatementShas(after, path)
    {
      var i :| 0 <= i < |before| && before[i].path == path && before[i].statementSha == x;
      assert after[i].path == path && after[i].statementSha == x;
    }
    forall x | x in StatementShas(after, path)
      ensures x in StatementShas(before, path)
    {
      var i :| 0 <= i < |after| && after[i].path == path && after[i].statementSha == x;
      assert before[i].path == path && before[i].statementSha == x;
    }
  }

  lemma IdsCovered(r: Rules, entries: seq<Entry>, before: seq<Source>, path: string)
    requires MatchesSources(entries, before)
    ensures EntryIds(entries) == Ids(RegradedAll(before, path)) == Ids(before)
    ensures forall e | e in entries :: e.source.id in Ids(RegradedAll(before, path))
    ensures forall s | s in RegradedAll(before, path) :: s.id in EntryIds(entries)
  {
    var after := RegradedAll(before, path);
    assert EntryIds(entries) == Ids(after);
    forall e | e in entries
      ensures e.source.id in Ids(after)
    {
      var i :| 0 <= i < |entries| && entries[i] == e;
      assert Ids(after)[i] == e.source.id;
    }
    forall s | s in after
      ensures s.id in EntryIds(entries)
    {
      var i :| 0 <= i < |after| && after[i] == s;
      assert EntryIds(entries)[i] == s.id;
    }
  }

  lemma ByIdAt(sources: seq<Source>, i: nat)
    requires i < |sources| && Distinct(Ids(sources)) && sources[i].id in Ids(sources)
    ensures ById(sources, sources[i].id) == sources[i]
  {
    var s := ById(sources, sources[i].id);
    var j :| 0 <= j < |sources| && sources[j] == s;
    assert Ids(sources)[i] == Ids(sources)[j];
  }

  /** A regraded entry is accepted where the original was: the proof demands on a gate are the stronger ones. */
  lemma RegradedAccepted(r: Rules, e: Entry, s: Source, path: string)
    requires EntryAccepted(r, e, s)
    ensures EntryAccepted(r, e.(source := Regraded(s, path)), Regraded(s, path))
  {
  }

  lemma RefreshedEntries(r: Rules, entries: seq<Entry>, before: seq<Source>, path: string)
    requires |entries| == |before| && forall i | 0 <= i < |before| :: EntryAccepted(r, entries[i], before[i])
    requires Distinct(Ids(before))
    requires forall e | e in entries :: e.source.id in Ids(RegradedAll(before, path))
    ensures var out, after := Refreshed(entries, RegradedAll(before, path)), RegradedAll(before, path);
      |out| == |entries| && forall i | 0 <= i < |out| ::
        out[i] == entries[i].(source := Regraded(before[i], path)) && EntryAccepted(r, out[i], after[i])
  {
    var after := RegradedAll(before, path);
    assert Ids(after) == Ids(before);
    forall i | 0 <= i < |entries|
      ensures Refreshed(entries, after)[i] == entries[i].(source := Regraded(before[i], path))
      ensures EntryAccepted(r, Refreshed(entries, after)[i], after[i])
    {
      assert after[i].id == entries[i].source.id;
      assert Ids(after)[i] == after[i].id;
      ByIdAt(after, i);
      RegradedAccepted(r, entries[i], before[i], path);
    }
  }

  /** The evidence path of the promotion, once normalized, is accepted again. */
  predicate EvidenceAgain(w: World, p: Promotion) {
    var path := EvidencePath(w.vocabulary, p.evidencePath);
    path.Some? && EvidencePath(w.vocabulary, path.value).Some?
  }

  /** After a promotion the source accepts the step to the next generation exactly when it accepts the evidence path again. */
  lemma PromotionIsNext(w: World, m: Manifest, p: Promotion, next: Manifest)
    requires LawfulPaths(w.vocabulary) && LawfulCommits(w) && Sound(w, m) && Promoted(w, m, p) == Ok(next)
    ensures NextGeneration(w, m, next) <==> EvidenceAgain(w, p)
    ensures IsSha(next.normativeSha) && Lower(next.normativeSha) == next.normativeSha
  {
    CommitNormal(w, m.normativeSha);
    CommitNormal(w, p.candidate);
    StoredChainRevalidates(w.vocabulary, REVIEW_ROLES, p.chain, next.normativeSha, Some(p.evidenceSha), p.evidencePath,
                           next.reviewChain.value);
  }

  /** What the transition makes of each entry: the extracted source, regraded in the promoted file, and the governance kept. */
  ghost predicate Carried(before: seq<Source>, path: string, entries: seq<Entry>, next: seq<Entry>) {
    && |next| == |entries| == |before|
    && forall i | 0 <= i < |before| :: next[i] == Entry(Regraded(before[i], path), entries[i].governance)
  }

  lemma RefreshedValid(w: World, r: Rules, reg: Registry, m: Manifest, next: Manifest, tree: Tree, nextTree: Tree,
                       path: string, before: seq<Source>)
    requires IsSha(next.normativeSha) && RegistryValid(w, r, tree, reg, m) && Requirements(w, r, tree, m) == Some(before)
    requires forall e | e in reg.requirements :: e.source.id in Ids(RegradedAll(before, path))
    requires Requirements(w, r, nextTree, next) == Some(RegradedAll(before, path))
    ensures var out := Refresh(reg, next, RegradedAll(before, path));
      RegistryValid(w, r, nextTree, out, next) && Carried(before, path, reg.requirements, out.requirements)
  {
    RefreshedEntries(r, reg.requirements, before, path);
  }

  lemma GateTransitionResult(w: World, r: Rules, reg: Registry, m: Manifest, next: Manifest, path: string,
                             tree: Tree, nextTree: Tree, before: seq<Source>)
    requires NextGeneration(w, m, next) && RegistryValid(w, r, tree, reg, m) && Requirements(w, r, tree, m) == Some(before)
    requires Requirements(w, r, nextTree, next) == Some(RegradedAll(before, path))
    ensures Comparable(before, RegradedAll(before, path), reg, path) ==>
      var result := Transitioned(w, r, reg, m, next, path, tree, nextTree);
      && result == Some(Refresh(reg, next, RegradedAll(before, path)))
      && RegistryValid(w, r, nextTree, result.value, next) && Carried(before, path, reg.requirements, result.value.requirements)
    ensures !Comparable(before, RegradedAll(before, path), reg, path) ==>
      Transitioned(w, r, reg, m, next, path, tree, nextTree).None?
  {
    if Comparable(before, RegradedAll(before, path), reg, path) {
      RefreshedValid(w, r, reg, m, next, tree, nextTree, path, before);
    }
  }

  lemma GateRefused(w: World, r: Rules, reg: Registry, m: Manifest, p: Promotion, next: Manifest)
    requires LawfulPaths(w.vocabulary) && LawfulCommits(w) && LawfulDigest(w)
    requires Sound(w, m) && Promoted(w, m, p) == Ok(next)
    requires RegistryValid(w, r, w.trees[m.normativeSha], reg, m)
    requires !EvidenceAgain(w, p) || !StrippedSame(w, w.trees[next.normativeSha], Paths(m.files))
    ensures Transitioned(w, r, reg, m, next, p.path, w.trees[m.normativeSha], w.trees[next.normativeSha]).None?
  {
    PromotionIsNext(w, m, p, next);
    PromotionValidity(w, m, p, next);
  }

  lemma GateDecided(w: World, r: Rules, reg: Registry, m: Manifest, p: Promotion, next: Manifest, before: seq<Source>)
    requires LawfulPaths(w.vocabulary) && LawfulCommits(w) && LawfulDigest(w)
    requires Sound(w, m) && Promoted(w, m, p) == Ok(next)
    requires SameContents(w, w.trees[m.normativeSha], w.trees[next.normativeSha], m.files)
    requires RegistryValid(w, r, w.trees[m.normativeSha], reg, m)
    requires Requirements(w, r, w.trees[m.normativeSha], m) == Some(before)
    requires EvidenceAgain(w, p) && StrippedSame(w, w.trees[next.normativeSha], Paths(m.files))
    ensures var result := Transitioned(w, r, reg, m, next, p.path, w.trees[m.normativeSha], w.trees[next.normativeSha]);
      && (result.Some? <==> GateHasRequirement(before, p.path))
      && (result.Some? ==>
            && result.value.normativeSha == Lower(next.normativeSha) && result.value.generation == next.generation
            && result.value.reviewChain == next.reviewChain
            && RegistryValid(w, r, w.trees[next.normativeSha], result.value, next)
            && Carried(before, p.path, reg.requirements, result.value.requirements))
  {
    PromotionIsNext(w, m, p, next);
    PromotionRequirements(w, r, m, p, next);
    PromotionComparable(w, r, reg, m, p, next);
    GateTransitionResult(w, r, reg, m, next, p.path, w.trees[m.normativeSha], w.trees[next.normativeSha], before);
  }

  /**
   The transition of a valid registry along a promotion over unchanged contents succeeds exactly
   when the gate has a requirement, the evidence path is accepted again, and the stripped paths
   lead to the contents that the promotion recorded. The result is valid for the next manifest,
   and its entries keep their order and every reviewed field; the sources are those extracted
   before, with the kind and the classification of the promoted file changed.
   */
  lemma GatePromotion(w: World, r: Rules, reg: Registry, m: Manifest, p: Promotion, next: Manifest)
    requires LawfulPaths(w.vocabulary) && LawfulCommits(w) && LawfulDigest(w)
    requires Sound(w, m) && Promoted(w, m, p) == Ok(next)
    requires SameContents(w, w.trees[m.normativeSha], w.trees[next.normativeSha], m.files)
    requires RegistryValid(w, r, w.trees[m.normativeSha], reg, m)
    ensures var before := Requirements(w, r, w.trees[m.normativeSha], m).value;
            var result := Transitioned(w, r, reg, m, next, p.path, w.trees[m.normativeSha], w.trees[next.normativeSha]);
      && (result.Some? <==>
            && GateHasRequirement(before, p.path) && EvidenceAgain(w, p)
            && StrippedSame(w, w.trees[next.normativeSha], Paths(m.files)))
      && (result.Some? ==>
            && result.value.normativeSha == next.normativeSha && result.value.generation == reg.generation + 1
            && result.value.reviewChain == next.reviewChain
            && RegistryValid(w, r, w.trees[next.normativeSha], result.value, next)
            && Carried(before, p.path, reg.requirements, result.value.requirements))
  {
    var before := Requirements(w, r, w.trees[m.normativeSha], m).value;
    PromotionIsNext(w, m, p, next);
    PromotionStep(w, m, p, next);
    if EvidenceAgain(w, p) && StrippedSame(w, w.trees[next.normativeSha], Paths(m.files)) {
      GateDecided(w, r, reg, m, p, next, before);
    } else {
      GateRefused(w, r, reg, m, p, next);
    }
  }

  lemma PlainStrippedSame(w: World, tree: Tree, files: seq<FileEntry>)
    requires PlainPaths(w, files) && Readable(w, tree, files)
    ensures StrippedSame(w, tree, Paths(files))
  {
    forall i | 0 <= i < |files|
      ensures Paths(files)[i] == files[i].path
    {
    }
  }

  /** Where no path has white space around it and the evidence path is normal, the gate's requirement is all it takes. */
  lemma PlainGatePromotion(w: World, r: Rules, reg: Registry, m: Manifest, p: Promotion, next: Manifest)
    requires LawfulPaths(w.vocabulary) && LawfulCommits(w) && LawfulDigest(w)
    requires Sound(w, m) && Promoted(w, m, p) == Ok(next)
    requires SameContents(w, w.trees[m.normativeSha], w.trees[next.normativeSha], m.files)
    requires RegistryValid(w, r, w.trees[m.normativeSha], reg, m)
    requires PlainPaths(w, m.files) && EvidencePath(w.vocabulary, p.evidencePath) == Some(p.evidencePath)
    ensures Transitioned(w, r, reg, m, next, p.path, w.trees[m.normativeSha], w.trees[next.normativeSha]).Some?
       <==> GateHasRequirement(Requirements(w, r, w.trees[m.normativeSha], m).value, p.path)
  {
    PlainStrippedSame(w, w.trees[next.normativeSha], m.files);
    GatePromotion(w, r, reg, m, p, next);
  }

  // ----- the digest that a requirement carries -----

  /** Every requirement comes from a statement of a normative file of the manifest. */
  lemma {:induction false} SourceScanned(w: World, r: Rules, tree: Tree, files: seq<FileEntry>, s: Source)
    returns (f: FileEntry, l: Located)
    requires AllSources(w, r, tree, files).Some? && s in AllSources(w, r, tree, files).value
    ensures f in files && !Excluded(f.classification) && FileStatements(w, tree, f).Some?
    ensures l in FileStatements(w, tree, f).value && s == SourceOf(r, f, l)
    decreases |files|
  {
    var front, last := files[..|files| - 1], files[|files| - 1];
    if s in AllSources(w, r, tree, front).value {
      f, l := SourceScanned(w, r, tree, front, s);
    } else {
      var ls := FileStatements(w, tree, last).value;
      var k :| 0 <= k < |ls| && SourcesOf(r, last, ls)[k] == s;
      f, l := last, ls[k];
    }
  }

  /**
   A requirement is a statement of the content at its path as it stands. The digest that it carries
   is that of this content exactly when stripping the path does not lead to another content.
   */
  lemma DigestOfScanned(w: World, r: Rules, tree: Tree, m: Manifest, s: Source) returns (f: FileEntry, l: Located)
    requires Requirements(w, r, tree, m).Some? && s in Requirements(w, r, tree, m).value
    ensures f in m.files && f.path == s.path && FileStatements(w, tree, f).Some?
    ensures l in FileStatements(w, tree, f).value && s == SourceOf(r, f, l)
    ensures s.fileSha == s.sourceSha && SourceBlob(w, tree, s.path).Some?
    ensures s.sourceSha == w.digest(SourceBlob(w, tree, s.path).value) <==> StrippedSame(w, tree, [s.path])
  {
    f, l := SourceScanned(w, r, tree, m.files, s);
    var i :| 0 <= i < |m.files| && m.files[i] == f;
    assert FileValid(w, tree, m.files[i]);
    assert [s.path][0] == s.path;
  }

  /** After a promotion every requirement carries the digest of the content that it stands in. */
  lemma PromotedDigests(w: World, r: Rules, m: Manifest, s: Source)
    requires LawfulDigest(w) && Sound(w, m) && m.generation > 1
    requires Requirements(w, r, w.trees[m.normativeSha], m).Some? && s in Requirements(w, r, w.trees[m.normativeSha], m).value
    ensures SourceBlob(w, w.trees[m.normativeSha], s.path).Some?
    ensures s.sourceSha == w.digest(SourceBlob(w, w.trees[m.normativeSha], s.path).value)
  {
    var tree := w.trees[m.normativeSha];
    var f, l := DigestOfScanned(w, r, tree, m, s);
    var i :| 0 <= i < |m.files| && m.files[i] == f;
    SoundReadable(w, m);
  }

  lemma SampleExtracted(lines: seq<Line>, text: string)
    requires lines == [Marker("m"), Words(text, true)]
    ensures ExtractAll(lines, [Bounds("root", 0, 2)]) == Ok([Located("root", Statement("m", text, 1))])
  {
    var statement := Statement("m", text, 1);
    assert INITIAL.seen + {"m"} == {"m"} && INITIAL.output + [statement] == [statement];
    assert ScanTo(lines, 0, 0) == Ok(INITIAL);
    assert ScanTo(lines, 0, 1) == Ok(Scan(false, Some("m"), {"m"}, []));
    assert ScanTo(lines, 0, 2) == Ok(Scan(false, None, {"m"}, [statement]));
    assert [Bounds("root", 0, 2)][..0] == [];
    assert ExtractAll(lines, []) == Ok([]);
    assert [] + Locate("root", [statement]) == [Located("root", statement)];
  }

  lemma OneRequirement(w: World, r: Rules, tree: Tree, m: Manifest, f: FileEntry, l: Located)
    requires ManifestValid(w, tree, m) && m.files == [f] && FileStatements(w, tree, f) == Some([l])
    ensures Requirements(w, r, tree, m) == Some([SourceOf(r, f, l)])
  {
    assert [f][..0] == [] && AllSources(w, r, tree, []) == Some([]);
    assert SourcesOf(r, f, [l]) == [SourceOf(r, f, l)];
    assert [] + [SourceOf(r, f, l)] == [SourceOf(r, f, l)];
  }

  function TwinStatement(): Located {
    Located("root", Statement("m", "It MUST NOT hold.", 1))
  }

  lemma TwinStatements(v: Vocabulary, w: World)
    requires SampleTexts(v) && w == TwinWorld(v)
    ensures FileStatements(w, TwinTree(), SampleFile(" a")) == Some([TwinStatement()])
  {
    SampleExtracted([Marker("m"), Words("It MUST NOT hold.", true)], "It MUST NOT hold.");
    assert SourceBlob(w, TwinTree(), " a") == Some([1]) && [1] != [];
  }

  lemma TwinRequirement(v: Vocabulary, w: World, r: Rules, m: Manifest)
    requires SampleTexts(v) && w == TwinWorld(v) && ManifestValid(w, TwinTree(), m) && m.files == [SampleFile(" a")]
    ensures Requirements(w, r, TwinTree(), m) == Some([SourceOf(r, SampleFile(" a"), TwinStatement())])
  {
    TwinStatements(v, w);
    OneRequirement(w, r, TwinTree(), m, SampleFile(" a"), TwinStatement());
  }

  /** A requirement of a valid generation one that stands in " a" and carries the digest of "a". */
  lemma DigestOfOther(w: World, r: Rules) returns (m: Manifest, s: Source)
    requires w == TwinWorld(PlainVocabulary())
    ensures Initial(w, SampleRequest()) == Ok(m) && ManifestValid(w, TwinTree(), m)
    ensures Requirements(w, r, TwinTree(), m) == Some([s]) && s.path == " a" && s.statement == "It MUST NOT hold."
    ensures s.sourceSha == w.digest(TwinTree()["a"]) != w.digest(TwinTree()[" a"])
  {
    m := OtherContentRead(w);
    PlainTexts();
    TwinRequirement(PlainVocabulary(), w, r, m);
    TwinDigests(PlainVocabulary());
    s := SourceOf(r, SampleFile(" a"), TwinStatement());
  }

  // ----- a generation one that has no registry -----

  lemma NothingExtracted(w: World, r: Rules, tree: Tree, m: Manifest, f: FileEntry)
    requires m.files == [f] && !Excluded(f.classification) && !Readable(w, tree, [f])
    ensures Requirements(w, r, tree, m).None?
  {
    assert [f][0] == f;
    assert FileStatements(w, tree, f).None?;
    SourcesRefused(w, r, tree, [f], 0);
  }

  /** The valid generation one of the path "./ a" has no requirements: the extraction reads " a". */
  lemma UnstrippedPathNoRegistry(w: World, r: Rules) returns (m: Manifest)
    requires w == SampleWorld(PlainVocabulary(), [SampleSource("./ a")])
    ensures Initial(w, SampleRequest()) == Ok(m)
    ensures ManifestValid(w, SampleTree(), m) && Requirements(w, r, SampleTree(), m).None?
  {
    m := UnstrippedPathUnread(w);
    NothingExtracted(w, r, SampleTree(), m, SampleFile(" a"));
  }
}
