/**
 The line scanner of tools/v2/build_requirement_registry.py: the bounds of a
 normative region and the statements inside it. What the regular expressions say
 of a line is given by the kind of the line.
 */
module SourceText {
  import opened Wrappers
  import opened Sorting
  import opened ReviewChain

  datatype Line =
    | Fence
    | Marker(anchor: string)
    | RegionStart(anchor: string)
    | RegionEnd(anchor: string)
    | Blank
    | Words(text: string, normative: bool)

  // ----- region bounds -----

  datatype Region = Region(anchor: string, hasLineBounds: bool)

  ghost predicate OnlyAt(lines: seq<Line>, line: Line, i: nat) {
    i < |lines| && lines[i] == line && forall j | 0 <= j < |lines| && lines[j] == line :: j == i
  }

  /** One start marker, one end marker, and the start first. */
  ghost predicate Bounded(lines: seq<Line>, anchor: string, first: nat, last: nat) {
    0 < first <= last && OnlyAt(lines, RegionStart(anchor), first - 1) && OnlyAt(lines, RegionEnd(anchor), last)
  }

  /**
   The bounds are found exactly when the region has one marker pair in order. The source's
   own last test, that the end does not precede the start, never decides.
   */
  method RegionBounds(lines: seq<Line>, region: Region) returns (r: Result<(nat, nat), Rejection>)
    ensures r.Ok? ==> !region.hasLineBounds && Bounded(lines, region.anchor, r.value.0, r.value.1)
    ensures r.Err? ==> region.hasLineBounds || forall s, e :: !Bounded(lines, region.anchor, s, e)
  {
    if region.hasLineBounds { return Err(ValueError); }
    var start: Option<nat>, end: Option<nat> := None, None;
    for i := 0 to |lines|
      invariant start.None? ==> forall j | 0 <= j < i :: lines[j] != RegionStart(region.anchor)
      invariant start.Some? ==> 0 < start.value <= i && lines[start.value - 1] == RegionStart(region.anchor)
      invariant start.Some? ==> forall j | 0 <= j < i && lines[j] == RegionStart(region.anchor) :: j == start.value - 1
      invariant end.None? ==> forall j | 0 <= j < i :: lines[j] != RegionEnd(region.anchor)
      invariant end.Some? ==> start.Some? && start.value <= end.value < i && lines[end.value] == RegionEnd(region.anchor)
      invariant end.Some? ==> forall j | 0 <= j < i && lines[j] == RegionEnd(region.anchor) :: j == end.value
    {
      if lines[i] == RegionStart(region.anchor) {
        if start.Some? { return Err(ValueError); }
        start := Some(i + 1);
      } else if lines[i] == RegionEnd(region.anchor) {
        if start.None? { return Err(ValueError); }
        if end.Some? { return Err(ValueError); }
        end := Some(i);
      }
    }
    if start.None? || end.None? || end.value < start.value { return Err(ValueError); }
    return Ok((start.value, end.value));
  }

  lemma BoundsUnique(lines: seq<Line>, anchor: string, s: nat, e: nat, s': nat, e': nat)
    requires Bounded(lines, anchor, s, e) && Bounded(lines, anchor, s', e')
    ensures s == s' && e == e'
  {
  }

  // ----- the scan -----

  datatype Statement = Statement(anchor: string, text: string, line: nat)

  datatype Scan = Scan(fenced: bool, pending: Option<string>, seen: set<string>, output: seq<Statement>)

  const INITIAL: Scan := Scan(false, None, {}, [])

  function Step(line: Line, n: nat, st: Scan): Result<Scan, Rejection> {
    if line.Fence? then Ok(st.(fenced := !st.fenced))
    else if st.fenced then Ok(st)
    else match line
      case Marker(anchor) =>
        if st.pending.Some? || anchor in st.seen then Err(ValueError)
        else Ok(st.(pending := Some(anchor), seen := st.seen + {anchor}))
      case Words(text, normative) =>
        if st.pending.Some? then
          Ok(st.(pending := None, output := st.output + [Statement(st.pending.value, text, n)]))
        else if normative then Err(ValueError)
        else Ok(st)
      case _ => Ok(st)
  }

  /** The state before line `i` of a region that starts at line `start`. */
  function ScanTo(lines: seq<Line>, start: nat, i: nat): Result<Scan, Rejection>
    requires start <= i <= |lines|
  {
    if i == start then Ok(INITIAL)
    else
      var before := ScanTo(lines, start, i - 1);
      if before.Err? then before else Step(lines[i - 1], i - 1, before.value)
  }

  function Extract(lines: seq<Line>, start: nat, end: nat): Result<seq<Statement>, Rejection>
    requires start <= end <= |lines|
  {
    var last := ScanTo(lines, start, end);
    if last.Err? || last.value.pending.Some? then Err(ValueError) else Ok(last.value.output)
  }

  // ----- what the scan looks at -----

  predicate InFence(lines: seq<Line>, start: nat, i: nat)
    requires start <= i <= |lines|
  {
    i > start && (if lines[i - 1].Fence? then !InFence(lines, start, i - 1) else InFence(lines, start, i - 1))
  }

  /** A line outside every fence that is not itself a fence. */
  predicate Live(lines: seq<Line>, start: nat, i: nat)
    requires start <= i < |lines|
  {
    !lines[i].Fence? && !InFence(lines, start, i)
  }

  predicate LiveMarker(lines: seq<Line>, start: nat, i: nat)
    requires start <= i < |lines|
  {
    lines[i].Marker? && Live(lines, start, i)
  }

  predicate LiveWords(lines: seq<Line>, start: nat, i: nat)
    requires start <= i < |lines|
  {
    lines[i].Words? && Live(lines, start, i)
  }

  /** The markers before line `i`, in order. */
  function Markers(lines: seq<Line>, start: nat, i: nat): (ms: seq<nat>)
    requires start <= i <= |lines|
    ensures forall k | 0 <= k < |ms| :: start <= ms[k] < i && LiveMarker(lines, start, ms[k])
    ensures forall j | start <= j < i && LiveMarker(lines, start, j) :: j in ms
    ensures forall k, l | 0 <= k < l < |ms| :: ms[k] < ms[l]
  {
    if i == start then []
    else if LiveMarker(lines, start, i - 1) then Markers(lines, start, i - 1) + [i - 1]
    else Markers(lines, start, i - 1)
  }

  /** The words at `s` are the first ones after the marker at `m`, with no marker between. */
  predicate Governs(lines: seq<Line>, start: nat, m: nat, s: nat)
    requires start <= m && s < |lines|
  {
    && m < s && LiveWords(lines, start, s)
    && forall j | m < j < s :: !LiveWords(lines, start, j) && !LiveMarker(lines, start, j)
  }

  // ----- an accepted region -----

  function Anchors(st: Scan): seq<string> {
    seq(|st.output|, k requires 0 <= k < |st.output| => st.output[k].anchor)
      + (if st.pending.Some? then [st.pending.value] else [])
  }

  function MarkerAnchors(lines: seq<Line>, start: nat, i: nat): seq<string>
    requires start <= i <= |lines|
  {
    var ms := Markers(lines, start, i);
    seq(|ms|, k requires 0 <= k < |ms| => lines[ms[k]].anchor)
  }

  ghost predicate TracksAnchors(lines: seq<Line>, start: nat, i: nat, st: Scan)
    requires start <= i <= |lines|
  {
    && st.fenced == InFence(lines, start, i)
    && Anchors(st) == MarkerAnchors(lines, start, i)
    && (forall a :: a in st.seen <==> a in Anchors(st))
    && Distinct(Anchors(st))
  }

  ghost predicate Emitted(lines: seq<Line>, start: nat, i: nat, m: nat, s: Statement)
    requires start <= i <= |lines|
  {
    && start <= m < s.line < i && lines[m] == Marker(s.anchor)
    && Governs(lines, start, m, s.line) && lines[s.line].text == s.text
  }

  /** Each statement comes from the marker at its place, and an open marker has no words yet. */
  ghost predicate TracksOutput(lines: seq<Line>, start: nat, i: nat, st: Scan)
    requires start <= i <= |lines|
  {
    var ms := Markers(lines, start, i);
    && |ms| == |st.output| + (if st.pending.Some? then 1 else 0)
    && (forall k | 0 <= k < |st.output| :: Emitted(lines, start, i, ms[k], st.output[k]))
    && (st.pending.Some? ==> NoWords(lines, start, ms[|st.output|], i))
  }

  predicate NoWords(lines: seq<Line>, start: nat, m: nat, i: nat)
    requires start <= m && i <= |lines|
  {
    forall j | m < j < i :: !LiveWords(lines, start, j)
  }

  /** No normative line is passed over. */
  ghost predicate Covered(lines: seq<Line>, start: nat, i: nat, output: seq<Statement>)
    requires start <= i <= |lines|
  {
    forall j | start <= j < i && LiveWords(lines, start, j) && lines[j].normative :: HasLine(output, j)
  }

  ghost predicate HasLine(output: seq<Statement>, j: nat) {
    exists k :: 0 <= k < |output| && output[k].line == j
  }

  ghost predicate Tracks(lines: seq<Line>, start: nat, i: nat, st: Scan)
    requires start <= i <= |lines|
  {
    TracksAnchors(lines, start, i, st) && TracksOutput(lines, start, i, st) && Covered(lines, start, i, st.output)
  }

  lemma {:induction false} ScanTracks(lines: seq<Line>, start: nat, i: nat)
    requires start <= i <= |lines| && ScanTo(lines, start, i).Ok?
    ensures Tracks(lines, start, i, ScanTo(lines, start, i).value)
  {
    if i > start {
      ScanTracks(lines, start, i - 1);
      var st := ScanTo(lines, start, i - 1).value;
      var next := Step(lines[i - 1], i - 1, st).value;
      if LiveMarker(lines, start, i - 1) {
        StepMarker(lines, start, i, st);
      } else if LiveWords(lines, start, i - 1) {
        StepWords(lines, start, i, st);
      } else {
        StepOther(lines, start, i, st);
      }
    }
  }

  /** A line that is neither a live marker nor live words only moves the scan on. */
  lemma StepOther(lines: seq<Line>, start: nat, i: nat, st: Scan)
    requires start < i <= |lines| && Tracks(lines, start, i - 1, st)
    requires !LiveMarker(lines, start, i - 1) && !LiveWords(lines, start, i - 1)
    ensures Step(lines[i - 1], i - 1, st).Ok?
    ensures Tracks(lines, start, i, Step(lines[i - 1], i - 1, st).value)
  {
    var next := Step(lines[i - 1], i - 1, st).value;
    assert next == st.(fenced := InFence(lines, start, i));
    SkipLine(lines, start, i, st, next);
  }

  lemma SkipLine(lines: seq<Line>, start: nat, i: nat, st: Scan, next: Scan)
    requires start < i <= |lines| && Tracks(lines, start, i - 1, st)
    requires !LiveMarker(lines, start, i - 1) && !LiveWords(lines, start, i - 1)
    requires next == st.(fenced := InFence(lines, start, i))
    ensures Tracks(lines, start, i, next)
  {
    SkipAnchors(lines, start, i, st, next);
    SkipOutput(lines, start, i, st);
  }

  lemma SkipAnchors(lines: seq<Line>, start: nat, i: nat, st: Scan, next: Scan)
    requires start < i <= |lines| && TracksAnchors(lines, start, i - 1, st) && !LiveMarker(lines, start, i - 1)
    requires next.fenced == InFence(lines, start, i) && next.seen == st.seen && Anchors(next) == Anchors(st)
    ensures TracksAnchors(lines, start, i, next)
  {
    assert Markers(lines, start, i) == Markers(lines, start, i - 1);
  }

  lemma SkipOutput(lines: seq<Line>, start: nat, i: nat, st: Scan)
    requires start < i <= |lines| && TracksOutput(lines, start, i - 1, st)
    requires !LiveMarker(lines, start, i - 1) && (LiveWords(lines, start, i - 1) ==> st.pending.None?)
    ensures TracksOutput(lines, start, i, st)
  {
  }

  lemma StepMarker(lines: seq<Line>, start: nat, i: nat, st: Scan)
    requires start < i <= |lines| && Tracks(lines, start, i - 1, st) && LiveMarker(lines, start, i - 1)
    requires Step(lines[i - 1], i - 1, st).Ok?
    ensures Tracks(lines, start, i, Step(lines[i - 1], i - 1, st).value)
  {
    var a := lines[i - 1].anchor;
    assert Step(lines[i - 1], i - 1, st) == Ok(st.(pending := Some(a), seen := st.seen + {a}));
    MarkerAnchor(lines, start, i, st, a);
    MarkerOutput(lines, start, i, st, a);
  }

  lemma MarkerAnchor(lines: seq<Line>, start: nat, i: nat, st: Scan, a: string)
    requires start < i <= |lines| && TracksAnchors(lines, start, i - 1, st) && LiveMarker(lines, start, i - 1)
    requires lines[i - 1].anchor == a && a !in st.seen && st.pending.None?
    ensures TracksAnchors(lines, start, i, st.(pending := Some(a), seen := st.seen + {a}))
  {
    MarkerAnchorsGrow(lines, start, i);
    AnchorsGrow(st, a);
    NewAnchor(st.seen, Anchors(st), a);
  }

  lemma MarkerAnchorsGrow(lines: seq<Line>, start: nat, i: nat)
    requires start < i <= |lines| && LiveMarker(lines, start, i - 1)
    ensures MarkerAnchors(lines, start, i) == MarkerAnchors(lines, start, i - 1) + [lines[i - 1].anchor]
  {
    var ms := Markers(lines, start, i - 1);
    assert Markers(lines, start, i) == ms + [i - 1];
  }

  lemma AnchorsGrow(st: Scan, a: string)
    requires st.pending.None?
    ensures Anchors(st.(pending := Some(a), seen := st.seen + {a})) == Anchors(st) + [a]
  {
  }

  lemma NewAnchor(seen: set<string>, anchors: seq<string>, a: string)
    requires (forall x :: x in seen <==> x in anchors) && Distinct(anchors) && a !in seen
    ensures forall x :: x in seen + {a} <==> x in anchors + [a]
    ensures Distinct(anchors + [a])
  {
    forall k | 0 <= k < |anchors|
      ensures anchors[k] != a
    {
      assert anchors[k] in anchors;
    }
  }

  lemma MarkerOutput(lines: seq<Line>, start: nat, i: nat, st: Scan, a: string)
    requires start < i <= |lines| && TracksOutput(lines, start, i - 1, st) && LiveMarker(lines, start, i - 1)
    requires st.pending.None?
    ensures TracksOutput(lines, start, i, st.(pending := Some(a), seen := st.seen + {a}))
  {
    assert Markers(lines, start, i) == Markers(lines, start, i - 1) + [i - 1];
  }

  lemma StepWords(lines: seq<Line>, start: nat, i: nat, st: Scan)
    requires start < i <= |lines| && Tracks(lines, start, i - 1, st) && LiveWords(lines, start, i - 1)
    requires Step(lines[i - 1], i - 1, st).Ok?
    ensures Tracks(lines, start, i, Step(lines[i - 1], i - 1, st).value)
  {
    var next := Step(lines[i - 1], i - 1, st).value;
    assert Anchors(next) == Anchors(st);
    SkipAnchors(lines, start, i, st, next);
    if st.pending.Some? {
      OpenMarkerGoverns(lines, start, i, st);
      EmitOutput(lines, start, i, st);
      EmitCovers(lines, start, i, st);
    } else {
      SkipOutput(lines, start, i, st);
    }
  }

  lemma EmitOutput(lines: seq<Line>, start: nat, i: nat, st: Scan)
    requires start < i <= |lines| && TracksOutput(lines, start, i - 1, st) && LiveWords(lines, start, i - 1)
    requires st.pending.Some? && st.fenced == InFence(lines, start, i - 1)
    requires var m := Markers(lines, start, i - 1)[|st.output|];
             Governs(lines, start, m, i - 1) && lines[m] == Marker(st.pending.value)
    ensures TracksOutput(lines, start, i, Step(lines[i - 1], i - 1, st).value)
  {
  }

  lemma EmitCovers(lines: seq<Line>, start: nat, i: nat, st: Scan)
    requires start < i <= |lines| && Covered(lines, start, i - 1, st.output) && LiveWords(lines, start, i - 1)
    requires st.pending.Some? && st.fenced == InFence(lines, start, i - 1)
    ensures Covered(lines, start, i, Step(lines[i - 1], i - 1, st).value.output)
  {
    var next := Step(lines[i - 1], i - 1, st).value;
    assert HasLine(next.output, i - 1) by { assert next.output[|st.output|].line == i - 1; }
    forall j | HasLine(st.output, j)
      ensures HasLine(next.output, j)
    {
      var k :| 0 <= k < |st.output| && st.output[k].line == j;
      assert next.output[k].line == j;
    }
  }

  /** No live marker comes after the last one listed. */
  lemma LastMarker(lines: seq<Line>, start: nat, i: nat)
    requires start <= i <= |lines|
    ensures var ms := Markers(lines, start, i);
            forall j | start <= j < i && LiveMarker(lines, start, j) :: |ms| > 0 && j <= ms[|ms| - 1]
  {
    var ms := Markers(lines, start, i);
    forall j | start <= j < i && LiveMarker(lines, start, j)
      ensures |ms| > 0 && j <= ms[|ms| - 1]
    {
      var k :| 0 <= k < |ms| && ms[k] == j;
    }
  }

  lemma OpenMarkerGoverns(lines: seq<Line>, start: nat, i: nat, st: Scan)
    requires start < i <= |lines| && Tracks(lines, start, i - 1, st) && LiveWords(lines, start, i - 1)
    requires st.pending.Some?
    ensures var m := Markers(lines, start, i - 1)[|st.output|];
            Governs(lines, start, m, i - 1) && lines[m] == Marker(st.pending.value)
  {
    var m := Markers(lines, start, i - 1)[|st.output|];
    assert Anchors(st)[|st.output|] == st.pending.value;
    assert MarkerAnchors(lines, start, i - 1)[|st.output|] == lines[m].anchor;
    LastMarker(lines, start, i - 1);
  }

  /** The statements of an accepted region, marker by marker. */
  lemma ExtractedStatements(lines: seq<Line>, start: nat, end: nat)
    requires start <= end <= |lines| && Extract(lines, start, end).Ok?
    ensures var out, ms := Extract(lines, start, end).value, Markers(lines, start, end);
      && |out| == |ms|
      && (forall k | 0 <= k < |out| :: Emitted(lines, start, end, ms[k], out[k]))
      && (forall k, l | 0 <= k < l < |out| :: out[k].anchor != out[l].anchor && out[k].line < ms[l])
      && Covered(lines, start, end, out)
  {
    ScanTracks(lines, start, end);
    var st := ScanTo(lines, start, end).value;
    var out, ms := st.output, Markers(lines, start, end);
    forall k, l | 0 <= k < l < |out|
      ensures out[k].anchor != out[l].anchor && out[k].line < ms[l]
    {
      assert Anchors(st)[k] == out[k].anchor && Anchors(st)[l] == out[l].anchor;
      GovernedBeforeNext(lines, start, end, ms[k], out[k], ms[l]);
    }
  }

  lemma GovernedBeforeNext(lines: seq<Line>, start: nat, end: nat, m: nat, s: Statement, n: nat)
    requires start <= end <= |lines| && Emitted(lines, start, end, m, s)
    requires m < n < end && LiveMarker(lines, start, n)
    ensures s.line < n
  {
  }

  // ----- exactly which regions are accepted -----

  ghost predicate HasStatement(lines: seq<Line>, start: nat, end: nat, m: nat)
    requires start <= m && end <= |lines|
  {
    exists s :: m < s < end && Governs(lines, start, m, s)
  }

  ghost predicate HasMarker(lines: seq<Line>, start: nat, s: nat)
    requires start <= s < |lines|
  {
    exists m :: start <= m < s && LiveMarker(lines, start, m) && Governs(lines, start, m, s)
  }

  /** Every marker has its statement, every normative statement its marker, and no anchor is used twice. */
  ghost predicate Anchored(lines: seq<Line>, start: nat, end: nat)
    requires start <= end <= |lines|
  {
    && (forall m | start <= m < end && LiveMarker(lines, start, m) :: HasStatement(lines, start, end, m))
    && (forall s | start <= s < end && LiveWords(lines, start, s) && lines[s].normative :: HasMarker(lines, start, s))
    && Distinct(MarkerAnchors(lines, start, end))
  }

  lemma AcceptedIsAnchored(lines: seq<Line>, start: nat, end: nat)
    requires start <= end <= |lines| && Extract(lines, start, end).Ok?
    ensures Anchored(lines, start, end)
  {
    ScanTracks(lines, start, end);
    ExtractedStatements(lines, start, end);
    var st, ms := ScanTo(lines, start, end).value, Markers(lines, start, end);
    forall m | start <= m < end && LiveMarker(lines, start, m)
      ensures HasStatement(lines, start, end, m)
    {
      var k :| 0 <= k < |ms| && ms[k] == m;
      assert Emitted(lines, start, end, ms[k], st.output[k]);
    }
    forall s | start <= s < end && LiveWords(lines, start, s) && lines[s].normative
      ensures HasMarker(lines, start, s)
    {
      assert HasLine(st.output, s);
      var k :| 0 <= k < |st.output| && st.output[k].line == s;
      assert Emitted(lines, start, end, ms[k], st.output[k]);
    }
  }

  /** A region whose scan fails at line `i` is not anchored. */
  lemma RefusedStep(lines: seq<Line>, start: nat, i: nat, end: nat, st: Scan)
    requires start <= i < end <= |lines| && Tracks(lines, start, i, st)
    requires Step(lines[i], i, st).Err?
    ensures !Anchored(lines, start, end)
  {
    var ms := Markers(lines, start, i);
    if LiveMarker(lines, start, i) {
      if st.pending.Some? {
        OpenMarkerStays(lines, start, i, end, ms[|st.output|]);
      } else {
        RepeatedAnchor(lines, start, i, end, st);
      }
    } else {
      UnmarkedWords(lines, start, i, st);
    }
  }

  lemma OpenMarkerStays(lines: seq<Line>, start: nat, i: nat, end: nat, m: nat)
    requires start <= m < i <= end <= |lines| && NoWords(lines, start, m, i)
    requires i < end ==> LiveMarker(lines, start, i)
    ensures !HasStatement(lines, start, end, m)
  {
  }

  lemma RepeatedAnchor(lines: seq<Line>, start: nat, i: nat, end: nat, st: Scan)
    requires start <= i < end <= |lines| && TracksAnchors(lines, start, i, st)
    requires LiveMarker(lines, start, i) && lines[i].anchor in st.seen
    ensures !Distinct(MarkerAnchors(lines, start, end))
  {
    var ms, all := Markers(lines, start, i), Markers(lines, start, end);
    var k :| 0 <= k < |MarkerAnchors(lines, start, i)| && MarkerAnchors(lines, start, i)[k] == lines[i].anchor;
    assert LiveMarker(lines, start, ms[k]);
    var a :| 0 <= a < |all| && all[a] == ms[k];
    var b :| 0 <= b < |all| && all[b] == i;
    assert MarkerAnchors(lines, start, end)[a] == MarkerAnchors(lines, start, end)[b];
  }

  lemma UnmarkedWords(lines: seq<Line>, start: nat, i: nat, st: Scan)
    requires start <= i < |lines| && TracksOutput(lines, start, i, st) && st.pending.None?
    requires LiveWords(lines, start, i)
    ensures !HasMarker(lines, start, i)
  {
    var ms := Markers(lines, start, i);
    forall m | start <= m < i && LiveMarker(lines, start, m)
      ensures !Governs(lines, start, m, i)
    {
      assert m in ms;
      var k :| 0 <= k < |ms| && ms[k] == m;
      assert Emitted(lines, start, i, ms[k], st.output[k]);
    }
  }

  lemma {:induction false} RefusedPrefix(lines: seq<Line>, start: nat, i: nat, end: nat)
    requires start <= i <= end <= |lines| && ScanTo(lines, start, i).Err?
    ensures !Anchored(lines, start, end)
  {
    if ScanTo(lines, start, i - 1).Err? {
      RefusedPrefix(lines, start, i - 1, end);
    } else {
      ScanTracks(lines, start, i - 1);
      RefusedStep(lines, start, i - 1, end, ScanTo(lines, start, i - 1).value);
    }
  }

  /** A region is accepted exactly when it is anchored. */
  lemma AcceptedExactlyWhenAnchored(lines: seq<Line>, start: nat, end: nat)
    requires start <= end <= |lines|
    ensures Extract(lines, start, end).Ok? <==> Anchored(lines, start, end)
  {
    if Extract(lines, start, end).Ok? {
      AcceptedIsAnchored(lines, start, end);
    } else if ScanTo(lines, start, end).Err? {
      RefusedPrefix(lines, start, end, end);
    } else {
      ScanTracks(lines, start, end);
      var m := Markers(lines, start, end)[|ScanTo(lines, start, end).value.output|];
      OpenMarkerStays(lines, start, end, end, m);
      assert LiveMarker(lines, start, m);
    }
  }

  // ----- fenced lines -----

  /** The texts differ at most inside fences, and have their fences at the same lines. */
  ghost predicate SameOutsideFences(lines: seq<Line>, others: seq<Line>, start: nat, end: nat)
    requires start <= end <= |lines| && |others| == |lines|
  {
    forall i | start <= i < end ::
      (lines[i].Fence? <==> others[i].Fence?) && (InFence(lines, start, i) || lines[i] == others[i])
  }

  lemma {:induction false} FencedLinesIgnored(lines: seq<Line>, others: seq<Line>, start: nat, end: nat)
    requires start <= end <= |lines| && |others| == |lines| && SameOutsideFences(lines, others, start, end)
    ensures ScanTo(lines, start, end) == ScanTo(others, start, end)
    ensures Extract(lines, start, end) == Extract(others, start, end)
  {
    if end > start {
      FencedLinesIgnored(lines, others, start, end - 1);
      var before := ScanTo(lines, start, end - 1);
      if before.Ok? {
        ScanTracks(lines, start, end - 1);
      }
    }
  }

  // ----- the loops -----

  datatype Located = Located(region: string, statement: Statement)

  datatype Bounds = Bounds(anchor: string, start: nat, end: nat)

  predicate BoundsWithin(lines: seq<Line>, regions: seq<Bounds>) {
    forall r | r in regions :: r.start <= r.end <= |lines|
  }

  function Locate(anchor: string, out: seq<Statement>): seq<Located> {
    seq(|out|, k requires 0 <= k < |out| => Located(anchor, out[k]))
  }

  /** The statements of the regions one after the other; refused if one region is refused. */
  function ExtractAll(lines: seq<Line>, regions: seq<Bounds>): Result<seq<Located>, Rejection>
    requires BoundsWithin(lines, regions)
    decreases |regions|
  {
    if regions == [] then Ok([])
    else
      var last := regions[|regions| - 1];
      var front := ExtractAll(lines, regions[..|regions| - 1]);
      var here := Extract(lines, last.start, last.end);
      if front.Err? || here.Err? then Err(ValueError) else Ok(front.value + Locate(last.anchor, here.value))
  }

  lemma {:induction false} RefusedRegion(lines: seq<Line>, regions: seq<Bounds>, i: nat)
    requires BoundsWithin(lines, regions) && i < |regions|
    requires Extract(lines, regions[i].start, regions[i].end).Err?
    ensures ExtractAll(lines, regions).Err?
    decreases |regions|
  {
    if i < |regions| - 1 {
      RefusedRegion(lines, regions[..|regions| - 1], i);
    }
  }

  /** The list has the statements of every region, one region after the other; `cuts[k]` is where those of region k begin. */
  ghost predicate RegionsListed(lines: seq<Line>, regions: seq<Bounds>, out: seq<Located>, cuts: seq<nat>)
    requires BoundsWithin(lines, regions)
  {
    && |cuts| == |regions| + 1 && cuts[0] == 0 && cuts[|regions|] == |out|
    && forall k | 0 <= k < |regions| :: RegionListed(lines, regions[k], out, cuts[k], cuts[k + 1])
  }

  ghost predicate RegionListed(lines: seq<Line>, region: Bounds, out: seq<Located>, first: nat, next: nat)
    requires region.start <= region.end <= |lines|
  {
    && Extract(lines, region.start, region.end).Ok?
    && var here := Extract(lines, region.start, region.end).value;
       next == first + |here| <= |out|
       && forall i | 0 <= i < |here| :: out[first + i] == Located(region.anchor, here[i])
  }

  lemma {:induction false} AllRegionsListed(lines: seq<Line>, regions: seq<Bounds>) returns (cuts: seq<nat>)
    requires BoundsWithin(lines, regions) && ExtractAll(lines, regions).Ok?
    ensures RegionsListed(lines, regions, ExtractAll(lines, regions).value, cuts)
    decreases |regions|
  {
    if regions == [] {
      cuts := [0];
    } else {
      var n := |regions| - 1;
      var front := AllRegionsListed(lines, regions[..n]);
      var before, out := ExtractAll(lines, regions[..n]).value, ExtractAll(lines, regions).value;
      cuts := front + [|out|];
      forall k | 0 <= k < |regions|
        ensures RegionListed(lines, regions[k], out, cuts[k], cuts[k + 1])
      {
        if k < n { assert RegionListed(lines, regions[..n][k], before, front[k], front[k + 1]); }
      }
    }
  }

  lemma {:induction false} ListedRegions(lines: seq<Line>, regions: seq<Bounds>, out: seq<Located>, cuts: seq<nat>)
    requires BoundsWithin(lines, regions) && RegionsListed(lines, regions, out, cuts)
    ensures ExtractAll(lines, regions) == Ok(out)
    decreases |regions|
  {
    if regions != [] {
      var n := |regions| - 1;
      var last, here := regions[n], Extract(lines, regions[n].start, regions[n].end).value;
      assert RegionListed(lines, last, out, cuts[n], cuts[n + 1]);
      var before := out[..cuts[n]];
      forall k | 0 <= k < n
        ensures RegionListed(lines, regions[..n][k], before, cuts[..n + 1][k], cuts[..n + 1][k + 1])
      {
        assert RegionListed(lines, regions[k], out, cuts[k], cuts[k + 1]);
        CutsAscend(lines, regions, out, cuts, k + 1);
      }
      ListedRegions(lines, regions[..n], before, cuts[..n + 1]);
      assert out == before + Locate(last.anchor, here);
    }
  }

  lemma {:induction false} CutsAscend(lines: seq<Line>, regions: seq<Bounds>, out: seq<Located>, cuts: seq<nat>, k: nat)
    requires BoundsWithin(lines, regions) && RegionsListed(lines, regions, out, cuts) && regions != [] && k < |regions|
    ensures cuts[k] <= cuts[|regions| - 1]
    decreases |regions| - k
  {
    if k < |regions| - 1 {
      assert RegionListed(lines, regions[k], out, cuts[k], cuts[k + 1]);
      CutsAscend(lines, regions, out, cuts, k + 1);
    }
  }

  /** The extraction gives exactly the list of all statements of all regions in their order. */
  lemma ExtractedInOrder(lines: seq<Line>, regions: seq<Bounds>, out: seq<Located>)
    requires BoundsWithin(lines, regions)
    ensures ExtractAll(lines, regions) == Ok(out) <==> exists cuts :: RegionsListed(lines, regions, out, cuts)
  {
    if ExtractAll(lines, regions) == Ok(out) {
      var cuts := AllRegionsListed(lines, regions);
    }
    if cuts :| RegionsListed(lines, regions, out, cuts) {
      ListedRegions(lines, regions, out, cuts);
    }
  }

  lemma {:induction false} RefusedScan(lines: seq<Line>, start: nat, i: nat, end: nat)
    requires start <= i <= end <= |lines| && ScanTo(lines, start, i).Err?
    ensures ScanTo(lines, start, end).Err?
    decreases end
  {
    if i < end { RefusedScan(lines, start, i, end - 1); }
  }

  method ExtractStatements(lines: seq<Line>, regions: seq<Bounds>) returns (r: Result<seq<Located>, Rejection>)
    requires BoundsWithin(lines, regions)
    ensures r == ExtractAll(lines, regions)
  {
    var output: seq<Located> := [];
    for k := 0 to |regions|
      invariant ExtractAll(lines, regions[..k]) == Ok(output)
    {
      var start, end := regions[k].start, regions[k].end;
      var inFence := false;
      var pending: Option<string> := None;
      var seen: set<string> := {};
      ghost var before := output;
      ghost var out: seq<Statement> := [];
      for i := start to end
        invariant ScanTo(lines, start, i) == Ok(Scan(inFence, pending, seen, out))
        invariant output == before + Locate(regions[k].anchor, out)
      {
        var line := lines[i];
        if i < end && ScanTo(lines, start, i + 1).Err? {
          RefusedScan(lines, start, i + 1, end);
          RefusedRegion(lines, regions, k);
        }
        if line.Fence? {
          inFence := !inFence;
        } else if !inFence && line.Marker? {
          if pending.Some? || line.anchor in seen { return Err(ValueError); }
          pending := Some(line.anchor);
          seen := seen + {line.anchor};
        } else if !inFence && line.Words? && (pending.Some? || line.normative) {
          if pending.None? { return Err(ValueError); }
          output := output + [Located(regions[k].anchor, Statement(pending.value, line.text, i))];
          out := out + [Statement(pending.value, line.text, i)];
          pending := None;
        }
      }
      if pending.Some? {
        RefusedRegion(lines, regions, k);
        return Err(ValueError);
      }
      assert regions[..k + 1][..k] == regions[..k];
    }
    assert regions[..|regions|] == regions;
    return Ok(output);
  }
}
