/**
 The life of a requirement registry along the promotions of a normative baseline: the changes of
 tools/v2/verify_requirements.py and tools/v2/build_requirement_registry.py, one after the other,
 beside the manifests of a run of tools/v2/transition_normative_baseline.py.
 */
module RegistryHistory {
  import opened Wrappers
  import opened ReviewChain
  import opened NormativeBaseline
  import opened RequirementRegistry
  import opened Receipts

  // ----- changes along a run -----

  function TreeOf(w: World, m: Manifest): Tree {
    if m.normativeSha in w.trees then w.trees[m.normativeSha] else map[]
  }

  /** The change of the registry that belongs to promotion j of a run. */
  function GateChange(w: World, ps: seq<Promotion>, ms: seq<Manifest>, j: nat): Change
    requires j < |ps| < |ms|
  {
    Promote(ms[j], ms[j + 1], ps[j].path, TreeOf(w, ms[j]), TreeOf(w, ms[j + 1]))
  }

  /**
   The changes promote the gates of the run in its order, with any assignments and releases between
   them; `current[k]` is the generation, counted from zero, after the first k changes.
   */
  ghost predicate Follows(w: World, ps: seq<Promotion>, ms: seq<Manifest>, changes: seq<Change>, current: seq<nat>) {
    && |ms| == |ps| + 1 && |current| == |changes| + 1 && current[0] == 0
    && (forall k | 0 <= k < |current| :: current[k] <= |ps|)
    && forall k | 0 <= k < |changes| ::
         if changes[k].Promote? then
           current[k] < |ps| && changes[k] == GateChange(w, ps, ms, current[k]) && current[k + 1] == current[k] + 1
         else current[k + 1] == current[k]
  }

  /** The registry is valid for this manifest against its own commit. */
  ghost predicate ValidFor(w: World, r: Rules, reg: Registry, m: Manifest) {
    RegistryValid(w, r, TreeOf(w, m), reg, m)
  }

  /** The owner and the stamp of an assignment pass the rules of the validator. */
  predicate AssignmentAccepted(c: Clerk, r: Rules, change: Change) {
    change.Assign? ==>
      && c.agentId(change.agent).Some? && r.ownerAccepted(c.agentId(change.agent).value)
      && r.stampAccepted(c.stamp(change.at))
  }

  ghost predicate AllAccepted(c: Clerk, r: Rules, changes: seq<Change>) {
    forall k | 0 <= k < |changes| :: AssignmentAccepted(c, r, changes[k])
  }

  lemma OwnerChangeKeepsValid(c: Clerk, w: World, r: Rules, m: Manifest, reg: Registry, change: Change, next: Registry)
    requires !change.Promote? && Changed(c, w, r, reg, change) == Some(next) && ValidFor(w, r, reg, m)
    ensures ValidFor(w, r, next, m) <==> AssignmentAccepted(c, r, change)
  {
    if change.Assign? {
      AssignKeepsValid(c, w, r, TreeOf(w, m), reg, m, change.task, change.agent, change.at);
    } else {
      ResetKeepsValid(c, w, r, TreeOf(w, m), reg, m, change.task, change.agent);
    }
  }

  lemma GateChangeKeepsValid(c: Clerk, w: World, r: Rules, ps: seq<Promotion>, ms: seq<Manifest>, j: nat, reg: Registry, next: Registry)
    requires j < |ps| < |ms| && Changed(c, w, r, reg, GateChange(w, ps, ms, j)) == Some(next)
    ensures ValidFor(w, r, next, ms[j + 1]) <==> true
  {
    TransitionKeeps(w, r, reg, ms[j], ms[j + 1], ps[j].path, TreeOf(w, ms[j]), TreeOf(w, ms[j + 1]), next);
  }

  lemma FollowsAt(w: World, ps: seq<Promotion>, ms: seq<Manifest>, changes: seq<Change>, current: seq<nat>, k: nat)
    requires Follows(w, ps, ms, changes, current) && k < |changes|
    ensures current[k] < |ms| == |ps| + 1 && current[k + 1] < |ms|
    ensures changes[k].Promote? ==>
      current[k] < |ps| && changes[k] == GateChange(w, ps, ms, current[k]) && current[k + 1] == current[k] + 1
    ensures !changes[k].Promote? ==> current[k + 1] == current[k]
  {
  }

  /** One change keeps a registry valid for the manifest of its time, unless it assigns what the validator refuses. */
  lemma ChangeKeepsValid(c: Clerk, w: World, r: Rules, ps: seq<Promotion>, ms: seq<Manifest>, changes: seq<Change>,
                         current: seq<nat>, k: nat, reg: Registry, next: Registry)
    requires Follows(w, ps, ms, changes, current) && k < |changes| && Changed(c, w, r, reg, changes[k]) == Some(next)
    requires ValidFor(w, r, reg, ms[current[k]])
    ensures ValidFor(w, r, next, ms[current[k + 1]]) <==> AssignmentAccepted(c, r, changes[k])
  {
    var change, j := changes[k], current[k];
    FollowsAt(w, ps, ms, changes, current, k);
    if change.Promote? {
      GateChangeKeepsValid(c, w, r, ps, ms, j, reg, next);
    } else {
      OwnerChangeKeepsValid(c, w, r, ms[j], reg, change, next);
    }
  }

  /** After each of the first n changes the registry is valid for the manifest of its time. */
  ghost predicate ValidUpTo(w: World, r: Rules, ms: seq<Manifest>, current: seq<nat>, regs: seq<Registry>, n: nat) {
    forall k | 0 <= k <= n ::
      k < |current| && k < |regs| && current[k] < |ms| && ValidFor(w, r, regs[k], ms[current[k]])
  }

  lemma {:induction false} AcceptedKeepsValid(c: Clerk, w: World, r: Rules, ps: seq<Promotion>, ms: seq<Manifest>,
                                              changes: seq<Change>, current: seq<nat>, regs: seq<Registry>, n: nat)
    requires Follows(w, ps, ms, changes, current) && History(c, w, r, changes, regs) && n <= |changes|
    requires ValidFor(w, r, regs[0], ms[0]) && AllAccepted(c, r, changes)
    ensures ValidUpTo(w, r, ms, current, regs, n)
    decreases n
  {
    if n > 0 {
      AcceptedKeepsValid(c, w, r, ps, ms, changes, current, regs, n - 1);
      ChangeKeepsValid(c, w, r, ps, ms, changes, current, n - 1, regs[n - 1], regs[n]);
    }
  }

  /**
   Along a run, whatever its paths and contents, the registry stays valid for the manifest of its
   time through every history exactly when the validator's rules accept each assignment in it.
   */
  lemma HistoryStaysValid(c: Clerk, w: World, r: Rules, ps: seq<Promotion>, ms: seq<Manifest>,
                          changes: seq<Change>, current: seq<nat>, regs: seq<Registry>)
    requires Follows(w, ps, ms, changes, current) && History(c, w, r, changes, regs) && ValidFor(w, r, regs[0], ms[0])
    ensures ValidUpTo(w, r, ms, current, regs, |changes|) <==> AllAccepted(c, r, changes)
  {
    if AllAccepted(c, r, changes) {
      AcceptedKeepsValid(c, w, r, ps, ms, changes, current, regs, |changes|);
    } else {
      var k :| 0 <= k < |changes| && !AssignmentAccepted(c, r, changes[k]);
      if ValidFor(w, r, regs[k], ms[current[k]]) {
        ChangeKeepsValid(c, w, r, ps, ms, changes, current, k, regs[k], regs[k + 1]);
      }
    }
  }

  // ----- what no history changes -----

  /** The reviewed fields agree but for the owner and the time of its assignment. */
  predicate SameDecisions(a: Governance, b: Governance) {
    b == a.(owner := b.owner, assignedAt := b.assignedAt)
  }

  ghost predicate KeepsDecisions(entries: seq<Entry>, next: seq<Entry>) {
    && |next| == |entries|
    && forall i | 0 <= i < |entries| ::
         next[i].source.id == entries[i].source.id && SameDecisions(entries[i].governance, next[i].governance)
  }

  lemma ChangeKeepsDecisions(c: Clerk, w: World, r: Rules, reg: Registry, change: Change, next: Registry)
    requires Changed(c, w, r, reg, change) == Some(next)
    ensures KeepsDecisions(reg.requirements, next.requirements)
  {
    match change
    case Assign(task, agent, at) =>
      assert forall i | 0 <= i < |reg.requirements| ::
        next.requirements[i] == OwnedBy(reg.requirements[i], task, c.agentId(agent).value, c.stamp(at));
    case Release(task, agent) =>
      assert forall i | 0 <= i < |reg.requirements| :: next.requirements[i] == Released(reg.requirements[i], task);
    case Promote(before, after, path, tree, nextTree) =>
      TransitionKeeps(w, r, reg, before, after, path, tree, nextTree, next);
  }

  /** No history adds, drops or reorders requirements, or changes a reviewed field but owners and their times. */
  lemma {:induction false} HistoryKeepsDecisions(c: Clerk, w: World, r: Rules, changes: seq<Change>, regs: seq<Registry>, k: nat)
    requires History(c, w, r, changes, regs) && k < |regs|
    ensures KeepsDecisions(regs[0].requirements, regs[k].requirements)
    decreases k
  {
    if k > 0 {
      HistoryKeepsDecisions(c, w, r, changes, regs, k - 1);
      ChangeKeepsDecisions(c, w, r, regs[k - 1], changes[k - 1], regs[k]);
    }
  }

  // ----- which promotions a registry can follow -----

  /** Every manifest of the run passes the validator, and no commit changes a content that the manifests list. */
  ghost predicate Steady(w: World, ms: seq<Manifest>) {
    && (forall j | 0 <= j < |ms| :: ManifestValid(w, TreeOf(w, ms[j]), ms[j]))
    && (forall j | 0 < j < |ms| :: SameContents(w, TreeOf(w, ms[j - 1]), TreeOf(w, ms[j]), ms[j - 1].files))
  }

  /** The requirements after the first j promotions. */
  function RegradedBy(sources: seq<Source>, ps: seq<Promotion>, j: nat): (out: seq<Source>)
    requires j <= |ps|
    ensures |out| == |sources|
  {
    if j == 0 then sources else RegradedAll(RegradedBy(sources, ps, j - 1), ps[j - 1].path)
  }

  ghost predicate PathPromoted(ps: seq<Promotion>, j: nat, path: string) {
    exists l :: 0 <= l < j && l < |ps| && ps[l].path == path
  }

  /** They are the first ones, and normative where a gate was promoted. */
  lemma {:induction false} RegradedByAt(sources: seq<Source>, ps: seq<Promotion>, j: nat, i: nat)
    requires j <= |ps| && i < |sources|
    ensures RegradedBy(sources, ps, j)[i] ==
      if PathPromoted(ps, j, sources[i].path) then sources[i].(kind := Normative, classification := ApprovedNormative)
      else sources[i]
    decreases j
  {
    if j > 0 {
      RegradedByAt(sources, ps, j - 1, i);
      var path := sources[i].path;
      assert PathPromoted(ps, j, path) <==> PathPromoted(ps, j - 1, path) || ps[j - 1].path == path;
    }
  }

  /** A promotion of a steady run is one over unchanged contents to a valid manifest. */
  lemma SteadyStep(w: World, q: InitialRequest, ps: seq<Promotion>, ms: seq<Manifest>, j: nat)
    requires LawfulPaths(w.vocabulary) && LawfulCommits(w) && LawfulDigest(w)
    requires Run(w, q, ps, ms) && Steady(w, ms) && j < |ps|
    ensures Sound(w, ms[j]) && Promoted(w, ms[j], ps[j]) == Ok(ms[j + 1])
    ensures TreeOf(w, ms[j]) == w.trees[ms[j].normativeSha]
    ensures ms[j + 1].normativeSha in w.trees && TreeOf(w, ms[j + 1]) == w.trees[ms[j + 1].normativeSha]
    ensures SameContents(w, TreeOf(w, ms[j]), TreeOf(w, ms[j + 1]), ms[j].files)
    ensures StrippedSame(w, TreeOf(w, ms[j + 1]), Paths(ms[j].files))
  {
    RunInvariant(w, q, ps, ms, j);
    RunValid(w, q, ps, ms, j + 1);
    assert SameContents(w, TreeOf(w, ms[j + 1 - 1]), TreeOf(w, ms[j + 1]), ms[j + 1 - 1].files);
  }

  lemma StepRegrades(w: World, r: Rules, m: Manifest, p: Promotion, next: Manifest)
    requires LawfulCommits(w) && LawfulDigest(w) && Sound(w, m) && Promoted(w, m, p) == Ok(next)
    requires next.normativeSha in w.trees
    requires SameContents(w, TreeOf(w, m), TreeOf(w, next), m.files) && StrippedSame(w, TreeOf(w, next), Paths(m.files))
    ensures Requirements(w, r, TreeOf(w, m), m).Some? ==>
      Requirements(w, r, TreeOf(w, next), next) == Some(RegradedAll(Requirements(w, r, TreeOf(w, m), m).value, p.path))
  {
    if Requirements(w, r, TreeOf(w, m), m).Some? { PromotionRequirements(w, r, m, p, next); }
  }

  lemma {:induction false} StepsRegrade(lists: seq<Option<seq<Source>>>, ps: seq<Promotion>, j: nat)
    requires |lists| == |ps| + 1 && j < |lists| && lists[0].Some?
    requires forall l | 0 <= l < |ps| && lists[l].Some? :: lists[l + 1] == Some(RegradedAll(lists[l].value, ps[l].path))
    ensures lists[j] == Some(RegradedBy(lists[0].value, ps, j))
    decreases j
  {
    if j > 0 {
      StepsRegrade(lists, ps, j - 1);
      assert lists[j - 1 + 1] == Some(RegradedAll(lists[j - 1].value, ps[j - 1].path));
    }
  }

  /** In a steady run every manifest has the requirements of generation one, regraded by the promotions so far. */
  lemma RunRequirements(w: World, r: Rules, q: InitialRequest, ps: seq<Promotion>, ms: seq<Manifest>, j: nat)
    requires LawfulPaths(w.vocabulary) && LawfulCommits(w) && LawfulDigest(w)
    requires Run(w, q, ps, ms) && Steady(w, ms) && j < |ms|
    requires Requirements(w, r, TreeOf(w, ms[0]), ms[0]).Some?
    ensures Requirements(w, r, TreeOf(w, ms[j]), ms[j])
         == Some(RegradedBy(Requirements(w, r, TreeOf(w, ms[0]), ms[0]).value, ps, j))
  {
    ghost var lists := seq(|ms|, l requires 0 <= l < |ms| => Requirements(w, r, TreeOf(w, ms[l]), ms[l]));
    forall l | 0 <= l < |ps| && lists[l].Some?
      ensures lists[l + 1] == Some(RegradedAll(lists[l].value, ps[l].path))
    {
      SteadyStep(w, q, ps, ms, l);
      StepRegrades(w, r, ms[l], ps[l], ms[l + 1]);
    }
    StepsRegrade(lists, ps, j);
  }

  lemma GateKept(sources: seq<Source>, ps: seq<Promotion>, j: nat, path: string)
    requires j <= |ps|
    ensures GateHasRequirement(RegradedBy(sources, ps, j), path) <==> GateHasRequirement(sources, path)
  {
    var out := RegradedBy(sources, ps, j);
    forall i | 0 <= i < |sources|
      ensures out[i].path == sources[i].path
    {
      RegradedByAt(sources, ps, j, i);
    }
  }

  lemma StepFollowed(c: Clerk, w: World, r: Rules, reg: Registry, m: Manifest, p: Promotion, next: Manifest)
    requires LawfulPaths(w.vocabulary) && LawfulCommits(w) && LawfulDigest(w)
    requires Sound(w, m) && Promoted(w, m, p) == Ok(next) && next.normativeSha in w.trees
    requires SameContents(w, TreeOf(w, m), TreeOf(w, next), m.files) && StrippedSame(w, TreeOf(w, next), Paths(m.files))
    requires ValidFor(w, r, reg, m)
    ensures Changed(c, w, r, reg, Promote(m, next, p.path, TreeOf(w, m), TreeOf(w, next))).Some?
       <==> GateHasRequirement(Requirements(w, r, TreeOf(w, m), m).value, p.path) && EvidenceAgain(w, p)
  {
    GatePromotion(w, r, reg, m, p, next);
  }

  /** The registry can follow promotion j of a steady run exactly when generation one has a requirement in that gate. */
  lemma PromotionFollowed(c: Clerk, w: World, r: Rules, q: InitialRequest, ps: seq<Promotion>, ms: seq<Manifest>, j: nat, reg: Registry)
    requires LawfulPaths(w.vocabulary) && LawfulCommits(w) && LawfulDigest(w)
    requires Run(w, q, ps, ms) && Steady(w, ms) && j < |ps| && ValidFor(w, r, reg, ms[j])
    requires Requirements(w, r, TreeOf(w, ms[0]), ms[0]).Some?
    ensures Changed(c, w, r, reg, GateChange(w, ps, ms, j)).Some?
       <==> GateHasRequirement(Requirements(w, r, TreeOf(w, ms[0]), ms[0]).value, ps[j].path) && EvidenceAgain(w, ps[j])
  {
    SteadyStep(w, q, ps, ms, j);
    RunRequirements(w, r, q, ps, ms, j);
    GateKept(Requirements(w, r, TreeOf(w, ms[0]), ms[0]).value, ps, j, ps[j].path);
    StepFollowed(c, w, r, reg, ms[j], ps[j], ms[j + 1]);
  }

  /**
   After any history of accepted assignments, releases and promotions along a steady run, the
   registry lists the requirements of generation one, in their order and regraded by the promotions
   so far. It can follow the next promotion exactly when generation one has a requirement in that
   gate and the evidence path is accepted again.
   */
  lemma HistoryAlongRun(c: Clerk, w: World, r: Rules, q: InitialRequest, ps: seq<Promotion>, ms: seq<Manifest>,
                        changes: seq<Change>, current: seq<nat>, regs: seq<Registry>)
    requires LawfulPaths(w.vocabulary) && LawfulCommits(w) && LawfulDigest(w)
    requires Run(w, q, ps, ms) && Steady(w, ms) && Follows(w, ps, ms, changes, current) && History(c, w, r, changes, regs)
    requires ValidFor(w, r, regs[0], ms[0]) && AllAccepted(c, r, changes)
    ensures var before := Requirements(w, r, TreeOf(w, ms[0]), ms[0]).value;
            var j, reg := current[|changes|], regs[|changes|];
      && ValidFor(w, r, reg, ms[j]) && MatchesSources(reg.requirements, RegradedBy(before, ps, j))
      && (j < |ps| ==>
            (Changed(c, w, r, reg, GateChange(w, ps, ms, j)).Some?
             <==> GateHasRequirement(before, ps[j].path) && EvidenceAgain(w, ps[j])))
  {
    var j, reg := current[|changes|], regs[|changes|];
    AcceptedKeepsValid(c, w, r, ps, ms, changes, current, regs, |changes|);
    RunRequirements(w, r, q, ps, ms, j);
    if j < |ps| { PromotionFollowed(c, w, r, q, ps, ms, j, reg); }
  }

  /** A run is steady when its paths are plain and its commits keep the contents. */
  lemma PlainRunSteady(w: World, q: InitialRequest, ps: seq<Promotion>, ms: seq<Manifest>)
    requires LawfulPaths(w.vocabulary) && LawfulCommits(w) && LawfulDigest(w)
    requires Run(w, q, ps, ms) && PlainPaths(w, ms[0].files)
    requires forall j | 0 < j < |ms| :: SameContents(w, TreeOf(w, ms[j - 1]), TreeOf(w, ms[j]), ms[j - 1].files)
    ensures Steady(w, ms)
  {
    forall j | 0 <= j < |ms|
      ensures ManifestValid(w, TreeOf(w, ms[j]), ms[j])
    {
      RunInvariant(w, q, ps, ms, j);
      PlainKept(w, ms[0], ms[j]);
      PlainPathsValid(w, ms[j]);
    }
  }

  lemma PlainKept(w: World, first: Manifest, m: Manifest)
    requires PlainPaths(w, first.files) && Paths(m.files) == Paths(first.files)
    ensures PlainPaths(w, m.files)
  {
    forall i | 0 <= i < |m.files|
      ensures Stripped(w, m.files[i].path) == m.files[i].path
    {
      assert |Paths(m.files)| == |Paths(first.files)|;
      assert Paths(m.files)[i] == Paths(first.files)[i];
    }
  }
}
