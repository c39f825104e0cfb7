# Verified model of the governance tools, the product migrations and the agent runtime

This project models, in Dafny, the parts of the repository that carry state through loops,
rewrite tables, or wait against a deadline, and proves what those parts are for.

* **Fingerprints** (`StableFingerprint`, `CodeUnits`). `frontend/src/lib/stable-fingerprint.ts` prints a
  value so that two values can be compared by their texts. Values are trees over UTF-16 code units;
  the arguments of the real function are object graphs on a heap, visited with a mutable set `seen`.
* **The normative baseline** (`RepositoryPaths`, `ReviewChain`, `SourceText`, `NormativeBaseline`,
  `RequirementRegistry`, `Receipts`, `RegistryHistory`). The tools under `tools/v2` build a manifest of source documents at
  generation one and promote its gates one at a time after an ordered chain of reviews; they extract
  requirements from the text of those documents, keep a registry of them, give them owners, and issue
  receipts that name the registry by its hash. A commit is an immutable map from paths to contents.
  `RegistryHistory` follows a registry through assignments, releases and the promotions of a run.
* **Migrations** (`InterruptPauses`, `ProgressiveEvents`, `Provenance`, `CorrectedEvents`). Revisions 0007, 0018 and 0019
  rewrite rows that exist and then declare constraints that must already hold. `ProgressiveEvents` also
  models the service that appends to the migrated ledger, so that its results are about every history
  of appends after an upgrade; `CorrectedEvents` is about replays across revision 0019.
* **The agent runtime** (`AgentPool`, `SkillRequests`, `Clocks`). A pool runner and a skill loop wait
  for work that may take any time, against timeouts and a shared deadline. A submitted task is a future
  with a time of completion; the clock moves on by itself between any two steps.
* **Load statistics** (`LoadProbe`). Nearest-rank percentiles and counts of outcomes over results that
  arrive in any order.

`Sorting`, `Aggregates` and `Wrappers` hold the sorts, the SQL aggregates and the result types that the
others share.

Loops are methods with invariants, proved equal to a specification function that follows the code.
What the function means is said a second time over the inputs and the result alone, property by
property, and a lemma `...Exactly` proves the two equivalent; what the sources promise is proved of
these. Libraries and data that lie outside the repository's own logic
(regular expressions, SHA-256, git, timestamps as text) come in as records of functions, `Vocabulary`,
`World`, `Rules`, `Clerk` and `Service`, and where a theorem needs a law of them it is a named
predicate: `LawfulCommits`, `LawfulDigest`, `LawfulClerk`, `InjectiveHash`, `TellsApart`, `LawfulJsonb`. What Python does to path
texts is defined in `RepositoryPaths`; `LawfulPaths` is the part of it that the theorems use, and
`ReviewChain.PythonPathsLawful` proves it of those definitions.

## Where the code does not do what one may expect

Each of these has its exact condition as a lemma, and a lemma with values at which it happens.

* Paths that keep white space after normalization. `./ a` becomes ` a`, and that becomes `a`. The builder
  and the validator read `a`, while promotions and extraction read ` a`.
  * What the validator accepts. Condition: `NormativeBaseline.SoundManifestValid`,
    `NormativeBaseline.RunValid`. Values: `NormativeBaseline.UnstrippedPathsRefused`, where a policy with
    `./ a` and `a` gives a generation one that is refused.
  * Whether promotions and extraction find a content. Condition: `NormativeBaseline.SoundReadable`.
    Values: `NormativeBaseline.UnstrippedPathUnread`, `RequirementRegistry.UnstrippedPathNoRegistry`,
    where `./ a` alone gives a valid generation one and its commit has no ` a`.
  * Whether it is the recorded content, and whether a requirement carries the digest of the text it stands
    in. Condition: `NormativeBaseline.ValidReadsRecorded`, `RequirementRegistry.DigestOfScanned`. Values:
    `NormativeBaseline.OtherContentRead`, `RequirementRegistry.DigestOfOther`, where the commit has both
    ` a` and `a` and a statement of the one is stamped with the digest of the other.
* A review chain with the evidence path `./ /` is accepted, and what is stored of it is refused by every
  later check. Condition: `ReviewChain.StoredChainRevalidates`. Values: `ReviewChain.StoredChainRefused`.
* An assignment may make a registry invalid, because it checks an agent id by other rules than the
  validator. Condition: `Receipts.AssignKeepsValid`. Values: `Receipts.AssignmentRefused`.
* A receipt is ended by a release, but the same assignment at the same time brings it back.
  Condition: `Receipts.ReleaseEndsReceipt`, `Receipts.ReassignRestores`. Values: `Receipts.ReceiptComesBack`.
* The 0018 upgrade fails when an event lies in another thread than its run, which 0017 allows.
  Condition: `ProgressiveEvents.UpgradeMeetsSchema`. Values: `ProgressiveEvents.OtherThreadRefused`.
* One call that appends two due events of one type violates a unique key, and a call that repeats the
  latest payload of a type next to a new one cannot be replayed. Condition:
  `ProgressiveEvents.AppendOutcome`, `ProgressiveEvents.ReplayAddsNothing`. Values:
  `ProgressiveEvents.TwoOfOneTypeRefused`, `ProgressiveEvents.MixedReplayRefused`.
* The 0019 downgrade restores the documents only if none had the new provider before. Condition:
  `Provenance.DowngradeUndoesUpgrade`. Values: `Provenance.NewProviderIsNotRestored`.
* 0019 rewrites the payloads of events and leaves their hashes, so that a replay of a call whose rows had
  the legacy label is refused as a changed payload. Condition: `CorrectedEvents.ReplayAfterCorrection`.
  Values: `CorrectedEvents.CorrectedReplayRefused`.
* A task that finishes between the question whether it is done and the reading of the clock can lose
  its result to the deadline that it met. Condition: `AgentPool.TimelyTaskGetsItsValue`. Values:
  `AgentPool.TimelyTaskLosesItsValue`.

## Model

| member | source | states |
|---|---|---|
| StableFingerprint.Decodable | frontend/src/lib/stable-fingerprint.ts:8-31 | two encodings followed by delimited text are equal only if the values mean the same and the rests are equal: the printed form needs no separators beyond its own |
| StableFingerprint.SameMeaningSameEncoding | frontend/src/lib/stable-fingerprint.ts:25-31 | values that differ only in the order of their object keys have one fingerprint |
| StableFingerprint.FingerprintIdentifiesMeaning | frontend/src/lib/stable-fingerprint.ts:3-31 | two finite values have equal fingerprints if and only if they are equal with objects read as unordered maps |
| StableFingerprint.UnfoldingUnique | frontend/src/lib/stable-fingerprint.ts:8-31 | a slot of a heap stands for at most one tree |
| StableFingerprint.FiniteHasNoCycle | frontend/src/lib/stable-fingerprint.ts:16 | a slot that stands for a tree reaches no cycle |
| StableFingerprint.EncodeValue | frontend/src/lib/stable-fingerprint.ts:8-32 | on any finite graph the recursion ends; it throws only on a cycle, else it returns the encoding of the unfolded tree and leaves `seen` as it found it |
| StableFingerprint.EncodeArray | frontend/src/lib/stable-fingerprint.ts:19-23 | the items in order, joined, with the array removed from `seen` again |
| StableFingerprint.EncodeObject | frontend/src/lib/stable-fingerprint.ts:25-31 | the entries by ascending key, joined, with the object removed from `seen` again |
| StableFingerprint.StableFingerprint | frontend/src/lib/stable-fingerprint.ts:4-6 | throws if and only if a cycle can be reached from the value, sharing allowed; otherwise the encoding of the unfolded tree |
| StableFingerprint.CompareGraphs | frontend/src/features/work/human-review-panel.tsx:258-260 | comparing the fingerprints of two graphs decides whether the values mean the same |
| CodeUnits.SortedCanonical | frontend/src/lib/stable-fingerprint.ts:26-27 | sorting the keys gives one listing whatever their order was |
| RepositoryPaths.PosixNormal | tools/v2/transition_normative_baseline.py:119 | what PurePosixPath prints of a path it prints of that text again |
| RepositoryPaths.RelativeAgain | tools/v2/build_normative_baseline.py:51-60 | normalizing a normalized path is stripping it and normalizing the rest, or its refusal when nothing is left |
| RepositoryPaths.RelativeFixed | tools/v2/build_normative_baseline.py:51-60 | a normalized path is its own normal form if and only if it has no outer white space |
| ReviewChain.ValidateReviewChain | tools/v2/transition_normative_baseline.py:122-215 | accepts exactly the chains that follow the roles, approve without findings, are signed by different reviewers one after the other, and are of the candidate and of the evidence note that the caller names; what it returns differs in the case of the digests and the form of the path alone |
| ReviewChain.AcceptedExactly | tools/v2/transition_normative_baseline.py:122-215 | for any optional candidate, digest and path: acceptance is having the roles, approvals, signatures, dates, candidate and note, each stated over the whole chain |
| ReviewChain.CheckReviews | tools/v2/transition_normative_baseline.py:139-215 | the loop accepts exactly the chains in which every review is acceptable, the reviewers differ and the times increase, which `AcceptedExactly` spells out |
| ReviewChain.AcceptedChain | tools/v2/transition_normative_baseline.py:131-215 | what is stored of an accepted chain has the required roles with sequences 1..N, different reviewers, strictly increasing times, and the candidate, the digest and the path that the caller named, for any list of roles |
| ReviewChain.PythonPathsLawful | tools/v2/transition_normative_baseline.py:114-119 | the path functions as Python defines them satisfy the one law of paths that the results assume |
| ReviewChain.StoredChainAgain | tools/v2/build_requirement_registry.py:802-806 | any chain of the stored form is accepted against its candidate if and only if each of its evidence paths is accepted, and comes back as it stands if and only if each is its own normal form |
| ReviewChain.StoredChainRevalidates | tools/v2/build_requirement_registry.py:802-806 | a chain accepted under an evidence path is accepted by every later check if and only if the normalized path is accepted again, and comes back unchanged if and only if that path has no outer white space and no placeholder |
| ReviewChain.StoredChainRefused | tools/v2/transition_normative_baseline.py:114-119 | three reviews with the evidence path `./ /` that are accepted, and refused once stored |
| SourceText.RegionBounds | tools/v2/build_requirement_registry.py:261-292 | finds the lines between the one start marker and the one end marker of an anchor, and refuses exactly when there are no such lines |
| SourceText.BoundsUnique | tools/v2/build_requirement_registry.py:261-292 | an anchor bounds at most one region |
| SourceText.ExtractStatements | tools/v2/build_requirement_registry.py:295-380 | the scan over the regions gives the statements, or the rejection, of the specified line machine |
| SourceText.ExtractedInOrder | tools/v2/build_requirement_registry.py:295-380 | the extraction gives a list if and only if it is that of all statements of all regions, one region after the other |
| SourceText.ExtractedStatements | tools/v2/build_requirement_registry.py:295-380 | the statements correspond one to one, in order and before the next marker, to the markers outside fences, and every normative line outside a fence is emitted |
| SourceText.AcceptedExactlyWhenAnchored | tools/v2/build_requirement_registry.py:295-380 | a region is accepted if and only if each live marker governs a statement, each normative line is governed by a marker, and no anchor repeats |
| SourceText.FencedLinesIgnored | tools/v2/build_requirement_registry.py:306-314 | replacing lines inside fences by other lines that are no fences changes nothing |
| NormativeBaseline.BuildPolicyRegions | tools/v2/build_normative_baseline.py:95-117 | the stripped anchors in order, refused exactly when the list is absent or empty, an anchor is missing or blank, or two are equal once stripped |
| NormativeBaseline.BuildManifestFiles | tools/v2/build_normative_baseline.py:159-245 | the sorted entries of all policy sources, or the refusal, as `ManifestFilesExactly` spells out |
| NormativeBaseline.EntryExactly | tools/v2/build_normative_baseline.py:166-235 | an entry is made of a source if and only if it has its normalized path, its class, its precedence of at least one, the digest of the content read, and that content declares the same class and regions and the right replacement |
| NormativeBaseline.ManifestFilesExactly | tools/v2/build_normative_baseline.py:159-245 | the builder gives files if and only if they are one such entry for each source, with no path twice and every replacement in the policy, sorted by path |
| NormativeBaseline.SortFilesOrdered | tools/v2/build_normative_baseline.py:245 | the files stand in the order of their paths |
| NormativeBaseline.ManifestFilesSound | tools/v2/build_normative_baseline.py:159-245 | the entries have distinct normalized paths, and each has the digest of the content that the builder read, which is that of the path stripped and normalized once more |
| NormativeBaseline.BuildInitialManifest | tools/v2/build_normative_baseline.py:248-299 | generation one names the commit, the policy read and the evidence note of the request, with reviews of both that are all older than it; it passes the validator if and only if no two of its paths are the same once stripped |
| NormativeBaseline.InitialExactly | tools/v2/build_normative_baseline.py:248-299 | the builder gives a manifest if and only if it is the generation one requested: commit, reviews, note, policy and the files that the policy describes |
| NormativeBaseline.InitialSound | tools/v2/build_normative_baseline.py:248-299 | generation one is sound: distinct normalized paths, recorded contents of its own commit, declared regions, and a chain stored for that commit |
| NormativeBaseline.ValidateManifest | tools/v2/build_requirement_registry.py:172-250 | accepts exactly the manifests whose stripped paths are distinct, lie in the tree, have the declared digests and, for mixed sources, distinct anchors |
| NormativeBaseline.ManifestValidExactly | tools/v2/build_requirement_registry.py:172-250 | a manifest is valid if and only if its stripped paths are apart and lead to contents with the recorded digests, and every mixed file declares regions, none blank and none twice |
| NormativeBaseline.TransitionManifest | tools/v2/transition_normative_baseline.py:218-325 | the next generation has the contents of another commit with reviews of that commit and of the named note, all older than it; it names its predecessor and its promotion, has the same paths and one gate fewer, and is sound if the manifest was |
| NormativeBaseline.PromotedExactly | tools/v2/transition_normative_baseline.py:218-325 | the transition gives a manifest if and only if it is the promotion of the one gate: every entry with its new digest, the gate approved and without regions, and nothing else changed |
| NormativeBaseline.PromotedSound | tools/v2/transition_normative_baseline.py:297-325 | a promotion keeps a manifest sound, now with the contents at the unstripped paths, and its list of paths unchanged |
| NormativeBaseline.OneGateFewer | tools/v2/transition_normative_baseline.py:308-324 | a promotion turns the one named gate into an approved source, lowers the number of gates by one, and changes nothing but the digest of any other file |
| NormativeBaseline.RunInvariant | tools/v2/transition_normative_baseline.py:297-325 | in every run the k-th manifest is sound against its own commit, has generation k + 1, the paths of the first, and k gates fewer |
| NormativeBaseline.SoundManifestValid | tools/v2/build_requirement_registry.py:190-222 | a sound manifest passes the validator if and only if its stripped paths are apart and, after generation one, lead to contents with the recorded digests |
| NormativeBaseline.RunValid | tools/v2/build_requirement_registry.py:172-250 | generation one of a run passes the validator if and only if its stripped paths are apart, and a later manifest if and only if they also lead to what its promotion recorded |
| NormativeBaseline.PlainPathsValid | tools/v2/build_requirement_registry.py:172-250 | in particular every sound manifest passes when no path has white space around it |
| NormativeBaseline.ValidReadsRecorded | tools/v2/build_requirement_registry.py:205-212 | for a manifest that the validator accepts, extraction reads contents with the recorded digests if and only if no stripped path leads to another content |
| NormativeBaseline.SoundReadable | tools/v2/transition_normative_baseline.py:85-105 | promotions and extraction find the contents of a sound manifest in its own commit if and only if the commit has the paths as they are listed; after a promotion it has, with the recorded digests |
| NormativeBaseline.RunBounded | tools/v2/transition_normative_baseline.py:275-283 | a run has no more promotions than generation one has gates |
| NormativeBaseline.RunLinked | tools/v2/transition_normative_baseline.py:240-307 | adjacent commits differ, and each manifest names its predecessor and its promotion |
| NormativeBaseline.ApprovedStays | tools/v2/transition_normative_baseline.py:308-318 | between any two points of a run a file keeps its classification unless it was promoted between them |
| NormativeBaseline.UnstrippedPathsRefused | tools/v2/build_normative_baseline.py:159-245 | a policy with `./ a` and `a` whose generation one is built, and then refused by the validator as naming one path twice |
| NormativeBaseline.UnstrippedPathUnread | tools/v2/transition_normative_baseline.py:85-105 | a policy with `./ a` alone whose generation one is valid, while the lookup of a promotion finds none of its contents |
| NormativeBaseline.OtherContentRead | tools/v2/build_normative_baseline.py:193 | a commit with ` a` and `a` whose valid generation one records the digest of the one while extraction reads the other |
| RequirementRegistry.FileRegions | tools/v2/build_requirement_registry.py:389-412 | the regions of a file in order, or none where a region cannot be found |
| RequirementRegistry.BuildSourceRequirements | tools/v2/build_requirement_registry.py:389-438 | lists every statement of every normative file of a valid manifest, in file order and then in line order, with distinct ids |
| RequirementRegistry.FileScannedExactly | tools/v2/build_requirement_registry.py:401-424 | an informative, superseded or evidence file has no requirements; of any other every statement of every declared region, or of all lines, is listed |
| RequirementRegistry.RequirementsInOrder | tools/v2/build_requirement_registry.py:389-438 | the requirements are a list if and only if the manifest is valid and it is that of all its files one after the other, each requirement with the fields of its statement, with distinct ids |
| RequirementRegistry.AnchorCheckRedundant | tools/v2/build_requirement_registry.py:432-437 | the check for repeated anchors never fires after the check for repeated ids |
| RequirementRegistry.DigestOfScanned | tools/v2/build_requirement_registry.py:405-427 | every requirement is a statement of the content at its unstripped path, and carries the digest of that content if and only if stripping the path does not lead to another content |
| RequirementRegistry.PromotedDigests | tools/v2/build_requirement_registry.py:405-427 | after a promotion every requirement carries the digest of the content it stands in |
| RequirementRegistry.DigestOfOther | tools/v2/build_requirement_registry.py:405-427 | a requirement of a valid generation one that stands in ` a` and carries the digest of `a` |
| RequirementRegistry.BuildRegistry | tools/v2/build_requirement_registry.py:684-760 | the rebuilt registry, or the refusal, as specified |
| RequirementRegistry.IndexMappings | tools/v2/build_requirement_registry.py:704-716 | the reviewed mappings by id, or the refusal of a repeated id |
| RequirementRegistry.RebuiltMatches | tools/v2/build_requirement_registry.py:684-760 | a rebuild succeeds only on the extracted ids without repeats; its output is in extraction order, has the source fields, and keeps the governance of each mapping |
| RequirementRegistry.RebuiltExactly | tools/v2/build_requirement_registry.py:684-760 | a rebuild succeeds if and only if the mappings have distinct extracted ids and every source has a mapping with all its fields but the line; it gives each source with the reviewed fields of that mapping |
| RequirementRegistry.RebuiltPermutation | tools/v2/build_requirement_registry.py:704-760 | the order of the reviewed mappings does not matter, to the output or to the refusal |
| RequirementRegistry.RebuiltFixedPoint | tools/v2/build_requirement_registry.py:684-760 | rebuilding from the output gives the output |
| RequirementRegistry.ValidateRegistry | tools/v2/build_requirement_registry.py:560-681 | decides the validity of a registry against a manifest |
| RequirementRegistry.RegistryValidExactly | tools/v2/build_requirement_registry.py:560-681 | a registry is valid if and only if it names the commit and generation, lists the extracted requirements in order, pairs owners with times, gives each requirement a task, a role and a RED mapping, and targets hosted production for gates and production proofs |
| RequirementRegistry.TransitionRegistryGate | tools/v2/build_requirement_registry.py:775-933 | what it returns is valid for the next manifest and comes from a registry valid for the former; the gate keeps its statements, no requirement comes or goes, and every id and reviewed field stays in order, whatever the contents of the two commits |
| RequirementRegistry.TransitionedExactly | tools/v2/build_requirement_registry.py:775-933 | the transition gives a registry if and only if there is such a move to it: another commit, the next generation with reviews of its own, all requirements of the path gates before and approved after with the same statements, and the same ids |
| RequirementRegistry.GatePromotion | tools/v2/build_requirement_registry.py:775-933 | after a promotion with unchanged contents the transition succeeds if and only if the gate has a requirement, the evidence path is accepted again, and the stripped paths lead to the recorded contents; each entry is then its former source, regraded where its path was promoted, with its own reviewed fields |
| RequirementRegistry.PlainGatePromotion | tools/v2/build_requirement_registry.py:775-933 | with plain paths and a normal evidence path it succeeds if and only if the gate has a requirement |
| RequirementRegistry.UnstrippedPathNoRegistry | tools/v2/build_requirement_registry.py:401-407 | a valid generation one from which no requirements can be extracted |
| Receipts.AssignOwner | tools/v2/verify_requirements.py:98-128 | succeeds only for a task with requirements of which no other agent owns one, and sets the owner and the time of exactly those |
| Receipts.ResetOwner | tools/v2/verify_requirements.py:131-156 | succeeds only for a task of which the agent owns every requirement, and clears the owner and the time of exactly those |
| Receipts.AssignedExactly | tools/v2/verify_requirements.py:98-128 | an assignment gives a registry if and only if the task can be taken and the registry differs in its owners and times alone |
| Receipts.ResetExactly | tools/v2/verify_requirements.py:131-156 | a release gives a registry if and only if the agent owns the whole task and the registry differs in its owners and times alone |
| Receipts.ResetUndoesAssign | tools/v2/verify_requirements.py:98-156 | the same agent can always release what it was assigned, and that restores the registry if and only if the task was unowned |
| Receipts.AssignKeepsValid | tools/v2/verify_requirements.py:98-128 | an assignment keeps a registry valid if and only if the validator's own rules accept the owner and the stamp |
| Receipts.AssignmentRefused | tools/v2/verify_requirements.py:98-128 | a valid registry that the assignment to an agent id makes invalid |
| Receipts.ResetKeepsValid | tools/v2/verify_requirements.py:131-156 | a release always keeps a registry valid |
| Receipts.ReceiptAssignments | tools/v2/verify_requirements.py:159-184 | the sorted owner lines and the one agent, or the refusal |
| Receipts.ReceiptRedLines | tools/v2/verify_requirements.py:210-240 | the sorted RED lines and the commands, refused exactly when a mapping is incomplete or an owner was assigned too late, which `BuiltExactly` spells out |
| Receipts.BuildPreRedReceipt | tools/v2/verify_requirements.py:187-263 | succeeds if and only if some agent was given every requirement of the task before the receipt, all with this command, and RED starts after it; what it returns is accepted for that registry, task and command |
| Receipts.VerifyPreRedReceipt | tools/v2/verify_requirements.py:317-396 | accepts exactly the receipts that the builder makes at their own times, up to how the times are written; then every owner was assigned before the receipt and RED started after it |
| Receipts.BuiltExactly | tools/v2/verify_requirements.py:187-263 | a receipt can be made if and only if one agent owns the whole task, was assigned before the time of the receipt, every RED command is the given one, and the RED run starts later |
| Receipts.FrozenIsCommon | tools/v2/verify_requirements.py:814-823 | the command that the verifier expects is the one that all requirements of the task name |
| Receipts.VerifyMatchesBuild | tools/v2/verify_requirements.py:317-396 | the verifier accepts exactly the receipts that the builder makes from the same registry at the receipt's own times, up to how the times are written |
| Receipts.BuiltReceiptVerifies | tools/v2/verify_requirements.py:187-263 | a built receipt verifies against its registry |
| Receipts.ReceiptCovers | tools/v2/verify_requirements.py:317-396 | an accepted receipt is about its registry, task and command; every requirement of the task was given to its agent before it was made and RED started after; it has an owner line and a RED line for every requirement, in the order of the ids, and no other line |
| Receipts.OneRegistry | tools/v2/verify_requirements.py:338-350 | with an injective hash a receipt belongs to one registry, one task and one command |
| Receipts.ReceiptSurvival | tools/v2/build_requirement_registry.py:893-895 | in every history of assignments, releases and promotions a receipt verifies later if and only if the registry is the same again, and never after a promotion |
| Receipts.OwnerChangeEndsReceipt | tools/v2/verify_requirements.py:98-128 | after an assignment, in any task, a receipt is accepted if and only if that task had this owner and this time already |
| Receipts.ReleaseEndsReceipt | tools/v2/verify_requirements.py:131-156 | so does every release |
| Receipts.ReassignRestores | tools/v2/verify_requirements.py:98-156 | an assignment after a release restores the registry if and only if it is to the same agent and at the one time at which the whole task was assigned |
| Receipts.ReceiptComesBack | tools/v2/verify_requirements.py:98-156 | a receipt that a release ends and the same assignment brings back |
| RegistryHistory.HistoryStaysValid | tools/v2/verify_requirements.py:98-156 | along the promotions of a run the registry stays valid for the manifest of its time, through any history of assignments, releases and transitions, if and only if the rules of the validator accept every assignment in it |
| RegistryHistory.HistoryKeepsDecisions | tools/v2/verify_requirements.py:98-156 | no history adds, drops or reorders requirements, or changes a reviewed field other than owners and their times |
| RegistryHistory.RunRequirements | tools/v2/transition_normative_baseline.py:297-325 | in a run of valid manifests over unchanged contents every manifest has the requirements of generation one, made normative where a gate was promoted |
| RegistryHistory.HistoryAlongRun | tools/v2/build_requirement_registry.py:775-933 | after any accepted history along such a run the registry lists exactly these requirements in order, and it can follow the next promotion if and only if generation one has a requirement in that gate and the evidence path is accepted again |
| RegistryHistory.PlainRunSteady | tools/v2/build_requirement_registry.py:172-250 | a run over unchanged contents whose paths have no white space around them is such a run |
| InterruptPauses.ProductSchema.Upgrade | backend/alembic/versions/0007_interrupt_pauses.py:278-644 | succeeds if and only if all rows and pairs of rows are as the checks ask, and then meets the new schema; otherwise reports the first check that fails and changes nothing |
| InterruptPauses.PassesExactly | backend/alembic/versions/0007_interrupt_pauses.py:37-277 | each check finds nothing if and only if what it asks holds of all rows and pairs of rows: no open respond command, one run with active rows in a task, one checkpoint in a run, the root namespace, an official thread, one status and no interrupt twice at a checkpoint |
| InterruptPauses.BackfillMeetsSchema | backend/alembic/versions/0007_interrupt_pauses.py:363-644 | on tables that meet 0001 and 0006 and pass the preflight, the backfill meets every new constraint: unique run and version, unique root checkpoint, unique resume run, one active pause for each task, no inbox row without a pause, scopes and members |
| InterruptPauses.UniqueKeys | backend/alembic/versions/0007_interrupt_pauses.py:393-403 | one pause for each run, so the keys on version and root checkpoint hold |
| InterruptPauses.ResumeConstraints | backend/alembic/versions/0007_interrupt_pauses.py:375-428 | resume runs are in scope, unique and not the run itself |
| InterruptPauses.OneActive | backend/alembic/versions/0007_interrupt_pauses.py:443-450 | at most one pending or responding pause for each task |
| InterruptPauses.InboxConstraints | backend/alembic/versions/0007_interrupt_pauses.py:595-644 | every inbox row has a pause in its own scope, and no interrupt is in a pause twice |
| InterruptPauses.JoinedOnce | backend/alembic/versions/0007_interrupt_pauses.py:511-523 | the left join on resumed runs lists each inbox row once |
| InterruptPauses.StatusCommon | backend/alembic/versions/0007_interrupt_pauses.py:500-507 | the status of a pause is that of all its rows, so the last branch of the CASE is never taken |
| InterruptPauses.PauseContents | backend/alembic/versions/0007_interrupt_pauses.py:462-591 | the pause of a run stands under its earliest row, has version 1, the scope, thread and checkpoint of the run, the common status, the earliest creation, the latest update and expiry, the run that resumes it, and its rows as members, each once and in ascending order |
| ProgressiveEvents.UpgradeMeetsSchema | backend/alembic/versions/0018_progressive_events.py:52-159 | tables that meet 0017 meet every constraint of 0018 after the upgrade if and only if each event gets a payload and lies in the thread of its run |
| ProgressiveEvents.OtherThreadRefused | backend/alembic/versions/0018_progressive_events.py:52-159 | tables that meet 0017 and cannot be upgraded |
| ProgressiveEvents.UpgradeSetsCounters | backend/alembic/versions/0018_progressive_events.py:92-105 | after the upgrade each thread's counter is above all its sequences |
| ProgressiveEvents.UpgradeCounts | backend/alembic/versions/0018_progressive_events.py:92-105 | and it is the least such number from 1 upwards |
| ProgressiveEvents.KeysFollowKinds | backend/alembic/versions/0018_progressive_events.py:84-130 | unique run and type become unique run and source key |
| ProgressiveEvents.DowngradeKeepsFirst | backend/alembic/versions/0018_progressive_events.py:191-206 | the DELETE leaves an event if and only if none of its run and type has a lower sequence |
| ProgressiveEvents.DowngradeKeepsOne | backend/alembic/versions/0018_progressive_events.py:191-206 | of each run and type that has events exactly one stays |
| ProgressiveEvents.DowngradeMeetsSchema | backend/alembic/versions/0018_progressive_events.py:162-213 | all constraints of 0017 hold after the downgrade |
| ProgressiveEvents.DowngradeUndoesUpgrade | backend/alembic/versions/0018_progressive_events.py:162-219 | right after an upgrade the downgrade deletes nothing and restores the tables |
| ProgressiveEvents.ProductLedger.Upgrade | backend/alembic/versions/0018_progressive_events.py:18-159 | the upgraded tables, or the old ones when a constraint cannot hold |
| ProgressiveEvents.ProductLedger.Downgrade | backend/alembic/versions/0018_progressive_events.py:162-219 | the downgraded tables, which meet 0017 |
| ProgressiveEvents.SelectPending | backend/src/crypto_alert_v2/projections/domain_events.py:358-381 | the specs for which a row is due, or the conflict, as `JudgedExactly` spells out |
| ProgressiveEvents.ProductLedger.Append | backend/src/crypto_alert_v2/projections/domain_events.py:336-423 | the tables after the transaction, unchanged if it is refused, and the number of rows added: one for each spec that is due, in their order |
| ProgressiveEvents.JudgedExactly | backend/src/crypto_alert_v2/projections/domain_events.py:358-381 | a row is due if and only if nothing stands under the key of the spec and the event of its type with the highest sequence in the run, if any, has another hash; it is a conflict if and only if the event compared has another hash or a payload with another |
| ProgressiveEvents.AppendRows | backend/src/crypto_alert_v2/projections/domain_events.py:382-423 | an append adds, for each spec that is due and for no other, a row with its type, hash, payload, key and the next sequence of the thread, and moves the counter on; it is refused as changed if and only if a payload changed |
| ProgressiveEvents.AppendOutcome | backend/src/crypto_alert_v2/projections/domain_events.py:347-423 | an append commits if and only if no payload changed and, when rows are due, the task owns the run, the ids are new, the types are declared and no two rows are of one type; it keeps all constraints and the counters above the sequences |
| ProgressiveEvents.TwoOfOneTypeRefused | backend/src/crypto_alert_v2/projections/domain_events.py:385-423 | two new payloads of one type in one call, which the unique key refuses |
| ProgressiveEvents.ReplayAddsNothing | backend/src/crypto_alert_v2/projections/domain_events.py:358-383 | replaying a committed append adds nothing, unless one of its specs repeated the latest payload of its type beside another spec that brought a new one, or jsonb gives a new payload back with another hash; then the replay is refused as a changed payload |
| ProgressiveEvents.MixedReplayRefused | backend/src/crypto_alert_v2/projections/domain_events.py:358-383 | a call that commits and whose replay is refused |
| ProgressiveEvents.ResumableHistory | backend/src/crypto_alert_v2/projections/domain_events.py:385-423 | from an upgraded ledger on, every history keeps the constraints, never changes an event, and gives each new event a sequence above all that its thread had |
| Provenance.RewriteProvenance | backend/alembic/versions/0019_ddgs_provenance.py:35-81 | the loops over entries and items compute the recursive rewrite |
| Provenance.RewriteIsCorrection | backend/alembic/versions/0019_ddgs_provenance.py:35-81 | the rewrite is the one document in which every stale label has become the new one and every other place has the value, the keys or the length it had |
| Provenance.NoneLeft | backend/alembic/versions/0019_ddgs_provenance.py:46-54 | no stale label is left |
| Provenance.ChangesExactlyLabelled | backend/alembic/versions/0019_ddgs_provenance.py:35-81 | a document changes if and only if it has a stale label, and a second rewrite changes nothing |
| Provenance.RoundTrip | backend/alembic/versions/0019_ddgs_provenance.py:101-106 | the way back restores a document if and only if it had no new label before |
| Provenance.FilterSelectsLabelled | backend/alembic/versions/0019_ddgs_provenance.py:87-98 | LIKE, with the underscore as a wildcard, selects the text of every document with a stale label, in whatever order the keys are printed |
| Provenance.SkippedUnchanged | backend/alembic/versions/0019_ddgs_provenance.py:87-98 | a document that the filter passes over is one that the rewrite would not change |
| Provenance.UpdateColumn | backend/alembic/versions/0019_ddgs_provenance.py:87-98 | the filtered update equals the rewrite of the whole column |
| Provenance.DowngradeUndoesUpgrade | backend/alembic/versions/0019_ddgs_provenance.py:101-106 | downgrade after upgrade restores the four columns if and only if none had the new provider before |
| Provenance.NewProviderIsNotRestored | backend/alembic/versions/0019_ddgs_provenance.py:101-106 | a run output that has the new provider before the upgrade and the legacy one after the downgrade |
| Provenance.ProductDocuments.Upgrade | backend/alembic/versions/0019_ddgs_provenance.py:101-102 | all four columns are rewritten to the new provider |
| Provenance.ProductDocuments.Downgrade | backend/alembic/versions/0019_ddgs_provenance.py:105-106 | all four columns are rewritten to the legacy provider |
| CorrectedEvents.CorrectedColumn | backend/alembic/versions/0019_ddgs_provenance.py:84-98 | the ledger is corrected as the migration rewrites its column of payloads |
| CorrectedEvents.CorrectionMeetsSchema | backend/alembic/versions/0019_ddgs_provenance.py:84-98 | the correction breaks no constraint of the ledger |
| CorrectedEvents.IntactUnlessStale | backend/src/crypto_alert_v2/projections/domain_events.py:366-379 | a payload that has its hash still has it after the migration if and only if it had no stale label |
| CorrectedEvents.ReplayAfterCorrection | backend/src/crypto_alert_v2/projections/domain_events.py:358-383 | a call that adds nothing adds nothing after the migration either, unless one of its specs is compared with a row that had a stale label; then it is refused |
| CorrectedEvents.CommittedThenCorrected | backend/src/crypto_alert_v2/projections/domain_events.py:358-383 | the same for the replay, after the migration, of a call committed before it |
| CorrectedEvents.CorrectedReplayRefused | backend/src/crypto_alert_v2/projections/domain_events.py:358-383 | a call that adds nothing before the migration and is refused after it |
| AgentPool.ControlledAgentPoolRunner.Run | src/crypto_manual_alert/agent_swarm/pool_runner.py:39-82 | the violations of this run only and in order, exactly the tasks that passed preflight submitted, a result under the id of every task, or the exception of the first look that raised one |
| AgentPool.ViolationsInOrder | src/crypto_manual_alert/agent_swarm/pool_runner.py:46-51 | the violations are those of the tasks that did not pass, each task's in its place |
| AgentPool.RunnableInOrder | src/crypto_manual_alert/agent_swarm/pool_runner.py:46-51 | the submitted tasks are those that passed, each in its place |
| AgentPool.LastRejectionWins | src/crypto_manual_alert/agent_swarm/pool_runner.py:51 | of the rejected tasks with one id the last gives the result |
| AgentPool.LastFutureWins | src/crypto_manual_alert/agent_swarm/pool_runner.py:58 | of the submitted tasks with one id the last has its future under it |
| AgentPool.VisitedInOrder | src/crypto_manual_alert/agent_swarm/pool_runner.py:59-61 | the futures looked at are those of the first tasks of their ids that have no result yet, in order |
| AgentPool.SettledExactly | src/crypto_manual_alert/agent_swarm/pool_runner.py:62-78 | a look gives the value or the exception of a future that was done when asked or waited for in time, and the timeout result otherwise; a timeout that the task raises itself leaves the runner only if it was done when asked |
| AgentPool.WaitedExactly | src/crypto_manual_alert/agent_swarm/pool_runner.py:62-93 | a future that was not done when asked is waited for until it is done, or else for the whole timeout or the whole time left |
| AgentPool.ControlledAgentPoolRunner.Workers | src/crypto_manual_alert/agent_swarm/pool_runner.py:54 | at least one worker, no more than there are tasks to run, and no more than the configured number when that is positive |
| AgentPool.ControlledAgentPoolRunner.Visit | src/crypto_manual_alert/agent_swarm/pool_runner.py:62-78 | one look at one future: it is harvested if it is done, even after the deadline; otherwise the deadline is checked, and then it is waited for |
| AgentPool.FutureIsThere | src/crypto_manual_alert/agent_swarm/pool_runner.py:58-62 | a task without a result was submitted, so the lookup of its future never misses |
| AgentPool.OneResultPerTask | src/crypto_manual_alert/agent_swarm/pool_runner.py:46-82 | with distinct ids each task's place holds the result of its own rejection or of its own future |
| AgentPool.BlockingBounded | src/crypto_manual_alert/agent_swarm/pool_runner.py:59-93 | however long the tasks run, a run blocks no longer than the deadline allows and no longer than the timeouts of the submitted tasks together |
| AgentPool.TimelyTaskGetsItsValue | src/crypto_manual_alert/agent_swarm/pool_runner.py:62-78 | a task that finishes within its timeout and by the deadline gets its value if and only if it did not finish between being asked and an expired reading of the clock |
| AgentPool.TimelyTaskLosesItsValue | src/crypto_manual_alert/agent_swarm/pool_runner.py:62-78 | a run whose one task meets its timeout and the deadline and gets its timeout result |
| SkillRequests.RunCalls | src/crypto_manual_alert/agent_swarm/llm_tool_worker.py:254-281 | the calls made of the executor are the first requests, in order, allowed, begun before the deadline and with the granted timeout, and last as long as the skill does; on success they are all of them, with the executor's answers numbered from 1; a failure names what stopped the loop, and it is never the budget |
| SkillRequests.GrantedTimeout | src/crypto_manual_alert/agent_swarm/llm_tool_worker.py:272 | the whole seconds, and at least one, of the first that is not zero of the time left, the timeout and the timeout of the subtask |
| SkillRequests.ExecuteSkillRequests | src/crypto_manual_alert/agent_swarm/llm_tool_worker.py:242-281 | the checks before the loop in their order, then calls of the executor that are a lawful prefix of the requests, all of them with its answers under different numbers on success, or the reason why they stopped |
| SkillRequests.EndsNearDeadline | src/crypto_manual_alert/agent_swarm/llm_tool_worker.py:257-301 | every call but the last is over before the deadline; a last call that honours its timeout ends less than a second after it |
| LoadProbe.PercentileIsNearestRank | tools/v2/run_load_probe.py:129-134 | the percentile is the one sample with at least ceil(p * n) samples at or below it and fewer strictly below |
| LoadProbe.PercentileMonotone | tools/v2/run_load_probe.py:129-134 | a higher percentile is no lower value, and none is above the maximum |
| LoadProbe.CountOutcomes | tools/v2/run_load_probe.py:158-160 | the counters of the loop are the specified counts |
| LoadProbe.OutcomeCountIs | tools/v2/run_load_probe.py:158-160 | each outcome that occurs has as its count the number of results that have it |
| LoadProbe.RunProbe | tools/v2/run_load_probe.py:157-187 | the report passes if and only if all requests succeeded, counts each outcome that occurs, and has the nearest-rank samples of the latencies and the largest, all zero when there is none |
| LoadProbe.OneReport | tools/v2/run_load_probe.py:157-187 | exactly one report says this of the results |
| LoadProbe.ReportIsConsistent | tools/v2/run_load_probe.py:157-187 | a report passes if and only if every request succeeded, its counts add up to the requests, and p50 <= p95 <= p99 <= max |
| LoadProbe.ReportIgnoresOrder | tools/v2/run_load_probe.py:154-187 | the report does not depend on the order in which the requests completed |

## Left out

- NormativeBaseline.RunLinked: adjacent commits only; a commit may come back in a later generation, since the code compares neighbours only.
- RequirementRegistry.GatePromotion: both directions for unchanged contents only, while what RequirementRegistry.TransitionRegistryGate states holds for all; with changed contents the code compares the promoted statements as a set of hashes, so which id has which statement may change.
- ProgressiveEvents.DowngradeUndoesUpgrade: `payload_ref` is not a column of the model; the upgrade overwrites it and the downgrade does not restore it.
- ProgressiveEvents.UpgradeMeetsSchema: the payload that the backfill takes from a run or an outbox is an oracle, which may be NULL.
- RepositoryPaths.PosixNormal: paths of POSIX; a text with two leading slashes is absolute like any other.
- NormativeBaseline.ValidateManifest: contents come from a commit through `_git_source_loader`; `_safe_source_path`, which reads the working tree and follows symbolic links, is not modelled.
- ProgressiveEvents.ReplayAddsNothing: how jsonb gives a payload back is an oracle, `stored`.
- ProgressiveEvents.AppendOutcome: transactions one after the other; of two that overlap on a run the unique keys let one commit. The limit of the 32-bit `sequence` column is not modelled.
- StableFingerprint.FingerprintIdentifiesMeaning: negative zero prints as zero; functions, symbols and bigints are not values of the model; the text of a number is taken to identify it.
- StableFingerprint.StableFingerprint: arrays with holes, where `map` skips a hole and `join` prints it empty, so that `new Array(1)` prints as `[]` does, and instances of classes such as Date, which print as `{}`, are not values of the model.
- CorrectedEvents.ReplayAfterCorrection: for a hash that tells the two documents apart; what a replay with an already corrected payload comes to is not stated.
- AgentPool.BlockingBounded: counts the time inside waits; what the scheduler takes between two steps is not blocked time. Seconds are exact, not floating point.
- SkillRequests.EndsNearDeadline: a call honours its timeout counted from the clock reading that the timeout was computed from.
- LoadProbe.PercentileIsNearestRank: over exact numbers; the rounding of `percentile * len` in floating point is not modelled.
- InterruptPauses.ProductSchema.Upgrade: text columns are ordered by code units, not by the collation of the database, and rows that tie in an ORDER BY are ordered by id; the member hash stands as the list that is hashed.
- Messages of errors, and which of several malformed JSON types was found: a field that is absent or of another type is None.
- The texts of regular expressions and placeholder vocabularies: predicates of the records named above.
- Reading and writing files, fsync, argument parsing, git subprocesses, `verify_candidate_index` and `_validate_staged_notes`: they depend on a live index and HEAD.
- What proofs, review dispositions and note paths of a registry entry must look like in detail: opaque rules that the validator applies and the transition keeps.
- ThreadPoolExecutor internals, and the skill, registry and LLM clients behind the worker: oracles.
- `agent_swarm/registry.py`, `runtime.py` and `config.py`: map lookups and single checks that would only add easy members.
- The remaining migrations: declarative DDL, used only as hypotheses.
- Smoke, QA, container, signing and SLO scripts, mock servers, the React and Next components and the auth proxy: network, process and user-interface plumbing.
