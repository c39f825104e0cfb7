/**
 The ordered review chain that every normative baseline needs:
 `validate_review_chain` of tools/v2/transition_normative_baseline.py.
 */
module ReviewChain {
  import opened Wrappers
  import opened RepositoryPaths

  /** The source raises ValueError; its messages are not told apart. */
  datatype Rejection = ValueError

  /**
   The text rules of the tools: `strip` is str.strip() for the white space `blank`, `posix` and
   `relative` normalize a path, `placeholder` is the search for placeholder words, and `time`
   parses a timestamp.
   */
  datatype Vocabulary = Vocabulary(
    blank: char -> bool,
    strip: string -> string,
    posix: string -> Option<string>,
    relative: string -> Option<string>,
    placeholder: string -> bool,
    time: string -> Option<int>)

  /** The path functions are those of Python. */
  ghost predicate PythonPaths(v: Vocabulary) {
    forall s: string ::
      v.strip(s) == Strip(v.blank, s) && v.posix(s) == Posix(s) && v.relative(s) == RelativePath(v.blank, s)
  }

  /** A path in normal form: only its outer white space can change when it is normalized again. */
  predicate NormalPath(v: Vocabulary, p: string) {
    && p != "" && v.posix(p) == Some(p)
    && v.relative(p) == (if v.strip(p) == "" then None else v.posix(v.strip(p)))
    && (v.relative(p) == Some(p) <==> v.strip(p) == p)
  }

  /** What the results rest on: a stripped text is stripped, and a relative path is in normal form. */
  ghost predicate LawfulPaths(v: Vocabulary) {
    && (forall s: string {:trigger v.strip(v.strip(s))} :: v.strip(v.strip(s)) == v.strip(s))
    && (forall s: string, p: string {:trigger v.relative(s), NormalPath(v, p)} ::
          v.relative(s) == Some(p) ==> NormalPath(v, p))
  }

  /** The functions of Python satisfy it. */
  lemma PythonPathsLawful(v: Vocabulary)
    requires PythonPaths(v)
    ensures LawfulPaths(v)
  {
    forall s: string
      ensures v.strip(v.strip(s)) == v.strip(s)
    {
      StripFacts(v.blank, s);
    }
    forall s: string, p: string | v.relative(s) == Some(p)
      ensures NormalPath(v, p)
    {
      RelativeAgain(v.blank, s, p);
      RelativeFixed(v.blank, s, p);
    }
  }

  /** The test of `_require_reviewer`. */
  predicate ConcreteText(v: Vocabulary, text: string) {
    v.strip(text) != "" && !v.placeholder(text)
  }

  /** `_normalize_evidence_path` */
  function EvidencePath(v: Vocabulary, text: string): Option<string> {
    if !ConcreteText(v, text) then None else v.relative(text)
  }

  datatype Role = SpecificationAuthority | PlanExecutability | OfficialFramework | OtherRole(name: string)

  const REVIEW_ROLES: seq<Role> := [SpecificationAuthority, PlanExecutability, OfficialFramework]

  /** A review as it stands in the document; None where a field is missing or has another type. */
  datatype Review = Review(
    role: Role,
    sequence: int,
    reviewer: Option<string>,
    approved: bool,
    criticalFindings: Option<int>,
    importantFindings: Option<int>,
    reviewedAt: Option<string>,
    candidateSha: Option<string>,
    evidenceSha: Option<string>,
    evidencePath: Option<string>,
    scope: Option<string>,
    command: Option<string>)

  // ----- hexadecimal digests -----

  predicate IsHex(c: char) {
    '0' <= c <= '9' || 'a' <= c <= 'f' || 'A' <= c <= 'F'
  }

  function LowerChar(c: char): char {
    if 'A' <= c <= 'F' then (c as int + 32) as char else c
  }

  function Lower(s: string): (r: string)
    ensures |r| == |s| && forall i | 0 <= i < |s| :: !('A' <= r[i] <= 'F')
  {
    seq(|s|, i requires 0 <= i < |s| => LowerChar(s[i]))
  }

  predicate IsHexText(s: string) {
    forall i | 0 <= i < |s| :: IsHex(s[i])
  }

  /** A 40- or 64-character hexadecimal SHA. */
  predicate IsSha(s: string) {
    (|s| == 40 || |s| == 64) && IsHexText(s)
  }

  predicate IsSha256(s: string) {
    |s| == 64 && IsHexText(s)
  }

  lemma LowerIdempotent(s: string)
    ensures Lower(Lower(s)) == Lower(s)
    ensures IsSha(s) ==> IsSha(Lower(s))
    ensures IsSha256(s) ==> IsSha256(Lower(s))
  {
  }

  // ----- what a chain must satisfy -----

  /** The values that the caller may ask every review to agree with. */
  datatype Expected = Expected(candidate: Option<string>, evidenceSha: Option<string>, evidencePath: Option<string>)

  predicate Concrete(v: Vocabulary, field: Option<string>) {
    field.Some? && ConcreteText(v, field.value)
  }

  function Time(v: Vocabulary, r: Review): Option<int> {
    if r.reviewedAt.None? then None else v.time(r.reviewedAt.value)
  }

  function Path(v: Vocabulary, r: Review): Option<string> {
    if r.evidencePath.None? then None else EvidencePath(v, r.evidencePath.value)
  }

  /** The rules for a review by itself, at position `i` of the chain. */
  predicate ReviewAccepted(v: Vocabulary, role: Role, sequence: int, r: Review, e: Expected) {
    && r.role == role && r.sequence == sequence
    && Concrete(v, r.reviewer)
    && r.approved && r.criticalFindings == Some(0) && r.importantFindings == Some(0)
    && Time(v, r).Some?
    && r.candidateSha.Some? && IsSha(r.candidateSha.value)
    && (e.candidate.Some? ==> Lower(r.candidateSha.value) == e.candidate.value)
    && r.evidenceSha.Some? && IsSha256(r.evidenceSha.value)
    && (e.evidenceSha.Some? ==> Lower(r.evidenceSha.value) == Lower(e.evidenceSha.value))
    && Path(v, r).Some?
    && (e.evidencePath.Some? ==> Path(v, r) == e.evidencePath)
    && Concrete(v, r.scope) && Concrete(v, r.command)
  }

  /** Who wrote the review, as the source compares reviewers. */
  function Author(v: Vocabulary, r: Review): string {
    if r.reviewer.None? then "" else v.strip(r.reviewer.value)
  }

  ghost predicate ReviewsAccepted(v: Vocabulary, roles: seq<Role>, chain: seq<Review>, e: Expected)
    requires |chain| == |roles|
  {
    forall i | 0 <= i < |chain| :: ReviewAccepted(v, roles[i], i + 1, chain[i], e)
  }

  ghost predicate AuthorsApart(v: Vocabulary, chain: seq<Review>) {
    forall i, j | 0 <= i < j < |chain| :: Author(v, chain[i]) != Author(v, chain[j])
  }

  ghost predicate TimesAscend(v: Vocabulary, chain: seq<Review>) {
    forall i, j | 0 <= i < j < |chain| :: Earlier(v, chain[i], chain[j])
  }

  ghost predicate ChainAccepted(v: Vocabulary, roles: seq<Role>, chain: seq<Review>, e: Expected) {
    |chain| == |roles| && ReviewsAccepted(v, roles, chain, e) && AuthorsApart(v, chain) && TimesAscend(v, chain)
  }

  ghost predicate Earlier(v: Vocabulary, a: Review, b: Review) {
    Time(v, a).Some? && Time(v, b).Some? && Time(v, a).value < Time(v, b).value
  }

  function Normalized(v: Vocabulary, r: Review): Review {
    if r.candidateSha.None? || r.evidenceSha.None? then r
    else r.(candidateSha := Some(Lower(r.candidateSha.value)),
            evidenceSha := Some(Lower(r.evidenceSha.value)),
            evidencePath := Path(v, r))
  }

  function NormalizedChain(v: Vocabulary, chain: seq<Review>): seq<Review> {
    seq(|chain|, i requires 0 <= i < |chain| => Normalized(v, chain[i]))
  }

  /** What the caller's own arguments become; None if one of them is rejected. */
  function Expectation(v: Vocabulary, candidate: Option<string>, evidenceSha: Option<string>,
                       evidencePath: Option<string>): Option<Expected>
  {
    if candidate.Some? && candidate.value != "" && !IsSha(candidate.value) then None
    else if evidencePath.Some? && EvidencePath(v, evidencePath.value).None? then None
    else Some(Expected(
      if candidate.Some? && candidate.value != "" then Some(Lower(candidate.value)) else None,
      evidenceSha,
      if evidencePath.Some? then EvidencePath(v, evidencePath.value) else None))
  }

  /** The result of the validation. */
  ghost function Validated(v: Vocabulary, roles: seq<Role>, chain: seq<Review>, candidate: Option<string>,
                           evidenceSha: Option<string>, evidencePath: Option<string>): Result<seq<Review>, Rejection>
  {
    var e := Expectation(v, candidate, evidenceSha, evidencePath);
    if e.Some? && ChainAccepted(v, roles, chain, e.value) then Ok(NormalizedChain(v, chain)) else Err(ValueError)
  }

  function Authors(v: Vocabulary, chain: seq<Review>): set<string> {
    set i | 0 <= i < |chain| :: Author(v, chain[i])
  }

  lemma OneMoreReview(v: Vocabulary, roles: seq<Role>, chain: seq<Review>, i: nat, e: Expected)
    requires i < |chain| == |roles| && ReviewsAccepted(v, roles[..i], chain[..i], e)
    ensures ReviewsAccepted(v, roles[..i + 1], chain[..i + 1], e) <==> ReviewAccepted(v, roles[i], i + 1, chain[i], e)
  {
    var shorter, longer := chain[..i], chain[..i + 1];
    assert longer[i] == chain[i] && roles[..i + 1][i] == roles[i];
    forall k | 0 <= k < i
      ensures ReviewAccepted(v, roles[..i + 1][k], k + 1, longer[k], e)
    {
      assert ReviewAccepted(v, roles[..i][k], k + 1, shorter[k], e);
    }
  }

  lemma OneMoreAuthor(v: Vocabulary, chain: seq<Review>, i: nat)
    requires i < |chain| && AuthorsApart(v, chain[..i])
    ensures AuthorsApart(v, chain[..i + 1]) <==> Author(v, chain[i]) !in Authors(v, chain[..i])
  {
    var shorter, longer := chain[..i], chain[..i + 1];
    assert forall k | 0 <= k < i :: longer[k] == shorter[k];
    if Author(v, chain[i]) in Authors(v, shorter) {
      var k :| 0 <= k < |shorter| && Author(v, shorter[k]) == Author(v, chain[i]);
      assert Author(v, longer[k]) == Author(v, longer[i]);
    }
  }

  lemma OneMoreTime(v: Vocabulary, chain: seq<Review>, i: nat)
    requires i < |chain| && TimesAscend(v, chain[..i])
    ensures TimesAscend(v, chain[..i + 1]) <==> (i > 0 ==> Earlier(v, chain[i - 1], chain[i]))
  {
    var shorter, longer := chain[..i], chain[..i + 1];
    assert forall k | 0 <= k < i :: longer[k] == shorter[k];
    if TimesAscend(v, longer) && i > 0 {
      assert Earlier(v, longer[i - 1], longer[i]);
    }
    if i > 0 && Earlier(v, chain[i - 1], chain[i]) {
      forall k | 0 <= k < i
        ensures Earlier(v, longer[k], longer[i])
      {
        if k < i - 1 { assert Earlier(v, shorter[k], shorter[i - 1]); }
      }
    }
  }

  /** One more review is accepted when it is in order by itself, by a new author, and later than the last. */
  lemma OneMore(v: Vocabulary, roles: seq<Role>, chain: seq<Review>, i: nat, e: Expected)
    requires i < |chain| == |roles| && ChainAccepted(v, roles[..i], chain[..i], e)
    ensures ChainAccepted(v, roles[..i + 1], chain[..i + 1], e) <==>
              && ReviewAccepted(v, roles[i], i + 1, chain[i], e)
              && Author(v, chain[i]) !in Authors(v, chain[..i])
              && (i > 0 ==> Earlier(v, chain[i - 1], chain[i]))
  {
    OneMoreReview(v, roles, chain, i, e);
    OneMoreAuthor(v, chain, i);
    OneMoreTime(v, chain, i);
  }

  lemma PrefixAccepted(v: Vocabulary, roles: seq<Role>, chain: seq<Review>, i: nat, e: Expected)
    requires i <= |chain| && ChainAccepted(v, roles, chain, e)
    ensures ChainAccepted(v, roles[..i], chain[..i], e)
  {
  }

  /** The loop over the required roles, with the time and the reviewers seen so far. */
  method CheckReviews(v: Vocabulary, roles: seq<Role>, chain: seq<Review>, e: Expected)
    returns (normalized: Option<seq<Review>>)
    requires |chain| == |roles|
    ensures normalized.Some? <==> ChainAccepted(v, roles, chain, e)
    ensures normalized.Some? ==> normalized.value == NormalizedChain(v, chain)
  {
    var out: seq<Review> := [];
    var previousTime: Option<int> := None;
    var reviewers: set<string> := {};
    for i := 0 to |roles|
      invariant out == NormalizedChain(v, chain[..i])
      invariant previousTime == if i == 0 then None else Time(v, chain[i - 1])
      invariant i > 0 ==> previousTime.Some?
      invariant reviewers == Authors(v, chain[..i])
      invariant ChainAccepted(v, roles[..i], chain[..i], e)
    {
      var review := chain[i];
      OneMore(v, roles, chain, i, e);
      if ChainAccepted(v, roles, chain, e) { PrefixAccepted(v, roles, chain, i + 1, e); }
      if !ReviewAccepted(v, roles[i], i + 1, review, e) { return None; }
      var reviewer, reviewedAt := Author(v, review), Time(v, review);
      if reviewer in reviewers { return None; }
      if previousTime.Some? && reviewedAt.value <= previousTime.value { return None; }
      NextAuthor(v, chain, i);
      reviewers := reviewers + {reviewer};
      previousTime := reviewedAt;
      out := out + [Normalized(v, review)];
    }
    assert chain[..|chain|] == chain && roles[..|roles|] == roles;
    return Some(out);
  }

  lemma NextAuthor(v: Vocabulary, chain: seq<Review>, i: nat)
    requires i < |chain|
    ensures Authors(v, chain[..i + 1]) == Authors(v, chain[..i]) + {Author(v, chain[i])}
    ensures NormalizedChain(v, chain[..i + 1]) == NormalizedChain(v, chain[..i]) + [Normalized(v, chain[i])]
  {
    var longer, shorter := chain[..i + 1], chain[..i];
    assert forall k | 0 <= k < i :: longer[k] == shorter[k];
    forall x | x in Authors(v, shorter) + {Author(v, chain[i])}
      ensures x in Authors(v, longer)
    {
      if x == Author(v, chain[i]) {
        assert Author(v, longer[i]) == x;
      } else {
        var k :| 0 <= k < |shorter| && Author(v, shorter[k]) == x;
        assert Author(v, longer[k]) == x;
      }
    }
  }

  // ----- what an accepted chain promises, property by property -----

  /** A text that is there, is not blank, and has no placeholder word. */
  predicate Written(v: Vocabulary, text: Option<string>) {
    text.Some? && v.strip(text.value) != "" && !v.placeholder(text.value)
  }

  /** What the caller names can be used: an empty candidate counts as none. */
  predicate Usable(v: Vocabulary, candidate: Option<string>, evidencePath: Option<string>) {
    && (candidate.Some? && candidate.value != "" ==> IsSha(candidate.value))
    && (evidencePath.Some? ==> Written(v, evidencePath) && v.relative(evidencePath.value).Some?)
  }

  predicate InRoles(roles: seq<Role>, chain: seq<Review>) {
    |chain| == |roles| && forall i | 0 <= i < |chain| :: chain[i].role == roles[i] && chain[i].sequence == i + 1
  }

  predicate Approving(chain: seq<Review>) {
    forall i | 0 <= i < |chain| ::
      chain[i].approved && chain[i].criticalFindings == Some(0) && chain[i].importantFindings == Some(0)
  }

  /** Reviewers, scopes and commands are named, and no two reviewers are the same once stripped. */
  predicate Signed(v: Vocabulary, chain: seq<Review>) {
    && (forall i | 0 <= i < |chain| ::
          Written(v, chain[i].reviewer) && Written(v, chain[i].scope) && Written(v, chain[i].command))
    && (forall i, j | 0 <= i < j < |chain| && chain[i].reviewer.Some? && chain[j].reviewer.Some? ::
          v.strip(chain[i].reviewer.value) != v.strip(chain[j].reviewer.value))
  }

  /** Each review was made after all before it. */
  predicate Dated(v: Vocabulary, chain: seq<Review>) {
    && (forall i | 0 <= i < |chain| :: chain[i].reviewedAt.Some? && v.time(chain[i].reviewedAt.value).Some?)
    && (forall i, j | 0 <= i < j < |chain| && chain[i].reviewedAt.Some? && chain[j].reviewedAt.Some? ::
          var a, b := v.time(chain[i].reviewedAt.value), v.time(chain[j].reviewedAt.value);
          a.Some? && b.Some? ==> a.value < b.value)
  }

  predicate OfCandidate(chain: seq<Review>, candidate: Option<string>) {
    forall i | 0 <= i < |chain| ::
      && chain[i].candidateSha.Some? && IsSha(chain[i].candidateSha.value)
      && (candidate.Some? && candidate.value != "" ==> Lower(chain[i].candidateSha.value) == Lower(candidate.value))
  }

  /** All reviews are of one evidence note, where the caller names it. */
  predicate OfNote(v: Vocabulary, chain: seq<Review>, evidenceSha: Option<string>, evidencePath: Option<string>) {
    forall i | 0 <= i < |chain| ::
      && chain[i].evidenceSha.Some? && IsSha256(chain[i].evidenceSha.value)
      && (evidenceSha.Some? ==> Lower(chain[i].evidenceSha.value) == Lower(evidenceSha.value))
      && Written(v, chain[i].evidencePath) && v.relative(chain[i].evidencePath.value).Some?
      && (evidencePath.Some? ==> v.relative(chain[i].evidencePath.value) == v.relative(evidencePath.value))
  }

  predicate Vouched(v: Vocabulary, roles: seq<Role>, chain: seq<Review>, candidate: Option<string>,
                    evidenceSha: Option<string>, evidencePath: Option<string>)
  {
    && Usable(v, candidate, evidencePath)
    && InRoles(roles, chain) && Approving(chain) && Signed(v, chain) && Dated(v, chain)
    && OfCandidate(chain, candidate) && OfNote(v, chain, evidenceSha, evidencePath)
  }

  /** The reviews as they came, but for the case of the digests and the form of the path. */
  ghost predicate StoredFrom(v: Vocabulary, chain: seq<Review>, out: seq<Review>) {
    && |out| == |chain|
    && forall i | 0 <= i < |chain| ::
         chain[i].candidateSha.Some? && chain[i].evidenceSha.Some? && chain[i].evidencePath.Some?
         && out[i] == chain[i].(candidateSha := Some(Lower(chain[i].candidateSha.value)),
                                evidenceSha := Some(Lower(chain[i].evidenceSha.value)),
                                evidencePath := v.relative(chain[i].evidencePath.value))
  }

  lemma AcceptedVouches(v: Vocabulary, roles: seq<Role>, chain: seq<Review>, candidate: Option<string>,
                        evidenceSha: Option<string>, evidencePath: Option<string>)
    requires Validated(v, roles, chain, candidate, evidenceSha, evidencePath).Ok?
    ensures Vouched(v, roles, chain, candidate, evidenceSha, evidencePath)
  {
    var e := Expectation(v, candidate, evidenceSha, evidencePath).value;
    assert ReviewsAccepted(v, roles, chain, e);
    assert AuthorsApart(v, chain);
    assert TimesAscend(v, chain);
    AcceptedSigned(v, roles, chain, e);
    assert Usable(v, candidate, evidencePath) && InRoles(roles, chain) && Approving(chain);
    assert OfCandidate(chain, candidate);
    assert OfNote(v, chain, evidenceSha, evidencePath);
  }

  lemma AcceptedSigned(v: Vocabulary, roles: seq<Role>, chain: seq<Review>, e: Expected)
    requires ChainAccepted(v, roles, chain, e)
    ensures Signed(v, chain) && Dated(v, chain)
  {
    forall i, j | 0 <= i < j < |chain|
      ensures Earlier(v, chain[i], chain[j]) && Author(v, chain[i]) != Author(v, chain[j])
    {
    }
  }

  lemma AcceptedStored(v: Vocabulary, roles: seq<Role>, chain: seq<Review>, e: Expected)
    requires |chain| == |roles| && ReviewsAccepted(v, roles, chain, e)
    ensures StoredFrom(v, chain, NormalizedChain(v, chain))
  {
    forall i | 0 <= i < |chain|
      ensures ReviewAccepted(v, roles[i], i + 1, chain[i], e) && NormalizedChain(v, chain)[i] == Normalized(v, chain[i])
    {
    }
  }

  lemma VouchedAccepts(v: Vocabulary, roles: seq<Role>, chain: seq<Review>, candidate: Option<string>,
                       evidenceSha: Option<string>, evidencePath: Option<string>)
    requires Vouched(v, roles, chain, candidate, evidenceSha, evidencePath)
    ensures Validated(v, roles, chain, candidate, evidenceSha, evidencePath).Ok?
  {
    var e := Expectation(v, candidate, evidenceSha, evidencePath).value;
    assert ReviewsAccepted(v, roles, chain, e);
    assert AuthorsApart(v, chain);
    assert TimesAscend(v, chain);
  }

  /** The rules for each review by itself, and for one review after another, are those properties. */
  lemma AcceptedExactly(v: Vocabulary, roles: seq<Role>, chain: seq<Review>, candidate: Option<string>,
                        evidenceSha: Option<string>, evidencePath: Option<string>)
    ensures var r := Validated(v, roles, chain, candidate, evidenceSha, evidencePath);
      && (r.Ok? <==> Vouched(v, roles, chain, candidate, evidenceSha, evidencePath))
      && (r.Ok? ==> StoredFrom(v, chain, r.value))
  {
    if Validated(v, roles, chain, candidate, evidenceSha, evidencePath).Ok? {
      AcceptedVouches(v, roles, chain, candidate, evidenceSha, evidencePath);
      AcceptedStored(v, roles, chain, Expectation(v, candidate, evidenceSha, evidencePath).value);
    } else if Vouched(v, roles, chain, candidate, evidenceSha, evidencePath) {
      VouchedAccepts(v, roles, chain, candidate, evidenceSha, evidencePath);
    }
  }

  /**
   validate_review_chain. It accepts exactly the chains whose reviews follow the roles, approve
   without findings, are signed by different reviewers one after the other, and are of the candidate
   and of the evidence note that the caller names.
   */
  method ValidateReviewChain(v: Vocabulary, roles: seq<Role>, chain: seq<Review>, candidate: Option<string>,
                             evidenceSha: Option<string>, evidencePath: Option<string>)
    returns (r: Result<seq<Review>, Rejection>)
    ensures r == Validated(v, roles, chain, candidate, evidenceSha, evidencePath)
    ensures r.Ok? <==> Vouched(v, roles, chain, candidate, evidenceSha, evidencePath)
    ensures r.Ok? ==> StoredFrom(v, chain, r.value)
  {
    AcceptedExactly(v, roles, chain, candidate, evidenceSha, evidencePath);
    if |chain| != |roles| { return Err(ValueError); }
    var expectation := Expectation(v, candidate, evidenceSha, evidencePath);
    if expectation.None? { return Err(ValueError); }
    var normalized := CheckReviews(v, roles, chain, expectation.value);
    return if normalized.Some? then Ok(normalized.value) else Err(ValueError);
  }

  // ----- checking a stored chain again -----

  /** Every stored evidence path is accepted when it is normalized once more. */
  ghost predicate PathsAccepted(v: Vocabulary, chain: seq<Review>) {
    forall i | 0 <= i < |chain| :: Path(v, chain[i]).Some?
  }

  /** Every stored evidence path is its own normal form. */
  ghost predicate PathsFixed(v: Vocabulary, chain: seq<Review>) {
    forall i | 0 <= i < |chain| :: chain[i].evidencePath.Some? && Path(v, chain[i]) == chain[i].evidencePath
  }

  /** All that a check against the candidate asks of a review, but for its evidence path. */
  predicate StoredReview(v: Vocabulary, role: Role, sequence: int, r: Review, candidate: string) {
    && r.role == role && r.sequence == sequence
    && Concrete(v, r.reviewer)
    && r.approved && r.criticalFindings == Some(0) && r.importantFindings == Some(0)
    && Time(v, r).Some?
    && r.candidateSha == Some(candidate)
    && r.evidenceSha.Some? && IsSha256(r.evidenceSha.value) && Lower(r.evidenceSha.value) == r.evidenceSha.value
    && r.evidencePath.Some?
    && Concrete(v, r.scope) && Concrete(v, r.command)
  }

  /** A chain as the validator returns it. */
  ghost predicate StoredChain(v: Vocabulary, roles: seq<Role>, chain: seq<Review>, candidate: string) {
    && IsSha(candidate) && Lower(candidate) == candidate
    && |chain| == |roles|
    && (forall i | 0 <= i < |chain| :: StoredReview(v, roles[i], i + 1, chain[i], candidate))
    && AuthorsApart(v, chain) && TimesAscend(v, chain)
  }

  lemma NormalizedStored(v: Vocabulary, role: Role, sequence: int, r: Review, e: Expected)
    requires ReviewAccepted(v, role, sequence, r, e) && e.candidate.Some?
    ensures StoredReview(v, role, sequence, Normalized(v, r), e.candidate.value)
    ensures Author(v, Normalized(v, r)) == Author(v, r) && Time(v, Normalized(v, r)) == Time(v, r)
  {
    LowerIdempotent(r.evidenceSha.value);
  }

  lemma ValidatedIsStored(v: Vocabulary, roles: seq<Role>, chain: seq<Review>, candidate: string,
                          evidenceSha: Option<string>, evidencePath: Option<string>, out: seq<Review>)
    requires candidate != ""
    requires Validated(v, roles, chain, Some(candidate), evidenceSha, evidencePath) == Ok(out)
    ensures StoredChain(v, roles, out, Lower(candidate))
  {
    var e := Expectation(v, Some(candidate), evidenceSha, evidencePath).value;
    LowerIdempotent(candidate);
    forall i | 0 <= i < |out|
      ensures StoredReview(v, roles[i], i + 1, out[i], Lower(candidate))
      ensures Author(v, out[i]) == Author(v, chain[i]) && Time(v, out[i]) == Time(v, chain[i])
    {
      NormalizedStored(v, roles[i], i + 1, chain[i], e);
    }
    forall i, j | 0 <= i < j < |out|
      ensures Earlier(v, out[i], out[j])
    {
      assert Earlier(v, chain[i], chain[j]);
    }
  }

  /**
   What is stored of an accepted chain: the sequences 1..N in the order of the roles, different
   reviewers and increasing times, and the candidate and the evidence note that the caller named.
   */
  lemma AcceptedChain(v: Vocabulary, roles: seq<Role>, chain: seq<Review>, candidate: Option<string>,
                      evidenceSha: Option<string>, evidencePath: Option<string>)
    requires Validated(v, roles, chain, candidate, evidenceSha, evidencePath).Ok?
    ensures var out := Validated(v, roles, chain, candidate, evidenceSha, evidencePath).value;
      && InRoles(roles, out) && Approving(out) && Signed(v, out) && Dated(v, out)
      && (candidate.Some? && candidate.value != "" ==>
            forall i | 0 <= i < |out| :: out[i].candidateSha == Some(Lower(candidate.value)))
      && (evidenceSha.Some? ==> forall i | 0 <= i < |out| :: out[i].evidenceSha == Some(Lower(evidenceSha.value)))
      && (evidencePath.Some? ==> forall i | 0 <= i < |out| :: out[i].evidencePath == v.relative(evidencePath.value))
  {
    AcceptedExactly(v, roles, chain, candidate, evidenceSha, evidencePath);
  }

  lemma StoredReviewAgain(v: Vocabulary, role: Role, sequence: int, r: Review, candidate: string)
    requires IsSha(candidate) && Lower(candidate) == candidate && StoredReview(v, role, sequence, r, candidate)
    ensures ReviewAccepted(v, role, sequence, r, Expected(Some(candidate), None, None)) <==> Path(v, r).Some?
    ensures Normalized(v, r) == r.(evidencePath := Path(v, r))
  {
  }

  /**
   A stored chain passes a later check against its candidate exactly when its evidence paths are
   accepted once more, and comes back as it stands exactly when they are normal.
   */
  lemma StoredChainAgain(v: Vocabulary, roles: seq<Role>, chain: seq<Review>, candidate: string)
    requires StoredChain(v, roles, chain, candidate)
    ensures Validated(v, roles, chain, Some(candidate), None, None).Ok? <==> PathsAccepted(v, chain)
    ensures Validated(v, roles, chain, Some(candidate), None, None) == Ok(chain) <==> PathsFixed(v, chain)
  {
    var e := Expected(Some(candidate), None, None);
    assert Expectation(v, Some(candidate), None, None) == Some(e);
    forall i | 0 <= i < |chain|
      ensures ReviewAccepted(v, roles[i], i + 1, chain[i], e) <==> Path(v, chain[i]).Some?
      ensures Normalized(v, chain[i]) == chain[i] <==> Path(v, chain[i]) == chain[i].evidencePath
    {
      StoredReviewAgain(v, roles[i], i + 1, chain[i], candidate);
    }
    var out := NormalizedChain(v, chain);
    assert forall i | 0 <= i < |chain| :: Normalized(v, chain[i]) == out[i];
    assert out == chain <==> forall i | 0 <= i < |chain| :: out[i] == chain[i];
  }

  /** The evidence path that the caller names, as every review of an accepted chain has it. */
  lemma StoredPath(v: Vocabulary, roles: seq<Role>, chain: seq<Review>, candidate: string,
                   evidenceSha: Option<string>, evidencePath: string, out: seq<Review>)
    requires Validated(v, roles, chain, Some(candidate), evidenceSha, Some(evidencePath)) == Ok(out)
    ensures EvidencePath(v, evidencePath).Some?
    ensures forall i | 0 <= i < |out| :: out[i].evidencePath == EvidencePath(v, evidencePath)
  {
    var e := Expectation(v, Some(candidate), evidenceSha, Some(evidencePath)).value;
    forall i | 0 <= i < |out|
      ensures out[i].evidencePath == EvidencePath(v, evidencePath)
    {
      assert ReviewAccepted(v, roles[i], i + 1, chain[i], e) && out[i] == Normalized(v, chain[i]);
    }
  }

  /** The stored form of an evidence path is normal exactly when it has no outer white space and no placeholder. */
  lemma PathFixed(v: Vocabulary, text: string, p: string)
    requires LawfulPaths(v) && EvidencePath(v, text) == Some(p)
    ensures EvidencePath(v, p) == Some(p) <==> v.strip(p) == p && !v.placeholder(p)
  {
    assert NormalPath(v, p);
  }

  /**
   For a chain accepted under an evidence path: later checks accept it exactly when that path, once
   normalized, is accepted again, and give it back unchanged exactly when the normalized path has
   no outer white space and no placeholder.
   */
  lemma StoredChainRevalidates(v: Vocabulary, roles: seq<Role>, chain: seq<Review>, candidate: string,
                               evidenceSha: Option<string>, evidencePath: string, out: seq<Review>)
    requires LawfulPaths(v) && candidate != "" && roles != []
    requires Validated(v, roles, chain, Some(candidate), evidenceSha, Some(evidencePath)) == Ok(out)
    ensures EvidencePath(v, evidencePath).Some?
    ensures var p := EvidencePath(v, evidencePath).value;
            var again := Validated(v, roles, out, Some(Lower(candidate)), None, None);
      && (again.Ok? <==> EvidencePath(v, p).Some?)
      && (again == Ok(out) <==> v.strip(p) == p && !v.placeholder(p))
  {
    ValidatedIsStored(v, roles, chain, candidate, evidenceSha, Some(evidencePath), out);
    StoredChainAgain(v, roles, out, Lower(candidate));
    StoredPath(v, roles, chain, candidate, evidenceSha, evidencePath, out);
    var p := EvidencePath(v, evidencePath).value;
    PathFixed(v, evidencePath, p);
    assert forall i | 0 <= i < |out| :: Path(v, out[i]) == EvidencePath(v, p);
    assert out[0].evidencePath == Some(p) && Path(v, out[0]) == EvidencePath(v, p);
  }

  // ----- an evidence path that is not accepted twice -----

  function Space(): char -> bool {
    c => c == ' '
  }

  function PlainVocabulary(): Vocabulary {
    Vocabulary(Space(), s => Strip(Space(), s), s => Posix(s), s => RelativePath(Space(), s), s => false, s => Some(|s|))
  }

  predicate PlainText(v: Vocabulary, s: string) {
    v.strip(s) == s && !v.placeholder(s) && v.time(s) == Some(|s|)
  }

  predicate PlainPath(v: Vocabulary, s: string) {
    PlainText(v, s) && v.relative(s) == Some(s) && v.posix(s) == Some(s)
  }

  /** What the samples use of a vocabulary. */
  ghost predicate SampleTexts(v: Vocabulary) {
    && PlainText(v, "x") && PlainText(v, "xx") && PlainText(v, "xxx") && PlainText(v, "all") && PlainText(v, "check")
    && PlainPath(v, "note") && PlainPath(v, "policy") && PlainPath(v, "a")
    && PlainText(v, "./ a") && v.relative("./ a") == Some(" a")
    && v.posix(" a") == Some(" a") && v.relative(" a") == Some("a") && v.strip(" a") == "a" && !v.placeholder(" a")
    && PlainText(v, "./ /") && v.relative("./ /") == Some(" ")
    && v.relative(" ") == None && v.strip(" ") == ""
  }

  lemma PlainTextIs(s: string)
    requires s != "" && s[0] != ' ' && s[|s| - 1] != ' '
    ensures PlainText(PlainVocabulary(), s)
  {
    StripNothing(Space(), s);
  }

  lemma PlainPathIs(s: string)
    requires Solid(s) && s != ".." && '\\' !in s && s[0] != ' ' && s[|s| - 1] != ' '
    ensures PlainPath(PlainVocabulary(), s)
  {
    PlainTextIs(s);
    PlainName(Space(), s);
  }

  lemma BlankPathsAre()
    ensures var v := PlainVocabulary();
      && v.relative("./ a") == Some(" a") && v.posix(" a") == Some(" a")
      && v.relative(" a") == Some("a") && v.strip(" a") == "a"
      && v.relative("./ /") == Some(" ") && v.relative(" ") == None && v.strip(" ") == ""
  {
    BlankName(Space());
    BlankPath(Space());
    StripBlank(Space());
  }

  lemma PlainTexts()
    ensures SampleTexts(PlainVocabulary())
  {
    PlainTextIs("x");
    PlainTextIs("xx");
    PlainTextIs("xxx");
    PlainTextIs("all");
    PlainTextIs("check");
    PlainPathIs("note");
    PlainPathIs("policy");
    PlainPathIs("a");
    PlainTextIs("./ a");
    PlainTextIs("./ /");
    BlankPathsAre();
  }

  lemma PlainLawful()
    ensures LawfulPaths(PlainVocabulary())
  {
    PythonPathsLawful(PlainVocabulary());
  }

  /** "./ /" is stored as a blank, which every later check refuses; "./ a" becomes " a", and then "a". */
  lemma UnstablePaths(v: Vocabulary)
    requires SampleTexts(v)
    ensures EvidencePath(v, "./ /") == Some(" ") && EvidencePath(v, " ") == None
    ensures EvidencePath(v, "./ a") == Some(" a") && EvidencePath(v, " a") == Some("a")
  {
  }

  function SampleReview(role: Role, sequence: int, name: string, sha: string, digest: string, path: string): Review {
    Review(role, sequence, Some(name), true, Some(0), Some(0), Some(name), Some(sha), Some(digest), Some(path),
           Some("all"), Some("check"))
  }

  /** Three reviews, written by different authors at the times 1, 2 and 3. */
  function SampleChain(sha: string, digest: string, path: string): seq<Review> {
    [SampleReview(SpecificationAuthority, 1, "x", sha, digest, path),
     SampleReview(PlanExecutability, 2, "xx", sha, digest, path),
     SampleReview(OfficialFramework, 3, "xxx", sha, digest, path)]
  }

  lemma SampleReviewAccepted(v: Vocabulary, role: Role, sequence: int, name: string, sha: string, digest: string, path: string)
    requires IsSha(sha) && Lower(sha) == sha && IsSha256(digest) && EvidencePath(v, path).Some?
    requires PlainText(v, name) && name != "" && PlainText(v, "all") && PlainText(v, "check")
    ensures var review := SampleReview(role, sequence, name, sha, digest, path);
      && ReviewAccepted(v, role, sequence, review, Expected(Some(sha), Some(digest), EvidencePath(v, path)))
      && Author(v, review) == name && Time(v, review) == Some(|name|)
  {
  }

  lemma SampleReviewsAccepted(v: Vocabulary, sha: string, digest: string, path: string)
    requires IsSha(sha) && Lower(sha) == sha && IsSha256(digest) && SampleTexts(v) && EvidencePath(v, path).Some?
    ensures ReviewsAccepted(v, REVIEW_ROLES, SampleChain(sha, digest, path),
                            Expected(Some(sha), Some(digest), EvidencePath(v, path)))
    ensures forall i | 0 <= i < 3 :: var review := SampleChain(sha, digest, path)[i];
      |Author(v, review)| == i + 1 && Time(v, review) == Some(i + 1)
  {
    SampleReviewAccepted(v, SpecificationAuthority, 1, "x", sha, digest, path);
    SampleReviewAccepted(v, PlanExecutability, 2, "xx", sha, digest, path);
    SampleReviewAccepted(v, OfficialFramework, 3, "xxx", sha, digest, path);
  }

  lemma SampleChainAccepted(v: Vocabulary, sha: string, digest: string, path: string)
    requires IsSha(sha) && Lower(sha) == sha && IsSha256(digest) && SampleTexts(v) && EvidencePath(v, path).Some?
    ensures var chain := SampleChain(sha, digest, path);
      && Validated(v, REVIEW_ROLES, chain, Some(sha), Some(digest), Some(path)) == Ok(NormalizedChain(v, chain))
      && Time(v, NormalizedChain(v, chain)[2]) == Some(3)
  {
    var chain := SampleChain(sha, digest, path);
    SampleReviewsAccepted(v, sha, digest, path);
    assert AuthorsApart(v, chain) && TimesAscend(v, chain);
    assert NormalizedChain(v, chain)[2] == Normalized(v, chain[2]);
  }

  /** With the evidence path "./ /" a chain is accepted, and what is stored of it is refused by every later check. */
  lemma StoredChainRefused(sha: string, digest: string)
    requires IsSha(sha) && Lower(sha) == sha && IsSha256(digest)
    ensures var v, chain := PlainVocabulary(), SampleChain(sha, digest, "./ /");
      && Validated(v, REVIEW_ROLES, chain, Some(sha), Some(digest), Some("./ /")).Ok?
      && var out := Validated(v, REVIEW_ROLES, chain, Some(sha), Some(digest), Some("./ /")).value;
         Validated(v, REVIEW_ROLES, out, Some(sha), None, None).Err?
  {
    PlainTexts();
    PlainLawful();
    StoredChainRefusedUnder(PlainVocabulary(), sha, digest);
  }

  lemma StoredChainRefusedUnder(v: Vocabulary, sha: string, digest: string)
    requires IsSha(sha) && Lower(sha) == sha && IsSha256(digest) && SampleTexts(v) && LawfulPaths(v)
    ensures var chain := SampleChain(sha, digest, "./ /");
      && Validated(v, REVIEW_ROLES, chain, Some(sha), Some(digest), Some("./ /")).Ok?
      && var out := Validated(v, REVIEW_ROLES, chain, Some(sha), Some(digest), Some("./ /")).value;
         Validated(v, REVIEW_ROLES, out, Some(sha), None, None).Err?
  {
    UnstablePaths(v);
    SampleChainAccepted(v, sha, digest, "./ /");
    var chain := SampleChain(sha, digest, "./ /");
    StoredChainRevalidates(v, REVIEW_ROLES, chain, sha, Some(digest), "./ /", NormalizedChain(v, chain));
  }
}
