/**
 Migration 0007: the rows of `interrupt_inbox` are grouped into `interrupt_pauses`.

 `LegacySchema` is what revisions 0001 and 0006 already enforce, `Preflight` is what
 the migration checks before it starts, and `PauseSchema` collects the constraints
 that it adds. The main theorem is that the first two imply the third, for all
 tables, so an upgrade that gets past the preflight checks cannot fail later.
 */
module InterruptPauses {
  import opened Wrappers
  import opened CodeUnits
  import opened Aggregates

  type Id = nat

  datatype Scope = Scope(tenant: Id, workspace: Id, owner: Id, task: Id)

  datatype Status = Pending | Responding | Resolved | Expired | ResumeFailed | Cancelled

  datatype InboxRow = InboxRow(
    scope: Scope, run: Id, interrupt: Text, namespace: Text, checkpoint: Text,
    status: Status, expiresAt: Option<int>, createdAt: int, updatedAt: int)

  datatype RunRow = RunRow(scope: Scope, thread: Id, resumeOf: Option<Id>, createdAt: int)

  datatype CommandStatus = CommandPending | CommandDispatching | CommandSettled

  datatype CommandRow = CommandRow(isRespond: bool, status: CommandStatus)

  /** Threads map to their official thread identity. */
  datatype Tables = Tables(
    inbox: map<Id, InboxRow>,
    runs: map<Id, RunRow>,
    threads: map<Id, Option<Text>>,
    commands: map<Id, CommandRow>)

  datatype Member = Member(checkpoint: Text, interrupt: Text, namespace: Text)

  /** `members` is the list inside the document of which the migration stores the hash. */
  datatype PauseRow = PauseRow(
    scope: Scope, run: Id, version: int, rootThread: Option<Text>, namespace: Text, checkpoint: Text,
    members: seq<Member>, status: Status, expiresAt: Option<int>, resumeRun: Option<Id>,
    createdAt: int, updatedAt: int)

  predicate IsActive(s: Status) {
    s == Pending || s == Responding
  }

  // ----- what the earlier revisions enforce -----

  ghost predicate LegacySchema(t: Tables) {
    && InboxRunScope(t)
    && (forall r :: r in t.runs ==> t.runs[r].thread in t.threads)
    && ResumeLineage(t)
    && (forall i :: i in t.inbox ==> t.inbox[i].status != ResumeFailed)
  }

  ghost predicate InboxRunScope(t: Tables) {
    forall i :: i in t.inbox ==> t.inbox[i].run in t.runs && t.runs[t.inbox[i].run].scope == t.inbox[i].scope
  }

  /** `uq_runs_resume_of_run`, `ck_runs_resume_not_self` and `fk_runs_resume_scope`. */
  ghost predicate ResumeLineage(t: Tables) {
    && (forall r, s :: r in t.runs && s in t.runs && r != s && t.runs[r].resumeOf.Some?
                       ==> t.runs[r].resumeOf != t.runs[s].resumeOf)
    && (forall r :: r in t.runs && t.runs[r].resumeOf.Some? ==>
          var origin := t.runs[r].resumeOf.value;
          origin != r && origin in t.runs && t.runs[origin].scope == t.runs[r].scope)
  }

  // ----- the preflight checks -----

  datatype Check =
    | ActiveRespondCommand
    | MultipleActivePauses
    | MultipleCheckpoints
    | NonRootNamespace
    | NoOfficialThread
    | MixedStatuses
    | DuplicateMember

  predicate NoActiveRespond(t: Tables) {
    forall c | c in t.commands :: !(t.commands[c].isRespond && t.commands[c].status != CommandSettled)
  }

  function ActiveRuns(t: Tables, scope: Scope): set<Id> {
    set i | i in t.inbox && t.inbox[i].scope == scope && IsActive(t.inbox[i].status) :: t.inbox[i].run
  }

  function Checkpoints(t: Tables, run: Id): set<(Text, Text)> {
    set i | i in t.inbox && t.inbox[i].run == run :: (t.inbox[i].namespace, t.inbox[i].checkpoint)
  }

  function Statuses(t: Tables, run: Id, ns: Text, checkpoint: Text): set<Status> {
    set i | i in t.inbox && t.inbox[i].run == run && t.inbox[i].namespace == ns && t.inbox[i].checkpoint == checkpoint
      :: t.inbox[i].status
  }

  function SameMembers(t: Tables, row: InboxRow): set<Id> {
    set i | i in t.inbox && t.inbox[i].run == row.run && t.inbox[i].namespace == row.namespace
            && t.inbox[i].checkpoint == row.checkpoint && t.inbox[i].interrupt == row.interrupt
  }

  predicate OfficialThread(t: Tables, row: InboxRow) {
    row.run in t.runs && t.runs[row.run].thread in t.threads ==> t.threads[t.runs[row.run].thread].Some?
  }

  predicate Passes(t: Tables, c: Check) {
    match c
    case ActiveRespondCommand => NoActiveRespond(t)
    case MultipleActivePauses => forall i | i in t.inbox :: |ActiveRuns(t, t.inbox[i].scope)| <= 1
    case MultipleCheckpoints => forall i | i in t.inbox :: |Checkpoints(t, t.inbox[i].run)| <= 1
    case NonRootNamespace => forall i | i in t.inbox :: t.inbox[i].namespace == []
    case NoOfficialThread => forall i | i in t.inbox :: OfficialThread(t, t.inbox[i])
    case MixedStatuses =>
      forall i | i in t.inbox :: |Statuses(t, t.inbox[i].run, t.inbox[i].namespace, t.inbox[i].checkpoint)| <= 1
    case DuplicateMember => forall i | i in t.inbox :: |SameMembers(t, t.inbox[i])| <= 1
  }

  const CHECKS: seq<Check> := [
    ActiveRespondCommand, MultipleActivePauses, MultipleCheckpoints, NonRootNamespace,
    NoOfficialThread, MixedStatuses, DuplicateMember]

  ghost predicate Preflight(t: Tables) {
    forall c :: Passes(t, c)
  }

  // ----- what the checks ask, row by row -----

  /** Two rows at one checkpoint of one run. */
  predicate SameCheckpoint(a: InboxRow, b: InboxRow) {
    a.run == b.run && a.namespace == b.namespace && a.checkpoint == b.checkpoint
  }

  /** A check over single rows and over pairs of rows, without the counting of the queries. */
  predicate Meets(t: Tables, c: Check) {
    match c
    case ActiveRespondCommand =>
      forall k | k in t.commands && t.commands[k].isRespond ::
        t.commands[k].status != CommandPending && t.commands[k].status != CommandDispatching
    case MultipleActivePauses =>
      forall i, j | i in t.inbox && j in t.inbox && t.inbox[i].scope == t.inbox[j].scope ::
        t.inbox[i].status in {Pending, Responding} && t.inbox[j].status in {Pending, Responding} ==>
          t.inbox[i].run == t.inbox[j].run
    case MultipleCheckpoints =>
      forall i, j | i in t.inbox && j in t.inbox && t.inbox[i].run == t.inbox[j].run :: SameCheckpoint(t.inbox[i], t.inbox[j])
    case NonRootNamespace => forall i | i in t.inbox :: t.inbox[i].namespace == []
    case NoOfficialThread =>
      forall i | i in t.inbox && t.inbox[i].run in t.runs && t.runs[t.inbox[i].run].thread in t.threads ::
        t.threads[t.runs[t.inbox[i].run].thread] != None
    case MixedStatuses =>
      forall i, j | i in t.inbox && j in t.inbox && SameCheckpoint(t.inbox[i], t.inbox[j]) ::
        t.inbox[i].status == t.inbox[j].status
    case DuplicateMember =>
      forall i, j | i in t.inbox && j in t.inbox && SameCheckpoint(t.inbox[i], t.inbox[j]) ::
        t.inbox[i].interrupt == t.inbox[j].interrupt ==> i == j
  }

  lemma AllOne<T>(s: set<T>, x: T)
    requires forall y | y in s :: y == x
    ensures |s| <= 1
  {
    assert s == {} || s == {x};
  }

  lemma ActivePausesExactly(t: Tables)
    ensures Passes(t, MultipleActivePauses) <==> Meets(t, MultipleActivePauses)
  {
    if Passes(t, MultipleActivePauses) {
      forall i, j | i in t.inbox && j in t.inbox && t.inbox[i].scope == t.inbox[j].scope
        && IsActive(t.inbox[i].status) && IsActive(t.inbox[j].status)
        ensures t.inbox[i].run == t.inbox[j].run
      {
        AtMostOne(ActiveRuns(t, t.inbox[i].scope), t.inbox[i].run, t.inbox[j].run);
      }
    }
    if Meets(t, MultipleActivePauses) {
      forall i | i in t.inbox
        ensures |ActiveRuns(t, t.inbox[i].scope)| <= 1
      {
        var runs := ActiveRuns(t, t.inbox[i].scope);
        if runs != {} {
          var x := MemberOf(runs);
          AllOne(runs, x);
        }
      }
    }
  }

  lemma CheckpointsExactly(t: Tables)
    ensures Passes(t, MultipleCheckpoints) <==> Meets(t, MultipleCheckpoints)
  {
    if Passes(t, MultipleCheckpoints) {
      forall i, j | i in t.inbox && j in t.inbox && t.inbox[i].run == t.inbox[j].run
        ensures SameCheckpoint(t.inbox[i], t.inbox[j])
      {
        AtMostOne(Checkpoints(t, t.inbox[i].run), (t.inbox[i].namespace, t.inbox[i].checkpoint),
                  (t.inbox[j].namespace, t.inbox[j].checkpoint));
      }
    }
    if Meets(t, MultipleCheckpoints) {
      forall i | i in t.inbox
        ensures |Checkpoints(t, t.inbox[i].run)| <= 1
      {
        AllOne(Checkpoints(t, t.inbox[i].run), (t.inbox[i].namespace, t.inbox[i].checkpoint));
      }
    }
  }

  lemma StatusesExactly(t: Tables)
    ensures Passes(t, MixedStatuses) <==> Meets(t, MixedStatuses)
  {
    if Passes(t, MixedStatuses) {
      forall i, j | i in t.inbox && j in t.inbox && SameCheckpoint(t.inbox[i], t.inbox[j])
        ensures t.inbox[i].status == t.inbox[j].status
      {
        AtMostOne(Statuses(t, t.inbox[i].run, t.inbox[i].namespace, t.inbox[i].checkpoint),
                  t.inbox[i].status, t.inbox[j].status);
      }
    }
    if Meets(t, MixedStatuses) {
      forall i | i in t.inbox
        ensures |Statuses(t, t.inbox[i].run, t.inbox[i].namespace, t.inbox[i].checkpoint)| <= 1
      {
        AllOne(Statuses(t, t.inbox[i].run, t.inbox[i].namespace, t.inbox[i].checkpoint), t.inbox[i].status);
      }
    }
  }

  lemma MembersExactly(t: Tables)
    ensures Passes(t, DuplicateMember) <==> Meets(t, DuplicateMember)
  {
    if Passes(t, DuplicateMember) {
      forall i, j | i in t.inbox && j in t.inbox && SameCheckpoint(t.inbox[i], t.inbox[j])
        && t.inbox[i].interrupt == t.inbox[j].interrupt
        ensures i == j
      {
        AtMostOne(SameMembers(t, t.inbox[i]), i, j);
      }
    }
    if Meets(t, DuplicateMember) {
      forall i | i in t.inbox
        ensures |SameMembers(t, t.inbox[i])| <= 1
      {
        AllOne(SameMembers(t, t.inbox[i]), i);
      }
    }
  }

  /** Each query finds no row exactly when what it asks holds of all rows and all pairs of rows. */
  lemma PassesExactly(t: Tables, c: Check)
    ensures Passes(t, c) <==> Meets(t, c)
  {
    match c
    case MultipleActivePauses => ActivePausesExactly(t);
    case MultipleCheckpoints => CheckpointsExactly(t);
    case MixedStatuses => StatusesExactly(t);
    case DuplicateMember => MembersExactly(t);
    case ActiveRespondCommand =>
    case NonRootNamespace =>
    case NoOfficialThread =>
  }

  // ----- the grouping query -----

  /** One row of the join: an inbox row and, if there is one, a run that resumes its run. */
  datatype Join = Join(inbox: Id, resumed: Option<Id>)

  datatype Group = Group(
    scope: Scope, run: Id, official: Option<Text>, thread: Id, namespace: Text, checkpoint: Text)

  predicate Matched(t: Tables, i: Id)
    requires i in t.inbox
  {
    var row := t.inbox[i];
    row.run in t.runs && t.runs[row.run].scope == row.scope && t.runs[row.run].thread in t.threads
  }

  function GroupOf(t: Tables, i: Id): Group
    requires i in t.inbox && Matched(t, i)
  {
    var row, run := t.inbox[i], t.runs[t.inbox[i].run];
    Group(row.scope, row.run, t.threads[run.thread], run.thread, row.namespace, row.checkpoint)
  }

  function Groups(t: Tables): set<Group> {
    set i | i in t.inbox && Matched(t, i) :: GroupOf(t, i)
  }

  /** The left join: all the runs that resume the run of `i`, or one row without a run. */
  function ResumedBy(t: Tables, run: Id): set<Id> {
    set r | r in t.runs && t.runs[r].resumeOf == Some(run)
  }

  function InGroup(t: Tables, g: Group): set<Id> {
    set i | i in t.inbox && Matched(t, i) && GroupOf(t, i) == g
  }

  function Rows(t: Tables, g: Group): set<Join> {
    if ResumedBy(t, g.run) == {} then
      set i | i in InGroup(t, g) :: Join(i, None)
    else
      set i, r | i in InGroup(t, g) && r in ResumedBy(t, g.run) :: Join(i, Some(r))
  }


  // ----- the columns of a pause -----

  /** array_agg(id ORDER BY created, id)[1] */
  function FirstBy(ids: set<Id>, created: map<Id, int>): (first: Id)
    requires ids != {} && ids <= created.Keys
    ensures first in ids
    ensures forall i | i in ids :: created[first] < created[i] || (created[first] == created[i] && first <= i)
  {
    var times := set i | i in ids :: created[i];
    assert times != {} by { var i := MemberOf(ids); assert created[i] in times; }
    assert forall i | i in ids :: created[i] in times;
    var early := set i | i in ids && created[i] == Least(times);
    assert early != {} by { var i :| i in ids && created[i] == Least(times); assert i in early; }
    assert forall i | i in ids && created[i] == Least(times) :: i in early;
    Least(early)
  }

  function InboxCreated(t: Tables): map<Id, int> {
    map i | i in t.inbox :: t.inbox[i].createdAt
  }

  function RunCreated(t: Tables): map<Id, int> {
    map r | r in t.runs :: t.runs[r].createdAt
  }

  function MemberFor(t: Tables, j: Join): Member
    requires j.inbox in t.inbox
  {
    var row := t.inbox[j.inbox];
    Member(row.checkpoint, row.interrupt, row.namespace)
  }

  function Rank(o: Option<Id>): int {
    if o.None? then -1 else o.value
  }

  /** The order of string_agg, with ties, which SQL leaves open, broken by the row. */
  predicate JoinBefore(t: Tables, j: Join, k: Join)
    requires j.inbox in t.inbox && k.inbox in t.inbox
  {
    var a, b := t.inbox[j.inbox].interrupt, t.inbox[k.inbox].interrupt;
    Less(a, b) || (a == b && (j.inbox < k.inbox || (j.inbox == k.inbox && Rank(j.resumed) <= Rank(k.resumed))))
  }

  predicate IsFirstJoin(t: Tables, rows: set<Join>, j: Join)
    requires forall k | k in rows :: k.inbox in t.inbox
  {
    j in rows && forall k | k in rows :: JoinBefore(t, j, k)
  }

  lemma JoinOrder(t: Tables, i: Join, j: Join, k: Join)
    requires i.inbox in t.inbox && j.inbox in t.inbox && k.inbox in t.inbox
    ensures JoinBefore(t, i, j) || JoinBefore(t, j, i)
    ensures JoinBefore(t, i, j) && JoinBefore(t, j, i) ==> i == j
    ensures JoinBefore(t, i, j) && JoinBefore(t, j, k) ==> JoinBefore(t, i, k)
  {
    var a, b, c := t.inbox[i.inbox].interrupt, t.inbox[j.inbox].interrupt, t.inbox[k.inbox].interrupt;
    LessTotal(a, b);
    LessIrreflexive(a);
    if Less(a, b) && Less(b, a) { LessTransitive(a, b, a); }
    if Less(a, b) && Less(b, c) { LessTransitive(a, b, c); }
  }

  lemma {:induction false} FirstJoinExists(t: Tables, rows: set<Join>) returns (j: Join)
    requires rows != {} && forall k | k in rows :: k.inbox in t.inbox
    ensures IsFirstJoin(t, rows, j)
    decreases |rows|
  {
    j := MemberOf(rows);
    JoinOrder(t, j, j, j);
    var rest := rows - {j};
    assert rows == rest + {j};
    if rest != {} {
      var i := FirstJoinExists(t, rest);
      JoinOrder(t, i, j, j);
      if !JoinBefore(t, j, i) {
        j := i;
      } else {
        forall k | k in rest
          ensures JoinBefore(t, j, k)
        {
          JoinOrder(t, j, i, k);
        }
      }
    }
  }

  lemma FirstJoinUnique(t: Tables, rows: set<Join>)
    requires rows != {} && forall k | k in rows :: k.inbox in t.inbox
    ensures exists j :: IsFirstJoin(t, rows, j)
    ensures forall j, k :: IsFirstJoin(t, rows, j) && IsFirstJoin(t, rows, k) ==> j == k
  {
    var i := FirstJoinExists(t, rows);
    forall j, k | IsFirstJoin(t, rows, j) && IsFirstJoin(t, rows, k)
      ensures j == k
    {
      JoinOrder(t, j, k, k);
    }
  }

  function FirstJoin(t: Tables, rows: set<Join>): (j: Join)
    requires rows != {} && forall k | k in rows :: k.inbox in t.inbox
    ensures IsFirstJoin(t, rows, j)
  {
    FirstJoinUnique(t, rows);
    var j :| IsFirstJoin(t, rows, j);
    j
  }

  /** The member list: one entry for each joined row, in the order of the interrupts. */
  function MembersOf(t: Tables, rows: set<Join>): (ms: seq<Member>)
    requires forall k | k in rows :: k.inbox in t.inbox
    ensures |ms| == |rows|
  {
    if rows == {} then []
    else
      var j := FirstJoin(t, rows);
      [MemberFor(t, j)] + MembersOf(t, rows - {j})
  }

  lemma {:induction false} MembersComplete(t: Tables, rows: set<Join>, j: Join)
    requires (forall k | k in rows :: k.inbox in t.inbox) && j in rows
    ensures MemberFor(t, j) in MembersOf(t, rows)
    decreases |rows|
  {
    var f := FirstJoin(t, rows);
    if j != f {
      MembersComplete(t, rows - {f}, j);
    }
  }

  lemma {:induction false} MemberOrigin(t: Tables, rows: set<Join>, i: nat) returns (j: Join)
    requires (forall k | k in rows :: k.inbox in t.inbox) && i < |rows|
    ensures j in rows && MembersOf(t, rows)[i] == MemberFor(t, j)
    ensures i == 0 ==> j == FirstJoin(t, rows)
    ensures i > 0 ==> j != FirstJoin(t, rows)
    decreases |rows|
  {
    j := FirstJoin(t, rows);
    if i > 0 {
      j := MemberOrigin(t, rows - {j}, i - 1);
    }
  }

  ghost predicate DistinctInterrupts(t: Tables, rows: set<Join>) {
    forall j, k | j in rows && k in rows && j != k ::
      j.inbox in t.inbox && k.inbox in t.inbox && t.inbox[j.inbox].interrupt != t.inbox[k.inbox].interrupt
  }

  ghost predicate AscendingMembers(ms: seq<Member>) {
    forall a, b | 0 <= a < b < |ms| :: Less(ms[a].interrupt, ms[b].interrupt)
  }

  lemma FirstMemberLeast(t: Tables, rows: set<Join>)
    requires (forall j | j in rows :: j.inbox in t.inbox) && DistinctInterrupts(t, rows) && rows != {}
    ensures forall k | 0 < k < |rows| :: Less(MembersOf(t, rows)[0].interrupt, MembersOf(t, rows)[k].interrupt)
  {
    var j := FirstJoin(t, rows);
    forall k | 0 < k < |rows|
      ensures Less(MembersOf(t, rows)[0].interrupt, MembersOf(t, rows)[k].interrupt)
    {
      var l := MemberOrigin(t, rows, k);
      assert JoinBefore(t, j, l);
    }
  }

  lemma {:induction false} MembersOrdered(t: Tables, rows: set<Join>)
    requires (forall j | j in rows :: j.inbox in t.inbox) && DistinctInterrupts(t, rows)
    ensures AscendingMembers(MembersOf(t, rows))
    decreases |rows|
  {
    if rows != {} {
      var f := FirstJoin(t, rows);
      MembersOrdered(t, rows - {f});
      FirstMemberLeast(t, rows);
      FirstThenAscending(MemberFor(t, f), MembersOf(t, rows - {f}), MembersOf(t, rows));
    }
  }

  lemma FirstThenAscending(m: Member, rest: seq<Member>, ms: seq<Member>)
    requires ms == [m] + rest && AscendingMembers(rest)
    requires forall k | 0 < k < |ms| :: Less(ms[0].interrupt, ms[k].interrupt)
    ensures AscendingMembers(ms)
  {
    forall a, b | 0 <= a < b < |ms|
      ensures Less(ms[a].interrupt, ms[b].interrupt)
    {
      assert a > 0 ==> ms[a] == rest[a - 1] && ms[b] == rest[b - 1];
    }
  }

  function GroupStatus(t: Tables, g: Group): Status {
    var ids := InGroup(t, g);
    if exists i | i in ids :: t.inbox[i].status == Pending then Pending
    else if exists i | i in ids :: t.inbox[i].status == Responding then Responding
    else if forall i | i in ids :: t.inbox[i].status == Resolved then Resolved
    else if forall i | i in ids :: t.inbox[i].status == Expired then Expired
    else if forall i | i in ids :: t.inbox[i].status == Cancelled then Cancelled
    else Cancelled
  }

  function GroupExpiry(t: Tables, g: Group): Option<int> {
    var times := set i | i in InGroup(t, g) && t.inbox[i].expiresAt.Some? :: t.inbox[i].expiresAt.value;
    if times == {} then None else Some(Greatest(times))
  }

  function GroupCreated(t: Tables, g: Group): int
    requires g in Groups(t)
  {
    var times := set i | i in InGroup(t, g) :: t.inbox[i].createdAt;
    assert times != {} by { var i := GroupInhabited(t, g); assert t.inbox[i].createdAt in times; }
    Least(times)
  }

  function GroupUpdated(t: Tables, g: Group): int
    requires g in Groups(t)
  {
    var times := set i | i in InGroup(t, g) :: t.inbox[i].updatedAt;
    assert times != {} by { var i := GroupInhabited(t, g); assert t.inbox[i].updatedAt in times; }
    Greatest(times)
  }

  lemma GroupInhabited(t: Tables, g: Group) returns (i: Id)
    requires g in Groups(t)
    ensures i in InGroup(t, g)
  {
    i :| i in t.inbox && Matched(t, i) && GroupOf(t, i) == g;
  }

  function PauseId(t: Tables, g: Group): (id: Id)
    requires g in Groups(t)
    ensures id in InGroup(t, g)
  {
    assert InGroup(t, g) != {} by { var i := GroupInhabited(t, g); }
    FirstBy(InGroup(t, g), InboxCreated(t))
  }

  function GroupResumed(t: Tables, g: Group): Option<Id> {
    if ResumedBy(t, g.run) == {} then None else Some(FirstBy(ResumedBy(t, g.run), RunCreated(t)))
  }

  /** The order of the version numbers of one run. */
  predicate GroupBefore(t: Tables, h: Group, g: Group)
    requires h in Groups(t) && g in Groups(t)
  {
    var a, b := GroupCreated(t, h), GroupCreated(t, g);
    a < b || (a == b &&
      (Less(h.namespace, g.namespace) || (h.namespace == g.namespace &&
        (Less(h.checkpoint, g.checkpoint) || (h.checkpoint == g.checkpoint && PauseId(t, h) < PauseId(t, g))))))
  }

  function RunGroups(t: Tables, run: Id): set<Group> {
    set g | g in Groups(t) && g.run == run
  }

  /** row_number() within the run. */
  function RowNumber(t: Tables, g: Group): int
    requires g in Groups(t)
  {
    1 + |set h | h in RunGroups(t, g.run) && GroupBefore(t, h, g)|
  }

  function PauseOf(t: Tables, g: Group): PauseRow
    requires g in Groups(t)
  {
    var version := RowNumber(t, g);
    PauseRow(
      g.scope, g.run, version, g.official, g.namespace, g.checkpoint,
      MembersOf(t, Rows(t, g)), GroupStatus(t, g), GroupExpiry(t, g),
      if version == |RunGroups(t, g.run)| then GroupResumed(t, g) else None,
      GroupCreated(t, g), GroupUpdated(t, g))
  }

  // ----- the constraints that the migration adds -----

  type Pauses = map<Id, PauseRow>
  type Links = map<Id, Option<Id>>

  predicate PrimaryKey(t: Tables) {
    forall g, h | g in Groups(t) && h in Groups(t) && g != h :: PauseId(t, g) != PauseId(t, h)
  }

  predicate RootThreadNotNull(ps: Pauses) {
    forall p | p in ps :: ps[p].rootThread.Some?
  }

  predicate RunScope(t: Tables, ps: Pauses) {
    forall p | p in ps :: ps[p].run in t.runs && t.runs[ps[p].run].scope == ps[p].scope
  }

  predicate ResumeScope(t: Tables, ps: Pauses) {
    forall p | p in ps && ps[p].resumeRun.Some? ::
      ps[p].resumeRun.value in t.runs && t.runs[ps[p].resumeRun.value].scope == ps[p].scope
  }

  predicate UniqueRunVersion(ps: Pauses) {
    forall p, q | p in ps && q in ps && p != q :: !(ps[p].run == ps[q].run && ps[p].version == ps[q].version)
  }

  predicate UniqueRootCheckpoint(ps: Pauses) {
    forall p, q | p in ps && q in ps && p != q ::
      !(ps[p].run == ps[q].run && ps[p].namespace == ps[q].namespace && ps[p].checkpoint == ps[q].checkpoint)
  }

  predicate UniqueResumeRun(ps: Pauses) {
    forall p, q | p in ps && q in ps && p != q && ps[p].resumeRun.Some? :: ps[p].resumeRun != ps[q].resumeRun
  }

  predicate VersionPositive(ps: Pauses) {
    forall p | p in ps :: ps[p].version >= 1
  }

  predicate ResumeNotSource(ps: Pauses) {
    forall p | p in ps :: ps[p].resumeRun != Some(ps[p].run)
  }

  predicate OneActivePerTask(ps: Pauses) {
    forall p, q | p in ps && q in ps && p != q && IsActive(ps[p].status) && IsActive(ps[q].status) ::
      ps[p].scope != ps[q].scope
  }

  predicate PauseIdNotNull(links: Links) {
    forall i | i in links :: links[i].Some?
  }

  predicate PauseScope(t: Tables, ps: Pauses, links: Links) {
    forall i | i in links && i in t.inbox && links[i].Some? ::
      links[i].value in ps && ps[links[i].value].scope == t.inbox[i].scope && ps[links[i].value].run == t.inbox[i].run
  }

  predicate UniquePauseMember(t: Tables, links: Links) {
    forall i, j | i in links && j in links && i in t.inbox && j in t.inbox && i != j ::
      !(links[i] == links[j] && t.inbox[i].interrupt == t.inbox[j].interrupt)
  }

  /** The constraints checked by the insert. */
  predicate PauseTable(t: Tables, ps: Pauses) {
    && RootThreadNotNull(ps) && RunScope(t, ps) && ResumeScope(t, ps)
    && UniqueRunVersion(ps) && UniqueRootCheckpoint(ps) && UniqueResumeRun(ps)
    && VersionPositive(ps) && ResumeNotSource(ps) && OneActivePerTask(ps)
  }

  /** The constraints put on the inbox after the update. */
  predicate InboxTable(t: Tables, ps: Pauses, links: Links) {
    PauseIdNotNull(links) && PauseScope(t, ps, links) && UniquePauseMember(t, links)
  }

  ghost predicate PauseSchema(t: Tables, ps: Pauses, links: Links) {
    PauseTable(t, ps) && links.Keys == t.inbox.Keys && InboxTable(t, ps, links)
  }

  // ----- the statements -----

  function PauseIds(t: Tables): set<Id> {
    set g | g in Groups(t) :: PauseId(t, g)
  }

  /** The inserted table: one row for each group, under the first inbox id of the group. */
  function Inserted(t: Tables): Pauses
    requires PrimaryKey(t)
  {
    map p | p in PauseIds(t) :: var g := GroupWithId(t, p); PauseOf(t, g)
  }

  function GroupWithId(t: Tables, p: Id): (g: Group)
    requires PrimaryKey(t) && p in PauseIds(t)
    ensures g in Groups(t) && PauseId(t, g) == p
  {
    var g :| g in Groups(t) && PauseId(t, g) == p;
    g
  }

  predicate Joins(row: InboxRow, p: PauseRow) {
    p.run == row.run && p.namespace == row.namespace && p.checkpoint == row.checkpoint
  }

  /** The pause that the update joins to a row. */
  function Target(ps: Pauses, row: InboxRow): Option<Id>
    requires UniqueRootCheckpoint(ps)
  {
    if exists p | p in ps :: Joins(row, ps[p]) then
      var p :| p in ps && Joins(row, ps[p]);
      Some(p)
    else None
  }

  function Linked(t: Tables, ps: Pauses): Links
    requires UniqueRootCheckpoint(ps)
  {
    map i | i in t.inbox :: Target(ps, t.inbox[i])
  }

  // ----- after the preflight checks a run has one group -----

  lemma SameRunSameGroup(t: Tables, i: Id, j: Id)
    requires LegacySchema(t) && Preflight(t)
    requires i in t.inbox && j in t.inbox && t.inbox[i].run == t.inbox[j].run
    ensures Matched(t, i) && Matched(t, j) && GroupOf(t, i) == GroupOf(t, j)
  {
    assert Passes(t, MultipleCheckpoints);
    var pairs := Checkpoints(t, t.inbox[i].run);
    AtMostOne(pairs, (t.inbox[i].namespace, t.inbox[i].checkpoint), (t.inbox[j].namespace, t.inbox[j].checkpoint));
  }

  function RunRows(t: Tables, run: Id): set<Id> {
    set i | i in t.inbox && t.inbox[i].run == run
  }

  lemma GroupIsRun(t: Tables, g: Group)
    requires LegacySchema(t) && Preflight(t) && g in Groups(t)
    ensures InGroup(t, g) == RunRows(t, g.run)
    ensures RunGroups(t, g.run) == {g}
  {
    var i := GroupInhabited(t, g);
    forall j | j in RunRows(t, g.run)
      ensures j in InGroup(t, g)
    {
      SameRunSameGroup(t, i, j);
    }
    forall h | h in RunGroups(t, g.run)
      ensures h == g
    {
      var j := GroupInhabited(t, h);
      SameRunSameGroup(t, i, j);
    }
  }

  lemma VersionOne(t: Tables, g: Group)
    requires LegacySchema(t) && Preflight(t) && g in Groups(t)
    ensures RowNumber(t, g) == 1 && |RunGroups(t, g.run)| == 1
  {
    GroupIsRun(t, g);
    LessIrreflexive(g.namespace);
    LessIrreflexive(g.checkpoint);
    assert !GroupBefore(t, g, g);
    assert (set h | h in RunGroups(t, g.run) && GroupBefore(t, h, g)) == {};
  }

  lemma KeysDistinct(t: Tables)
    ensures PrimaryKey(t)
  {
    forall g, h | g in Groups(t) && h in Groups(t) && g != h
      ensures PauseId(t, g) != PauseId(t, h)
    {
      assert PauseId(t, g) in InGroup(t, g) && PauseId(t, h) in InGroup(t, h);
    }
  }

  // ----- every constraint holds of the backfill -----

  lemma PauseShape(t: Tables, p: Id) returns (g: Group)
    requires LegacySchema(t) && Preflight(t) && PrimaryKey(t) && p in Inserted(t)
    ensures g == GroupWithId(t, p) && g in Groups(t) && p == PauseId(t, g)
    ensures p in t.inbox && t.inbox[p].run == g.run && Matched(t, p) && GroupOf(t, p) == g
    ensures var row := Inserted(t)[p];
      && row.scope == g.scope && row.run == g.run && row.rootThread == g.official
      && row.namespace == g.namespace && row.checkpoint == g.checkpoint
      && row.version == 1 && row.status == GroupStatus(t, g) && row.resumeRun == GroupResumed(t, g)
  {
    g := GroupWithId(t, p);
    assert p in InGroup(t, g);
    VersionOne(t, g);
  }

  /** Every group has its pause. */
  lemma GroupPause(t: Tables, g: Group)
    requires PrimaryKey(t) && g in Groups(t)
    ensures PauseId(t, g) in Inserted(t) && GroupWithId(t, PauseId(t, g)) == g
    ensures Inserted(t)[PauseId(t, g)] == PauseOf(t, g)
  {
    assert PauseId(t, g) in PauseIds(t);
  }

  /** Pauses of one run are one pause. */
  lemma PausePerRun(t: Tables, p: Id, q: Id)
    requires LegacySchema(t) && Preflight(t) && PrimaryKey(t)
    requires p in Inserted(t) && q in Inserted(t) && Inserted(t)[p].run == Inserted(t)[q].run
    ensures p == q
  {
    var g := PauseShape(t, p);
    var h := PauseShape(t, q);
    SameRunSameGroup(t, p, q);
  }

  lemma ResumedFacts(t: Tables, g: Group)
    requires LegacySchema(t) && GroupResumed(t, g).Some?
    ensures var r := GroupResumed(t, g).value;
            r in t.runs && t.runs[r].resumeOf == Some(g.run) && r != g.run
            && g.run in t.runs && t.runs[r].scope == t.runs[g.run].scope
  {
    assert GroupResumed(t, g).value in ResumedBy(t, g.run);
  }

  lemma UniqueKeys(t: Tables)
    requires LegacySchema(t) && Preflight(t) && PrimaryKey(t)
    ensures UniqueRunVersion(Inserted(t)) && UniqueRootCheckpoint(Inserted(t))
  {
    var ps := Inserted(t);
    forall p, q | p in ps && q in ps && ps[p].run == ps[q].run
      ensures p == q
    {
      PausePerRun(t, p, q);
    }
  }

  lemma ResumeConstraints(t: Tables)
    requires LegacySchema(t) && Preflight(t) && PrimaryKey(t)
    ensures ResumeScope(t, Inserted(t)) && ResumeNotSource(Inserted(t)) && UniqueResumeRun(Inserted(t))
  {
    var ps := Inserted(t);
    forall p | p in ps && ps[p].resumeRun.Some?
      ensures ps[p].resumeRun.value in t.runs && t.runs[ps[p].resumeRun.value].scope == ps[p].scope
      ensures ps[p].resumeRun.value != ps[p].run && t.runs[ps[p].resumeRun.value].resumeOf == Some(ps[p].run)
    {
      var g := PauseShape(t, p);
      ResumedFacts(t, g);
    }
    forall p, q | p in ps && q in ps && p != q && ps[p].resumeRun.Some?
      ensures ps[p].resumeRun != ps[q].resumeRun
    {
      if ps[p].resumeRun == ps[q].resumeRun {
        PausePerRun(t, p, q);
      }
    }
  }

  lemma ThreadKnown(t: Tables, i: Id)
    requires Passes(t, NoOfficialThread) && i in t.inbox && Matched(t, i)
    ensures GroupOf(t, i).official.Some?
  {
    assert OfficialThread(t, t.inbox[i]);
  }

  lemma RowFacts(t: Tables, p: Id)
    requires LegacySchema(t) && Preflight(t) && PrimaryKey(t) && p in Inserted(t)
    ensures var row := Inserted(t)[p];
      row.rootThread.Some? && row.version >= 1 && row.run in t.runs && t.runs[row.run].scope == row.scope
  {
    var g := PauseShape(t, p);
    ThreadKnown(t, p);
  }

  lemma RowConstraints(t: Tables)
    requires LegacySchema(t) && Preflight(t) && PrimaryKey(t)
    ensures RootThreadNotNull(Inserted(t)) && RunScope(t, Inserted(t)) && VersionPositive(Inserted(t))
  {
    forall p | p in Inserted(t)
      ensures var row := Inserted(t)[p];
        row.rootThread.Some? && row.version >= 1 && row.run in t.runs && t.runs[row.run].scope == row.scope
    {
      RowFacts(t, p);
    }
  }

  lemma SameRunSameStatus(t: Tables, i: Id, j: Id)
    requires LegacySchema(t) && Preflight(t)
    requires i in t.inbox && j in t.inbox && t.inbox[i].run == t.inbox[j].run
    ensures t.inbox[i].status == t.inbox[j].status
  {
    SameRunSameGroup(t, i, j);
    assert Passes(t, MixedStatuses);
    var s := Statuses(t, t.inbox[i].run, t.inbox[i].namespace, t.inbox[i].checkpoint);
    AtMostOne(s, t.inbox[i].status, t.inbox[j].status);
  }

  /** All members of a run have one status, so the last branch of the CASE is never taken. */
  lemma StatusCommon(t: Tables, g: Group, i: Id)
    requires LegacySchema(t) && Preflight(t) && g in Groups(t) && i in RunRows(t, g.run)
    ensures GroupStatus(t, g) == t.inbox[i].status
  {
    GroupIsRun(t, g);
    forall j | j in InGroup(t, g)
      ensures t.inbox[j].status == t.inbox[i].status
    {
      SameRunSameStatus(t, i, j);
    }
    StatusOfAll(t, g, i);
  }

  lemma StatusOfAll(t: Tables, g: Group, i: Id)
    requires i in InGroup(t, g) && t.inbox[i].status != ResumeFailed
    requires forall j | j in InGroup(t, g) :: t.inbox[j].status == t.inbox[i].status
    ensures GroupStatus(t, g) == t.inbox[i].status
  {
  }

  lemma SameTaskSameRun(t: Tables, i: Id, j: Id)
    requires Passes(t, MultipleActivePauses) && i in t.inbox && j in t.inbox
    requires t.inbox[i].scope == t.inbox[j].scope
    requires IsActive(t.inbox[i].status) && IsActive(t.inbox[j].status)
    ensures t.inbox[i].run == t.inbox[j].run
  {
    AtMostOne(ActiveRuns(t, t.inbox[i].scope), t.inbox[i].run, t.inbox[j].run);
  }

  lemma PauseStatus(t: Tables, p: Id)
    requires LegacySchema(t) && Preflight(t) && PrimaryKey(t) && p in Inserted(t)
    ensures p in t.inbox
    ensures Inserted(t)[p].scope == t.inbox[p].scope && Inserted(t)[p].run == t.inbox[p].run
    ensures Inserted(t)[p].status == t.inbox[p].status
  {
    var g := PauseShape(t, p);
    StatusCommon(t, g, p);
  }

  lemma ActivePausesApart(t: Tables, p: Id, q: Id)
    requires LegacySchema(t) && Preflight(t) && PrimaryKey(t)
    requires p in Inserted(t) && q in Inserted(t) && Inserted(t)[p].scope == Inserted(t)[q].scope
    requires IsActive(Inserted(t)[p].status) && IsActive(Inserted(t)[q].status)
    ensures p == q
  {
    PauseStatus(t, p);
    PauseStatus(t, q);
    SameTaskSameRun(t, p, q);
    PausePerRun(t, p, q);
  }

  lemma OneActive(t: Tables)
    requires LegacySchema(t) && Preflight(t) && PrimaryKey(t)
    ensures OneActivePerTask(Inserted(t))
  {
    var ps := Inserted(t);
    forall p, q | p in ps && q in ps && p != q && IsActive(ps[p].status) && IsActive(ps[q].status)
      ensures ps[p].scope != ps[q].scope
    {
      if ps[p].scope == ps[q].scope { ActivePausesApart(t, p, q); }
    }
  }

  lemma TargetIs(ps: Pauses, row: InboxRow, p: Id)
    requires UniqueRootCheckpoint(ps) && p in ps && Joins(row, ps[p])
    ensures Target(ps, row) == Some(p)
  {
  }

  /** The update links every row to the pause of its run. */
  lemma LinkTarget(t: Tables, i: Id)
    requires LegacySchema(t) && Preflight(t) && PrimaryKey(t) && UniqueRootCheckpoint(Inserted(t))
    requires i in t.inbox
    ensures Matched(t, i) && GroupOf(t, i) in Groups(t)
    ensures Linked(t, Inserted(t))[i] == Some(PauseId(t, GroupOf(t, i)))
    ensures PauseId(t, GroupOf(t, i)) in Inserted(t)
    ensures var p := Inserted(t)[PauseId(t, GroupOf(t, i))];
            p.scope == t.inbox[i].scope && p.run == t.inbox[i].run
  {
    SameRunSameGroup(t, i, i);
    var g := GroupOf(t, i);
    assert g in Groups(t);
    GroupPause(t, g);
    var h := PauseShape(t, PauseId(t, g));
    TargetIs(Inserted(t), t.inbox[i], PauseId(t, g));
  }

  /** No run has two rows for one interrupt. */
  lemma SameInterruptSameRow(t: Tables, i: Id, j: Id)
    requires LegacySchema(t) && Preflight(t) && i in t.inbox && j in t.inbox
    requires t.inbox[i].run == t.inbox[j].run && t.inbox[i].interrupt == t.inbox[j].interrupt
    ensures i == j
  {
    SameRunSameGroup(t, i, j);
    assert Passes(t, DuplicateMember);
    AtMostOne(SameMembers(t, t.inbox[i]), i, j);
  }

  lemma LinksScoped(t: Tables)
    requires LegacySchema(t) && Preflight(t) && PrimaryKey(t) && UniqueRootCheckpoint(Inserted(t))
    ensures PauseIdNotNull(Linked(t, Inserted(t))) && PauseScope(t, Inserted(t), Linked(t, Inserted(t)))
  {
    var ps := Inserted(t);
    var links := Linked(t, ps);
    forall i | i in links
      ensures links[i].Some? && links[i].value in ps
      ensures ps[links[i].value].scope == t.inbox[i].scope && ps[links[i].value].run == t.inbox[i].run
    {
      LinkTarget(t, i);
    }
  }

  lemma InboxConstraints(t: Tables)
    requires LegacySchema(t) && Preflight(t) && PrimaryKey(t) && UniqueRootCheckpoint(Inserted(t))
    ensures InboxTable(t, Inserted(t), Linked(t, Inserted(t)))
  {
    LinksScoped(t);
    var ps := Inserted(t);
    var links := Linked(t, ps);
    forall i, j | i in links && j in links && links[i] == links[j] && t.inbox[i].interrupt == t.inbox[j].interrupt
      ensures i == j
    {
      assert ps[links[i].value].run == t.inbox[i].run && ps[links[j].value].run == t.inbox[j].run;
      SameInterruptSameRow(t, i, j);
    }
  }

  /** What the preflight checks are for: nothing after them can fail. */
  lemma BackfillMeetsSchema(t: Tables)
    requires LegacySchema(t) && Preflight(t)
    ensures PrimaryKey(t) && PauseTable(t, Inserted(t))
    ensures PauseSchema(t, Inserted(t), Linked(t, Inserted(t)))
  {
    KeysDistinct(t);
    UniqueKeys(t);
    ResumeConstraints(t);
    RowConstraints(t);
    OneActive(t);
    InboxConstraints(t);
  }

  // ----- what a backfilled pause contains -----

  /** The left join adds no row: each inbox row is joined once. */
  lemma JoinedOnce(t: Tables, g: Group)
    requires LegacySchema(t)
    ensures |Rows(t, g)| == |InGroup(t, g)|
    ensures forall j, k | j in Rows(t, g) && k in Rows(t, g) && j.inbox == k.inbox :: j == k
    ensures forall i :: i in InGroup(t, g) <==> exists j :: j in Rows(t, g) && j.inbox == i
  {
    var resumed := ResumedBy(t, g.run);
    var only := if resumed == {} then None else Some(FirstBy(resumed, RunCreated(t)));
    assert forall r | r in resumed :: Some(r) == only;
    var joined := set i | i in InGroup(t, g) :: Join(i, only);
    assert Rows(t, g) == joined;
    forall i | i in InGroup(t, g)
      ensures exists j :: j in Rows(t, g) && j.inbox == i
    {
      assert Join(i, only) in joined;
    }
    ImageSize(InGroup(t, g), only);
  }

  lemma {:induction false} ImageSize(ids: set<Id>, o: Option<Id>)
    ensures |set i | i in ids :: Join(i, o)| == |ids|
    decreases |ids|
  {
    var all := set i | i in ids :: Join(i, o);
    if ids != {} {
      var i := MemberOf(ids);
      var rest := ids - {i};
      ImageSize(rest, o);
      assert all == (set k | k in rest :: Join(k, o)) + {Join(i, o)};
    } else {
      assert all == {};
    }
  }

  /** Where the pause of a run comes from: its earliest row, and the run's thread. */
  ghost predicate OriginOf(t: Tables, run: Id, p: Id, row: PauseRow) {
    && p in RunRows(t, run)
    && (forall j | j in RunRows(t, run) ::
          t.inbox[p].createdAt < t.inbox[j].createdAt || (t.inbox[p].createdAt == t.inbox[j].createdAt && p <= j))
    && row.run == run && row.version == 1 && row.scope == t.inbox[p].scope
    && row.namespace == t.inbox[p].namespace && row.checkpoint == t.inbox[p].checkpoint
    && run in t.runs && t.runs[run].thread in t.threads && row.rootThread == t.threads[t.runs[run].thread]
  }

  /** The earliest creation, the latest update, and the latest expiry if any row expires. */
  ghost predicate TimesOf(t: Tables, run: Id, row: PauseRow) {
    && (forall j | j in RunRows(t, run) :: row.createdAt <= t.inbox[j].createdAt && t.inbox[j].updatedAt <= row.updatedAt)
    && (exists j | j in RunRows(t, run) :: row.createdAt == t.inbox[j].createdAt)
    && (exists j | j in RunRows(t, run) :: row.updatedAt == t.inbox[j].updatedAt)
    && (row.expiresAt == None <==> forall j | j in RunRows(t, run) :: t.inbox[j].expiresAt == None)
    && (row.expiresAt.Some? ==>
          && (exists j | j in RunRows(t, run) :: t.inbox[j].expiresAt == row.expiresAt)
          && (forall j | j in RunRows(t, run) && t.inbox[j].expiresAt.Some? :: t.inbox[j].expiresAt.value <= row.expiresAt.value))
  }

  /** The run that resumes this one, if there is one. */
  ghost predicate ResumeOf(t: Tables, run: Id, row: PauseRow) {
    && (row.resumeRun.Some? <==> exists r | r in t.runs :: t.runs[r].resumeOf == Some(run))
    && (row.resumeRun.Some? ==> row.resumeRun.value in t.runs && t.runs[row.resumeRun.value].resumeOf == Some(run))
  }

  /** One member for each row of the run, in ascending order of the interrupts, and no other. */
  ghost predicate MembersListed(t: Tables, run: Id, ms: seq<Member>) {
    && |ms| == |RunRows(t, run)| && AscendingMembers(ms)
    && forall j | j in RunRows(t, run) ::
         Member(t.inbox[j].checkpoint, t.inbox[j].interrupt, t.inbox[j].namespace) in ms
  }

  lemma PauseOrigin(t: Tables, i: Id, g: Group, p: Id)
    requires LegacySchema(t) && Preflight(t) && PrimaryKey(t) && i in t.inbox && Matched(t, i)
    requires g == GroupOf(t, i) && g in Groups(t) && p == PauseId(t, g)
    ensures p in Inserted(t) && OriginOf(t, t.inbox[i].run, p, Inserted(t)[p])
  {
    GroupPause(t, g);
    VersionOne(t, g);
    GroupIsRun(t, g);
    SameRunSameGroup(t, i, p);
  }

  lemma PauseTimes(t: Tables, g: Group)
    requires LegacySchema(t) && Preflight(t) && g in Groups(t)
    ensures TimesOf(t, g.run, PauseOf(t, g))
  {
    GroupIsRun(t, g);
    CreatedIsEarliest(t, g);
    UpdatedIsLatest(t, g);
    ExpiryIsLatest(t, g);
  }

  lemma CreatedIsEarliest(t: Tables, g: Group)
    requires g in Groups(t)
    ensures exists j | j in InGroup(t, g) :: GroupCreated(t, g) == t.inbox[j].createdAt
    ensures forall j | j in InGroup(t, g) :: GroupCreated(t, g) <= t.inbox[j].createdAt
  {
    var times := set i | i in InGroup(t, g) :: t.inbox[i].createdAt;
    assert forall j | j in InGroup(t, g) :: t.inbox[j].createdAt in times;
  }

  lemma UpdatedIsLatest(t: Tables, g: Group)
    requires g in Groups(t)
    ensures exists j | j in InGroup(t, g) :: GroupUpdated(t, g) == t.inbox[j].updatedAt
    ensures forall j | j in InGroup(t, g) :: t.inbox[j].updatedAt <= GroupUpdated(t, g)
  {
    var times := set i | i in InGroup(t, g) :: t.inbox[i].updatedAt;
    assert forall j | j in InGroup(t, g) :: t.inbox[j].updatedAt in times;
  }

  lemma ExpiryIsLatest(t: Tables, g: Group)
    ensures var expiry := GroupExpiry(t, g);
      && (expiry == None <==> forall j | j in InGroup(t, g) :: t.inbox[j].expiresAt == None)
      && (expiry.Some? ==>
            && (exists j | j in InGroup(t, g) :: t.inbox[j].expiresAt == expiry)
            && (forall j | j in InGroup(t, g) && t.inbox[j].expiresAt.Some? :: t.inbox[j].expiresAt.value <= expiry.value))
  {
    var times := set i | i in InGroup(t, g) && t.inbox[i].expiresAt.Some? :: t.inbox[i].expiresAt.value;
    forall j | j in InGroup(t, g) && t.inbox[j].expiresAt.Some?
      ensures t.inbox[j].expiresAt.value in times
    {
    }
  }

  lemma PauseResume(t: Tables, g: Group)
    requires LegacySchema(t) && Preflight(t) && g in Groups(t)
    ensures ResumeOf(t, g.run, PauseOf(t, g))
  {
    VersionOne(t, g);
    if r :| r in t.runs && t.runs[r].resumeOf == Some(g.run) {
      assert r in ResumedBy(t, g.run);
    }
  }

  /**
   The pause of a run stands under the id of its earliest row, has version 1, the scope, thread and
   checkpoint of the run, the common status, the times of its rows, the run that resumes it, and a
   member list in strictly ascending order of the interrupts with one entry for each row of the run
   and no other.
   */
  lemma PauseContents(t: Tables, i: Id) returns (p: Id)
    requires LegacySchema(t) && Preflight(t) && PrimaryKey(t) && UniqueRootCheckpoint(Inserted(t))
    requires i in t.inbox
    ensures p in Inserted(t) && Linked(t, Inserted(t))[i] == Some(p)
    ensures forall j :: j in t.inbox ==> (Linked(t, Inserted(t))[j] == Some(p) <==> j in RunRows(t, t.inbox[i].run))
    ensures OriginOf(t, t.inbox[i].run, p, Inserted(t)[p])
    ensures forall j | j in RunRows(t, t.inbox[i].run) :: Inserted(t)[p].status == t.inbox[j].status
    ensures TimesOf(t, t.inbox[i].run, Inserted(t)[p]) && ResumeOf(t, t.inbox[i].run, Inserted(t)[p])
    ensures MembersListed(t, t.inbox[i].run, Inserted(t)[p].members)
  {
    LinkTarget(t, i);
    var g := GroupOf(t, i);
    p := PauseId(t, g);
    GroupPause(t, g);
    PauseLinks(t, i, g);
    PauseOrigin(t, i, g, p);
    forall j | j in RunRows(t, g.run)
      ensures PauseOf(t, g).status == t.inbox[j].status
    {
      StatusCommon(t, g, j);
    }
    PauseTimes(t, g);
    PauseResume(t, g);
    MembersAreRows(t, g);
  }

  lemma PauseLinks(t: Tables, i: Id, g: Group)
    requires LegacySchema(t) && Preflight(t) && PrimaryKey(t) && UniqueRootCheckpoint(Inserted(t))
    requires i in t.inbox && Matched(t, i) && g == GroupOf(t, i) && g in Groups(t)
    ensures forall j :: j in t.inbox ==>
      (Linked(t, Inserted(t))[j] == Some(PauseId(t, g)) <==> j in RunRows(t, t.inbox[i].run))
  {
    GroupIsRun(t, g);
    forall j | j in t.inbox
      ensures Linked(t, Inserted(t))[j] == Some(PauseId(t, g)) <==> j in RunRows(t, t.inbox[i].run)
    {
      LinkTarget(t, j);
      if j in RunRows(t, t.inbox[i].run) { SameRunSameGroup(t, i, j); }
    }
  }

  lemma MembersAreRows(t: Tables, g: Group)
    requires LegacySchema(t) && Preflight(t) && g in Groups(t)
    ensures MembersListed(t, g.run, MembersOf(t, Rows(t, g)))
  {
    GroupIsRun(t, g);
    JoinedOnce(t, g);
    var rows := Rows(t, g);
    forall j | j in RunRows(t, g.run)
      ensures Member(t.inbox[j].checkpoint, t.inbox[j].interrupt, t.inbox[j].namespace) in MembersOf(t, rows)
    {
      var k :| k in rows && k.inbox == j;
      MembersComplete(t, rows, k);
    }
    RowsDistinct(t, g);
    MembersOrdered(t, rows);
  }

  lemma RowsDistinct(t: Tables, g: Group)
    requires LegacySchema(t) && Preflight(t)
    ensures DistinctInterrupts(t, Rows(t, g))
  {
    JoinedOnce(t, g);
    var rows := Rows(t, g);
    forall j, k | j in rows && k in rows && j != k
      ensures t.inbox[j.inbox].interrupt != t.inbox[k.inbox].interrupt
    {
      if t.inbox[j.inbox].interrupt == t.inbox[k.inbox].interrupt {
        SameInterruptSameRow(t, j.inbox, k.inbox);
      }
    }
  }

  // ----- the migration -----

  datatype Failure = Blocked(check: Check) | ConstraintViolated

  lemma AllChecks(t: Tables)
    requires forall i | 0 <= i < |CHECKS| :: Passes(t, CHECKS[i])
    ensures Preflight(t)
  {
    forall c
      ensures Passes(t, c)
    {
      assert CHECKS[0] == ActiveRespondCommand && CHECKS[1] == MultipleActivePauses && CHECKS[2] == MultipleCheckpoints
          && CHECKS[3] == NonRootNamespace && CHECKS[4] == NoOfficialThread && CHECKS[5] == MixedStatuses
          && CHECKS[6] == DuplicateMember;
    }
  }

  /** The schema that the migration changes; the new table and the new column may be absent. */
  class ProductSchema {
    var tables: Tables
    var pauses: Option<Pauses>
    var links: Option<Links>

    constructor (t: Tables)
      ensures tables == t && pauses == None && links == None
    {
      tables, pauses, links := t, None, None;
    }

    /**
     The upgrade runs in one transaction. It succeeds exactly when the preflight
     checks pass; otherwise it reports the first check that fails and changes nothing.
     */
    method Upgrade() returns (r: Result<(), Failure>)
      requires LegacySchema(tables) && pauses == None && links == None
      modifies this
      ensures tables == old(tables)
      ensures r.Ok? <==> forall c :: Meets(tables, c)
      ensures r.Err? ==>
                && pauses == None && links == None && r.error.Blocked? && !Meets(tables, r.error.check)
                && exists i :: 0 <= i < |CHECKS| && CHECKS[i] == r.error.check
                               && forall k | 0 <= k < i :: Meets(tables, CHECKS[k])
      ensures r.Ok? ==>
                && PrimaryKey(tables) && pauses == Some(Inserted(tables)) && UniqueRootCheckpoint(pauses.value)
                && links == Some(Linked(tables, pauses.value)) && PauseSchema(tables, pauses.value, links.value)
    {
      forall c
        ensures Passes(tables, c) <==> Meets(tables, c)
      {
        PassesExactly(tables, c);
      }
      for i := 0 to |CHECKS|
        invariant forall k | 0 <= k < i :: Passes(tables, CHECKS[k])
      {
        if !Passes(tables, CHECKS[i]) {
          return Err(Blocked(CHECKS[i]));
        }
      }
      AllChecks(tables);
      BackfillMeetsSchema(tables);
      var ps := Inserted(tables);
      var ls := Linked(tables, ps);
      var valid := PauseTable(tables, ps) && InboxTable(tables, ps, ls);
      pauses := if valid then Some(ps) else None;
      links := if valid then Some(ls) else None;
      r := if valid then Ok(()) else Err(ConstraintViolated);
    }

    method Downgrade()
      modifies this
      ensures tables == old(tables) && pauses == None && links == None
    {
      links := None;
      pauses := None;
    }
  }
}
