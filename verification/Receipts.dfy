/**
 Ownership of requirements and the pre-RED receipts of tools/v2/verify_requirements.py.

 `BuiltReceipt` and `ReceiptAccepted` are the builder and the verifier; `VerifyMatchesBuild`
 says that they agree. The registry hash is a function that the lemmas about
 survival of receipts take to be injective.
 */
module Receipts {
  import opened Wrappers
  import opened Sorting
  import opened Aggregates
  import opened ReviewChain
  import opened SourceText
  import opened NormativeBaseline
  import opened RequirementRegistry

  /** The text rules: agent ids, commands, timestamps, the hash of a registry and the order of ids. */
  datatype Clerk = Clerk(
    agentId: string -> Option<string>,
    nonBlank: string -> bool,
    placeholder: string -> bool,
    stamp: int -> string,
    time: string -> Option<int>,
    hash: Registry -> string,
    before: (string, string) -> bool)

  /** A printed timestamp parses to the time it was printed from, and the empty text is blank. */
  ghost predicate LawfulClerk(c: Clerk) {
    (forall t: int :: c.time(c.stamp(t)) == Some(t)) && !c.nonBlank("")
  }

  // ----- the requirements of a task -----

  function OfTask(entries: seq<Entry>, task: int): seq<Entry> {
    if entries == [] then []
    else
      var front := OfTask(entries[..|entries| - 1], task);
      if entries[|entries| - 1].governance.task == task then front + [entries[|entries| - 1]] else front
  }

  lemma {:induction false} OfTaskMembers(entries: seq<Entry>, task: int)
    ensures forall e :: e in OfTask(entries, task) <==> e in entries && e.governance.task == task
    decreases |entries|
  {
    if entries != [] {
      OfTaskMembers(entries[..|entries| - 1], task);
      assert entries == entries[..|entries| - 1] + [entries[|entries| - 1]];
    }
  }

  /** The task is a positive number with at least one requirement. */
  predicate HasTask(reg: Registry, task: int) {
    task >= 1 && exists e | e in reg.requirements :: e.governance.task == task
  }

  // ----- owners -----

  function OwnedBy(e: Entry, task: int, owner: string, stamp: string): Entry {
    if e.governance.task != task then e
    else e.(governance := e.governance.(owner := Text(owner), assignedAt := Text(stamp)))
  }

  function Released(e: Entry, task: int): Entry {
    if e.governance.task != task then e else e.(governance := e.governance.(owner := Null, assignedAt := Absent))
  }

  predicate Assignable(reg: Registry, task: int, owner: string) {
    forall e | e in reg.requirements && e.governance.task == task :: !e.governance.owner.Text? || e.governance.owner == Text(owner)
  }

  predicate AllOwnedBy(reg: Registry, task: int, owner: string) {
    forall e | e in reg.requirements && e.governance.task == task :: e.governance.owner == Text(owner)
  }

  function Assigned(c: Clerk, reg: Registry, task: int, agent: string, at: int): Option<Registry> {
    var owner := c.agentId(agent);
    if owner.None? || !HasTask(reg, task) || !Assignable(reg, task, owner.value) then None
    else Some(reg.(requirements := seq(|reg.requirements|, i requires 0 <= i < |reg.requirements| =>
      OwnedBy(reg.requirements[i], task, owner.value, c.stamp(at)))))
  }

  function Reset(c: Clerk, reg: Registry, task: int, agent: string): Option<Registry> {
    var owner := c.agentId(agent);
    if owner.None? || !HasTask(reg, task) || !AllOwnedBy(reg, task, owner.value) then None
    else Some(reg.(requirements := seq(|reg.requirements|, i requires 0 <= i < |reg.requirements| =>
      Released(reg.requirements[i], task))))
  }

  // ----- exactly what an assignment and a release do -----

  /** The registry differs in the owner and the time of the task's requirements alone. */
  predicate OwnersSet(reg: Registry, next: Registry, task: int, owner: Slot, assignedAt: Slot) {
    && |next.requirements| == |reg.requirements| && next == reg.(requirements := next.requirements)
    && forall i | 0 <= i < |reg.requirements| ::
         var e := reg.requirements[i];
         next.requirements[i] ==
           if e.governance.task == task then Entry(e.source, e.governance.(owner := owner, assignedAt := assignedAt)) else e
  }

  /** The task has requirements, and none of them is owned by another agent. */
  predicate Takeable(reg: Registry, task: int, owner: string) {
    && task >= 1 && (exists i | 0 <= i < |reg.requirements| :: reg.requirements[i].governance.task == task)
    && forall i | 0 <= i < |reg.requirements| && reg.requirements[i].governance.task == task ::
         match reg.requirements[i].governance.owner case Text(other) => other == owner case _ => true
  }

  /** The task has requirements, and the agent owns them all. */
  predicate Releasable(reg: Registry, task: int, owner: string) {
    && task >= 1 && (exists i | 0 <= i < |reg.requirements| :: reg.requirements[i].governance.task == task)
    && forall i | 0 <= i < |reg.requirements| && reg.requirements[i].governance.task == task ::
         reg.requirements[i].governance.owner == Text(owner)
  }

  lemma TaskListed(reg: Registry, task: int)
    ensures (exists i | 0 <= i < |reg.requirements| :: reg.requirements[i].governance.task == task)
       <==> exists e | e in reg.requirements :: e.governance.task == task
  {
    if e :| e in reg.requirements && e.governance.task == task {
      var i :| 0 <= i < |reg.requirements| && reg.requirements[i] == e;
    }
  }

  lemma TakeableExactly(reg: Registry, task: int, owner: string)
    ensures Takeable(reg, task, owner) <==> HasTask(reg, task) && Assignable(reg, task, owner)
    ensures Releasable(reg, task, owner) <==> HasTask(reg, task) && AllOwnedBy(reg, task, owner)
  {
    TaskListed(reg, task);
    assert forall i | 0 <= i < |reg.requirements| :: reg.requirements[i] in reg.requirements;
  }

  lemma OwnersSetUnique(reg: Registry, a: Registry, b: Registry, task: int, owner: Slot, assignedAt: Slot)
    requires OwnersSet(reg, a, task, owner, assignedAt) && OwnersSet(reg, b, task, owner, assignedAt)
    ensures a == b
  {
    assert forall i | 0 <= i < |reg.requirements| :: a.requirements[i] == b.requirements[i];
    assert a.requirements == b.requirements;
  }

  lemma AssignedSets(c: Clerk, reg: Registry, task: int, agent: string, at: int)
    requires Assigned(c, reg, task, agent, at).Some?
    ensures OwnersSet(reg, Assigned(c, reg, task, agent, at).value, task, Text(c.agentId(agent).value), Text(c.stamp(at)))
  {
  }

  lemma ResetSets(c: Clerk, reg: Registry, task: int, agent: string)
    requires Reset(c, reg, task, agent).Some?
    ensures OwnersSet(reg, Reset(c, reg, task, agent).value, task, Null, Absent)
  {
  }

  lemma AssignedExactly(c: Clerk, reg: Registry, task: int, agent: string, at: int, next: Registry)
    ensures Assigned(c, reg, task, agent, at) == Some(next)
       <==> && c.agentId(agent).Some? && Takeable(reg, task, c.agentId(agent).value)
            && OwnersSet(reg, next, task, Text(c.agentId(agent).value), Text(c.stamp(at)))
  {
    if c.agentId(agent).Some? {
      var owner, stamp := Text(c.agentId(agent).value), Text(c.stamp(at));
      TakeableExactly(reg, task, c.agentId(agent).value);
      if Assigned(c, reg, task, agent, at).Some? {
        AssignedSets(c, reg, task, agent, at);
        if OwnersSet(reg, next, task, owner, stamp) {
          OwnersSetUnique(reg, next, Assigned(c, reg, task, agent, at).value, task, owner, stamp);
        }
      }
    }
  }

  lemma ResetExactly(c: Clerk, reg: Registry, task: int, agent: string, next: Registry)
    ensures Reset(c, reg, task, agent) == Some(next)
       <==> && c.agentId(agent).Some? && Releasable(reg, task, c.agentId(agent).value)
            && OwnersSet(reg, next, task, Null, Absent)
  {
    if c.agentId(agent).Some? {
      TakeableExactly(reg, task, c.agentId(agent).value);
      if Reset(c, reg, task, agent).Some? {
        ResetSets(c, reg, task, agent);
        if OwnersSet(reg, next, task, Null, Absent) {
          OwnersSetUnique(reg, next, Reset(c, reg, task, agent).value, task, Null, Absent);
        }
      }
    }
  }

  /** assign_owner: all requirements of a task, to an agent that no other agent stands before. */
  method AssignOwner(c: Clerk, reg: Registry, task: int, agent: string, at: int) returns (r: Option<Registry>)
    ensures r == Assigned(c, reg, task, agent, at)
    ensures r.Some? ==>
      && c.agentId(agent).Some? && Takeable(reg, task, c.agentId(agent).value)
      && OwnersSet(reg, r.value, task, Text(c.agentId(agent).value), Text(c.stamp(at)))
  {
    if Assigned(c, reg, task, agent, at).Some? {
      AssignedExactly(c, reg, task, agent, at, Assigned(c, reg, task, agent, at).value);
    }
    var owner := c.agentId(agent);
    if owner.None? || !HasTask(reg, task) { return None; }
    var stamp := c.stamp(at);
    var entries := reg.requirements;
    for i := 0 to |entries|
      invariant |entries| == |reg.requirements|
      invariant forall k | i <= k < |entries| :: entries[k] == reg.requirements[k]
      invariant forall k | 0 <= k < i :: entries[k] == OwnedBy(reg.requirements[k], task, owner.value, stamp)
      invariant forall k | 0 <= k < i && reg.requirements[k].governance.task == task ::
        !reg.requirements[k].governance.owner.Text? || reg.requirements[k].governance.owner == Text(owner.value)
    {
      assert reg.requirements[i] in reg.requirements;
      if entries[i].governance.task == task {
        var existing := entries[i].governance.owner;
        if existing.Text? && existing.value != owner.value { return None; }
        entries := entries[i := OwnedBy(entries[i], task, owner.value, stamp)];
      }
    }
    r := Some(reg.(requirements := entries));
    assert entries == Assigned(c, reg, task, agent, at).value.requirements;
  }

  method ResetOwner(c: Clerk, reg: Registry, task: int, agent: string) returns (r: Option<Registry>)
    ensures r == Reset(c, reg, task, agent)
    ensures r.Some? ==>
      && c.agentId(agent).Some? && Releasable(reg, task, c.agentId(agent).value)
      && OwnersSet(reg, r.value, task, Null, Absent)
  {
    if Reset(c, reg, task, agent).Some? {
      ResetExactly(c, reg, task, agent, Reset(c, reg, task, agent).value);
    }
    var owner := c.agentId(agent);
    if owner.None? || !HasTask(reg, task) { return None; }
    var entries := reg.requirements;
    for i := 0 to |entries|
      invariant |entries| == |reg.requirements|
      invariant forall k | i <= k < |entries| :: entries[k] == reg.requirements[k]
      invariant forall k | 0 <= k < i :: entries[k] == Released(reg.requirements[k], task)
      invariant forall k | 0 <= k < i && reg.requirements[k].governance.task == task ::
        reg.requirements[k].governance.owner == Text(owner.value)
    {
      assert reg.requirements[i] in reg.requirements;
      if entries[i].governance.task == task {
        if entries[i].governance.owner != Text(owner.value) { return None; }
        entries := entries[i := Released(entries[i], task)];
      }
    }
    r := Some(reg.(requirements := entries));
    assert entries == Reset(c, reg, task, agent).value.requirements;
  }

  ghost predicate Unowned(reg: Registry, task: int) {
    forall i | 0 <= i < |reg.requirements| && reg.requirements[i].governance.task == task ::
      reg.requirements[i].governance.owner == Null && reg.requirements[i].governance.assignedAt == Absent
  }

  /** A reset by the same agent always follows an assignment, and undoes it exactly on unowned requirements. */
  lemma ResetUndoesAssign(c: Clerk, reg: Registry, task: int, agent: string, at: int)
    requires Assigned(c, reg, task, agent, at).Some?
    ensures Reset(c, Assigned(c, reg, task, agent, at).value, task, agent).Some?
    ensures Reset(c, Assigned(c, reg, task, agent, at).value, task, agent) == Some(reg) <==> Unowned(reg, task)
  {
    var owned := Assigned(c, reg, task, agent, at).value;
    TaskKept(c, reg, task, agent, at);
    var out := Reset(c, owned, task, agent).value;
    assert forall i | 0 <= i < |reg.requirements| :: out.requirements[i] == Released(reg.requirements[i], task);
    if Unowned(reg, task) {
      assert out.requirements == reg.requirements;
    }
  }

  lemma TaskKept(c: Clerk, reg: Registry, task: int, agent: string, at: int)
    requires Assigned(c, reg, task, agent, at).Some?
    ensures HasTask(Assigned(c, reg, task, agent, at).value, task)
    ensures AllOwnedBy(Assigned(c, reg, task, agent, at).value, task, c.agentId(agent).value)
  {
    var owned := Assigned(c, reg, task, agent, at).value;
    var e :| e in reg.requirements && e.governance.task == task;
    var i :| 0 <= i < |reg.requirements| && reg.requirements[i] == e;
    assert owned.requirements[i] in owned.requirements;
  }

  /**
   An assignment keeps a registry valid exactly when the owner and the stamp also pass the
   validator's own rules, which are not those that the assignment checks.
   */
  lemma AssignKeepsValid(c: Clerk, w: World, r: Rules, tree: Tree, reg: Registry, m: Manifest,
                         task: int, agent: string, at: int)
    requires RegistryValid(w, r, tree, reg, m) && Assigned(c, reg, task, agent, at).Some?
    ensures RegistryValid(w, r, tree, Assigned(c, reg, task, agent, at).value, m)
       <==> r.ownerAccepted(c.agentId(agent).value) && r.stampAccepted(c.stamp(at))
  {
    var sources := Requirements(w, r, tree, m).value;
    var out := Assigned(c, reg, task, agent, at).value;
    var owner, stamp := c.agentId(agent).value, c.stamp(at);
    forall i | 0 <= i < |sources|
      ensures EntryAccepted(r, out.requirements[i], sources[i]) <==>
                (reg.requirements[i].governance.task == task ==> r.ownerAccepted(owner) && r.stampAccepted(stamp))
    {
      assert EntryAccepted(r, reg.requirements[i], sources[i]);
    }
    var e :| e in reg.requirements && e.governance.task == task;
    var i :| 0 <= i < |reg.requirements| && reg.requirements[i] == e;
    assert EntryAccepted(r, out.requirements[i], sources[i]) <==> r.ownerAccepted(owner) && r.stampAccepted(stamp);
  }

  /** A reset always keeps a registry valid. */
  lemma ResetKeepsValid(c: Clerk, w: World, r: Rules, tree: Tree, reg: Registry, m: Manifest, task: int, agent: string)
    requires RegistryValid(w, r, tree, reg, m) && Reset(c, reg, task, agent).Some?
    ensures RegistryValid(w, r, tree, Reset(c, reg, task, agent).value, m)
  {
    var sources := Requirements(w, r, tree, m).value;
    var out := Reset(c, reg, task, agent).value;
    forall i | 0 <= i < |sources|
      ensures EntryAccepted(r, out.requirements[i], sources[i])
    {
      assert EntryAccepted(r, reg.requirements[i], sources[i]);
    }
  }

  // ----- receipts -----

  datatype Assignment = Assignment(id: string, role: Option<string>, agent: string, assignedAt: string)

  datatype RedItem = RedItem(id: string, test: Option<string>, command: string, missingBehavior: Option<string>,
                             statementSha: string)

  datatype Receipt = Receipt(
    schemaSupported: bool, task: int, agent: string, registrySha: string, normativeSha: string,
    createdAt: string, redCommand: string, assignments: seq<Assignment>, red: seq<RedItem>,
    redStartedAt: Option<string>)

  function Agent(c: Clerk, e: Entry): Option<string> {
    if e.governance.owner.Text? then c.agentId(e.governance.owner.value) else None
  }

  function AssignedTime(c: Clerk, e: Entry): Option<int> {
    if e.governance.assignedAt.Text? then c.time(e.governance.assignedAt.value) else None
  }

  function RedCommand(e: Entry): Option<string> {
    if e.governance.intendedRed.None? then None else e.governance.intendedRed.value.command
  }

  predicate CommandConcrete(c: Clerk, command: string) {
    c.nonBlank(command) && !c.placeholder(command)
  }

  function AssignmentOf(c: Clerk, e: Entry): Assignment
    requires Agent(c, e).Some? && AssignedTime(c, e).Some?
  {
    Assignment(e.source.id, e.governance.role, Agent(c, e).value, c.stamp(AssignedTime(c, e).value))
  }

  function RedItemOf(e: Entry): RedItem
    requires RedCommand(e).Some?
  {
    var red := e.governance.intendedRed.value;
    RedItem(e.source.id, red.test, RedCommand(e).value, red.missingBehavior, e.source.statementSha)
  }

  function AssignmentsBefore(c: Clerk): (Assignment, Assignment) -> bool {
    (a: Assignment, b: Assignment) => c.before(a.id, b.id)
  }

  function RedItemsBefore(c: Clerk): (RedItem, RedItem) -> bool {
    (a: RedItem, b: RedItem) => c.before(a.id, b.id)
  }

  function Agents(c: Clerk, selected: seq<Entry>): set<Option<string>> {
    set i | 0 <= i < |selected| :: Agent(c, selected[i])
  }

  function Commands(selected: seq<Entry>): set<Option<string>> {
    set i | 0 <= i < |selected| :: RedCommand(selected[i])
  }

  function AssignmentsOf(c: Clerk, selected: seq<Entry>): seq<Assignment>
    requires forall i | 0 <= i < |selected| :: Agent(c, selected[i]).Some? && AssignedTime(c, selected[i]).Some?
  {
    seq(|selected|, i requires 0 <= i < |selected| => AssignmentOf(c, selected[i]))
  }

  function RedItemsOf(selected: seq<Entry>): seq<RedItem>
    requires forall i | 0 <= i < |selected| :: RedCommand(selected[i]).Some?
  {
    seq(|selected|, i requires 0 <= i < |selected| => RedItemOf(selected[i]))
  }

  /** The sorted owner lines and the agent that owns them all, or None where the source raises. */
  function OwnerLines(c: Clerk, selected: seq<Entry>): Option<(seq<Assignment>, string)> {
    if selected == [] then None
    else if exists i | 0 <= i < |selected| :: Agent(c, selected[i]).None? || AssignedTime(c, selected[i]).None? then None
    else if Agents(c, selected) != {Agent(c, selected[0])} then None
    else Some((SortBy(AssignmentsBefore(c), AssignmentsOf(c, selected)), Agent(c, selected[0]).value))
  }

  function RedLines(c: Clerk, selected: seq<Entry>): Option<seq<RedItem>> {
    if exists i | 0 <= i < |selected| :: RedCommand(selected[i]).None? || !c.nonBlank(RedCommand(selected[i]).value) then None
    else Some(SortBy(RedItemsBefore(c), RedItemsOf(selected)))
  }

  /** Every owner was assigned before the receipt was created. */
  predicate AssignedBefore(c: Clerk, selected: seq<Entry>, created: int) {
    forall i | 0 <= i < |selected| :: AssignedTime(c, selected[i]).Some? && AssignedTime(c, selected[i]).value < created
  }

  /** build_pre_red_receipt */
  function BuiltReceipt(c: Clerk, reg: Registry, task: int, command: string, created: int, started: Option<int>)
    : Option<Receipt>
  {
    var selected := OfTask(reg.requirements, task);
    if !CommandConcrete(c, command) || task < 1 || selected == [] then None
    else if OwnerLines(c, selected).None? || RedLines(c, selected).None? || !AssignedBefore(c, selected, created) then None
    else if Commands(selected) != {Some(command)} || (started.Some? && started.value <= created) then None
    else Some(Receipt(
      true, task, OwnerLines(c, selected).value.1, c.hash(reg), reg.normativeSha, c.stamp(created), command,
      OwnerLines(c, selected).value.0, RedLines(c, selected).value,
      if started.None? then None else Some(c.stamp(started.value))))
  }

  /** _expected_task_command: requirements without a RED mapping are passed over. */
  function FrozenCommand(c: Clerk, reg: Registry, task: int): Option<string> {
    var selected := OfTask(reg.requirements, task);
    var commands := set i | 0 <= i < |selected| && selected[i].governance.intendedRed.Some? :: RedCommand(selected[i]);
    if task < 1 || selected == [] || |commands| != 1 then None
    else
      var only := OnlyMember(commands);
      if only.None? || only.value == "" then None else only
  }

  function OnlyMember(s: set<Option<string>>): Option<string>
    requires |s| == 1
  {
    assert forall x, y | x in s && y in s :: x == y by {
      forall x, y | x in s && y in s
        ensures x == y
      {
        assert |s - {x}| == 0;
        assert y in s - {x} || y == x;
      }
    }
    assert s != {};
    var x :| x in s;
    x
  }

  /** verify_pre_red_receipt */
  predicate ReceiptAccepted(c: Clerk, reg: Registry, t: Receipt, task: int, expectedCommand: string) {
    var selected := OfTask(reg.requirements, task);
    && task >= 1 && selected != []
    && FrozenCommand(c, reg, task) == Some(expectedCommand)
    && t.schemaSupported && t.task == task && t.registrySha == c.hash(reg) && t.normativeSha == reg.normativeSha
    && t.redCommand == expectedCommand && CommandConcrete(c, t.redCommand)
    && c.time(t.createdAt).Some?
    && OwnerLines(c, selected) == Some((t.assignments, t.agent))
    && RedLines(c, selected) == Some(t.red)
    && AssignedBefore(c, selected, c.time(t.createdAt).value)
    && (t.redStartedAt.Some? ==>
          c.time(t.redStartedAt.value).Some? && c.time(t.createdAt).value < c.time(t.redStartedAt.value).value)
  }

  /** Two receipts that differ at most in how their times are written. */
  predicate SameContract(c: Clerk, a: Receipt, b: Receipt) {
    && a == b.(createdAt := a.createdAt, redStartedAt := a.redStartedAt)
    && c.time(a.createdAt) == c.time(b.createdAt)
    && a.redStartedAt.Some? == b.redStartedAt.Some?
    && (a.redStartedAt.Some? ==> c.time(a.redStartedAt.value) == c.time(b.redStartedAt.value))
  }

  lemma OneCommand(c: Clerk, selected: seq<Entry>, command: string)
    requires selected != [] && RedLines(c, selected).Some?
    ensures var commands := set i | 0 <= i < |selected| && selected[i].governance.intendedRed.Some? :: RedCommand(selected[i]);
      Commands(selected) == commands && commands != {}
  {
    var commands := set i | 0 <= i < |selected| && selected[i].governance.intendedRed.Some? :: RedCommand(selected[i]);
    assert RedCommand(selected[0]) in commands;
  }

  lemma FrozenIsCommon(c: Clerk, reg: Registry, task: int, command: string)
    requires task >= 1 && OfTask(reg.requirements, task) != [] && RedLines(c, OfTask(reg.requirements, task)).Some?
    requires LawfulClerk(c) && CommandConcrete(c, command)
    ensures FrozenCommand(c, reg, task) == Some(command) <==> Commands(OfTask(reg.requirements, task)) == {Some(command)}
  {
    var commands := Commands(OfTask(reg.requirements, task));
    OneCommand(c, OfTask(reg.requirements, task), command);
    if commands == {Some(command)} {
      assert OnlyMember(commands) in commands;
    }
    if |commands| == 1 {
      assert OnlyMember(commands) in commands;
      assert |commands - {OnlyMember(commands)}| == 0;
      assert commands == {OnlyMember(commands)};
    }
  }

  /** The times of a receipt, if they can be read. */
  predicate TimesReadable(c: Clerk, t: Receipt) {
    c.time(t.createdAt).Some? && (t.redStartedAt.Some? ==> c.time(t.redStartedAt.value).Some?)
  }

  function StartedTime(c: Clerk, t: Receipt): Option<int> {
    if t.redStartedAt.None? then None else c.time(t.redStartedAt.value)
  }

  /**
   The verifier accepts exactly the receipts that the builder makes from the same
   registry at the receipt's own times, up to the way in which those times are written.
   */
  lemma VerifyMatchesBuild(c: Clerk, reg: Registry, t: Receipt, task: int, command: string)
    requires LawfulClerk(c)
    ensures ReceiptAccepted(c, reg, t, task, command) <==> Rebuildable(c, reg, t, task, command)
  {
    var selected := OfTask(reg.requirements, task);
    if task >= 1 && selected != [] && RedLines(c, selected).Some? && CommandConcrete(c, command) {
      FrozenIsCommon(c, reg, task, command);
    }
  }

  /** A built receipt verifies against the registry it was built from. */
  lemma BuiltReceiptVerifies(c: Clerk, reg: Registry, task: int, command: string, created: int, started: Option<int>)
    requires LawfulClerk(c) && BuiltReceipt(c, reg, task, command, created, started).Some?
    ensures ReceiptAccepted(c, reg, BuiltReceipt(c, reg, task, command, created, started).value, task, command)
  {
    var t := BuiltReceipt(c, reg, task, command, created, started).value;
    assert StartedTime(c, t) == started;
    VerifyMatchesBuild(c, reg, t, task, command);
  }

  /** Every requirement of the task was given to the agent before the receipt was made, and freezes the command. */
  ghost predicate Ready(c: Clerk, reg: Registry, task: int, agent: string, command: string, created: int) {
    && task >= 1 && (exists i | 0 <= i < |reg.requirements| :: reg.requirements[i].governance.task == task)
    && forall i | 0 <= i < |reg.requirements| && reg.requirements[i].governance.task == task ::
         ReadyEntry(c, reg.requirements[i].governance, agent, command, created)
  }

  predicate ReadyEntry(c: Clerk, g: Governance, agent: string, command: string, created: int) {
    && g.owner.Text? && c.agentId(g.owner.value) == Some(agent)
    && g.assignedAt.Text? && c.time(g.assignedAt.value).Some? && c.time(g.assignedAt.value).value < created
    && g.intendedRed.Some? && g.intendedRed.value.command == Some(command)
  }

  predicate OwnerLine(c: Clerk, e: Entry, agent: string, line: Assignment) {
    && line.id == e.source.id && line.role == e.governance.role && line.agent == agent
    && e.governance.assignedAt.Text? && c.time(e.governance.assignedAt.value).Some?
    && line.assignedAt == c.stamp(c.time(e.governance.assignedAt.value).value)
  }

  predicate RedLine(e: Entry, command: string, line: RedItem) {
    && line.id == e.source.id && line.command == command && line.statementSha == e.source.statementSha
    && e.governance.intendedRed.Some? && line.test == e.governance.intendedRed.value.test
    && line.missingBehavior == e.governance.intendedRed.value.missingBehavior
  }

  predicate OwnerListed(c: Clerk, e: Entry, agent: string, lines: seq<Assignment>) {
    exists k | 0 <= k < |lines| :: OwnerLine(c, e, agent, lines[k])
  }

  predicate RedListed(e: Entry, command: string, lines: seq<RedItem>) {
    exists k | 0 <= k < |lines| :: RedLine(e, command, lines[k])
  }

  predicate OwnerOf(c: Clerk, entries: seq<Entry>, task: int, agent: string, line: Assignment) {
    exists i | 0 <= i < |entries| :: entries[i].governance.task == task && OwnerLine(c, entries[i], agent, line)
  }

  predicate RedOf(entries: seq<Entry>, task: int, command: string, line: RedItem) {
    exists i | 0 <= i < |entries| :: entries[i].governance.task == task && RedLine(entries[i], command, line)
  }

  /** Every requirement of the task has its owner line and its RED line. */
  predicate HasLines(c: Clerk, t: Receipt, reg: Registry, task: int) {
    forall i | 0 <= i < |reg.requirements| && reg.requirements[i].governance.task == task ::
      OwnerListed(c, reg.requirements[i], t.agent, t.assignments) && RedListed(reg.requirements[i], t.redCommand, t.red)
  }

  /** Each line is that of a requirement of the task. */
  predicate OnlyLinesOf(c: Clerk, t: Receipt, reg: Registry, task: int) {
    && (forall k | 0 <= k < |t.assignments| :: OwnerOf(c, reg.requirements, task, t.agent, t.assignments[k]))
    && (forall k | 0 <= k < |t.red| :: RedOf(reg.requirements, task, t.redCommand, t.red[k]))
  }

  /** The receipt is about this registry, task and command, and was made before the RED run. */
  predicate Frozen(c: Clerk, reg: Registry, t: Receipt, task: int, command: string) {
    && t.schemaSupported && t.task == task && t.redCommand == command && c.nonBlank(command) && !c.placeholder(command)
    && t.registrySha == c.hash(reg) && t.normativeSha == reg.normativeSha
    && c.time(t.createdAt).Some?
    && (t.redStartedAt.Some? ==>
          c.time(t.redStartedAt.value).Some? && c.time(t.redStartedAt.value).value > c.time(t.createdAt).value)
  }

  predicate OwnersInOrder(c: Clerk, lines: seq<Assignment>) {
    forall i, j | 0 <= i < j < |lines| :: !c.before(lines[j].id, lines[i].id)
  }

  predicate RedInOrder(c: Clerk, lines: seq<RedItem>) {
    forall i, j | 0 <= i < j < |lines| :: !c.before(lines[j].id, lines[i].id)
  }

  lemma AssignmentsBeforeIs(c: Clerk, a: Assignment, b: Assignment)
    ensures AssignmentsBefore(c)(a, b) == c.before(a.id, b.id)
  {
  }

  lemma RedItemsBeforeIs(c: Clerk, a: RedItem, b: RedItem)
    ensures RedItemsBefore(c)(a, b) == c.before(a.id, b.id)
  {
  }

  lemma OwnersSorted(c: Clerk, lines: seq<Assignment>)
    requires WeakOrder(c.before)
    ensures OwnersInOrder(c, SortBy(AssignmentsBefore(c), lines))
  {
    forall a, b, d
      ensures AssignmentsBefore(c)(a, b) ==> !AssignmentsBefore(c)(b, a)
      ensures !AssignmentsBefore(c)(a, b) && !AssignmentsBefore(c)(b, d) ==> !AssignmentsBefore(c)(a, d)
    {
      AssignmentsBeforeIs(c, a, b);
      AssignmentsBeforeIs(c, b, a);
      AssignmentsBeforeIs(c, b, d);
      AssignmentsBeforeIs(c, a, d);
    }
    SortOrdered(AssignmentsBefore(c), lines);
    var r := SortBy(AssignmentsBefore(c), lines);
    forall i, j | 0 <= i < j < |r|
      ensures !c.before(r[j].id, r[i].id)
    {
      AssignmentsBeforeIs(c, r[j], r[i]);
    }
  }

  lemma RedSorted(c: Clerk, lines: seq<RedItem>)
    requires WeakOrder(c.before)
    ensures RedInOrder(c, SortBy(RedItemsBefore(c), lines))
  {
    forall a, b, d
      ensures RedItemsBefore(c)(a, b) ==> !RedItemsBefore(c)(b, a)
      ensures !RedItemsBefore(c)(a, b) && !RedItemsBefore(c)(b, d) ==> !RedItemsBefore(c)(a, d)
    {
      RedItemsBeforeIs(c, a, b);
      RedItemsBeforeIs(c, b, a);
      RedItemsBeforeIs(c, b, d);
      RedItemsBeforeIs(c, a, d);
    }
    SortOrdered(RedItemsBefore(c), lines);
    var r := SortBy(RedItemsBefore(c), lines);
    forall i, j | 0 <= i < j < |r|
      ensures !c.before(r[j].id, r[i].id)
    {
      RedItemsBeforeIs(c, r[j], r[i]);
    }
  }

  lemma ReadySelected(c: Clerk, reg: Registry, task: int, agent: string, command: string, created: int)
    ensures var selected := OfTask(reg.requirements, task);
      Ready(c, reg, task, agent, command, created) <==>
        && task >= 1 && selected != []
        && forall i | 0 <= i < |selected| :: ReadyEntry(c, selected[i].governance, agent, command, created)
  {
    var entries, selected := reg.requirements, OfTask(reg.requirements, task);
    OfTaskMembers(entries, task);
    if Ready(c, reg, task, agent, command, created) {
      var k :| 0 <= k < |entries| && entries[k].governance.task == task;
      assert entries[k] in selected;
      forall i | 0 <= i < |selected|
        ensures ReadyEntry(c, selected[i].governance, agent, command, created)
      {
        assert selected[i] in selected;
        var l :| 0 <= l < |entries| && entries[l] == selected[i];
      }
    }
    if selected != [] && forall i | 0 <= i < |selected| :: ReadyEntry(c, selected[i].governance, agent, command, created) {
      assert selected[0] in selected;
      var k :| 0 <= k < |entries| && entries[k] == selected[0];
      forall l | 0 <= l < |entries| && entries[l].governance.task == task
        ensures ReadyEntry(c, entries[l].governance, agent, command, created)
      {
        assert entries[l] in selected;
        var i :| 0 <= i < |selected| && selected[i] == entries[l];
      }
    }
  }

  lemma OneOwner(c: Clerk, selected: seq<Entry>)
    requires OwnerLines(c, selected).Some?
    ensures forall i | 0 <= i < |selected| ::
      Agent(c, selected[i]) == Some(OwnerLines(c, selected).value.1) && AssignedTime(c, selected[i]).Some?
  {
    forall i | 0 <= i < |selected|
      ensures Agent(c, selected[i]) == Agent(c, selected[0])
    {
      assert Agent(c, selected[i]) in Agents(c, selected);
    }
  }

  lemma OwnersUnsorted(c: Clerk, selected: seq<Entry>) returns (owners: seq<Assignment>)
    requires OwnerLines(c, selected).Some?
    ensures |owners| == |selected| && multiset(OwnerLines(c, selected).value.0) == multiset(owners)
    ensures forall i | 0 <= i < |selected| :: OwnerLine(c, selected[i], OwnerLines(c, selected).value.1, owners[i])
  {
    OneOwner(c, selected);
    owners := AssignmentsOf(c, selected);
  }

  lemma RedUnsorted(c: Clerk, selected: seq<Entry>, command: string) returns (red: seq<RedItem>)
    requires RedLines(c, selected).Some? && Commands(selected) == {Some(command)}
    ensures |red| == |selected| && multiset(RedLines(c, selected).value) == multiset(red)
    ensures forall i | 0 <= i < |selected| ::
      RedCommand(selected[i]) == Some(command) && RedLine(selected[i], command, red[i])
  {
    red := RedItemsOf(selected);
    forall i | 0 <= i < |selected|
      ensures RedCommand(selected[i]) == Some(command)
    {
      assert RedCommand(selected[i]) in Commands(selected);
    }
  }

  lemma OwnersListed(c: Clerk, reg: Registry, task: int)
    requires OwnerLines(c, OfTask(reg.requirements, task)).Some?
    ensures var lines, agent := OwnerLines(c, OfTask(reg.requirements, task)).value.0, OwnerLines(c, OfTask(reg.requirements, task)).value.1;
      && |lines| == |OfTask(reg.requirements, task)|
      && (forall i | 0 <= i < |reg.requirements| && reg.requirements[i].governance.task == task ::
            OwnerListed(c, reg.requirements[i], agent, lines))
      && (forall k | 0 <= k < |lines| :: OwnerOf(c, reg.requirements, task, agent, lines[k]))
  {
    var selected := OfTask(reg.requirements, task);
    var lines, agent := OwnerLines(c, selected).value.0, OwnerLines(c, selected).value.1;
    var owners := OwnersUnsorted(c, selected);
    MembersKept(owners, lines);
    OfTaskMembers(reg.requirements, task);
    forall i | 0 <= i < |reg.requirements| && reg.requirements[i].governance.task == task
      ensures OwnerListed(c, reg.requirements[i], agent, lines)
    {
      assert reg.requirements[i] in selected;
      var k :| 0 <= k < |selected| && selected[k] == reg.requirements[i];
      assert owners[k] in lines;
      var l :| 0 <= l < |lines| && lines[l] == owners[k];
      assert OwnerLine(c, reg.requirements[i], agent, lines[l]);
    }
    forall k | 0 <= k < |lines|
      ensures OwnerOf(c, reg.requirements, task, agent, lines[k])
    {
      assert lines[k] in owners;
      var l :| 0 <= l < |owners| && owners[l] == lines[k];
      assert selected[l] in selected;
      var i :| 0 <= i < |reg.requirements| && reg.requirements[i] == selected[l];
      assert OwnerLine(c, reg.requirements[i], agent, lines[k]);
    }
  }

  lemma RedsListed(c: Clerk, reg: Registry, task: int, command: string)
    requires RedLines(c, OfTask(reg.requirements, task)).Some? && Commands(OfTask(reg.requirements, task)) == {Some(command)}
    ensures var lines := RedLines(c, OfTask(reg.requirements, task)).value;
      && |lines| == |OfTask(reg.requirements, task)|
      && (forall i | 0 <= i < |reg.requirements| && reg.requirements[i].governance.task == task ::
            RedListed(reg.requirements[i], command, lines))
      && (forall k | 0 <= k < |lines| :: RedOf(reg.requirements, task, command, lines[k]))
  {
    var selected := OfTask(reg.requirements, task);
    var lines := RedLines(c, selected).value;
    var red := RedUnsorted(c, selected, command);
    MembersKept(red, lines);
    OfTaskMembers(reg.requirements, task);
    forall i | 0 <= i < |reg.requirements| && reg.requirements[i].governance.task == task
      ensures RedListed(reg.requirements[i], command, lines)
    {
      assert reg.requirements[i] in selected;
      var k :| 0 <= k < |selected| && selected[k] == reg.requirements[i];
      assert red[k] in lines;
      var l :| 0 <= l < |lines| && lines[l] == red[k];
      assert RedLine(reg.requirements[i], command, lines[l]);
    }
    forall k | 0 <= k < |lines|
      ensures RedOf(reg.requirements, task, command, lines[k])
    {
      assert lines[k] in red;
      var l :| 0 <= l < |red| && red[l] == lines[k];
      assert selected[l] in selected;
      var i :| 0 <= i < |reg.requirements| && reg.requirements[i] == selected[l];
      assert RedLine(reg.requirements[i], command, lines[k]);
    }
  }

  lemma SelectedReady(c: Clerk, selected: seq<Entry>, agent: string, command: string, created: int)
    requires selected != [] && c.nonBlank(command)
    requires forall i | 0 <= i < |selected| :: ReadyEntry(c, selected[i].governance, agent, command, created)
    ensures OwnerLines(c, selected).Some? && RedLines(c, selected).Some?
    ensures AssignedBefore(c, selected, created) && Commands(selected) == {Some(command)}
  {
    assert Agents(c, selected) == {Some(agent)} by { assert Agent(c, selected[0]) in Agents(c, selected); }
    assert RedCommand(selected[0]) in Commands(selected);
  }

  lemma BuiltReady(c: Clerk, selected: seq<Entry>, command: string, created: int)
    requires OwnerLines(c, selected).Some? && RedLines(c, selected).Some?
    requires AssignedBefore(c, selected, created) && Commands(selected) == {Some(command)}
    ensures forall i | 0 <= i < |selected| ::
      ReadyEntry(c, selected[i].governance, OwnerLines(c, selected).value.1, command, created)
  {
    OneOwner(c, selected);
    forall i | 0 <= i < |selected|
      ensures RedCommand(selected[i]) == Some(command)
    {
      assert RedCommand(selected[i]) in Commands(selected);
    }
  }

  lemma LinesInOrder(c: Clerk, selected: seq<Entry>)
    requires WeakOrder(c.before)
    ensures OwnerLines(c, selected).Some? ==> OwnersInOrder(c, OwnerLines(c, selected).value.0)
    ensures RedLines(c, selected).Some? ==> RedInOrder(c, RedLines(c, selected).value)
  {
    if OwnerLines(c, selected).Some? { OwnersSorted(c, AssignmentsOf(c, selected)); }
    if RedLines(c, selected).Some? { RedSorted(c, RedItemsOf(selected)); }
  }

  lemma AcceptedReady(c: Clerk, reg: Registry, t: Receipt, task: int, command: string)
    requires LawfulClerk(c) && ReceiptAccepted(c, reg, t, task, command)
    ensures Frozen(c, reg, t, task, command)
    ensures Ready(c, reg, task, t.agent, command, c.time(t.createdAt).value)
  {
    FrozenIsCommon(c, reg, task, command);
    BuiltReady(c, OfTask(reg.requirements, task), command, c.time(t.createdAt).value);
    ReadySelected(c, reg, task, t.agent, command, c.time(t.createdAt).value);
  }

  /**
   An accepted receipt is about its registry, task and command. Every requirement of the task was
   given to its agent before it was made, and the RED run began after. It has a line for every
   requirement, and no other line.
   */
  lemma ReceiptCovers(c: Clerk, reg: Registry, t: Receipt, task: int, command: string)
    requires LawfulClerk(c) && ReceiptAccepted(c, reg, t, task, command)
    ensures Frozen(c, reg, t, task, command)
    ensures Ready(c, reg, task, t.agent, command, c.time(t.createdAt).value)
    ensures HasLines(c, t, reg, task) && OnlyLinesOf(c, t, reg, task)
    ensures |t.red| == |t.assignments| == |OfTask(reg.requirements, task)|
    ensures WeakOrder(c.before) ==> OwnersInOrder(c, t.assignments) && RedInOrder(c, t.red)
  {
    AcceptedReady(c, reg, t, task, command);
    FrozenIsCommon(c, reg, task, command);
    OwnersListed(c, reg, task);
    RedsListed(c, reg, task, command);
    if WeakOrder(c.before) { LinesInOrder(c, OfTask(reg.requirements, task)); }
  }

  /** A receipt can be made exactly when some agent was given the whole task before, with this command, and RED comes after. */
  lemma BuiltExactly(c: Clerk, reg: Registry, task: int, command: string, created: int, started: Option<int>)
    ensures BuiltReceipt(c, reg, task, command, created, started).Some?
       <==> && c.nonBlank(command) && !c.placeholder(command) && (started.Some? ==> started.value > created)
            && exists agent :: Ready(c, reg, task, agent, command, created)
  {
    var selected := OfTask(reg.requirements, task);
    forall agent
      ensures Ready(c, reg, task, agent, command, created) <==>
        && task >= 1 && selected != []
        && forall i | 0 <= i < |selected| :: ReadyEntry(c, selected[i].governance, agent, command, created)
    {
      ReadySelected(c, reg, task, agent, command, created);
    }
    if BuiltReceipt(c, reg, task, command, created, started).Some? {
      BuiltReady(c, selected, command, created);
      assert Ready(c, reg, task, OwnerLines(c, selected).value.1, command, created);
    }
    if c.nonBlank(command) && exists agent :: Ready(c, reg, task, agent, command, created) {
      var agent :| Ready(c, reg, task, agent, command, created);
      SelectedReady(c, selected, agent, command, created);
    }
  }

  // ----- the builder and the verifier -----

  /** The receipt is the one that the builder makes at its times, but for how the times are written. */
  predicate Rebuildable(c: Clerk, reg: Registry, t: Receipt, task: int, command: string) {
    && TimesReadable(c, t)
    && var built := BuiltReceipt(c, reg, task, command, c.time(t.createdAt).value, StartedTime(c, t));
       built.Some? && SameContract(c, t, built.value)
  }

  lemma BuildThenVerify(c: Clerk, reg: Registry, task: int, command: string, created: int, started: Option<int>)
    ensures LawfulClerk(c) && BuiltReceipt(c, reg, task, command, created, started).Some? ==>
      ReceiptAccepted(c, reg, BuiltReceipt(c, reg, task, command, created, started).value, task, command)
  {
    if LawfulClerk(c) && BuiltReceipt(c, reg, task, command, created, started).Some? {
      BuiltReceiptVerifies(c, reg, task, command, created, started);
    }
  }

  lemma VerifyThenBuild(c: Clerk, reg: Registry, t: Receipt, task: int, command: string)
    ensures LawfulClerk(c) ==> (ReceiptAccepted(c, reg, t, task, command) <==> Rebuildable(c, reg, t, task, command))
  {
    if LawfulClerk(c) { VerifyMatchesBuild(c, reg, t, task, command); }
  }

  /** The loop over the requirements of the task that collects agents and owner lines. */
  method ReceiptAssignments(c: Clerk, selected: seq<Entry>) returns (r: Option<(seq<Assignment>, string)>)
    ensures r == OwnerLines(c, selected)
  {
    var lines: seq<Assignment> := [];
    var agents: set<Option<string>> := {};
    for i := 0 to |selected|
      invariant forall k | 0 <= k < i :: Agent(c, selected[k]).Some? && AssignedTime(c, selected[k]).Some?
      invariant lines == seq(i, k requires 0 <= k < i => AssignmentOf(c, selected[k]))
      invariant agents == set k | 0 <= k < i :: Agent(c, selected[k])
    {
      var agent, at := Agent(c, selected[i]), AssignedTime(c, selected[i]);
      if agent.None? || at.None? { return None; }
      agents := agents + {agent};
      lines := lines + [Assignment(selected[i].source.id, selected[i].governance.role, agent.value, c.stamp(at.value))];
    }
    if |agents| != 1 {
      NotOneAgent(c, selected, agents);
      return None;
    }
    OneAgent(c, selected, agents);
    assert lines == AssignmentsOf(c, selected);
    return Some((SortBy(AssignmentsBefore(c), lines), Agent(c, selected[0]).value));
  }

  lemma SingleMember(s: set<Option<string>>, x: Option<string>)
    requires x in s && |s| == 1
    ensures s == {x}
  {
    assert |s - {x}| == 0;
  }

  lemma OneAgent(c: Clerk, selected: seq<Entry>, agents: set<Option<string>>)
    requires agents == Agents(c, selected) && |agents| == 1
    ensures selected != [] && agents == {Agent(c, selected[0])}
  {
    var agent := MemberOf(agents);
    var i :| 0 <= i < |selected| && Agent(c, selected[i]) == agent;
    assert Agent(c, selected[0]) in agents;
    SingleMember(agents, Agent(c, selected[0]));
  }

  lemma NotOneAgent(c: Clerk, selected: seq<Entry>, agents: set<Option<string>>)
    requires agents == Agents(c, selected) && |agents| != 1
    ensures OwnerLines(c, selected).None?
  {
    forall x: Option<string>
      ensures agents != {x}
    {
      assert |{x}| == 1;
    }
  }

  /** The loop that collects the RED lines and the commands, and compares the times. */
  method ReceiptRedLines(c: Clerk, selected: seq<Entry>, created: int)
    returns (r: Option<(seq<RedItem>, set<Option<string>>)>)
    requires forall i | 0 <= i < |selected| :: AssignedTime(c, selected[i]).Some?
    ensures r.Some? <==> RedLines(c, selected).Some? && AssignedBefore(c, selected, created)
    ensures r.Some? ==> r.value == (RedLines(c, selected).value, Commands(selected))
  {
    var lines: seq<RedItem> := [];
    var commands: set<Option<string>> := {};
    for i := 0 to |selected|
      invariant forall k | 0 <= k < i :: RedCommand(selected[k]).Some? && c.nonBlank(RedCommand(selected[k]).value)
      invariant forall k | 0 <= k < i :: AssignedTime(c, selected[k]).value < created
      invariant lines == seq(i, k requires 0 <= k < i => RedItemOf(selected[k]))
      invariant commands == set k | 0 <= k < i :: RedCommand(selected[k])
    {
      var command := RedCommand(selected[i]);
      if command.None? || !c.nonBlank(command.value) { return None; }
      commands := commands + {command};
      lines := lines + [RedItemOf(selected[i])];
      if AssignedTime(c, selected[i]).value >= created { return None; }
    }
    assert lines == RedItemsOf(selected);
    return Some((SortBy(RedItemsBefore(c), lines), commands));
  }

  method SelectTask(entries: seq<Entry>, task: int) returns (selected: seq<Entry>)
    ensures selected == OfTask(entries, task)
  {
    selected := [];
    for i := 0 to |entries|
      invariant selected == OfTask(entries[..i], task)
    {
      assert entries[..i + 1][..i] == entries[..i];
      if entries[i].governance.task == task { selected := selected + [entries[i]]; }
    }
    assert entries[..|entries|] == entries;
  }

  /** build_pre_red_receipt. What it returns is accepted for the registry, the task and the command. */
  method BuildPreRedReceipt(c: Clerk, reg: Registry, task: int, command: string, created: int, started: Option<int>)
    returns (r: Option<Receipt>)
    ensures r == BuiltReceipt(c, reg, task, command, created, started)
    ensures LawfulClerk(c) && r.Some? ==> ReceiptAccepted(c, reg, r.value, task, command)
    ensures r.Some? <==>
      && c.nonBlank(command) && !c.placeholder(command) && (started.Some? ==> started.value > created)
      && exists agent :: Ready(c, reg, task, agent, command, created)
    ensures r.Some? ==>
      && r.value.createdAt == c.stamp(created)
      && (r.value.redStartedAt == if started.None? then None else Some(c.stamp(started.value)))
  {
    BuildThenVerify(c, reg, task, command, created, started);
    BuiltExactly(c, reg, task, command, created, started);
    if !CommandConcrete(c, command) || task < 1 { return None; }
    var selected := SelectTask(reg.requirements, task);
    if selected == [] { return None; }
    var owners := ReceiptAssignments(c, selected);
    if owners.None? { return None; }
    var red := ReceiptRedLines(c, selected, created);
    if red.None? || red.value.1 != {Some(command)} { return None; }
    if started.Some? && started.value <= created { return None; }
    return Some(Receipt(
      true, task, owners.value.1, c.hash(reg), reg.normativeSha, c.stamp(created), command,
      owners.value.0, red.value.0, if started.None? then None else Some(c.stamp(started.value))));
  }

  /** verify_pre_red_receipt. It accepts what build_pre_red_receipt makes at the receipt's own times, and nothing else. */
  method VerifyPreRedReceipt(c: Clerk, reg: Registry, t: Receipt, task: int, expectedCommand: string)
    returns (ok: bool)
    ensures ok == ReceiptAccepted(c, reg, t, task, expectedCommand)
    ensures LawfulClerk(c) ==> (ok <==> Rebuildable(c, reg, t, task, expectedCommand))
    ensures LawfulClerk(c) && ok ==>
      Frozen(c, reg, t, task, expectedCommand) && Ready(c, reg, task, t.agent, expectedCommand, c.time(t.createdAt).value)
  {
    VerifyThenBuild(c, reg, t, task, expectedCommand);
    if LawfulClerk(c) && ReceiptAccepted(c, reg, t, task, expectedCommand) { AcceptedReady(c, reg, t, task, expectedCommand); }
    if task < 1 { return false; }
    var selected := SelectTask(reg.requirements, task);
    if selected == [] || FrozenCommand(c, reg, task) != Some(expectedCommand) { return false; }
    if !t.schemaSupported || t.task != task || t.registrySha != c.hash(reg) { return false; }
    if t.normativeSha != reg.normativeSha || t.redCommand != expectedCommand { return false; }
    if !CommandConcrete(c, t.redCommand) || c.time(t.createdAt).None? { return false; }
    var created := c.time(t.createdAt).value;
    var owners := ReceiptAssignments(c, selected);
    if owners != Some((t.assignments, t.agent)) { return false; }
    var red := ReceiptRedLines(c, selected, created);
    if red.None? || red.value.0 != t.red { return false; }
    if t.redStartedAt.None? { return true; }
    var started := c.time(t.redStartedAt.value);
    return started.Some? && created < started.value;
  }

  // ----- which registries a receipt belongs to -----

  ghost predicate InjectiveHash(c: Clerk) {
    forall a, b :: c.hash(a) == c.hash(b) ==> a == b
  }

  /** A receipt belongs to one registry, whatever task and command it is checked for. */
  lemma OneRegistry(c: Clerk, reg: Registry, other: Registry, t: Receipt, task: int, command: string,
                    otherTask: int, otherCommand: string)
    requires InjectiveHash(c)
    requires ReceiptAccepted(c, reg, t, task, command) && ReceiptAccepted(c, other, t, otherTask, otherCommand)
    ensures reg == other && task == otherTask && command == otherCommand
  {
  }

  /** The operations that change a registry in the life of a repository. */
  datatype Change =
    | Assign(task: int, agent: string, at: int)
    | Release(task: int, agent: string)
    | Promote(before: Manifest, after: Manifest, path: string, tree: Tree, nextTree: Tree)

  ghost function Changed(c: Clerk, w: World, r: Rules, reg: Registry, change: Change): Option<Registry> {
    match change
    case Assign(task, agent, at) => Assigned(c, reg, task, agent, at)
    case Release(task, agent) => Reset(c, reg, task, agent)
    case Promote(before, after, path, tree, nextTree) => Transitioned(w, r, reg, before, after, path, tree, nextTree)
  }

  ghost predicate History(c: Clerk, w: World, r: Rules, changes: seq<Change>, regs: seq<Registry>) {
    |regs| == |changes| + 1 && forall k | 0 <= k < |changes| :: Changed(c, w, r, regs[k], changes[k]) == Some(regs[k + 1])
  }

  lemma ChangeGeneration(c: Clerk, w: World, r: Rules, reg: Registry, change: Change, next: Registry)
    requires Changed(c, w, r, reg, change) == Some(next)
    ensures next.generation == reg.generation + if change.Promote? then 1 else 0
  {
  }

  ghost predicate PromotedAmong(changes: seq<Change>, i: nat, j: nat) {
    exists k :: i <= k < j && k < |changes| && changes[k].Promote?
  }

  /** Each change adds one to the generation if it promotes a gate, and nothing otherwise. */
  ghost predicate Counted(changes: seq<Change>, generations: seq<int>) {
    && |generations| == |changes| + 1
    && forall k | 0 <= k < |changes| :: generations[k + 1] == generations[k] + if changes[k].Promote? then 1 else 0
  }

  lemma {:induction false} CountGrows(changes: seq<Change>, generations: seq<int>, i: nat, j: nat)
    requires Counted(changes, generations) && i <= j < |generations|
    ensures generations[j] >= generations[i]
    ensures PromotedAmong(changes, i, j) ==> generations[j] > generations[i]
    decreases j
  {
    if i < j {
      CountGrows(changes, generations, i, j - 1);
      if PromotedAmong(changes, i, j) && !PromotedAmong(changes, i, j - 1) {
        assert changes[j - 1].Promote?;
      }
    }
  }

  lemma GenerationGrows(c: Clerk, w: World, r: Rules, changes: seq<Change>, regs: seq<Registry>, i: nat, j: nat)
    requires History(c, w, r, changes, regs) && i <= j < |regs|
    ensures regs[j].generation >= regs[i].generation
    ensures PromotedAmong(changes, i, j) ==> regs[j].generation > regs[i].generation
  {
    var generations := seq(|regs|, k requires 0 <= k < |regs| => regs[k].generation);
    forall k | 0 <= k < |changes|
      ensures generations[k + 1] == generations[k] + if changes[k].Promote? then 1 else 0
    {
      ChangeGeneration(c, w, r, regs[k], changes[k], regs[k + 1]);
    }
    CountGrows(changes, generations, i, j);
  }

  /**
   A receipt that verifies at one point of a history verifies at a later point exactly when
   the registry is the same again; after the transition of a gate it never is.
   */
  lemma ReceiptSurvival(c: Clerk, w: World, r: Rules, changes: seq<Change>, regs: seq<Registry>, i: nat, j: nat,
                        t: Receipt, task: int, command: string)
    requires InjectiveHash(c) && History(c, w, r, changes, regs) && i <= j < |regs|
    requires ReceiptAccepted(c, regs[i], t, task, command)
    ensures ReceiptAccepted(c, regs[j], t, task, command) <==> regs[j] == regs[i]
    ensures PromotedAmong(changes, i, j) ==> !ReceiptAccepted(c, regs[j], t, task, command)
  {
    GenerationGrows(c, w, r, changes, regs, i, j);
    if ReceiptAccepted(c, regs[j], t, task, command) {
      OneRegistry(c, regs[i], regs[j], t, task, command, task, command);
    }
  }

  /** The task already has this owner, assigned at this time. */
  predicate OwnedAlready(reg: Registry, task: int, owner: string, stamp: string) {
    forall i | 0 <= i < |reg.requirements| && reg.requirements[i].governance.task == task ::
      reg.requirements[i].governance.owner == Text(owner) && reg.requirements[i].governance.assignedAt == Text(stamp)
  }

  lemma AssignedSame(c: Clerk, reg: Registry, task: int, agent: string, at: int)
    requires Assigned(c, reg, task, agent, at).Some?
    ensures Assigned(c, reg, task, agent, at).value == reg <==> OwnedAlready(reg, task, c.agentId(agent).value, c.stamp(at))
  {
    var next := Assigned(c, reg, task, agent, at).value;
    var owner, stamp := c.agentId(agent).value, c.stamp(at);
    forall i | 0 <= i < |reg.requirements|
      ensures next.requirements[i] == reg.requirements[i] <==>
                (reg.requirements[i].governance.task == task ==>
                   reg.requirements[i].governance.owner == Text(owner) && reg.requirements[i].governance.assignedAt == Text(stamp))
    {
      assert next.requirements[i] == OwnedBy(reg.requirements[i], task, owner, stamp);
    }
    if OwnedAlready(reg, task, owner, stamp) {
      assert next.requirements == reg.requirements;
    }
  }

  /** After an assignment, in any task, a receipt is accepted exactly when the assignment changed no owner and no time. */
  lemma OwnerChangeEndsReceipt(c: Clerk, reg: Registry, t: Receipt, task: int, command: string,
                               changedTask: int, agent: string, at: int)
    requires InjectiveHash(c) && ReceiptAccepted(c, reg, t, task, command)
    requires Assigned(c, reg, changedTask, agent, at).Some?
    ensures ReceiptAccepted(c, Assigned(c, reg, changedTask, agent, at).value, t, task, command)
       <==> OwnedAlready(reg, changedTask, c.agentId(agent).value, c.stamp(at))
  {
    var next := Assigned(c, reg, changedTask, agent, at).value;
    AssignedSame(c, reg, changedTask, agent, at);
    if ReceiptAccepted(c, next, t, task, command) {
      OneRegistry(c, reg, next, t, task, command, task, command);
    }
  }

  /** A release always ends a receipt, in whatever task it happens. */
  lemma ReleaseEndsReceipt(c: Clerk, reg: Registry, t: Receipt, task: int, command: string, changedTask: int, agent: string)
    requires InjectiveHash(c) && ReceiptAccepted(c, reg, t, task, command)
    requires Reset(c, reg, changedTask, agent).Some?
    ensures !ReceiptAccepted(c, Reset(c, reg, changedTask, agent).value, t, task, command)
  {
    var next := Reset(c, reg, changedTask, agent).value;
    var e :| e in reg.requirements && e.governance.task == changedTask;
    var i :| 0 <= i < |reg.requirements| && reg.requirements[i] == e;
    assert next.requirements[i].governance.owner == Null;
    if ReceiptAccepted(c, next, t, task, command) {
      OneRegistry(c, reg, next, t, task, command, task, command);
    }
  }

  /** The times at which the task's requirements were assigned are all this one. */
  predicate AssignedAll(reg: Registry, task: int, stamp: string) {
    forall i | 0 <= i < |reg.requirements| && reg.requirements[i].governance.task == task ::
      reg.requirements[i].governance.assignedAt == Text(stamp)
  }

  lemma ReleasedTask(c: Clerk, reg: Registry, task: int, agent: string)
    requires Reset(c, reg, task, agent).Some?
    ensures var next := Reset(c, reg, task, agent).value;
      && HasTask(next, task)
      && forall owner :: Assignable(next, task, owner)
  {
    var next := Reset(c, reg, task, agent).value;
    var e :| e in reg.requirements && e.governance.task == task;
    var k :| 0 <= k < |reg.requirements| && reg.requirements[k] == e;
    assert next.requirements[k] in next.requirements && next.requirements[k].governance.task == task;
    forall f | f in next.requirements && f.governance.task == task
      ensures !f.governance.owner.Text?
    {
      var i :| 0 <= i < |next.requirements| && next.requirements[i] == f;
    }
  }

  lemma ReownedAt(c: Clerk, reg: Registry, task: int, agent: string, owner: string, stamp: string, i: nat)
    requires Reset(c, reg, task, agent).Some? && i < |reg.requirements|
    ensures OwnedBy(Reset(c, reg, task, agent).value.requirements[i], task, owner, stamp) == reg.requirements[i] <==>
      (reg.requirements[i].governance.task == task ==>
         owner == c.agentId(agent).value && reg.requirements[i].governance.assignedAt == Text(stamp))
  {
    assert reg.requirements[i] in reg.requirements;
  }

  /**
   But a receipt can come back: after a release an assignment restores the registry exactly when it
   is to the same agent and at the time at which the whole task was assigned before.
   */
  lemma ReassignRestores(c: Clerk, reg: Registry, task: int, agent: string, again: string, at: int)
    requires Reset(c, reg, task, agent).Some?
    ensures Assigned(c, Reset(c, reg, task, agent).value, task, again, at) == Some(reg)
       <==> c.agentId(again) == c.agentId(agent) && AssignedAll(reg, task, c.stamp(at))
  {
    var next := Reset(c, reg, task, agent).value;
    ReleasedTask(c, reg, task, agent);
    if c.agentId(again).Some? {
      var owner, stamp := c.agentId(again).value, c.stamp(at);
      var out := Assigned(c, next, task, again, at).value;
      forall i | 0 <= i < |reg.requirements|
        ensures out.requirements[i] == reg.requirements[i] <==>
                  (reg.requirements[i].governance.task == task ==>
                     owner == c.agentId(agent).value && reg.requirements[i].governance.assignedAt == Text(stamp))
      {
        ReownedAt(c, reg, task, agent, owner, stamp, i);
      }
      var e :| e in reg.requirements && e.governance.task == task;
      var k :| 0 <= k < |reg.requirements| && reg.requirements[k] == e;
      assert out == reg ==> out.requirements[k] == reg.requirements[k];
      if c.agentId(again) == c.agentId(agent) && AssignedAll(reg, task, stamp) {
        assert out.requirements == reg.requirements;
      }
    }
  }

  // ----- an assignment that the validator refuses, and a receipt that comes back -----

  function Tally(t: int): string {
    if t >= 0 then Repeat('+', t) else Repeat('-', -t)
  }

  function Read(s: string): int {
    if s != "" && s[0] == '-' then -|s| else |s|
  }

  function SampleClerk(): Clerk {
    Clerk(s => Some(s), s => s != "", _ => false, t => Tally(t), s => Some(Read(s)), _ => "0", (_, _) => false)
  }

  lemma TallyRead(t: int)
    ensures Read(Tally(t)) == t
  {
  }

  lemma SampleClerkLawful()
    ensures LawfulClerk(SampleClerk())
  {
    forall t: int
      ensures SampleClerk().time(SampleClerk().stamp(t)) == Some(t)
    {
      TallyRead(t);
    }
  }

  /** The validator's placeholder words contain "local-only"; those of the assignment do not. */
  const REFUSED_AGENT := "local-only-1"

  function SampleRules(): Rules {
    Rules((p, a) => p + a, s => s, _ => true, _ => true, s => s != REFUSED_AGENT, _ => true, _ => true, _ => true, _ => true)
  }

  function SampleGovernance(owner: Slot, assignedAt: Slot): Governance {
    Governance(1, owner, assignedAt, Some("role"), Some(RedMapping(Some("test"), Some("run"), Some("missing"))),
               "unit", "local", "local", "")
  }

  /** The requirement that the sample commit holds. */
  function SampleRequirement(): Source {
    SourceOf(SampleRules(), SampleFile("a"), Located("root", Statement("m", "It MUST hold.", 1)))
  }

  function SampleRegistry(owner: Slot, assignedAt: Slot): Registry {
    Registry(true, SAMPLE_SHA, 1, [Entry(SampleRequirement(), SampleGovernance(owner, assignedAt))], None)
  }

  lemma SampleRequirements(w: World, v: Vocabulary, m: Manifest)
    requires w == SampleWorld(v, [SampleSource("a")]) && SampleTexts(v)
    requires ManifestValid(w, SampleTree(), m) && m.files == [SampleFile("a")]
    ensures Requirements(w, SampleRules(), SampleTree(), m) == Some([SampleRequirement()])
  {
    var f, located := SampleFile("a"), Located("root", Statement("m", "It MUST hold.", 1));
    SampleExtracted([Marker("m"), Words("It MUST hold.", true)], "It MUST hold.");
    assert FileStatements(w, SampleTree(), f) == Some([located]);
    OneRequirement(w, SampleRules(), SampleTree(), m, f, located);
  }

  lemma SampleRegistryValid(w: World, v: Vocabulary, m: Manifest)
    requires w == SampleWorld(v, [SampleSource("a")]) && SampleTexts(v)
    requires ManifestValid(w, SampleTree(), m) && m.files == [SampleFile("a")]
    requires m.normativeSha == SAMPLE_SHA && m.generation == 1
    ensures RegistryValid(w, SampleRules(), SampleTree(), SampleRegistry(Null, Absent), m)
  {
    SampleHexadecimal();
    SampleRequirements(w, v, m);
  }

  /** An agent id that the assignment takes makes a valid registry invalid. */
  lemma AssignmentRefused(w: World) returns (m: Manifest)
    requires w == SampleWorld(PlainVocabulary(), [SampleSource("a")])
    ensures LawfulPaths(w.vocabulary) && LawfulCommits(w) && LawfulDigest(w)
    ensures Initial(w, SampleRequest()) == Ok(m)
    ensures var reg, owned := SampleRegistry(Null, Absent), Assigned(SampleClerk(), SampleRegistry(Null, Absent), 1, REFUSED_AGENT, 1);
      && RegistryValid(w, SampleRules(), SampleTree(), reg, m)
      && owned.Some? && !RegistryValid(w, SampleRules(), SampleTree(), owned.value, m)
  {
    var v := PlainVocabulary();
    PlainTexts();
    PlainLawful();
    SampleLawful(v, [SampleSource("a")]);
    SampleBuilt(v, "a", "a");
    SampleValid(v, "a", "a");
    m := Initial(w, SampleRequest()).value;
    SampleRegistryValid(w, v, m);
    var reg := SampleRegistry(Null, Absent);
    SampleAssigned(reg);
    AssignKeepsValid(SampleClerk(), w, SampleRules(), SampleTree(), reg, m, 1, REFUSED_AGENT, 1);
  }

  lemma SampleAssigned(reg: Registry)
    requires reg == SampleRegistry(Null, Absent)
    ensures Assigned(SampleClerk(), reg, 1, REFUSED_AGENT, 1).Some?
  {
    assert reg.requirements[0] in reg.requirements;
  }

  lemma SampleReleased(reg: Registry) returns (released: Registry, e: Entry)
    requires reg == SampleRegistry(Text("agent"), Text(Tally(1)))
    ensures Reset(SampleClerk(), reg, 1, "agent") == Some(released)
    ensures released.requirements == [e] && e.governance.task == 1 && e.governance.owner == Null
  {
    assert reg.requirements[0] in reg.requirements;
    released := Reset(SampleClerk(), reg, 1, "agent").value;
    e := released.requirements[0];
    assert released.requirements == [e];
  }

  /** A receipt that a release ends, and that the same assignment at the same time brings back. */
  lemma ReceiptComesBack(reg: Registry) returns (t: Receipt, released: Registry)
    requires reg == SampleRegistry(Text("agent"), Text(Tally(1)))
    ensures ReceiptAccepted(SampleClerk(), reg, t, 1, "run")
    ensures Reset(SampleClerk(), reg, 1, "agent") == Some(released) && !ReceiptAccepted(SampleClerk(), released, t, 1, "run")
    ensures Assigned(SampleClerk(), released, 1, "agent", 1) == Some(reg)
  {
    t := SampleReceipt(reg);
    var e;
    released, e := SampleReleased(reg);
    Unreceiptable(SampleClerk(), released, t, e);
    SampleReassigned(SampleClerk(), reg);
  }

  lemma SampleReassigned(c: Clerk, reg: Registry)
    requires c == SampleClerk() && Reset(c, reg, 1, "agent").Some? && AssignedAll(reg, 1, Tally(1))
    ensures Assigned(c, Reset(c, reg, 1, "agent").value, 1, "agent", 1) == Some(reg)
  {
    ReassignRestores(c, reg, 1, "agent", "agent", 1);
  }

  lemma Unreceiptable(c: Clerk, reg: Registry, t: Receipt, e: Entry)
    requires reg.requirements == [e] && e.governance.task == 1 && e.governance.owner == Null
    ensures !ReceiptAccepted(c, reg, t, 1, "run")
  {
    OneOfTask(e);
    assert OwnerLines(c, [e]).None? by { assert Agent(c, [e][0]).None?; }
  }

  lemma OneOfTask(e: Entry)
    requires e.governance.task == 1
    ensures OfTask([e], 1) == [e]
  {
    assert [e][..0] == [];
    assert OfTask([], 1) == [];
    assert [] + [e] == [e];
  }

  lemma SampleReceipt(reg: Registry) returns (t: Receipt)
    requires reg == SampleRegistry(Text("agent"), Text(Tally(1)))
    ensures ReceiptAccepted(SampleClerk(), reg, t, 1, "run")
  {
    var c := SampleClerk();
    SampleClerkLawful();
    assert c.time(Tally(1)) == Some(1) && reg.requirements[0].governance.task == 1;
    assert Ready(c, reg, 1, "agent", "run", 2);
    BuiltExactly(c, reg, 1, "run", 2, None);
    t := BuiltReceipt(c, reg, 1, "run", 2, None).value;
    BuiltReceiptVerifies(c, reg, 1, "run", 2, None);
  }
}
