/**
 The skill calls of one worker: _execute_skill_requests of agent_swarm/llm_tool_worker.py
 with the budget of skills/tool_budget.py and the part of skills/executor.py that numbers
 the calls. What a skill does, and how long it takes, is given by an oracle.
 */
module SkillRequests {
  import opened Wrappers
  import opened Clocks

  datatype Requested = Absent | Malformed | Requests(names: seq<string>)

  /** What an execution comes to. Only an unregistered skill fails before the budget is asked. */
  datatype Behaviour = Answers(body: string) | Unregistered | Unsupported | GivesNoArtifact

  datatype Executor = Executor(behaves: (nat, string, int) -> Behaviour, lasts: (nat, string, int) -> real)

  datatype Artifact = Artifact(skill: string, number: int, body: string)

  datatype Failure =
    | RequestsMalformed | ExecutionDisabled | CountExceedsBudget
    | DeadlineExpired | NameRequired | NotRequested | ExecutionFailed | BudgetExceeded | NoArtifact

  /** One execution: when the remaining time was read, the timeout granted, and when it ended. */
  datatype Call = Call(skill: string, checked: real, timeout: int, ended: real, behaviour: Behaviour)

  /** The limits under which a worker runs its skills. */
  datatype Limits = Limits(
    allowed: set<string>, timeout: Option<real>, subtaskTimeout: int, deadlineAt: Option<real>, maxToolCalls: int)

  class ToolBudget {
    const maxCalls: nat
    var used: nat

    constructor (maxCalls: nat)
      ensures this.maxCalls == maxCalls && used == 0
    {
      this.maxCalls, used := maxCalls, 0;
    }

    /** reserve: the calls that remain, or None when none did. */
    method Reserve() returns (remaining: Option<nat>)
      modifies this
      ensures old(used) < maxCalls ==> used == old(used) + 1 && remaining == Some(maxCalls - used)
      ensures old(used) >= maxCalls ==> used == old(used) && remaining == None
    {
      if used >= maxCalls { return None; }
      used := used + 1;
      return Some(maxCalls - used);
    }
  }

  /** int(x) */
  function Truncated(x: real): int {
    if x < 0.0 then -(-x).Floor else x.Floor
  }

  /** x or y, where a number that is zero counts as false. */
  function Or(x: Option<real>, y: real): real {
    if x.Some? && x.value != 0.0 then x.value else y
  }

  /** The whole seconds in x, and one where there is none. */
  predicate WholeSeconds(x: real, seconds: int) {
    if x < 1.0 then seconds == 1 else seconds as real <= x < seconds as real + 1.0
  }

  /** max(1, int(remaining_timeout or timeout_seconds or subtask.timeout_seconds)): the first of them that is not zero. */
  function GrantedTimeout(l: Limits, remaining: Option<real>): (granted: int)
    ensures granted >= 1
    ensures remaining.Some? && remaining.value != 0.0 ==> WholeSeconds(remaining.value, granted)
    ensures (remaining.None? || remaining.value == 0.0) && l.timeout.Some? && l.timeout.value != 0.0 ==>
      WholeSeconds(l.timeout.value, granted)
    ensures (remaining.None? || remaining.value == 0.0) && (l.timeout.None? || l.timeout.value == 0.0) ==>
      WholeSeconds(l.subtaskTimeout as real, granted)
  {
    var seconds := Truncated(Or(remaining, Or(l.timeout, l.subtaskTimeout as real)));
    if seconds < 1 then 1 else seconds
  }

  function Remaining(l: Limits, checked: real): Option<real> {
    if l.deadlineAt.None? then l.timeout else Some(l.deadlineAt.value - checked)
  }

  function CallBudget(l: Limits): nat {
    if l.maxToolCalls < 0 then 0 else l.maxToolCalls
  }

  /** A call that the loop may make: an allowed skill, begun before the deadline, with the time that is left. */
  predicate Lawful(l: Limits, c: Call) {
    && c.skill != "" && c.skill in l.allowed
    && (l.deadlineAt.Some? ==> c.checked < l.deadlineAt.value)
    && c.timeout == GrantedTimeout(l, Remaining(l, c.checked))
  }

  /** The calls are for the first requests, in their order and one after the other. */
  ghost predicate Prefix(l: Limits, names: seq<string>, start: real, calls: seq<Call>) {
    && |calls| <= |names| <= CallBudget(l)
    && (forall k | 0 <= k < |calls| :: calls[k].skill == names[k] && Lawful(l, calls[k]))
    && (forall k | 0 <= k < |calls| :: (if k == 0 then start else calls[k - 1].ended) <= calls[k].checked <= calls[k].ended)
  }

  /** All calls answered; the artifacts are theirs, numbered from 1. */
  ghost predicate Answered(calls: seq<Call>, artifacts: seq<Artifact>) {
    && |artifacts| == |calls|
    && forall k | 0 <= k < |calls| ::
         calls[k].behaviour.Answers? && artifacts[k] == Artifact(calls[k].skill, k + 1, calls[k].behaviour.body)
  }

  /** Each call was made of the executor, and took the time that the skill takes. */
  ghost predicate Ran(executor: Executor, calls: seq<Call>) {
    forall k | 0 <= k < |calls| :: RanAt(executor, k, calls[k])
  }

  predicate RanAt(executor: Executor, index: nat, c: Call) {
    && c.behaviour == executor.behaves(index, c.skill, c.timeout)
    && (!c.behaviour.Unregistered? ==> c.ended >= c.checked + executor.lasts(index, c.skill, c.timeout))
  }

  /** Every call but the last answered, and so did the last if the loop stopped after it. */
  ghost predicate AnsweredUntil(calls: seq<Call>, failure: Failure) {
    && (forall k | 0 <= k < |calls| - 1 :: calls[k].behaviour.Answers?)
    && (failure.DeadlineExpired? || failure.NameRequired? || failure.NotRequested? ==>
          forall k | 0 <= k < |calls| :: calls[k].behaviour.Answers?)
  }

  /** Why one turn of the loop stopped it, before its call or in it. */
  predicate StoppedAt(l: Limits, name: string, call: Option<Call>, now: real, failure: Failure) {
    match failure
    case DeadlineExpired => call.None? && l.deadlineAt.Some? && l.deadlineAt.value <= now
    case NameRequired => call.None? && name == ""
    case NotRequested => call.None? && name != "" && name !in l.allowed
    case ExecutionFailed => call.Some? && (call.value.behaviour.Unregistered? || call.value.behaviour.Unsupported?)
    case NoArtifact => call.Some? && call.value.behaviour.GivesNoArtifact?
    case _ => false
  }

  /** Why the loop stopped where it did. */
  ghost predicate StoppedBy(l: Limits, names: seq<string>, calls: seq<Call>, now: real, failure: Failure) {
    match failure
    case DeadlineExpired => |calls| < |names| && l.deadlineAt.Some? && l.deadlineAt.value <= now
    case NameRequired => |calls| < |names| && names[|calls|] == ""
    case NotRequested => |calls| < |names| && names[|calls|] != "" && names[|calls|] !in l.allowed
    case ExecutionFailed => calls != [] && (calls[|calls| - 1].behaviour.Unregistered? || calls[|calls| - 1].behaviour.Unsupported?)
    case NoArtifact => calls != [] && calls[|calls| - 1].behaviour.GivesNoArtifact?
    case _ => false
  }

  /** SkillExecutor.execute, and the check of what it returns. */
  method Execute(executor: Executor, index: nat, name: string, timeout: int, budget: ToolBudget, clock: Clock)
    returns (r: Result<Artifact, Failure>)
    modifies budget, clock
    ensures clock.now >= old(clock.now)
    ensures !executor.behaves(index, name, timeout).Unregistered? && old(budget.used) < budget.maxCalls ==>
      clock.now >= old(clock.now) + executor.lasts(index, name, timeout)
    ensures match executor.behaves(index, name, timeout)
      case Answers(body) =>
        if old(budget.used) < budget.maxCalls then r == Ok(Artifact(name, old(budget.used) + 1, body)) else r == Err(BudgetExceeded)
      case Unregistered => r == Err(ExecutionFailed)
      case Unsupported => r == Err(if old(budget.used) < budget.maxCalls then ExecutionFailed else BudgetExceeded)
      case GivesNoArtifact => r == Err(if old(budget.used) < budget.maxCalls then NoArtifact else BudgetExceeded)
    ensures r.Ok? ==> budget.used == old(budget.used) + 1
  {
    var behaviour := executor.behaves(index, name, timeout);
    if behaviour.Unregistered? { return Err(ExecutionFailed); }
    var remaining := budget.Reserve();
    if remaining.None? { return Err(BudgetExceeded); }
    var duration := executor.lasts(index, name, timeout);
    clock.Pass(if duration < 0.0 then 0.0 else duration);
    match behaviour
    case Answers(body) => return Ok(Artifact(name, budget.maxCalls - remaining.value, body));
    case Unsupported => return Err(ExecutionFailed);
    case GivesNoArtifact => return Err(NoArtifact);
  }

  /** _remaining_timeout: None where the deadline has expired; without a deadline no clock is read. */
  method RemainingTimeout(l: Limits, clock: Clock) returns (remaining: Option<Option<real>>, ghost checked: real)
    modifies clock
    ensures old(clock.now) <= checked == clock.now
    ensures remaining.None? <==> l.deadlineAt.Some? && l.deadlineAt.value <= checked
    ensures remaining.Some? ==> remaining.value == Remaining(l, checked)
  {
    if l.deadlineAt.None? { return Some(l.timeout), clock.now; }
    var now := clock.Read();
    var left := l.deadlineAt.value - now;
    if left <= 0.0 { return None, now; }
    return Some(Some(left)), now;
  }

  lemma CallAdded(l: Limits, names: seq<string>, start: real, calls: seq<Call>, c: Call)
    requires Prefix(l, names, start, calls) && |calls| < |names| && Lawful(l, c) && c.skill == names[|calls|]
    requires (if calls == [] then start else calls[|calls| - 1].ended) <= c.checked <= c.ended
    ensures Prefix(l, names, start, calls + [c])
  {
  }

  lemma AnswerAdded(calls: seq<Call>, artifacts: seq<Artifact>, c: Call, artifact: Artifact)
    requires Answered(calls, artifacts)
    requires c.behaviour.Answers? && artifact == Artifact(c.skill, |calls| + 1, c.behaviour.body)
    ensures Answered(calls + [c], artifacts + [artifact])
  {
  }

  /** One turn of the loop: the deadline, the name, and the call. */
  method RunCall(executor: Executor, index: nat, name: string, l: Limits, budget: ToolBudget, clock: Clock)
    returns (r: Result<Artifact, Failure>, ghost call: Option<Call>)
    requires budget.used == index < budget.maxCalls
    modifies budget, clock
    ensures call.Some? ==>
      && call.value.skill == name && Lawful(l, call.value) && RanAt(executor, index, call.value)
      && old(clock.now) <= call.value.checked <= call.value.ended == clock.now
    ensures r.Ok? ==>
      && call.Some? && call.value.behaviour.Answers? && r.value == Artifact(name, index + 1, call.value.behaviour.body)
      && budget.used == index + 1
    ensures r.Err? ==> StoppedAt(l, name, call, clock.now, r.error)
  {
    var remaining, checked := RemainingTimeout(l, clock);
    if remaining.None? { return Err(DeadlineExpired), None; }
    if name == "" { return Err(NameRequired), None; }
    if name !in l.allowed { return Err(NotRequested), None; }
    var timeout := GrantedTimeout(l, remaining.value);
    r := Execute(executor, index, name, timeout, budget, clock);
    call := Some(Call(name, checked, timeout, clock.now, executor.behaves(index, name, timeout)));
  }

  /** The loop over the requests. */
  method RunCalls(names: seq<string>, executor: Executor, l: Limits, clock: Clock)
    returns (r: Result<seq<Artifact>, Failure>, ghost calls: seq<Call>)
    requires |names| <= CallBudget(l)
    modifies clock
    ensures Prefix(l, names, old(clock.now), calls) && Ran(executor, calls)
    ensures r.Ok? ==> |calls| == |names| && Answered(calls, r.value)
    ensures r.Ok? && calls != [] ==> clock.now == calls[|calls| - 1].ended
    ensures r.Err? ==> StoppedBy(l, names, calls, clock.now, r.error) && AnsweredUntil(calls, r.error)
  {
    calls := [];
    var artifacts: seq<Artifact> := [];
    var budget := new ToolBudget(CallBudget(l));
    for i := 0 to |names|
      invariant |calls| == i && budget.used == i && budget.maxCalls == CallBudget(l)
      invariant Prefix(l, names, old(clock.now), calls) && Answered(calls, artifacts) && Ran(executor, calls)
      invariant clock.now == if calls == [] then old(clock.now) else calls[|calls| - 1].ended
    {
      var outcome; ghost var call;
      outcome, call := RunCall(executor, i, names[i], l, budget, clock);
      if call.Some? { CallAdded(l, names, old(clock.now), calls, call.value); }
      if outcome.Err? { return Err(outcome.error), if call.Some? then calls + [call.value] else calls; }
      AnswerAdded(calls, artifacts, call.value, outcome.value);
      calls := calls + [call.value];
      artifacts := artifacts + [outcome.value];
    }
    return Ok(artifacts), calls;
  }

  /** The tool call ids of one worker are made of these numbers. */
  predicate NumbersApart(artifacts: seq<Artifact>) {
    forall i, j | 0 <= i < j < |artifacts| :: artifacts[i].number != artifacts[j].number
  }

  lemma AnswersApart(calls: seq<Call>, artifacts: seq<Artifact>)
    requires Answered(calls, artifacts)
    ensures NumbersApart(artifacts)
  {
    assert forall k | 0 <= k < |artifacts| :: artifacts[k].number == k + 1;
  }

  /**
   _execute_skill_requests. The calls made of the executor are a lawful prefix of the requests, the
   whole of them on success, with the executor's answers; a failure names what stopped it, and it is never the budget.
   */
  method ExecuteSkillRequests(value: Requested, executor: Option<Executor>, l: Limits, clock: Clock)
    returns (r: Result<seq<Artifact>, Failure>, ghost calls: seq<Call>)
    modifies clock
    ensures value.Malformed? ==> r == Err(RequestsMalformed)
    ensures value.Absent? || (value.Requests? && value.names == []) ==> r == Ok([])
    ensures value.Requests? && value.names != [] && executor.None? ==> r == Err(ExecutionDisabled)
    ensures value.Requests? && value.names != [] && executor.Some? && |value.names| > l.maxToolCalls ==>
      r == Err(CountExceedsBudget) && calls == []
    ensures value.Requests? && value.names != [] && executor.Some? && |value.names| <= l.maxToolCalls ==>
      && Prefix(l, value.names, old(clock.now), calls) && Ran(executor.value, calls)
      && (r.Ok? ==> |calls| == |value.names| && Answered(calls, r.value))
      && (r.Err? ==> StoppedBy(l, value.names, calls, clock.now, r.error) && AnsweredUntil(calls, r.error))
    ensures !value.Requests? || executor.None? || |value.names| > CallBudget(l) ==> calls == []
    ensures r.Ok? ==> NumbersApart(r.value)
  {
    calls := [];
    match value
    case Absent => return Ok([]), [];
    case Malformed => return Err(RequestsMalformed), [];
    case Requests(names) =>
      if names == [] { return Ok([]), []; }
      if executor.None? { return Err(ExecutionDisabled), []; }
      if |names| > CallBudget(l) { return Err(CountExceedsBudget), []; }
      r, calls := RunCalls(names, executor.value, l, clock);
      if r.Ok? { AnswersApart(calls, r.value); }
  }

  /** A call is over by the time that its timeout allows, counted from the reading it was computed from. */
  predicate Honours(c: Call) {
    c.ended <= c.checked + c.timeout as real
  }

  /**
   Every call but the last is over before the deadline whatever it does; if the last one
   honours its timeout the loop ends less than a second after the deadline, and by the
   deadline if a whole second was left when it began.
   */
  lemma EndsNearDeadline(l: Limits, names: seq<string>, start: real, calls: seq<Call>, k: nat)
    requires Prefix(l, names, start, calls) && l.deadlineAt.Some? && k < |calls|
    ensures k < |calls| - 1 ==> calls[k].ended < l.deadlineAt.value
    ensures Honours(calls[k]) ==> calls[k].ended < l.deadlineAt.value + 1.0
    ensures Honours(calls[k]) && l.deadlineAt.value - calls[k].checked >= 1.0 ==> calls[k].ended <= l.deadlineAt.value
  {
    assert Lawful(l, calls[k]);
    if k < |calls| - 1 { assert Lawful(l, calls[k + 1]); }
  }
}
