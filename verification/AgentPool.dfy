/**
 The controlled agent pool of agent_swarm/pool_runner.py.

 A submitted task is a future: a time at which it finishes, if it ever does, and what it
 then holds. The clock moves on by itself between any two steps of the runner. What a run
 did is recorded as a trace, and the bounds on blocking are lemmas about every trace.
 */
module AgentPool {
  import opened Wrappers
  import opened Clocks

  datatype Outcome<R> = Value(result: R) | TimedOut | Failed(error: int)

  datatype Future<R> = Future(finishedAt: Option<real>, outcome: Outcome<R>)

  /** `future` is what the callable of the task does once it is submitted. */
  datatype AgentPoolTask<R, !V> = AgentPoolTask(
    id: string, timeout: real, passed: bool, violations: seq<V>, future: Future<R>,
    rejectedResult: seq<V> -> R, timeoutResult: R)

  /** An exception that leaves the runner. */
  datatype Raised = TaskTimedOut | TaskFailed(error: int)

  // ----- before anything is submitted -----

  function Violations<R, V>(tasks: seq<AgentPoolTask<R, V>>): seq<V> {
    if tasks == [] then []
    else Violations(tasks[..|tasks| - 1]) + if tasks[|tasks| - 1].passed then [] else tasks[|tasks| - 1].violations
  }

  function Rejections<R, V>(tasks: seq<AgentPoolTask<R, V>>): map<string, R> {
    if tasks == [] then map[]
    else
      var front, last := Rejections(tasks[..|tasks| - 1]), tasks[|tasks| - 1];
      if last.passed then front else front[last.id := last.rejectedResult(last.violations)]
  }

  function Runnable<R, V>(tasks: seq<AgentPoolTask<R, V>>): seq<AgentPoolTask<R, V>> {
    if tasks == [] then []
    else
      var front, last := Runnable(tasks[..|tasks| - 1]), tasks[|tasks| - 1];
      if last.passed then front + [last] else front
  }

  /** future_by_task_id: the last task with an id wins. */
  function Futures<R, V>(tasks: seq<AgentPoolTask<R, V>>): map<string, Future<R>> {
    if tasks == [] then map[]
    else Futures(tasks[..|tasks| - 1])[tasks[|tasks| - 1].id := tasks[|tasks| - 1].future]
  }

  function Ids<R, V>(tasks: seq<AgentPoolTask<R, V>>): set<string> {
    set i | 0 <= i < |tasks| :: tasks[i].id
  }

  /** The tasks whose futures are looked at: the first of each id that has no result yet. */
  function Visited<R, V>(tasks: seq<AgentPoolTask<R, V>>, settled: set<string>): seq<AgentPoolTask<R, V>> {
    if tasks == [] then []
    else
      var front, last := Visited(tasks[..|tasks| - 1], settled), tasks[|tasks| - 1];
      if last.id in settled || last.id in Ids(front) then front else front + [last]
  }

  // ----- what the tables say of each task -----

  function FoundIn<R, V>(task: AgentPoolTask<R, V>): seq<V> {
    if task.passed then [] else task.violations
  }

  /** The violations are those of the tasks that did not pass, each task's in its place. */
  lemma {:induction false} ViolationsInOrder<R, V>(tasks: seq<AgentPoolTask<R, V>>, i: nat)
    requires i < |tasks|
    ensures Violations(tasks) == Violations(tasks[..i]) + FoundIn(tasks[i]) + Violations(tasks[i + 1..])
    decreases |tasks|
  {
    var n := |tasks| - 1;
    if i < n {
      ViolationsInOrder(tasks[..n], i);
      assert tasks[..n][..i] == tasks[..i] && tasks[..n][i + 1..] == tasks[i + 1..][..n - i - 1];
      assert Violations(tasks[i + 1..]) == Violations(tasks[i + 1..][..n - i - 1]) + FoundIn(tasks[n]);
      assert Violations(tasks) == Violations(tasks[..n]) + FoundIn(tasks[n]);
    } else {
      assert tasks[i + 1..] == [];
    }
  }

  /** The submitted tasks are those that passed, each in its place. */
  lemma {:induction false} RunnableInOrder<R, V>(tasks: seq<AgentPoolTask<R, V>>, i: nat)
    requires i < |tasks|
    ensures Runnable(tasks) == Runnable(tasks[..i]) + (if tasks[i].passed then [tasks[i]] else []) + Runnable(tasks[i + 1..])
    decreases |tasks|
  {
    var n := |tasks| - 1;
    if i < n {
      RunnableInOrder(tasks[..n], i);
      assert tasks[..n][..i] == tasks[..i] && tasks[..n][i + 1..] == tasks[i + 1..][..n - i - 1];
      var last := if tasks[n].passed then [tasks[n]] else [];
      assert Runnable(tasks[i + 1..]) == Runnable(tasks[i + 1..][..n - i - 1]) + last;
      assert Runnable(tasks) == Runnable(tasks[..n]) + last;
    } else {
      assert tasks[i + 1..] == [];
    }
  }

  /** Of the rejected tasks with one id the last gives the result. */
  lemma {:induction false} LastRejectionWins<R, V>(tasks: seq<AgentPoolTask<R, V>>, i: nat)
    requires i < |tasks| && !tasks[i].passed
    requires forall j | i < j < |tasks| && tasks[j].id == tasks[i].id :: tasks[j].passed
    ensures tasks[i].id in Rejections(tasks)
    ensures Rejections(tasks)[tasks[i].id] == tasks[i].rejectedResult(tasks[i].violations)
    decreases |tasks|
  {
    var n := |tasks| - 1;
    if i < n {
      LastRejectionWins(tasks[..n], i);
      assert tasks[n].id == tasks[i].id ==> tasks[n].passed;
    }
  }

  /** Of the submitted tasks with one id the last has its future under it. */
  lemma {:induction false} LastFutureWins<R, V>(tasks: seq<AgentPoolTask<R, V>>, i: nat)
    requires i < |tasks| && forall j | i < j < |tasks| :: tasks[j].id != tasks[i].id
    ensures tasks[i].id in Futures(tasks) && Futures(tasks)[tasks[i].id] == tasks[i].future
    decreases |tasks|
  {
    var n := |tasks| - 1;
    if i < n {
      LastFutureWins(tasks[..n], i);
      assert tasks[n].id != tasks[i].id;
    }
  }

  /** The task has no result yet when its turn comes, and is the first with its id. */
  predicate FirstUnsettled<R, V>(tasks: seq<AgentPoolTask<R, V>>, settled: set<string>, i: nat)
    requires i < |tasks|
  {
    tasks[i].id !in settled && forall j | 0 <= j < i :: tasks[j].id != tasks[i].id
  }

  lemma {:induction false} VisitedIds<R, V>(tasks: seq<AgentPoolTask<R, V>>, settled: set<string>, id: string)
    ensures id in Ids(Visited(tasks, settled)) <==> id !in settled && id in Ids(tasks)
    decreases |tasks|
  {
    if tasks != [] {
      var n := |tasks| - 1;
      VisitedIds(tasks[..n], settled, id);
      IdsAppend(tasks[..n], tasks[n]);
      IdsAppend(Visited(tasks[..n], settled), tasks[n]);
      assert tasks == tasks[..n] + [tasks[n]];
    }
  }

  /** The looks are at the first tasks of their ids, in their order. */
  lemma VisitedInOrder<R, V>(tasks: seq<AgentPoolTask<R, V>>, settled: set<string>, i: nat)
    requires i < |tasks|
    ensures Visited(tasks[..i + 1], settled) ==
      Visited(tasks[..i], settled) + if FirstUnsettled(tasks, settled, i) then [tasks[i]] else []
  {
    assert tasks[..i + 1][..i] == tasks[..i];
    VisitedIds(tasks[..i], settled, tasks[i].id);
    if tasks[i].id in Ids(tasks[..i]) {
      var j :| 0 <= j < i && tasks[..i][j].id == tasks[i].id;
      assert tasks[j].id == tasks[i].id;
    } else {
      forall j | 0 <= j < i
        ensures tasks[j].id != tasks[i].id
      {
        assert tasks[..i][j].id in Ids(tasks[..i]);
      }
    }
  }

  // ----- one look at one future -----

  /** When done() was asked, when the clock was read against the deadline, and when a wait began. */
  datatype Look<R, !V> = Look(task: AgentPoolTask<R, V>, future: Future<R>, asked: real, checked: real, began: real)

  datatype Settled<R> = Return(result: R) | Raise(raised: Raised)

  function Min(a: real, b: real): real {
    if a < b then a else b
  }

  function Max(a: real, b: real): real {
    if a < b then b else a
  }

  predicate Done<R>(f: Future<R>, at: real) {
    f.finishedAt.Some? && f.finishedAt.value <= at
  }

  predicate DeadlinePassed(deadlineAt: Option<real>, at: real) {
    deadlineAt.Some? && deadlineAt.value - at <= 0.0
  }

  /** The timeout of the wait, which is no wait when it is negative. */
  function Limit(timeout: real, deadlineAt: Option<real>, checked: real): real {
    Max(0.0, if deadlineAt.None? then timeout else Min(timeout, deadlineAt.value - checked))
  }

  /** How long a wait that begins now lasts. */
  function Waited<R>(f: Future<R>, began: real, limit: real): real {
    if f.finishedAt.None? then limit else Min(limit, Max(0.0, f.finishedAt.value - began))
  }

  /** How long the runner is blocked by a look. */
  function Blocked<R, V>(l: Look<R, V>, deadlineAt: Option<real>): real {
    if Done(l.future, l.asked) || DeadlinePassed(deadlineAt, l.checked) then 0.0
    else Waited(l.future, l.began, Limit(l.task.timeout, deadlineAt, l.checked))
  }

  /** What a look comes to. Only the wait turns a timeout that the task itself raises into its timeout result. */
  function Settle<R, V>(l: Look<R, V>, deadlineAt: Option<real>): Settled<R> {
    if Done(l.future, l.asked) then
      match l.future.outcome
      case Value(result) => Return(result)
      case TimedOut => Raise(TaskTimedOut)
      case Failed(error) => Raise(TaskFailed(error))
    else if DeadlinePassed(deadlineAt, l.checked) then Return(l.task.timeoutResult)
    else if Done(l.future, l.began + Limit(l.task.timeout, deadlineAt, l.checked)) then
      match l.future.outcome
      case Value(result) => Return(result)
      case TimedOut => Return(l.task.timeoutResult)
      case Failed(error) => Raise(TaskFailed(error))
    else Return(l.task.timeoutResult)
  }

  /**
   A task that finishes with a value within its own timeout of the look, and by the deadline,
   gets its value, with one exception: it finished after it was asked, and the deadline was
   reached before the clock was read.
   */
  lemma TimelyTaskGetsItsValue<R, V>(l: Look<R, V>, deadlineAt: Option<real>)
    requires l.asked <= l.checked <= l.began
    requires l.future.outcome.Value? && l.future.outcome.result != l.task.timeoutResult
    requires l.future.finishedAt.Some? && l.future.finishedAt.value <= l.asked + Max(0.0, l.task.timeout)
    requires deadlineAt.Some? ==> l.future.finishedAt.value <= deadlineAt.value
    ensures Settle(l, deadlineAt) == Return(l.future.outcome.result)
       <==> !(l.asked < l.future.finishedAt.value && deadlineAt.Some? && deadlineAt.value <= l.checked)
  {
  }

  /** The future was done when it was asked, or was waited for and done in time. */
  predicate Harvested<R, V>(l: Look<R, V>, deadlineAt: Option<real>) {
    l.future.finishedAt.Some? &&
      var at := l.future.finishedAt.value;
      || at <= l.asked
      || (&& (deadlineAt.Some? ==> l.checked < deadlineAt.value)
          && at <= l.began + Max(0.0, l.task.timeout)
          && (deadlineAt.Some? ==> at <= l.began + (deadlineAt.value - l.checked)))
  }

  /** Whether it was done when it was asked. */
  predicate Early<R, V>(l: Look<R, V>) {
    l.future.finishedAt.Some? && l.future.finishedAt.value <= l.asked
  }

  /**
   What each look comes to: the value or the exception of a harvested future, and the timeout result
   of any other. A timeout that the task raises itself becomes its timeout result if it was waited for.
   */
  lemma SettledExactly<R, V>(l: Look<R, V>, deadlineAt: Option<real>)
    requires l.asked <= l.checked <= l.began
    ensures !Harvested(l, deadlineAt) ==> Settle(l, deadlineAt) == Return(l.task.timeoutResult)
    ensures Harvested(l, deadlineAt) && l.future.outcome.Value? ==> Settle(l, deadlineAt) == Return(l.future.outcome.result)
    ensures Harvested(l, deadlineAt) && l.future.outcome.Failed? ==> Settle(l, deadlineAt) == Raise(TaskFailed(l.future.outcome.error))
    ensures Harvested(l, deadlineAt) && l.future.outcome.TimedOut? ==>
      Settle(l, deadlineAt) == if Early(l) then Raise(TaskTimedOut) else Return(l.task.timeoutResult)
  {
  }

  /** A future that is waited for is waited for until it is done, or else for the whole of the timeout or of the time left. */
  lemma WaitedExactly<R, V>(l: Look<R, V>, deadlineAt: Option<real>)
    requires l.asked <= l.checked <= l.began
    ensures Early(l) ==> Blocked(l, deadlineAt) == 0.0
    ensures !Early(l) && Harvested(l, deadlineAt) ==>
      l.began + Blocked(l, deadlineAt) == Max(l.began, l.future.finishedAt.value)
    ensures !Harvested(l, deadlineAt) ==>
      || (deadlineAt.Some? && deadlineAt.value <= l.checked && Blocked(l, deadlineAt) == 0.0)
      || Blocked(l, deadlineAt) == Max(0.0, l.task.timeout)
      || (deadlineAt.Some? && Blocked(l, deadlineAt) == deadlineAt.value - l.checked)
  {
  }

  // ----- traces -----

  datatype Trace<R, !V> = Trace(
    started: real, deadlineAt: Option<real>, submitted: seq<AgentPoolTask<R, V>>, looks: seq<Look<R, V>>)

  /** The moment the runner is done with look k - 1, or at which it started. */
  function Reached<R, V>(t: Trace<R, V>, k: nat): real
    requires k <= |t.looks|
  {
    if k == 0 then t.started else t.looks[k - 1].began + Blocked(t.looks[k - 1], t.deadlineAt)
  }

  /** Time does not run backwards. */
  ghost predicate InOrder<R, V>(t: Trace<R, V>) {
    forall k | 0 <= k < |t.looks| :: Reached(t, k) <= t.looks[k].asked <= t.looks[k].checked <= t.looks[k].began
  }

  function TotalBlocked<R, V>(looks: seq<Look<R, V>>, deadlineAt: Option<real>): real {
    if looks == [] then 0.0
    else TotalBlocked(looks[..|looks| - 1], deadlineAt) + Blocked(looks[|looks| - 1], deadlineAt)
  }

  function TotalTimeouts<R, V>(tasks: seq<AgentPoolTask<R, V>>): real {
    if tasks == [] then 0.0 else TotalTimeouts(tasks[..|tasks| - 1]) + Max(0.0, tasks[|tasks| - 1].timeout)
  }

  function TasksOf<R, V>(looks: seq<Look<R, V>>): seq<AgentPoolTask<R, V>> {
    seq(|looks|, i requires 0 <= i < |looks| => looks[i].task)
  }

  lemma {:induction false} BlockedByTimeouts<R, V>(looks: seq<Look<R, V>>, deadlineAt: Option<real>)
    ensures TotalBlocked(looks, deadlineAt) <= TotalTimeouts(TasksOf(looks))
    decreases |looks|
  {
    if looks != [] {
      var n := |looks| - 1;
      BlockedByTimeouts(looks[..n], deadlineAt);
      assert TasksOf(looks)[..n] == TasksOf(looks[..n]);
    }
  }

  /** A look begun after so much time, of which so much was spent blocked, does not block past the deadline. */
  lemma LookByDeadline<R, V>(l: Look<R, V>, deadline: real, started: real, spent: real)
    requires started + spent <= l.checked <= l.began && 0.0 <= spent <= Max(0.0, deadline - started)
    ensures 0.0 <= spent + Blocked(l, Some(deadline)) <= Max(0.0, deadline - started)
  {
    assert !DeadlinePassed(Some(deadline), l.checked) ==> Limit(l.task.timeout, Some(deadline), l.checked) <= deadline - l.checked;
  }

  lemma {:induction false} BlockedSoFar<R, V>(t: Trace<R, V>, k: nat)
    requires InOrder(t) && k <= |t.looks|
    ensures 0.0 <= TotalBlocked(t.looks[..k], t.deadlineAt) <= Reached(t, k) - t.started
    decreases k
  {
    if k > 0 {
      BlockedSoFar(t, k - 1);
      assert t.looks[..k][..k - 1] == t.looks[..k - 1];
    }
  }

  lemma {:induction false} BlockedByDeadline<R, V>(t: Trace<R, V>, k: nat)
    requires InOrder(t) && k <= |t.looks| && t.deadlineAt.Some?
    ensures TotalBlocked(t.looks[..k], t.deadlineAt) <= Max(0.0, t.deadlineAt.value - t.started)
    decreases k
  {
    if k > 0 {
      BlockedByDeadline(t, k - 1);
      BlockedSoFar(t, k - 1);
      assert t.looks[..k][..k - 1] == t.looks[..k - 1];
      LookByDeadline(t.looks[k - 1], t.deadlineAt.value, t.started, TotalBlocked(t.looks[..k - 1], t.deadlineAt));
    }
  }

  // ----- the tasks that are looked at -----

  predicate DistinctIds<R, V>(tasks: seq<AgentPoolTask<R, V>>) {
    forall i, j | 0 <= i < j < |tasks| :: tasks[i].id != tasks[j].id
  }

  lemma {:induction false} RunnableMembers<R, V>(tasks: seq<AgentPoolTask<R, V>>)
    ensures forall x :: x in Runnable(tasks) <==> x in tasks && x.passed
    decreases |tasks|
  {
    if tasks != [] {
      var n := |tasks| - 1;
      RunnableMembers(tasks[..n]);
      assert tasks == tasks[..n] + [tasks[n]];
    }
  }

  lemma {:induction false} RejectionsKeys<R, V>(tasks: seq<AgentPoolTask<R, V>>, id: string)
    ensures id in Rejections(tasks) <==> exists i :: 0 <= i < |tasks| && !tasks[i].passed && tasks[i].id == id
    decreases |tasks|
  {
    if tasks != [] {
      RejectionsKeys(tasks[..|tasks| - 1], id);
    }
  }

  lemma {:induction false} FuturesKeys<R, V>(tasks: seq<AgentPoolTask<R, V>>)
    ensures Futures(tasks).Keys == Ids(tasks)
    decreases |tasks|
  {
    if tasks != [] {
      var n := |tasks| - 1;
      FuturesKeys(tasks[..n]);
      assert Ids(tasks) == Ids(tasks[..n]) + {tasks[n].id};
    }
  }

  /** A task without a result was submitted, so its future is there. */
  lemma FutureIsThere<R, V>(tasks: seq<AgentPoolTask<R, V>>, i: nat)
    requires i < |tasks| && tasks[i].id !in Rejections(tasks)
    ensures tasks[i].passed && tasks[i].id in Futures(Runnable(tasks))
  {
    RejectionsKeys(tasks, tasks[i].id);
    RunnableMembers(tasks);
    assert tasks[i] in tasks;
    var k :| 0 <= k < |Runnable(tasks)| && Runnable(tasks)[k] == tasks[i];
    FuturesKeys(Runnable(tasks));
  }

  /** Fewer seconds are waited for than were granted to the tasks that run. */
  lemma {:induction false} VisitedTimeouts<R, V>(tasks: seq<AgentPoolTask<R, V>>, settled: set<string>, k: nat)
    requires forall i | 0 <= i < |tasks| && !tasks[i].passed :: tasks[i].id in settled
    requires k <= |Visited(tasks, settled)|
    ensures TotalTimeouts(Visited(tasks, settled)[..k]) <= TotalTimeouts(Runnable(tasks))
    decreases |tasks|
  {
    if tasks != [] {
      var n := |tasks| - 1;
      var front := Visited(tasks[..n], settled);
      var visited := Visited(tasks, settled);
      if k <= |front| {
        VisitedTimeouts(tasks[..n], settled, k);
        assert visited[..k] == front[..k];
      } else {
        VisitedTimeouts(tasks[..n], settled, |front|);
        assert visited[..k][..k - 1] == front[..|front|];
      }
      RunnableGrows(tasks);
    }
  }

  lemma RunnableGrows<R, V>(tasks: seq<AgentPoolTask<R, V>>)
    requires tasks != []
    ensures var n := |tasks| - 1;
      TotalTimeouts(Runnable(tasks)) ==
        TotalTimeouts(Runnable(tasks[..n])) + if tasks[n].passed then Max(0.0, tasks[n].timeout) else 0.0
  {
    var n := |tasks| - 1;
    if tasks[n].passed {
      assert Runnable(tasks)[..|Runnable(tasks)| - 1] == Runnable(tasks[..n]);
    }
  }

  // ----- what a run did -----

  function DeadlineFrom(deadlineMs: Option<int>, now: real): Option<real> {
    if deadlineMs.None? then None else Some(now + Max(0.0, deadlineMs.value as real / 1000.0))
  }

  /** The looks are, in order, at the futures of the tasks to be visited. */
  ghost predicate Follows<R, V>(tasks: seq<AgentPoolTask<R, V>>, t: Trace<R, V>) {
    var visited := Visited(tasks, Rejections(tasks).Keys);
    && t.submitted == Runnable(tasks)
    && |t.looks| <= |visited|
    && forall k | 0 <= k < |t.looks| ::
         && t.looks[k].task == visited[k] && visited[k].id in Futures(Runnable(tasks))
         && t.looks[k].future == Futures(Runnable(tasks))[visited[k].id]
  }

  /** The result under an id: the last rejection, or else what the look at its future returned. */
  ghost predicate ResultUnder<R, V>(tasks: seq<AgentPoolTask<R, V>>, t: Trace<R, V>, id: string, result: R) {
    if id in Rejections(tasks) then result == Rejections(tasks)[id]
    else exists k :: 0 <= k < |t.looks| && t.looks[k].task.id == id && Settle(t.looks[k], t.deadlineAt) == Return(result)
  }

  /** There is a result for every task, under its id. */
  ghost predicate Complete<R, V>(tasks: seq<AgentPoolTask<R, V>>, t: Trace<R, V>, results: map<string, R>) {
    forall i | 0 <= i < |tasks| :: tasks[i].id in results && ResultUnder(tasks, t, tasks[i].id, results[tasks[i].id])
  }

  ghost predicate ReturnsBefore<R, V>(t: Trace<R, V>, n: nat)
    requires n <= |t.looks|
  {
    forall k | 0 <= k < n :: Settle(t.looks[k], t.deadlineAt).Return?
  }

  /** The last look raised an exception, and it is the first that did. */
  ghost predicate RaisedAtLast<R, V>(t: Trace<R, V>, raised: Raised) {
    && t.looks != [] && Settle(t.looks[|t.looks| - 1], t.deadlineAt) == Raise(raised)
    && ReturnsBefore(t, |t.looks| - 1)
  }

  /**
   However long each task runs, a run blocks for no longer than the deadline allows and no
   longer than the timeouts of the submitted tasks together.
   */
  lemma BlockingBounded<R, V>(tasks: seq<AgentPoolTask<R, V>>, t: Trace<R, V>, deadlineMs: Option<int>)
    requires Follows(tasks, t) && InOrder(t) && t.deadlineAt == DeadlineFrom(deadlineMs, t.started)
    ensures TotalBlocked(t.looks, t.deadlineAt) <= TotalTimeouts(t.submitted)
    ensures deadlineMs.Some? ==> TotalBlocked(t.looks, t.deadlineAt) <= Max(0.0, deadlineMs.value as real / 1000.0)
  {
    var settled := Rejections(tasks).Keys;
    forall i | 0 <= i < |tasks| && !tasks[i].passed
      ensures tasks[i].id in settled
    {
      RejectionsKeys(tasks, tasks[i].id);
    }
    VisitedTimeouts(tasks, settled, |t.looks|);
    assert TasksOf(t.looks) == Visited(tasks, settled)[..|t.looks|];
    BlockedByTimeouts(t.looks, t.deadlineAt);
    if t.deadlineAt.Some? { BlockedByDeadline(t, |t.looks|); }
    assert t.looks[..|t.looks|] == t.looks;
  }

  /** A task that needs 0.75 of its 5 seconds. */
  function SampleTask(): AgentPoolTask<string, int> {
    AgentPoolTask("worker", 5.0, true, [], Future(Some(0.75), Value("answer")), (violations: seq<int>) => "rejected", "timeout")
  }

  /** A run under a deadline of one second that asks at 0.5 and reads the clock at 1.0 seconds. */
  function SampleRun(): Trace<string, int> {
    var task := SampleTask();
    Trace(0.0, DeadlineFrom(Some(1000), 0.0), [task], [Look(task, task.future, 0.5, 1.0, 1.0)])
  }

  lemma SampleSubmitted(tasks: seq<AgentPoolTask<string, int>>)
    requires |tasks| == 1 && tasks[0].passed
    ensures Rejections(tasks) == map[] && Runnable(tasks) == tasks
    ensures Futures(tasks) == map[tasks[0].id := tasks[0].future]
    ensures Visited(tasks, {}) == tasks
  {
    assert tasks[..0] == [] && [tasks[0]] == tasks;
  }

  lemma SampleFollows()
    ensures Follows([SampleTask()], SampleRun())
  {
    SampleSubmitted([SampleTask()]);
  }

  /** The task met both its timeout and the deadline, and the run gives it its timeout result. */
  lemma TimelyTaskLosesItsValue()
    ensures Follows([SampleTask()], SampleRun()) && InOrder(SampleRun())
    ensures SampleTask().future.finishedAt.value < SampleRun().deadlineAt.value
    ensures SampleTask().future.finishedAt.value < SampleRun().started + SampleTask().timeout
    ensures forall result :: ResultUnder([SampleTask()], SampleRun(), "worker", result) <==> result == "timeout"
  {
    SampleFollows();
    SampleSubmitted([SampleTask()]);
    var t := SampleRun();
    assert t.looks[0].task.id == "worker" && Settle(t.looks[0], t.deadlineAt) == Return("timeout");
  }

  // ----- distinct ids -----

  lemma {:induction false} FutureIsOwn<R, V>(tasks: seq<AgentPoolTask<R, V>>, i: nat)
    requires DistinctIds(tasks) && i < |tasks| && tasks[i].passed
    ensures tasks[i].id in Futures(Runnable(tasks)) && Futures(Runnable(tasks))[tasks[i].id] == tasks[i].future
    decreases |tasks|
  {
    var n := |tasks| - 1;
    if tasks[n].passed {
      assert Runnable(tasks)[..|Runnable(tasks)| - 1] == Runnable(tasks[..n]);
    }
    if i < n {
      FutureIsOwn(tasks[..n], i);
    }
  }

  lemma {:induction false} RejectionIsOwn<R, V>(tasks: seq<AgentPoolTask<R, V>>, i: nat)
    requires DistinctIds(tasks) && i < |tasks| && !tasks[i].passed
    ensures tasks[i].id in Rejections(tasks)
    ensures Rejections(tasks)[tasks[i].id] == tasks[i].rejectedResult(tasks[i].violations)
    decreases |tasks|
  {
    if i < |tasks| - 1 {
      RejectionIsOwn(tasks[..|tasks| - 1], i);
    }
  }

  /** Each result belongs to the task in its place. */
  ghost predicate OwnResult<R, V>(task: AgentPoolTask<R, V>, t: Trace<R, V>, result: R) {
    if !task.passed then result == task.rejectedResult(task.violations)
    else exists k :: 0 <= k < |t.looks| && t.looks[k].task == task && t.looks[k].future == task.future
                     && Settle(t.looks[k], t.deadlineAt) == Return(result)
  }

  /** With distinct ids the results come one for each task, in the order of the tasks. */
  lemma OneResultPerTask<R, V>(tasks: seq<AgentPoolTask<R, V>>, t: Trace<R, V>, i: nat, result: R)
    requires DistinctIds(tasks) && Follows(tasks, t) && i < |tasks| && ResultUnder(tasks, t, tasks[i].id, result)
    ensures OwnResult(tasks[i], t, result)
  {
    if !tasks[i].passed {
      RejectionIsOwn(tasks, i);
    } else {
      RejectionsKeys(tasks, tasks[i].id);
      var k :| 0 <= k < |t.looks| && t.looks[k].task.id == tasks[i].id && Settle(t.looks[k], t.deadlineAt) == Return(result);
      VisitedMembers(tasks, Rejections(tasks).Keys, k);
      FutureIsOwn(tasks, i);
    }
  }

  lemma {:induction false} VisitedMembers<R, V>(tasks: seq<AgentPoolTask<R, V>>, settled: set<string>, k: nat)
    requires k < |Visited(tasks, settled)|
    ensures Visited(tasks, settled)[k] in tasks
    decreases |tasks|
  {
    if tasks != [] && k < |Visited(tasks[..|tasks| - 1], settled)| {
      VisitedMembers(tasks[..|tasks| - 1], settled, k);
    }
  }

  // ----- the invariant of the loop -----

  /** After the turns of the first i tasks. */
  ghost predicate Progress<R, V>(tasks: seq<AgentPoolTask<R, V>>, t: Trace<R, V>, results: map<string, R>, i: nat, now: real)
    requires i <= |tasks|
  {
    && t.submitted == Runnable(tasks) && LooksAt(tasks, t, i) && Filled(tasks, t, results, i)
    && InOrder(t) && Reached(t, |t.looks|) == now && ReturnsBefore(t, |t.looks|)
  }

  lemma {:induction false} VisitedPrefix<R, V>(tasks: seq<AgentPoolTask<R, V>>, settled: set<string>, i: nat)
    requires i <= |tasks|
    ensures Visited(tasks[..i], settled) <= Visited(tasks, settled)
    decreases |tasks|
  {
    if i < |tasks| {
      VisitedPrefix(tasks[..|tasks| - 1], settled, i);
      assert tasks[..|tasks| - 1][..i] == tasks[..i];
    } else {
      assert tasks[..i] == tasks;
    }
  }

  /** The looks so far are those that the first i tasks call for. */
  ghost predicate LooksAt<R, V>(tasks: seq<AgentPoolTask<R, V>>, t: Trace<R, V>, i: nat)
    requires i <= |tasks|
  {
    && TasksOf(t.looks) == Visited(tasks[..i], Rejections(tasks).Keys)
    && forall k | 0 <= k < |t.looks| ::
         && t.looks[k].task.id in Futures(Runnable(tasks))
         && t.looks[k].future == Futures(Runnable(tasks))[t.looks[k].task.id]
  }

  /** The results so far: the rejections and one for each look, so that the first i tasks have theirs. */
  ghost predicate Filled<R, V>(tasks: seq<AgentPoolTask<R, V>>, t: Trace<R, V>, results: map<string, R>, i: nat)
    requires i <= |tasks|
  {
    && results.Keys == Rejections(tasks).Keys + Ids(TasksOf(t.looks))
    && (forall id | id in results :: ResultUnder(tasks, t, id, results[id]))
    && forall k | 0 <= k < i :: tasks[k].id in results
  }

  lemma IdsAppend<R, V>(tasks: seq<AgentPoolTask<R, V>>, last: AgentPoolTask<R, V>)
    ensures Ids(tasks + [last]) == Ids(tasks) + {last.id}
  {
    var all := tasks + [last];
    assert all[|tasks|].id in Ids(all);
    forall id | id in Ids(tasks)
      ensures id in Ids(all)
    {
      var i :| 0 <= i < |tasks| && tasks[i].id == id;
      assert all[i].id == id;
    }
  }

  lemma TasksOfAppend<R, V>(looks: seq<Look<R, V>>, l: Look<R, V>)
    ensures TasksOf(looks + [l]) == TasksOf(looks) + [l.task]
  {
  }

  lemma VisitedNext<R, V>(tasks: seq<AgentPoolTask<R, V>>, settled: set<string>, i: nat)
    requires i < |tasks|
    ensures var before := Visited(tasks[..i], settled);
      Visited(tasks[..i + 1], settled) ==
        if tasks[i].id in settled || tasks[i].id in Ids(before) then before else before + [tasks[i]]
  {
    assert tasks[..i + 1][..i] == tasks[..i];
  }

  lemma LooksFollow<R, V>(tasks: seq<AgentPoolTask<R, V>>, t: Trace<R, V>, i: nat)
    requires i <= |tasks| && LooksAt(tasks, t, i) && t.submitted == Runnable(tasks)
    ensures Follows(tasks, t)
  {
    VisitedPrefix(tasks, Rejections(tasks).Keys, i);
    forall k | 0 <= k < |t.looks|
      ensures t.looks[k].task == Visited(tasks, Rejections(tasks).Keys)[k]
    {
      assert TasksOf(t.looks)[k] == t.looks[k].task;
    }
  }

  lemma WholePrefix<R, V>(tasks: seq<AgentPoolTask<R, V>>, t: Trace<R, V>)
    requires LooksAt(tasks, t, |tasks|) && t.submitted == Runnable(tasks)
    ensures Follows(tasks, t) && |t.looks| == |Visited(tasks, Rejections(tasks).Keys)|
  {
    assert tasks[..|tasks|] == tasks;
    assert |TasksOf(t.looks)| == |t.looks|;
    LooksFollow(tasks, t, |tasks|);
  }

  lemma LookFollows<R, V>(tasks: seq<AgentPoolTask<R, V>>, t: Trace<R, V>, results: map<string, R>, i: nat, l: Look<R, V>)
    requires i < |tasks| && LooksAt(tasks, t, i) && results.Keys == Rejections(tasks).Keys + Ids(TasksOf(t.looks))
    requires tasks[i].id !in results && l.task == tasks[i] && tasks[i].id in Futures(Runnable(tasks))
    requires l.future == Futures(Runnable(tasks))[tasks[i].id]
    ensures LooksAt(tasks, t.(looks := t.looks + [l]), i + 1)
  {
    VisitedNext(tasks, Rejections(tasks).Keys, i);
    TasksOfAppend(t.looks, l);
  }

  lemma ReachedKept<R, V>(t: Trace<R, V>, l: Look<R, V>, k: nat)
    requires k <= |t.looks|
    ensures Reached(t.(looks := t.looks + [l]), k) == Reached(t, k)
  {
  }

  lemma LookInOrder<R, V>(t: Trace<R, V>, l: Look<R, V>)
    requires InOrder(t) && Reached(t, |t.looks|) <= l.asked <= l.checked <= l.began
    ensures InOrder(t.(looks := t.looks + [l]))
    ensures Reached(t.(looks := t.looks + [l]), |t.looks| + 1) == l.began + Blocked(l, t.deadlineAt)
  {
    var next := t.(looks := t.looks + [l]);
    forall k | 0 <= k < |next.looks|
      ensures Reached(next, k) <= next.looks[k].asked <= next.looks[k].checked <= next.looks[k].began
    {
      ReachedKept(t, l, k);
      if k < |t.looks| { assert next.looks[k] == t.looks[k]; }
    }
  }

  lemma ResultAdded<R, V>(tasks: seq<AgentPoolTask<R, V>>, t: Trace<R, V>, results: map<string, R>, i: nat,
                          l: Look<R, V>, result: R)
    requires i < |tasks| && Filled(tasks, t, results, i) && tasks[i].id !in results
    requires l.task == tasks[i] && Settle(l, t.deadlineAt) == Return(result)
    ensures Filled(tasks, t.(looks := t.looks + [l]), results[tasks[i].id := result], i + 1)
  {
    var next := t.(looks := t.looks + [l]);
    TasksOfAppend(t.looks, l);
    IdsAppend(TasksOf(t.looks), tasks[i]);
    assert next.looks[|t.looks|] == l;
    assert ResultUnder(tasks, next, tasks[i].id, result);
    forall id | id in results
      ensures ResultUnder(tasks, next, id, results[id])
    {
      if id !in Rejections(tasks) {
        var k :| 0 <= k < |t.looks| && t.looks[k].task.id == id && Settle(t.looks[k], t.deadlineAt) == Return(results[id]);
        assert next.looks[k] == t.looks[k];
      }
    }
  }

  lemma NoLookNeeded<R, V>(tasks: seq<AgentPoolTask<R, V>>, t: Trace<R, V>, results: map<string, R>, i: nat)
    requires i < |tasks| && LooksAt(tasks, t, i) && Filled(tasks, t, results, i) && tasks[i].id in results
    ensures LooksAt(tasks, t, i + 1) && Filled(tasks, t, results, i + 1)
  {
    VisitedNext(tasks, Rejections(tasks).Keys, i);
  }

  // ----- the runner -----

  class ControlledAgentPoolRunner<R, V> {
    var maxParallelWorkers: int
    var deadlineMs: Option<int>
    var preflightViolations: seq<V>

    constructor (maxParallelWorkers: int, deadlineMs: Option<int>)
      ensures this.maxParallelWorkers == maxParallelWorkers && this.deadlineMs == deadlineMs && preflightViolations == []
    {
      this.maxParallelWorkers, this.deadlineMs, this.preflightViolations := maxParallelWorkers, deadlineMs, [];
    }

    /** max(1, min(len(runnable_tasks), int(max_parallel_workers or 1))) */
    function Workers(runnable: nat): (n: int)
      requires runnable > 0
      reads this
      ensures 1 <= n <= runnable && (maxParallelWorkers > 0 ==> n <= maxParallelWorkers)
      ensures n == runnable || n == maxParallelWorkers || (n == 1 && maxParallelWorkers <= 0)
    {
      var wanted := if maxParallelWorkers == 0 then 1 else maxParallelWorkers;
      var capped := if runnable < wanted then runnable else wanted;
      if capped < 1 then 1 else capped
    }

    method Preflight(tasks: seq<AgentPoolTask<R, V>>)
      returns (results: map<string, R>, runnable: seq<AgentPoolTask<R, V>>)
      modifies this`preflightViolations
      ensures preflightViolations == old(preflightViolations) + Violations(tasks)
      ensures results == Rejections(tasks) && runnable == Runnable(tasks)
    {
      results, runnable := map[], [];
      for i := 0 to |tasks|
        invariant preflightViolations == old(preflightViolations) + Violations(tasks[..i])
        invariant results == Rejections(tasks[..i]) && runnable == Runnable(tasks[..i])
      {
        assert tasks[..i + 1][..i] == tasks[..i];
        if tasks[i].passed {
          runnable := runnable + [tasks[i]];
        } else {
          preflightViolations := preflightViolations + tasks[i].violations;
          results := results[tasks[i].id := tasks[i].rejectedResult(tasks[i].violations)];
        }
      }
      assert tasks[..|tasks|] == tasks;
    }

    /** The executor refuses fewer than one worker. */
    method Submit(runnable: seq<AgentPoolTask<R, V>>, workers: int) returns (futures: map<string, Future<R>>)
      requires workers >= 1
      ensures futures == Futures(runnable)
    {
      futures := map[];
      for i := 0 to |runnable|
        invariant futures == Futures(runnable[..i])
      {
        assert runnable[..i + 1][..i] == runnable[..i];
        futures := futures[runnable[i].id := runnable[i].future];
      }
      assert runnable[..|runnable|] == runnable;
    }

    /** future.result(timeout): blocks until the future is done or the limit is over. */
    method Await(f: Future<R>, limit: real, clock: Clock) returns (done: bool, ghost began: real)
      requires limit >= 0.0
      modifies clock
      ensures old(clock.now) <= began && done == Done(f, began + limit)
      ensures clock.now == began + Waited(f, began, limit)
    {
      var start := clock.Read();
      began := start;
      clock.Pass(Waited(f, start, limit));
      done := Done(f, start + limit);
    }

    /** One turn of the loop for a task that has no result yet. */
    method Visit(task: AgentPoolTask<R, V>, f: Future<R>, deadlineAt: Option<real>, clock: Clock)
      returns (settled: Settled<R>, ghost l: Look<R, V>)
      modifies clock
      ensures l.task == task && l.future == f && settled == Settle(l, deadlineAt)
      ensures old(clock.now) <= l.asked <= l.checked <= l.began
      ensures clock.now == l.began + Blocked(l, deadlineAt)
    {
      var asked := clock.Read();
      l := Look(task, f, asked, asked, asked);
      if Done(f, asked) {
        match f.outcome {
          case Value(result) => settled := Return(result);
          case TimedOut => settled := Raise(TaskTimedOut);
          case Failed(error) => settled := Raise(TaskFailed(error));
        }
        return;
      }
      var timeout := task.timeout;
      if deadlineAt.Some? {
        var checked := clock.Read();
        l := Look(task, f, asked, checked, checked);
        var remaining := deadlineAt.value - checked;
        if remaining <= 0.0 {
          settled := Return(task.timeoutResult);
          return;
        }
        timeout := Min(timeout, remaining);
      }
      var done, began := Await(f, Max(0.0, timeout), clock);
      l := Look(task, f, asked, l.checked, began);
      if !done {
        settled := Return(task.timeoutResult);
      } else {
        match f.outcome
        case Value(result) => settled := Return(result);
        case TimedOut => settled := Return(task.timeoutResult);
        case Failed(error) => settled := Raise(TaskFailed(error));
      }
    }

    /** The loop body: a task that has no result yet gets one, or an exception leaves the loop. */
    method Turn(tasks: seq<AgentPoolTask<R, V>>, ghost t: Trace<R, V>, results: map<string, R>, i: nat,
                futures: map<string, Future<R>>, deadlineAt: Option<real>, clock: Clock)
      returns (raised: Option<Raised>, filled: map<string, R>, ghost next: Trace<R, V>)
      requires i < |tasks| && futures == Futures(Runnable(tasks)) && t.deadlineAt == deadlineAt
      requires Progress(tasks, t, results, i, clock.now)
      modifies clock
      ensures next.started == t.started && next.deadlineAt == deadlineAt
      ensures raised.None? ==> Progress(tasks, next, filled, i + 1, clock.now)
      ensures raised.Some? ==> Follows(tasks, next) && InOrder(next) && RaisedAtLast(next, raised.value)
    {
      if tasks[i].id in results {
        NoLookNeeded(tasks, t, results, i);
        return None, results, t;
      }
      FutureIsThere(tasks, i);
      var settled, l := Visit(tasks[i], futures[tasks[i].id], deadlineAt, clock);
      next := t.(looks := t.looks + [l]);
      LookFollows(tasks, t, results, i, l);
      LookInOrder(t, l);
      if settled.Raise? {
        LooksFollow(tasks, next, i + 1);
        return Some(settled.raised), results, next;
      }
      ResultAdded(tasks, t, results, i, l, settled.result);
      return None, results[tasks[i].id := settled.result], next;
    }

    /**
     The loop over the tasks. It ends with a result under every id, or with the exception
     that the last look raised.
     */
    method Collect(tasks: seq<AgentPoolTask<R, V>>, rejections: map<string, R>, futures: map<string, Future<R>>,
                   deadlineAt: Option<real>, clock: Clock)
      returns (r: Result<map<string, R>, Raised>, ghost t: Trace<R, V>)
      requires rejections == Rejections(tasks) && futures == Futures(Runnable(tasks))
      modifies clock
      ensures t.started == old(clock.now) && t.deadlineAt == deadlineAt && Follows(tasks, t) && InOrder(t)
      ensures r.Ok? ==> |t.looks| == |Visited(tasks, rejections.Keys)| && Complete(tasks, t, r.value)
      ensures r.Ok? ==> ReturnsBefore(t, |t.looks|)
      ensures r.Err? ==> RaisedAtLast(t, r.error)
    {
      var results := rejections;
      t := Trace(clock.now, deadlineAt, Runnable(tasks), []);
      for i := 0 to |tasks|
        invariant t.started == old(clock.now) && t.deadlineAt == deadlineAt
        invariant Progress(tasks, t, results, i, clock.now)
      {
        var raised;
        raised, results, t := Turn(tasks, t, results, i, futures, deadlineAt, clock);
        if raised.Some? { return Err(raised.value), t; }
      }
      WholePrefix(tasks, t);
      return Ok(results), t;
    }

    method Run(tasks: seq<AgentPoolTask<R, V>>, clock: Clock) returns (r: Result<seq<R>, Raised>, ghost t: Trace<R, V>)
      modifies this`preflightViolations, clock
      ensures preflightViolations == Violations(tasks)
      ensures Follows(tasks, t) && InOrder(t)
      ensures t.started >= old(clock.now) && t.deadlineAt == DeadlineFrom(deadlineMs, t.started)
      ensures r.Ok? ==> |r.value| == |tasks| && forall i | 0 <= i < |tasks| :: ResultUnder(tasks, t, tasks[i].id, r.value[i])
      ensures r.Ok? ==> ReturnsBefore(t, |t.looks|)
      ensures r.Err? ==> RaisedAtLast(t, r.error)
    {
      preflightViolations := [];
      var results, runnable := Preflight(tasks);
      t := Trace(clock.now, DeadlineFrom(deadlineMs, clock.now), runnable, []);
      if runnable != [] {
        var now := clock.Read();
        var deadlineAt := DeadlineFrom(deadlineMs, now);
        var futures := Submit(runnable, Workers(|runnable|));
        var collected;
        collected, t := Collect(tasks, results, futures, deadlineAt, clock);
        if collected.Err? { return Err(collected.error), t; }
        results := collected.value;
      } else {
        NothingToVisit(tasks, t);
      }
      var listed := Listed(tasks, results);
      return Ok(listed), t;
    }

    /** The results in the order of the tasks. */
    method Listed(tasks: seq<AgentPoolTask<R, V>>, results: map<string, R>) returns (listed: seq<R>)
      requires forall i | 0 <= i < |tasks| :: tasks[i].id in results
      ensures |listed| == |tasks| && forall i | 0 <= i < |tasks| :: listed[i] == results[tasks[i].id]
    {
      listed := [];
      for i := 0 to |tasks|
        invariant |listed| == i && forall k | 0 <= k < i :: listed[k] == results[tasks[k].id]
      {
        listed := listed + [results[tasks[i].id]];
      }
    }

    lemma NothingToVisit(tasks: seq<AgentPoolTask<R, V>>, t: Trace<R, V>)
      requires Runnable(tasks) == []
      ensures Complete(tasks, t, Rejections(tasks))
    {
      RunnableMembers(tasks);
      forall i | 0 <= i < |tasks|
        ensures tasks[i].id in Rejections(tasks)
      {
        assert tasks[i] in tasks;
        RejectionsKeys(tasks, tasks[i].id);
      }
    }
  }
}
