/**
 The ledger of domain events: the migration backend/alembic/versions/0018_progressive_events.py
 with the constraints of 0017, and the service of projections/domain_events.py that appends to it.

 A table is the sequence of its rows. A unique key or a foreign key is a predicate that
 must hold when a migration or a transaction ends; where it does not, nothing changes.
 */
module ProgressiveEvents {
  import opened Wrappers
  import opened Sorting
  import opened Aggregates

  datatype Scope = Scope(tenant: int, workspace: int, owner: int)

  datatype Run = Run(scope: Scope, thread: int, task: int)

  /** The ids stand in the order of their text; a column that does not exist or is NULL is None. */
  datatype Event = Event(
    id: int, scope: Scope, thread: int, task: int, run: int, kind: string, hash: string, sequence: int,
    sourceKey: Option<string>, payload: Option<string>)

  datatype Ledger = Ledger(events: seq<Event>, runs: map<int, Run>, threads: set<int>, counters: map<int, int>)

  // ----- constraints -----

  /** ck_domain_events_type */
  const EVENT_TYPES: set<string> := {
    "market.snapshot.committed", "research.evidence.committed", "agent.output.committed", "evidence.verdict.committed",
    "risk.verdict.committed", "artifact.committed", "notification.planned", "run.terminal"
  }

  predicate IdsUnique(events: seq<Event>) {
    forall i, j | 0 <= i < j < |events| :: events[i].id != events[j].id
  }

  /** uq_domain_events_thread_sequence */
  predicate SequencesUnique(events: seq<Event>) {
    forall i, j | 0 <= i < j < |events| ::
      !(events[i].thread == events[j].thread && events[i].sequence == events[j].sequence)
  }

  /** uq_domain_events_run_type */
  predicate KindsUnique(events: seq<Event>) {
    forall i, j | 0 <= i < j < |events| :: !(events[i].run == events[j].run && events[i].kind == events[j].kind)
  }

  /** uq_domain_events_run_source_key */
  predicate KeysUnique(events: seq<Event>) {
    forall i, j | 0 <= i < j < |events| ::
      !(events[i].run == events[j].run && events[i].sourceKey == events[j].sourceKey)
  }

  /** fk_domain_events_run_scope as 0017 has it. */
  predicate InRun(e: Event, runs: map<int, Run>) {
    e.run in runs && runs[e.run].scope == e.scope && runs[e.run].task == e.task
  }

  /** fk_domain_events_run_scope as 0018 has it. */
  predicate InRunThread(e: Event, runs: map<int, Run>) {
    InRun(e, runs) && runs[e.run].thread == e.thread
  }

  predicate Common(l: Ledger) {
    && IdsUnique(l.events) && SequencesUnique(l.events)
    && (forall i | 0 <= i < |l.events| ::
          l.events[i].kind in EVENT_TYPES && l.events[i].sequence >= 1 && l.events[i].thread in l.threads)
    && (forall r | r in l.runs :: l.runs[r].thread in l.threads)
  }

  /** The tables as 0017 leaves them. */
  predicate Legacy(l: Ledger) {
    && Common(l) && KindsUnique(l.events) && l.counters == map[]
    && (forall i | 0 <= i < |l.events| ::
          InRun(l.events[i], l.runs) && l.events[i].sourceKey == None && l.events[i].payload == None)
  }

  /** The tables as 0018 declares them. */
  predicate Progressive(l: Ledger) {
    && Common(l) && KeysUnique(l.events) && l.counters.Keys == l.threads
    && (forall i | 0 <= i < |l.events| ::
          InRunThread(l.events[i], l.runs) && l.events[i].sourceKey.Some? && l.events[i].payload.Some?)
  }

  /** What no constraint declares: the counter of a thread is above every sequence of the thread. */
  predicate CountersAbove(l: Ledger) {
    && (forall t | t in l.counters :: l.counters[t] >= 1)
    && (forall i | 0 <= i < |l.events| ::
          l.events[i].thread in l.counters && l.events[i].sequence < l.counters[l.events[i].thread])
  }

  // ----- upgrade -----

  const LEGACY_PREFIX := "legacy-terminal:"

  function Backfilled(e: Event, payloadOf: Event -> Option<string>): Event {
    e.(sourceKey := Some(LEGACY_PREFIX + e.kind), payload := payloadOf(e))
  }

  function Sequences(events: seq<Event>, thread: int): set<int> {
    set i | 0 <= i < |events| && events[i].thread == thread :: events[i].sequence
  }

  /** COALESCE(MAX(sequence) + 1, 1) */
  function NextSequence(events: seq<Event>, thread: int): int {
    var used := Sequences(events, thread);
    if used == {} then 1 else Greatest(used) + 1
  }

  function BackfilledEvents(events: seq<Event>, payloadOf: Event -> Option<string>): seq<Event> {
    seq(|events|, i requires 0 <= i < |events| => Backfilled(events[i], payloadOf))
  }

  function Upgraded(l: Ledger, payloadOf: Event -> Option<string>): Ledger {
    l.(events := BackfilledEvents(l.events, payloadOf),
       counters := map t | t in l.threads :: NextSequence(l.events, t))
  }

  /** What the rows must satisfy beyond the constraints of 0017. */
  predicate Upgradable(l: Ledger, payloadOf: Event -> Option<string>) {
    forall i | 0 <= i < |l.events| ::
      && payloadOf(l.events[i]).Some?
      && (l.events[i].run in l.runs ==> l.runs[l.events[i].run].thread == l.events[i].thread)
  }

  lemma KeysFollowKinds(l: Ledger, payloadOf: Event -> Option<string>)
    requires Legacy(l)
    ensures KeysUnique(Upgraded(l, payloadOf).events)
  {
    var events := Upgraded(l, payloadOf).events;
    forall i, j | 0 <= i < j < |events|
      ensures !(events[i].run == events[j].run && events[i].sourceKey == events[j].sourceKey)
    {
      if events[i].sourceKey == events[j].sourceKey {
        var a, b := LEGACY_PREFIX + l.events[i].kind, LEGACY_PREFIX + l.events[j].kind;
        assert a[|LEGACY_PREFIX|..] == l.events[i].kind && b[|LEGACY_PREFIX|..] == l.events[j].kind;
      }
    }
  }

  /**
   On tables that meet 0017 the upgrade meets every constraint of 0018 exactly when each
   event has a payload to take over and lies in the thread of its run.
   */
  lemma UpgradeMeetsSchema(l: Ledger, payloadOf: Event -> Option<string>)
    requires Legacy(l)
    ensures Progressive(Upgraded(l, payloadOf)) <==> Upgradable(l, payloadOf)
  {
    KeysFollowKinds(l, payloadOf);
    var next := Upgraded(l, payloadOf);
    assert Common(next);
    forall i | 0 <= i < |l.events|
      ensures InRunThread(next.events[i], next.runs) && next.events[i].payload.Some? <==>
                payloadOf(l.events[i]).Some? && l.runs[l.events[i].run].thread == l.events[i].thread
    {
      assert InRun(l.events[i], l.runs);
    }
    if Progressive(next) {
      forall i | 0 <= i < |l.events|
        ensures payloadOf(l.events[i]).Some? && l.runs[l.events[i].run].thread == l.events[i].thread
      {
        assert InRunThread(next.events[i], next.runs);
      }
    }
  }

  /** The least number from 1 upwards that is above every sequence of the thread. */
  ghost predicate LeastAbove(next: int, events: seq<Event>, thread: int) {
    && next >= 1
    && (forall i | 0 <= i < |events| && events[i].thread == thread :: events[i].sequence < next)
    && (next == 1 || next - 1 in Sequences(events, thread))
  }

  lemma NextSequenceLeast(events: seq<Event>, thread: int)
    requires forall i | 0 <= i < |events| :: events[i].sequence >= 1
    ensures LeastAbove(NextSequence(events, thread), events, thread)
  {
    forall i | 0 <= i < |events| && events[i].thread == thread
      ensures events[i].sequence in Sequences(events, thread)
    {
    }
  }

  /** The counter of a thread is as low as its sequences allow. */
  lemma UpgradeCounts(l: Ledger, payloadOf: Event -> Option<string>, t: int)
    requires Legacy(l) && t in l.threads
    ensures LeastAbove(Upgraded(l, payloadOf).counters[t], l.events, t)
  {
    NextSequenceLeast(l.events, t);
  }

  /** After the upgrade each counter is above all sequences of its thread. */
  lemma UpgradeSetsCounters(l: Ledger, payloadOf: Event -> Option<string>)
    requires Legacy(l)
    ensures CountersAbove(Upgraded(l, payloadOf))
  {
    var events, counters := Upgraded(l, payloadOf).events, Upgraded(l, payloadOf).counters;
    forall t | t in counters
      ensures counters[t] >= 1
    {
      UpgradeCounts(l, payloadOf, t);
    }
    forall i | 0 <= i < |events|
      ensures events[i].thread in counters && events[i].sequence < counters[events[i].thread]
    {
      assert events[i] == Backfilled(l.events[i], payloadOf);
      UpgradeCounts(l, payloadOf, l.events[i].thread);
    }
  }

  // ----- downgrade -----

  /** The pair that the DELETE joins: this candidate goes because of that retained row. */
  predicate Supersedes(retained: Event, candidate: Event) {
    && candidate.run == retained.run && candidate.kind == retained.kind
    && (candidate.sequence > retained.sequence || (candidate.sequence == retained.sequence && candidate.id > retained.id))
  }

  predicate Superseded(candidate: Event, events: seq<Event>) {
    exists i | 0 <= i < |events| :: Supersedes(events[i], candidate)
  }

  /** The rows that the DELETE leaves; it compares with the rows as they were before. */
  function Retained(candidates: seq<Event>, events: seq<Event>): seq<Event> {
    if candidates == [] then []
    else
      var front := Retained(candidates[..|candidates| - 1], events);
      var last := candidates[|candidates| - 1];
      if Superseded(last, events) then front else front + [last]
  }

  function WithoutColumns(e: Event): Event {
    e.(sourceKey := None, payload := None)
  }

  function Stripped(events: seq<Event>): seq<Event> {
    seq(|events|, i requires 0 <= i < |events| => WithoutColumns(events[i]))
  }

  function Downgraded(l: Ledger): Ledger {
    l.(events := Stripped(Retained(l.events, l.events)), counters := map[])
  }

  /** Retained rows are rows, in their order: `at` gives the place each came from. */
  lemma {:induction false} RetainedFrom(candidates: seq<Event>, events: seq<Event>) returns (at: seq<nat>)
    ensures |at| == |Retained(candidates, events)|
    ensures forall k | 0 <= k < |at| :: at[k] < |candidates| && Retained(candidates, events)[k] == candidates[at[k]]
    ensures forall k | 0 <= k < |at| :: !Superseded(Retained(candidates, events)[k], events)
    ensures forall k, m | 0 <= k < m < |at| :: at[k] < at[m]
    decreases |candidates|
  {
    if candidates == [] {
      at := [];
    } else {
      var n := |candidates| - 1;
      at := RetainedFrom(candidates[..n], events);
      if !Superseded(candidates[n], events) { at := at + [n]; }
    }
  }

  lemma {:induction false} RetainedAmong(candidates: seq<Event>, events: seq<Event>)
    ensures forall e :: e in Retained(candidates, events) <==> e in candidates && !Superseded(e, events)
    decreases |candidates|
  {
    if candidates != [] {
      var n := |candidates| - 1;
      RetainedAmong(candidates[..n], events);
      assert candidates == candidates[..n] + [candidates[n]];
    }
  }

  lemma RetainedMembers(events: seq<Event>)
    ensures forall e :: e in Retained(events, events) <==> e in events && !Superseded(e, events)
  {
    RetainedAmong(events, events);
  }

  predicate SameSlot(a: Event, b: Event) {
    a.run == b.run && a.kind == b.kind
  }

  /** Events of one run lie in one thread, so their sequences differ and the ids never decide. */
  lemma SlotSequencesDiffer(l: Ledger, i: nat, j: nat)
    requires Progressive(l) && i < |l.events| && j < |l.events| && i != j && l.events[i].run == l.events[j].run
    ensures l.events[i].sequence != l.events[j].sequence
  {
    assert InRunThread(l.events[i], l.runs) && InRunThread(l.events[j], l.runs);
  }

  predicate FirstOfSlot(e: Event, events: seq<Event>) {
    forall i | 0 <= i < |events| && SameSlot(events[i], e) :: e.sequence <= events[i].sequence
  }

  /** The downgrade keeps an event exactly when no event of its run and type has a lower sequence. */
  lemma DowngradeKeepsFirst(l: Ledger, e: Event)
    requires Progressive(l) && e in l.events
    ensures e in Retained(l.events, l.events) <==> FirstOfSlot(e, l.events)
  {
    RetainedMembers(l.events);
    var k :| 0 <= k < |l.events| && l.events[k] == e;
    forall i | 0 <= i < |l.events| && SameSlot(l.events[i], e)
      ensures Supersedes(l.events[i], e) <==> l.events[i].sequence < e.sequence
    {
      if i != k { SlotSequencesDiffer(l, i, k); }
    }
  }

  /** Two different rows that are both retained are not of one run and type. */
  lemma RetainedApart(l: Ledger, i: nat, j: nat)
    requires Progressive(l) && i < |l.events| && j < |l.events|
    requires !Superseded(l.events[i], l.events) && !Superseded(l.events[j], l.events)
    ensures i == j || !SameSlot(l.events[i], l.events[j])
  {
    assert !Supersedes(l.events[i], l.events[j]) && !Supersedes(l.events[j], l.events[i]);
    if i != j && l.events[i].run == l.events[j].run {
      SlotSequencesDiffer(l, i, j);
    }
  }

  lemma FirstExists(events: seq<Event>, e: Event) returns (m: nat)
    requires e in events
    ensures m < |events| && SameSlot(events[m], e) && FirstOfSlot(events[m], events)
  {
    var slot := set i | 0 <= i < |events| && SameSlot(events[i], e) :: events[i].sequence;
    assert e.sequence in slot;
    var least := Least(slot);
    m :| 0 <= m < |events| && SameSlot(events[m], e) && events[m].sequence == least;
    forall i | 0 <= i < |events| && SameSlot(events[i], events[m])
      ensures events[m].sequence <= events[i].sequence
    {
      assert events[i].sequence in slot;
    }
  }

  /** And every run and type that had an event keeps exactly one, with the least of their sequences. */
  lemma DowngradeKeepsOne(l: Ledger, e: Event) returns (first: Event)
    requires Progressive(l) && e in l.events
    ensures first in Retained(l.events, l.events) && SameSlot(first, e)
    ensures forall other | other in Retained(l.events, l.events) && SameSlot(other, e) :: other == first
  {
    var m := FirstExists(l.events, e);
    first := l.events[m];
    DowngradeKeepsFirst(l, first);
    RetainedMembers(l.events);
    forall other | other in Retained(l.events, l.events) && SameSlot(other, e)
      ensures other == first
    {
      var o :| 0 <= o < |l.events| && l.events[o] == other;
      RetainedApart(l, o, m);
    }
  }

  lemma RetainedKindsUnique(l: Ledger)
    requires Progressive(l)
    ensures KindsUnique(Retained(l.events, l.events))
  {
    var at := RetainedFrom(l.events, l.events);
    var kept := Retained(l.events, l.events);
    forall k, m | 0 <= k < m < |kept|
      ensures !SameSlot(kept[k], kept[m])
    {
      RetainedApart(l, at[k], at[m]);
    }
  }

  /** After the downgrade all constraints of 0017 hold again, the one on run and type among them. */
  lemma DowngradeMeetsSchema(l: Ledger)
    requires Progressive(l)
    ensures Legacy(Downgraded(l))
  {
    RetainedKindsUnique(l);
    var at := RetainedFrom(l.events, l.events);
    var kept := Downgraded(l).events;
    forall k | 0 <= k < |kept|
      ensures kept[k] == WithoutColumns(l.events[at[k]])
    {
    }
    assert Common(Downgraded(l));
    forall k | 0 <= k < |kept|
      ensures InRun(kept[k], l.runs)
    {
      assert InRunThread(l.events[at[k]], l.runs);
    }
  }

  lemma {:induction false} RetainedAll(candidates: seq<Event>, events: seq<Event>)
    requires forall i | 0 <= i < |candidates| :: !Superseded(candidates[i], events)
    ensures Retained(candidates, events) == candidates
    decreases |candidates|
  {
    if candidates != [] {
      RetainedAll(candidates[..|candidates| - 1], events);
    }
  }

  /** Right after an upgrade the downgrade deletes no row and restores the tables. */
  lemma DowngradeUndoesUpgrade(l: Ledger, payloadOf: Event -> Option<string>)
    requires Legacy(l)
    ensures Downgraded(Upgraded(l, payloadOf)) == l
  {
    var next := Upgraded(l, payloadOf);
    forall i | 0 <= i < |next.events|
      ensures !Superseded(next.events[i], next.events)
    {
      forall k | 0 <= k < |next.events|
        ensures !Supersedes(next.events[k], next.events[i])
      {
        assert k == i || !SameSlot(l.events[k], l.events[i]);
      }
    }
    RetainedAll(next.events, next.events);
    assert Downgraded(next).events == l.events;
  }

  // ----- appending -----

  datatype Spec = Spec(kind: string, hash: string, payload: string)

  datatype Task = Task(scope: Scope, thread: int, id: int)

  /** One call of append_event_specs; `newId` gives the ids that are drawn for the new rows. */
  datatype Command = Command(run: int, task: Task, key: string, specs: seq<Spec>, newId: nat -> int)

  /** The digest of a source key, the hash of a payload, and the payload as jsonb gives it back. */
  datatype Service = Service(digest: string -> string, payloadHash: string -> string, stored: string -> string)

  datatype Refusal = PayloadChanged | ThreadGone | ConstraintViolated

  function StableKey(s: Service, key: string, kind: string): string {
    s.digest(key) + ":" + kind
  }

  lemma StableKeyInjective(s: Service, key: string, kind: string, other: string)
    requires StableKey(s, key, kind) == StableKey(s, key, other)
    ensures kind == other
  {
    var n := |s.digest(key)| + 1;
    assert StableKey(s, key, kind)[n..] == kind && StableKey(s, key, other)[n..] == other;
  }

  function OfRun(events: seq<Event>, run: int): seq<Event> {
    if events == [] then []
    else
      var front := OfRun(events[..|events| - 1], run);
      if events[|events| - 1].run == run then front + [events[|events| - 1]] else front
  }

  function BySequence(): (Event, Event) -> bool {
    (a: Event, b: Event) => a.sequence < b.sequence
  }

  function Existing(events: seq<Event>, run: int): seq<Event> {
    SortBy(BySequence(), OfRun(events, run))
  }

  /** A dictionary filled from a list: the last row with a value wins. */
  function LastBy<K>(f: Event -> K, rows: seq<Event>): map<K, Event> {
    if rows == [] then map[]
    else LastBy(f, rows[..|rows| - 1])[f(rows[|rows| - 1]) := rows[|rows| - 1]]
  }

  function KeyOf(): Event -> Option<string> {
    (e: Event) => e.sourceKey
  }

  function KindOf(): Event -> string {
    (e: Event) => e.kind
  }

  datatype Verdict = Known | Conflicting | Pending

  /** The hash that the stored payload has now. */
  predicate Intact(s: Service, e: Event, hash: string) {
    e.payload.Some? && s.payloadHash(e.payload.value) == hash
  }

  /** What becomes of one spec, given the rows of the run in the order of their sequences. */
  function Judge(s: Service, existing: seq<Event>, key: string, spec: Spec): Verdict {
    var byKey, byKind := LastBy(KeyOf(), existing), LastBy(KindOf(), existing);
    var stable := Some(StableKey(s, key, spec.kind));
    if stable in byKey then
      if byKey[stable].hash == spec.hash && Intact(s, byKey[stable], spec.hash) then Known else Conflicting
    else if spec.kind in byKind && byKind[spec.kind].hash == spec.hash then
      if Intact(s, byKind[spec.kind], spec.hash) then Known else Conflicting
    else Pending
  }

  function PendingSpecs(s: Service, existing: seq<Event>, key: string, specs: seq<Spec>): seq<Spec> {
    if specs == [] then []
    else
      var front := PendingSpecs(s, existing, key, specs[..|specs| - 1]);
      if Judge(s, existing, key, specs[|specs| - 1]).Pending? then front + [specs[|specs| - 1]] else front
  }

  predicate AnyConflict(s: Service, existing: seq<Event>, key: string, specs: seq<Spec>) {
    exists i | 0 <= i < |specs| :: Judge(s, existing, key, specs[i]).Conflicting?
  }

  function NewRow(s: Service, c: Command, spec: Spec, i: nat, first: int): Event {
    Event(c.newId(i), c.task.scope, c.task.thread, c.task.id, c.run, spec.kind, spec.hash, first + i,
          Some(StableKey(s, c.key, spec.kind)), Some(s.stored(spec.payload)))
  }

  function NewRows(s: Service, c: Command, pending: seq<Spec>, first: int): seq<Event> {
    seq(|pending|, i requires 0 <= i < |pending| => NewRow(s, c, pending[i], i, first))
  }

  /** The tables with the pending rows added and the counter of the thread moved on. */
  function Extended(s: Service, l: Ledger, c: Command, pending: seq<Spec>): Ledger
    requires c.task.thread in l.counters
  {
    var first := l.counters[c.task.thread];
    l.(events := l.events + NewRows(s, c, pending, first),
       counters := l.counters[c.task.thread := first + |pending|])
  }

  /** append_event_specs, as one transaction. */
  function Appended(s: Service, l: Ledger, c: Command): Result<Ledger, Refusal> {
    var existing := Existing(l.events, c.run);
    var pending := PendingSpecs(s, existing, c.key, c.specs);
    if AnyConflict(s, existing, c.key, c.specs) then Err(PayloadChanged)
    else if pending == [] then Ok(l)
    else if c.task.thread !in l.counters then Err(ThreadGone)
    else if Progressive(Extended(s, l, c, pending)) then Ok(Extended(s, l, c, pending))
    else Err(ConstraintViolated)
  }

  // ----- what an append does -----

  predicate FreshIds(l: Ledger, c: Command, n: nat) {
    && (forall i, k | 0 <= i < n && 0 <= k < |l.events| :: c.newId(i) != l.events[k].id)
    && (forall i, j | 0 <= i < j < n :: c.newId(i) != c.newId(j))
  }

  predicate KindsDistinct(specs: seq<Spec>) {
    forall i, j | 0 <= i < j < |specs| :: specs[i].kind != specs[j].kind
  }

  predicate KindsDeclared(specs: seq<Spec>) {
    forall i | 0 <= i < |specs| :: specs[i].kind in EVENT_TYPES
  }

  predicate TaskOwnsRun(l: Ledger, c: Command) {
    c.run in l.runs && l.runs[c.run] == Run(c.task.scope, c.task.thread, c.task.id)
  }

  lemma {:induction false} OfRunMembers(events: seq<Event>, run: int)
    ensures forall e :: e in OfRun(events, run) <==> e in events && e.run == run
    decreases |events|
  {
    if events != [] {
      OfRunMembers(events[..|events| - 1], run);
      assert events == events[..|events| - 1] + [events[|events| - 1]];
    }
  }

  lemma ExistingMembers(events: seq<Event>, run: int)
    ensures forall e :: e in Existing(events, run) <==> e in events && e.run == run
  {
    OfRunMembers(events, run);
    MembersKept(OfRun(events, run), Existing(events, run));
  }

  /** A dictionary has a key exactly when some row has it, and then holds the last such row. */
  lemma {:induction false} LastByIs<K>(f: Event -> K, rows: seq<Event>, k: K)
    ensures k in LastBy(f, rows) <==> exists i :: 0 <= i < |rows| && f(rows[i]) == k
    ensures k in LastBy(f, rows) ==> exists i :: 0 <= i < |rows| && f(rows[i]) == k && LastBy(f, rows)[k] == rows[i]
    decreases |rows|
  {
    if rows != [] {
      var n := |rows| - 1;
      LastByIs(f, rows[..n], k);
      if f(rows[n]) != k && k in LastBy(f, rows[..n]) {
        var i :| 0 <= i < n && f(rows[..n][i]) == k && LastBy(f, rows[..n])[k] == rows[..n][i];
        assert rows[i] == rows[..n][i];
      }
    }
  }

  /** Rows without the key leave the entry of a dictionary as it is. */
  lemma {:induction false} LastByAppend<K>(f: Event -> K, rows: seq<Event>, more: seq<Event>, k: K)
    requires forall i | 0 <= i < |more| :: f(more[i]) != k
    ensures k in LastBy(f, rows + more) <==> k in LastBy(f, rows)
    ensures k in LastBy(f, rows) ==> LastBy(f, rows + more)[k] == LastBy(f, rows)[k]
    decreases |more|
  {
    if more == [] {
      assert rows + more == rows;
    } else {
      var n := |more| - 1;
      LastByAppend(f, rows, more[..n], k);
      assert (rows + more)[..|rows + more| - 1] == rows + more[..n];
    }
  }

  lemma {:induction false} PendingMembers(s: Service, existing: seq<Event>, key: string, specs: seq<Spec>)
    ensures forall x :: x in PendingSpecs(s, existing, key, specs) <==> x in specs && Judge(s, existing, key, x).Pending?
    decreases |specs|
  {
    if specs != [] {
      var n := |specs| - 1;
      PendingMembers(s, existing, key, specs[..n]);
      assert specs == specs[..n] + [specs[n]];
    }
  }

  /** The specs for which a row is due: none of their keys is in use in the run. */
  ghost predicate Unused(s: Service, l: Ledger, c: Command, pending: seq<Spec>) {
    forall i, k | 0 <= i < |pending| && 0 <= k < |l.events| ::
      l.events[k].run == c.run ==> l.events[k].sourceKey != Some(StableKey(s, c.key, pending[i].kind))
  }

  lemma PendingUnused(s: Service, l: Ledger, c: Command)
    ensures Unused(s, l, c, PendingSpecs(s, Existing(l.events, c.run), c.key, c.specs))
  {
    var existing := Existing(l.events, c.run);
    var pending := PendingSpecs(s, existing, c.key, c.specs);
    PendingMembers(s, existing, c.key, c.specs);
    ExistingMembers(l.events, c.run);
    forall i, k | 0 <= i < |pending| && 0 <= k < |l.events| && l.events[k].run == c.run
      ensures l.events[k].sourceKey != Some(StableKey(s, c.key, pending[i].kind))
    {
      assert pending[i] in pending && l.events[k] in existing;
      var m :| 0 <= m < |existing| && existing[m] == l.events[k];
      LastByIs(KeyOf(), existing, Some(StableKey(s, c.key, pending[i].kind)));
    }
  }

  lemma ExtendedIds(s: Service, l: Ledger, c: Command, pending: seq<Spec>)
    requires c.task.thread in l.counters && IdsUnique(l.events)
    ensures IdsUnique(Extended(s, l, c, pending).events) <==> FreshIds(l, c, |pending|)
  {
    var events, n := Extended(s, l, c, pending).events, |l.events|;
    assert forall i | 0 <= i < |pending| :: events[n + i].id == c.newId(i);
    if IdsUnique(events) {
      forall i, k | 0 <= i < |pending| && 0 <= k < n
        ensures c.newId(i) != l.events[k].id
      {
        assert events[k].id != events[n + i].id;
      }
      forall i, j | 0 <= i < j < |pending|
        ensures c.newId(i) != c.newId(j)
      {
        assert events[n + i].id != events[n + j].id;
      }
    }
  }

  /** The source keys of the extended table: those there were, and the stable keys of the due specs. */
  lemma ExtendedKeyAt(s: Service, l: Ledger, c: Command, pending: seq<Spec>, k: nat)
    requires c.task.thread in l.counters && |l.events| <= k < |l.events| + |pending|
    ensures var e := Extended(s, l, c, pending).events[k];
      e.run == c.run && e.sourceKey == Some(StableKey(s, c.key, pending[k - |l.events|].kind))
  {
  }

  lemma ExtendedKeys(s: Service, l: Ledger, c: Command, pending: seq<Spec>)
    requires c.task.thread in l.counters && KeysUnique(l.events) && Unused(s, l, c, pending)
    ensures KeysUnique(Extended(s, l, c, pending).events) <==> KindsDistinct(pending)
  {
    var events, n := Extended(s, l, c, pending).events, |l.events|;
    if KeysUnique(events) {
      forall i, j | 0 <= i < j < |pending|
        ensures pending[i].kind != pending[j].kind
      {
        ExtendedKeyAt(s, l, c, pending, n + i);
        ExtendedKeyAt(s, l, c, pending, n + j);
      }
    }
    if KindsDistinct(pending) {
      forall i, j | 0 <= i < j < |events|
        ensures !(events[i].run == events[j].run && events[i].sourceKey == events[j].sourceKey)
      {
        ExtendedKeysApart(s, l, c, pending, i, j);
      }
    }
  }

  lemma ExtendedKeysApart(s: Service, l: Ledger, c: Command, pending: seq<Spec>, i: nat, j: nat)
    requires c.task.thread in l.counters && KeysUnique(l.events) && Unused(s, l, c, pending) && KindsDistinct(pending)
    requires i < j < |l.events| + |pending|
    ensures var events := Extended(s, l, c, pending).events;
      !(events[i].run == events[j].run && events[i].sourceKey == events[j].sourceKey)
  {
    var n := |l.events|;
    if j >= n {
      ExtendedKeyAt(s, l, c, pending, j);
      if i >= n {
        ExtendedKeyAt(s, l, c, pending, i);
        if StableKey(s, c.key, pending[i - n].kind) == StableKey(s, c.key, pending[j - n].kind) {
          StableKeyInjective(s, c.key, pending[i - n].kind, pending[j - n].kind);
        }
      }
    }
  }

  lemma ExtendedSequences(s: Service, l: Ledger, c: Command, pending: seq<Spec>)
    requires c.task.thread in l.counters && SequencesUnique(l.events) && CountersAbove(l)
    ensures SequencesUnique(Extended(s, l, c, pending).events) && CountersAbove(Extended(s, l, c, pending))
  {
    var next, n := Extended(s, l, c, pending), |l.events|;
    assert forall k | n <= k < |next.events| ::
      next.events[k].thread == c.task.thread && next.events[k].sequence == l.counters[c.task.thread] + (k - n);
  }

  predicate RowFits(e: Event, l: Ledger) {
    && InRunThread(e, l.runs) && e.sourceKey.Some? && e.payload.Some?
    && e.kind in EVENT_TYPES && e.sequence >= 1 && e.thread in l.threads
  }

  predicate RowsFit(events: seq<Event>, l: Ledger) {
    forall i | 0 <= i < |events| :: RowFits(events[i], l)
  }

  lemma NewRowFits(s: Service, l: Ledger, c: Command, spec: Spec, i: nat, first: int)
    requires first >= 1 && c.task.thread in l.threads
    ensures RowFits(NewRow(s, c, spec, i, first), l) <==> TaskOwnsRun(l, c) && spec.kind in EVENT_TYPES
  {
  }

  lemma ExtendedRows(s: Service, l: Ledger, c: Command, pending: seq<Spec>)
    requires c.task.thread in l.counters && Progressive(l) && CountersAbove(l) && pending != []
    ensures RowsFit(Extended(s, l, c, pending).events, l) <==> TaskOwnsRun(l, c) && KindsDeclared(pending)
  {
    var events, n, first := Extended(s, l, c, pending).events, |l.events|, l.counters[c.task.thread];
    forall k | n <= k < |events|
      ensures RowFits(events[k], l) <==> TaskOwnsRun(l, c) && pending[k - n].kind in EVENT_TYPES
    {
      NewRowFits(s, l, c, pending[k - n], k - n, first);
      assert events[k] == NewRow(s, c, pending[k - n], k - n, first);
    }
    if RowsFit(events, l) {
      forall i | 0 <= i < |pending|
        ensures TaskOwnsRun(l, c) && pending[i].kind in EVENT_TYPES
      {
        assert RowFits(events[n + i], l);
      }
      assert pending[0].kind in EVENT_TYPES;
    }
  }

  lemma ExtendedMeetsSchema(s: Service, l: Ledger, c: Command, pending: seq<Spec>)
    requires c.task.thread in l.counters && Progressive(l) && CountersAbove(l) && pending != []
    requires Unused(s, l, c, pending)
    ensures Progressive(Extended(s, l, c, pending))
       <==> TaskOwnsRun(l, c) && FreshIds(l, c, |pending|) && KindsDistinct(pending) && KindsDeclared(pending)
  {
    ExtendedIds(s, l, c, pending);
    ExtendedKeys(s, l, c, pending);
    ExtendedSequences(s, l, c, pending);
    ExtendedRows(s, l, c, pending);
  }

  /**
   An append commits exactly when no payload changed and, if a row is due, the task owns the
   run, the new ids are new, and the due rows are of declared types, no two of the same; it
   keeps every constraint and the counters above the sequences.
   */
  lemma AppendOutcome(s: Service, l: Ledger, c: Command)
    requires Progressive(l) && CountersAbove(l)
    ensures var existing := Existing(l.events, c.run);
      var pending := PendingSpecs(s, existing, c.key, c.specs);
      Appended(s, l, c).Ok? <==>
        && !AnyConflict(s, existing, c.key, c.specs)
        && (pending == []
            || (TaskOwnsRun(l, c) && FreshIds(l, c, |pending|) && KindsDistinct(pending) && KindsDeclared(pending)))
    ensures Appended(s, l, c).Ok? ==> Progressive(Appended(s, l, c).value) && CountersAbove(Appended(s, l, c).value)
  {
    var pending := PendingSpecs(s, Existing(l.events, c.run), c.key, c.specs);
    PendingUnused(s, l, c);
    if pending != [] && c.task.thread in l.counters {
      ExtendedMeetsSchema(s, l, c, pending);
      ExtendedSequences(s, l, c, pending);
    }
  }

  // ----- which specs get a row -----

  /** A row that no later row of its key follows is the one that the dictionary holds. */
  lemma {:induction false} LastRow<K>(f: Event -> K, rows: seq<Event>, i: nat)
    requires i < |rows| && forall j | i < j < |rows| :: f(rows[j]) != f(rows[i])
    ensures f(rows[i]) in LastBy(f, rows) && LastBy(f, rows)[f(rows[i])] == rows[i]
    decreases |rows|
  {
    var n := |rows| - 1;
    if i < n {
      assert forall j | i < j < n :: f(rows[..n][j]) != f(rows[..n][i]);
      LastRow(f, rows[..n], i);
      assert f(rows[n]) != f(rows[i]);
    }
  }

  lemma {:induction false} LastIndex<K>(f: Event -> K, rows: seq<Event>, k: K) returns (i: nat)
    requires exists j :: 0 <= j < |rows| && f(rows[j]) == k
    ensures i < |rows| && f(rows[i]) == k && forall j | i < j < |rows| :: f(rows[j]) != k
    decreases |rows|
  {
    var n := |rows| - 1;
    if f(rows[n]) == k {
      i := n;
    } else {
      var j :| 0 <= j < |rows| && f(rows[j]) == k;
      assert rows[..n][j] == rows[j];
      i := LastIndex(f, rows[..n], k);
      assert forall l | i < l < n :: f(rows[..n][l]) != k;
    }
  }

  lemma ExistingAscending(events: seq<Event>, run: int)
    ensures var rows := Existing(events, run); forall i, j | 0 <= i < j < |rows| :: rows[i].sequence <= rows[j].sequence
  {
    var rows := Existing(events, run);
    forall a, b, d
      ensures BySequence()(a, b) ==> !BySequence()(b, a)
      ensures !BySequence()(a, b) && !BySequence()(b, d) ==> !BySequence()(a, d)
    {
      BySequenceIs(a, b);
      BySequenceIs(b, a);
      BySequenceIs(b, d);
      BySequenceIs(a, d);
    }
    SortOrdered(BySequence(), OfRun(events, run));
    forall i, j | 0 <= i < j < |rows|
      ensures rows[i].sequence <= rows[j].sequence
    {
      BySequenceIs(rows[j], rows[i]);
    }
  }

  lemma BySequenceIs(a: Event, b: Event)
    ensures BySequence()(a, b) == (a.sequence < b.sequence)
  {
  }

  /** The event is of this run and type, and none of them has a higher sequence. */
  predicate Latest(l: Ledger, run: int, kind: string, e: Event) {
    && e in l.events && e.run == run && e.kind == kind
    && forall other | other in l.events && other.run == run && other.kind == kind :: other.sequence <= e.sequence
  }

  lemma OneLatest(l: Ledger, run: int, kind: string, a: Event, b: Event)
    requires Progressive(l) && Latest(l, run, kind, a) && Latest(l, run, kind, b)
    ensures a == b
  {
    var i :| 0 <= i < |l.events| && l.events[i] == a;
    var j :| 0 <= j < |l.events| && l.events[j] == b;
    assert InRunThread(l.events[i], l.runs) && InRunThread(l.events[j], l.runs);
  }

  lemma KindListed(l: Ledger, run: int, kind: string)
    ensures kind in LastBy(KindOf(), Existing(l.events, run)) <==> exists e | e in l.events :: e.run == run && e.kind == kind
  {
    var rows := Existing(l.events, run);
    LastByIs(KindOf(), rows, kind);
    ExistingMembers(l.events, run);
    if e :| e in l.events && e.run == run && e.kind == kind {
      assert e in rows;
      var m :| 0 <= m < |rows| && rows[m] == e;
    }
    if kind in LastBy(KindOf(), rows) {
      var i :| 0 <= i < |rows| && rows[i].kind == kind;
      assert rows[i] in rows;
    }
  }

  /** What the dictionary by type holds is the latest event of the type. */
  lemma LatestByKind(l: Ledger, run: int, kind: string)
    requires kind in LastBy(KindOf(), Existing(l.events, run))
    ensures Latest(l, run, kind, LastBy(KindOf(), Existing(l.events, run))[kind])
  {
    var rows := Existing(l.events, run);
    LastByIs(KindOf(), rows, kind);
    var i := LastIndex(KindOf(), rows, kind);
    LastRow(KindOf(), rows, i);
    ExistingMembers(l.events, run);
    assert rows[i] in rows;
    LastOfKind(l, run, kind, i);
  }

  lemma LastOfKind(l: Ledger, run: int, kind: string, i: nat)
    requires var rows := Existing(l.events, run);
      i < |rows| && rows[i].kind == kind && forall j | i < j < |rows| :: KindOf()(rows[j]) != kind
    ensures forall e | e in l.events && e.run == run && e.kind == kind :: e.sequence <= Existing(l.events, run)[i].sequence
  {
    var rows := Existing(l.events, run);
    ExistingMembers(l.events, run);
    ExistingAscending(l.events, run);
    forall e | e in l.events && e.run == run && e.kind == kind
      ensures e.sequence <= rows[i].sequence
    {
      assert e in rows;
      var m :| 0 <= m < |rows| && rows[m] == e;
      assert KindOf()(rows[m]) == kind;
    }
  }

  predicate Keyed(l: Ledger, run: int, key: string, e: Event) {
    e in l.events && e.run == run && e.sourceKey == Some(key)
  }

  lemma OneKeyed(l: Ledger, run: int, key: string, a: Event, b: Event)
    requires Progressive(l) && Keyed(l, run, key, a) && Keyed(l, run, key, b)
    ensures a == b
  {
    var i :| 0 <= i < |l.events| && l.events[i] == a;
    var j :| 0 <= j < |l.events| && l.events[j] == b;
  }

  lemma KeyedByKey(l: Ledger, run: int, key: string)
    ensures Some(key) in LastBy(KeyOf(), Existing(l.events, run)) <==> exists e | e in l.events :: Keyed(l, run, key, e)
    ensures Some(key) in LastBy(KeyOf(), Existing(l.events, run)) ==>
      Keyed(l, run, key, LastBy(KeyOf(), Existing(l.events, run))[Some(key)])
  {
    var rows := Existing(l.events, run);
    LastByIs(KeyOf(), rows, Some(key));
    ExistingMembers(l.events, run);
    if e :| e in l.events && Keyed(l, run, key, e) {
      assert e in rows;
      var m :| 0 <= m < |rows| && rows[m] == e;
    }
    if Some(key) in LastBy(KeyOf(), rows) {
      var i :| 0 <= i < |rows| && rows[i].sourceKey == Some(key) && LastBy(KeyOf(), rows)[Some(key)] == rows[i];
      assert rows[i] in rows;
    }
  }

  /** The event has the hash of the spec, and its payload has that hash still. */
  predicate Agrees(s: Service, e: Event, spec: Spec) {
    e.hash == spec.hash && e.payload.Some? && s.payloadHash(e.payload.value) == spec.hash
  }

  /** A row is due: nothing stands under the spec's key, and the latest event of its type, if any, has another hash. */
  predicate Due(s: Service, l: Ledger, c: Command, spec: Spec) {
    && (forall e | e in l.events :: !Keyed(l, c.run, s.digest(c.key) + ":" + spec.kind, e))
    && (forall e | e in l.events && Latest(l, c.run, spec.kind, e) :: e.hash != spec.hash)
  }

  /** A payload changed: that of the event under the spec's key, or that of the latest event of its type with its hash. */
  predicate Changed(s: Service, l: Ledger, c: Command, spec: Spec) {
    || (exists e | e in l.events :: Keyed(l, c.run, s.digest(c.key) + ":" + spec.kind, e) && !Agrees(s, e, spec))
    || ((forall e | e in l.events :: !Keyed(l, c.run, s.digest(c.key) + ":" + spec.kind, e))
        && exists e | e in l.events ::
             Latest(l, c.run, spec.kind, e) && e.hash == spec.hash && !Agrees(s, e, spec))
  }

  /** The service judges a spec by the event under its key, or else by the latest event of its type. */
  lemma JudgedExactly(s: Service, l: Ledger, c: Command, spec: Spec)
    requires Progressive(l)
    ensures Judge(s, Existing(l.events, c.run), c.key, spec).Pending? <==> Due(s, l, c, spec)
    ensures Judge(s, Existing(l.events, c.run), c.key, spec).Conflicting? <==> Changed(s, l, c, spec)
  {
    var existing := Existing(l.events, c.run);
    var key := s.digest(c.key) + ":" + spec.kind;
    KeyedByKey(l, c.run, key);
    KindListed(l, c.run, spec.kind);
    if Some(key) in LastBy(KeyOf(), existing) {
      var found := LastBy(KeyOf(), existing)[Some(key)];
      forall e | e in l.events && Keyed(l, c.run, key, e)
        ensures e == found
      {
        OneKeyed(l, c.run, key, e, found);
      }
    }
    if spec.kind in LastBy(KindOf(), existing) {
      var found := LastBy(KindOf(), existing)[spec.kind];
      LatestByKind(l, c.run, spec.kind);
      forall e | e in l.events && Latest(l, c.run, spec.kind, e)
        ensures e == found
      {
        OneLatest(l, c.run, spec.kind, e, found);
      }
    }
  }

  /** The positions, in their order, at which the flag is set. */
  predicate Picked(flags: seq<bool>, picks: seq<nat>) {
    && (forall i | 0 <= i < |picks| :: picks[i] < |flags|)
    && (forall i, j | 0 <= i < j < |picks| :: picks[i] < picks[j])
    && (forall k | 0 <= k < |flags| :: k in picks <==> flags[k])
  }

  lemma PickedMore(flags: seq<bool>, picks: seq<nat>, flag: bool)
    requires Picked(flags, picks)
    ensures Picked(flags + [flag], if flag then picks + [|flags|] else picks)
  {
  }

  /** The specs at these positions. */
  function SpecsAt(specs: seq<Spec>, picks: seq<nat>): seq<Spec>
    requires forall i | 0 <= i < |picks| :: picks[i] < |specs|
  {
    seq(|picks|, i requires 0 <= i < |picks| => specs[picks[i]])
  }

  function Flagged(specs: seq<Spec>, flags: seq<bool>): seq<Spec>
    requires |flags| == |specs|
  {
    if specs == [] then []
    else
      var n := |specs| - 1;
      Flagged(specs[..n], flags[..n]) + if flags[n] then [specs[n]] else []
  }

  lemma {:induction false} PendingFlagged(s: Service, existing: seq<Event>, key: string, specs: seq<Spec>, flags: seq<bool>)
    requires |flags| == |specs| && forall k | 0 <= k < |specs| :: flags[k] == Judge(s, existing, key, specs[k]).Pending?
    ensures PendingSpecs(s, existing, key, specs) == Flagged(specs, flags)
    decreases |specs|
  {
    if specs != [] {
      var n := |specs| - 1;
      PendingFlagged(s, existing, key, specs[..n], flags[..n]);
    }
  }

  lemma SpecsBefore(specs: seq<Spec>, picks: seq<nat>, n: nat)
    requires n < |specs| && forall i | 0 <= i < |picks| :: picks[i] < n
    ensures SpecsAt(specs, picks) == SpecsAt(specs[..n], picks)
    ensures SpecsAt(specs, picks + [n]) == SpecsAt(specs[..n], picks) + [specs[n]]
  {
  }

  lemma {:induction false} FlaggedPicked(specs: seq<Spec>, flags: seq<bool>) returns (picks: seq<nat>)
    requires |flags| == |specs|
    ensures Picked(flags, picks) && Flagged(specs, flags) == SpecsAt(specs, picks)
    decreases |specs|
  {
    if specs == [] {
      picks := [];
    } else {
      var n := |specs| - 1;
      var front := FlaggedPicked(specs[..n], flags[..n]);
      SpecsBefore(specs, front, n);
      picks := FlagPicked(flags, front, n);
      if !flags[n] { assert Flagged(specs, flags) == Flagged(specs[..n], flags[..n]) + []; }
    }
  }

  lemma FlagPicked(flags: seq<bool>, front: seq<nat>, n: nat) returns (picks: seq<nat>)
    requires |flags| == n + 1 && Picked(flags[..n], front)
    ensures picks == if flags[n] then front + [n] else front
    ensures Picked(flags, picks)
  {
    PickedMore(flags[..n], front, flags[n]);
    assert flags == flags[..n] + [flags[n]];
    picks := if flags[n] then front + [n] else front;
  }

  /** The positions of the specs for which a row is due, in their order. */
  predicate Picks(s: Service, l: Ledger, c: Command, picks: seq<nat>) {
    && (forall i | 0 <= i < |picks| :: picks[i] < |c.specs|)
    && (forall i, j | 0 <= i < j < |picks| :: picks[i] < picks[j])
    && (forall k | 0 <= k < |c.specs| :: k in picks <==> Due(s, l, c, c.specs[k]))
  }

  lemma DuePicked(s: Service, l: Ledger, c: Command) returns (picks: seq<nat>)
    requires Progressive(l)
    ensures Picks(s, l, c, picks)
    ensures PendingSpecs(s, Existing(l.events, c.run), c.key, c.specs) == SpecsAt(c.specs, picks)
  {
    var flags := seq(|c.specs|, k requires 0 <= k < |c.specs| => Due(s, l, c, c.specs[k]));
    forall k | 0 <= k < |c.specs|
      ensures flags[k] == Judge(s, Existing(l.events, c.run), c.key, c.specs[k]).Pending?
    {
      JudgedExactly(s, l, c, c.specs[k]);
    }
    PendingFlagged(s, Existing(l.events, c.run), c.key, c.specs, flags);
    picks := FlaggedPicked(c.specs, flags);
  }

  /** The row of a spec, under the i-th new id and at the i-th new sequence of the task's thread. */
  predicate RowOf(s: Service, l: Ledger, c: Command, spec: Spec, i: nat, e: Event) {
    && e.id == c.newId(i) && e.scope == c.task.scope && e.thread == c.task.thread && e.task == c.task.id && e.run == c.run
    && e.kind == spec.kind && e.hash == spec.hash && e.payload == Some(s.stored(spec.payload))
    && e.sourceKey == Some(s.digest(c.key) + ":" + spec.kind)
    && c.task.thread in l.counters && e.sequence == l.counters[c.task.thread] + i
  }

  /** The due specs have got their rows, in their order, and the counter of the thread is behind them. */
  predicate Grows(s: Service, l: Ledger, c: Command, picks: seq<nat>, next: Ledger) {
    && |next.events| == |l.events| + |picks| && l.events <= next.events
    && (forall i | 0 <= i < |picks| :: picks[i] < |c.specs| && RowOf(s, l, c, c.specs[picks[i]], i, next.events[|l.events| + i]))
    && next.runs == l.runs && next.threads == l.threads
    && (if picks == [] then next.counters == l.counters
        else c.task.thread in l.counters
             && next.counters == l.counters[c.task.thread := l.counters[c.task.thread] + |picks|])
  }

  ghost predicate AppendsDue(s: Service, l: Ledger, c: Command, next: Ledger) {
    exists picks :: Picks(s, l, c, picks) && Grows(s, l, c, picks, next)
  }

  /** An append adds a row for each spec that is due, and nothing else; it is refused as changed exactly if a payload changed. */
  lemma AppendRows(s: Service, l: Ledger, c: Command)
    requires Progressive(l)
    ensures Appended(s, l, c).Ok? ==> AppendsDue(s, l, c, Appended(s, l, c).value)
    ensures Appended(s, l, c) == Err(PayloadChanged) <==> exists k | 0 <= k < |c.specs| :: Changed(s, l, c, c.specs[k])
  {
    forall k | 0 <= k < |c.specs|
      ensures Judge(s, Existing(l.events, c.run), c.key, c.specs[k]).Conflicting? <==> Changed(s, l, c, c.specs[k])
    {
      JudgedExactly(s, l, c, c.specs[k]);
    }
    if Appended(s, l, c).Ok? {
      var picks := DuePicked(s, l, c);
      AppendedGrows(s, l, c, picks, Appended(s, l, c).value);
    }
  }

  lemma NewRowIs(s: Service, l: Ledger, c: Command, spec: Spec, i: nat)
    requires c.task.thread in l.counters
    ensures RowOf(s, l, c, spec, i, NewRow(s, c, spec, i, l.counters[c.task.thread]))
  {
  }

  lemma AppendedGrows(s: Service, l: Ledger, c: Command, picks: seq<nat>, next: Ledger)
    requires Appended(s, l, c) == Ok(next) && forall i | 0 <= i < |picks| :: picks[i] < |c.specs|
    requires PendingSpecs(s, Existing(l.events, c.run), c.key, c.specs) == SpecsAt(c.specs, picks)
    ensures Grows(s, l, c, picks, next)
  {
    if picks != [] {
      var pending := SpecsAt(c.specs, picks);
      assert next == Extended(s, l, c, pending);
      forall i | 0 <= i < |picks|
        ensures RowOf(s, l, c, c.specs[picks[i]], i, next.events[|l.events| + i])
      {
        NewRowIs(s, l, c, pending[i], i);
      }
    }
  }

  // ----- replaying an append -----

  lemma {:induction false} SortSorted(s: seq<Event>)
    requires forall i, j | 0 <= i < j < |s| :: s[i].sequence <= s[j].sequence
    ensures SortBy(BySequence(), s) == s
  {
    if s != [] {
      SortSorted(s[1..]);
    }
  }

  lemma {:induction false} InsertBefore(x: Event, s: seq<Event>, later: seq<Event>)
    requires forall i | 0 <= i < |later| :: x.sequence < later[i].sequence
    ensures Insert(BySequence(), x, s + later) == Insert(BySequence(), x, s) + later
  {
    if s == [] {
      assert s + later == later;
    } else if s[0].sequence < x.sequence {
      assert (s + later)[1..] == s[1..] + later;
      InsertBefore(x, s[1..], later);
    } else {
      assert [x] + (s + later) == [x] + s + later;
    }
  }

  lemma {:induction false} SortAppend(s: seq<Event>, later: seq<Event>)
    requires forall i, j | 0 <= i < j < |later| :: later[i].sequence <= later[j].sequence
    requires forall i, j | 0 <= i < |s| && 0 <= j < |later| :: s[i].sequence < later[j].sequence
    ensures SortBy(BySequence(), s + later) == SortBy(BySequence(), s) + later
  {
    if s == [] {
      assert s + later == later;
      SortSorted(later);
    } else {
      assert (s + later)[1..] == s[1..] + later;
      SortAppend(s[1..], later);
      InsertBefore(s[0], SortBy(BySequence(), s[1..]), later);
    }
  }

  lemma {:induction false} OfRunAppend(events: seq<Event>, rows: seq<Event>, run: int)
    requires forall i | 0 <= i < |rows| :: rows[i].run == run
    ensures OfRun(events + rows, run) == OfRun(events, run) + rows
    decreases |rows|
  {
    if rows == [] {
      assert events + rows == events;
    } else {
      var n := |rows| - 1;
      OfRunAppend(events, rows[..n], run);
      assert (events + rows)[..|events + rows| - 1] == events + rows[..n];
    }
  }

  /** The rows of the run after an append: those before, and then the new ones. */
  lemma ExistingExtended(s: Service, l: Ledger, c: Command, pending: seq<Spec>)
    requires c.task.thread in l.counters && Progressive(l) && CountersAbove(l) && TaskOwnsRun(l, c)
    ensures Existing(Extended(s, l, c, pending).events, c.run)
         == Existing(l.events, c.run) + NewRows(s, c, pending, l.counters[c.task.thread])
  {
    var rows := NewRows(s, c, pending, l.counters[c.task.thread]);
    var before := OfRun(l.events, c.run);
    OfRunAppend(l.events, rows, c.run);
    OfRunMembers(l.events, c.run);
    forall i | 0 <= i < |before|
      ensures before[i].sequence < l.counters[c.task.thread]
    {
      assert before[i] in before;
      var k :| 0 <= k < |l.events| && l.events[k] == before[i];
      assert InRunThread(l.events[k], l.runs);
    }
    SortAppend(before, rows);
  }

  lemma KeyedRowUnique(l: Ledger, run: int, key: Option<string>, i: nat)
    requires Progressive(l) && i < |Existing(l.events, run)| && Existing(l.events, run)[i].sourceKey == key
    ensures key in LastBy(KeyOf(), Existing(l.events, run))
         && LastBy(KeyOf(), Existing(l.events, run))[key] == Existing(l.events, run)[i]
  {
    var existing := Existing(l.events, run);
    LastByIs(KeyOf(), existing, key);
    var j :| 0 <= j < |existing| && existing[j].sourceKey == key && LastBy(KeyOf(), existing)[key] == existing[j];
    ExistingMembers(l.events, run);
    assert existing[i] in existing && existing[j] in existing;
    var a :| 0 <= a < |l.events| && l.events[a] == existing[i];
    var b :| 0 <= b < |l.events| && l.events[b] == existing[j];
    assert a == b;
  }

  /** The payload that jsonb gives back does not have the hash that the spec carries. */
  predicate Unstable(s: Service, spec: Spec) {
    s.payloadHash(s.stored(spec.payload)) != spec.hash
  }

  /** A spec whose row was added is known afterwards, if its payload is given back with the same hash. */
  lemma AddedIsKnown(s: Service, l: Ledger, c: Command, pending: seq<Spec>, i: nat)
    requires c.task.thread in l.counters && Progressive(l) && CountersAbove(l) && TaskOwnsRun(l, c)
    requires Progressive(Extended(s, l, c, pending)) && i < |pending|
    ensures Judge(s, Existing(Extended(s, l, c, pending).events, c.run), c.key, pending[i])
         == if Unstable(s, pending[i]) then Conflicting else Known
  {
    var next := Extended(s, l, c, pending);
    var existing := Existing(l.events, c.run);
    ExistingExtended(s, l, c, pending);
    var row := NewRow(s, c, pending[i], i, l.counters[c.task.thread]);
    assert Existing(next.events, c.run)[|existing| + i] == row;
    KeyedRowUnique(next, c.run, row.sourceKey, |existing| + i);
  }

  /** A spec that was known stays known if no row of its type was added. */
  lemma KnownStaysKnown(s: Service, l: Ledger, c: Command, pending: seq<Spec>, spec: Spec)
    requires c.task.thread in l.counters && Progressive(l) && CountersAbove(l) && TaskOwnsRun(l, c)
    requires Judge(s, Existing(l.events, c.run), c.key, spec).Known?
    requires forall i | 0 <= i < |pending| :: pending[i].kind != spec.kind
    ensures Judge(s, Existing(Extended(s, l, c, pending).events, c.run), c.key, spec).Known?
  {
    var existing := Existing(l.events, c.run);
    var rows := NewRows(s, c, pending, l.counters[c.task.thread]);
    ExistingExtended(s, l, c, pending);
    forall i | 0 <= i < |rows|
      ensures KeyOf()(rows[i]) != Some(StableKey(s, c.key, spec.kind)) && KindOf()(rows[i]) != spec.kind
    {
      if StableKey(s, c.key, pending[i].kind) == StableKey(s, c.key, spec.kind) {
        StableKeyInjective(s, c.key, pending[i].kind, spec.kind);
      }
    }
    LastByAppend(KeyOf(), existing, rows, Some(StableKey(s, c.key, spec.kind)));
    LastByAppend(KindOf(), existing, rows, spec.kind);
  }

  lemma {:induction false} NonePending(s: Service, existing: seq<Event>, key: string, specs: seq<Spec>)
    requires forall i | 0 <= i < |specs| :: Judge(s, existing, key, specs[i]).Known?
    ensures PendingSpecs(s, existing, key, specs) == [] && !AnyConflict(s, existing, key, specs)
    decreases |specs|
  {
    if specs != [] {
      NonePending(s, existing, key, specs[..|specs| - 1]);
    }
  }

  /** One spec repeats the latest payload of its type while another spec of that type brings a new one. */
  predicate Mixed(s: Service, existing: seq<Event>, key: string, specs: seq<Spec>) {
    exists k, m | 0 <= k < |specs| && 0 <= m < |specs| ::
      specs[k].kind == specs[m].kind && Judge(s, existing, key, specs[k]).Known? && Judge(s, existing, key, specs[m]).Pending?
  }

  /** The repeated payload of a mixed call conflicts when the call is replayed. */
  lemma MixedConflicts(s: Service, l: Ledger, c: Command, pending: seq<Spec>, i: nat, spec: Spec)
    requires Progressive(l) && CountersAbove(l) && c.task.thread in l.counters && TaskOwnsRun(l, c)
    requires Progressive(Extended(s, l, c, pending)) && i < |pending| && pending[i].kind == spec.kind
    requires Judge(s, Existing(l.events, c.run), c.key, pending[i]).Pending?
    requires Judge(s, Existing(l.events, c.run), c.key, spec).Known?
    ensures Judge(s, Existing(Extended(s, l, c, pending).events, c.run), c.key, spec).Conflicting?
  {
    var next := Extended(s, l, c, pending);
    var existing := Existing(l.events, c.run);
    ExistingExtended(s, l, c, pending);
    var row := NewRow(s, c, pending[i], i, l.counters[c.task.thread]);
    assert Existing(next.events, c.run)[|existing| + i] == row;
    KeyedRowUnique(next, c.run, row.sourceKey, |existing| + i);
  }

  predicate AnyUnstable(s: Service, specs: seq<Spec>) {
    exists i | 0 <= i < |specs| :: Unstable(s, specs[i])
  }

  /**
   Replaying a committed append adds nothing, unless the append was mixed or added a payload that
   jsonb gives back with another hash: then the replay is refused as a changed payload.
   */
  lemma ReplayAddsNothing(s: Service, l: Ledger, c: Command)
    requires Progressive(l) && CountersAbove(l) && Appended(s, l, c).Ok?
    ensures var existing := Existing(l.events, c.run);
      Appended(s, Appended(s, l, c).value, c) ==
        if Mixed(s, existing, c.key, c.specs) || AnyUnstable(s, PendingSpecs(s, existing, c.key, c.specs))
        then Err(PayloadChanged) else Ok(Appended(s, l, c).value)
  {
    var existing := Existing(l.events, c.run);
    var pending := PendingSpecs(s, existing, c.key, c.specs);
    AppendOutcome(s, l, c);
    if Mixed(s, existing, c.key, c.specs) || AnyUnstable(s, pending) {
      ReplayConflicts(s, l, c, pending);
    } else if pending != [] {
      var next := Appended(s, l, c).value;
      forall k | 0 <= k < |c.specs|
        ensures Judge(s, Existing(next.events, c.run), c.key, c.specs[k]).Known?
      {
        ReplayKnown(s, l, c, pending, k);
      }
      NonePending(s, Existing(next.events, c.run), c.key, c.specs);
    }
  }

  lemma ReplayConflicts(s: Service, l: Ledger, c: Command, pending: seq<Spec>)
    requires Progressive(l) && CountersAbove(l)
    requires pending == PendingSpecs(s, Existing(l.events, c.run), c.key, c.specs)
    requires pending != [] ==>
      c.task.thread in l.counters && TaskOwnsRun(l, c) && Progressive(Extended(s, l, c, pending))
    requires Mixed(s, Existing(l.events, c.run), c.key, c.specs) || AnyUnstable(s, pending)
    ensures pending != [] && AnyConflict(s, Existing(Extended(s, l, c, pending).events, c.run), c.key, c.specs)
  {
    var existing := Existing(l.events, c.run);
    PendingMembers(s, existing, c.key, c.specs);
    if AnyUnstable(s, pending) {
      var i :| 0 <= i < |pending| && Unstable(s, pending[i]);
      assert pending[i] in pending;
      AddedIsKnown(s, l, c, pending, i);
      var k :| 0 <= k < |c.specs| && c.specs[k] == pending[i];
    } else {
      var k, m :| 0 <= k < |c.specs| && 0 <= m < |c.specs| && c.specs[k].kind == c.specs[m].kind
        && Judge(s, existing, c.key, c.specs[k]).Known? && Judge(s, existing, c.key, c.specs[m]).Pending?;
      assert c.specs[m] in pending;
      var i :| 0 <= i < |pending| && pending[i] == c.specs[m];
      MixedConflicts(s, l, c, pending, i, c.specs[k]);
    }
  }

  lemma ReplayKnown(s: Service, l: Ledger, c: Command, pending: seq<Spec>, k: nat)
    requires Progressive(l) && CountersAbove(l) && c.task.thread in l.counters && TaskOwnsRun(l, c)
    requires pending == PendingSpecs(s, Existing(l.events, c.run), c.key, c.specs)
    requires !AnyConflict(s, Existing(l.events, c.run), c.key, c.specs)
    requires !Mixed(s, Existing(l.events, c.run), c.key, c.specs) && !AnyUnstable(s, pending)
    requires Progressive(Extended(s, l, c, pending)) && k < |c.specs|
    ensures Judge(s, Existing(Extended(s, l, c, pending).events, c.run), c.key, c.specs[k]).Known?
  {
    var existing := Existing(l.events, c.run);
    PendingMembers(s, existing, c.key, c.specs);
    assert c.specs[k] in c.specs;
    if Judge(s, existing, c.key, c.specs[k]).Pending? {
      var i :| 0 <= i < |pending| && pending[i] == c.specs[k];
      AddedIsKnown(s, l, c, pending, i);
    } else {
      forall i | 0 <= i < |pending|
        ensures pending[i].kind != c.specs[k].kind
      {
        assert pending[i] in pending;
        var m :| 0 <= m < |c.specs| && c.specs[m] == pending[i];
      }
      KnownStaysKnown(s, l, c, pending, c.specs[k]);
    }
  }

  // ----- whole histories -----

  /** A transaction either commits or leaves the tables as they are. */
  function After(s: Service, l: Ledger, c: Command): Ledger {
    if Appended(s, l, c).Ok? then Appended(s, l, c).value else l
  }

  ghost predicate History(s: Service, commands: seq<Command>, ledgers: seq<Ledger>) {
    && |ledgers| == |commands| + 1
    && forall k | 0 <= k < |commands| :: ledgers[k + 1] == After(s, ledgers[k], commands[k])
  }

  /** Nothing old changed, and what is new comes after everything old in its thread. */
  ghost predicate Continues(earlier: Ledger, later: Ledger) {
    && earlier.events <= later.events && earlier.counters.Keys == later.counters.Keys
    && (forall t | t in earlier.counters :: earlier.counters[t] <= later.counters[t])
    && (forall i | |earlier.events| <= i < |later.events| ::
          later.events[i].thread in earlier.counters && later.events[i].sequence >= earlier.counters[later.events[i].thread])
  }

  lemma ExtendedContinues(s: Service, l: Ledger, c: Command, pending: seq<Spec>)
    requires c.task.thread in l.counters
    ensures Continues(l, Extended(s, l, c, pending))
  {
    var next, n := Extended(s, l, c, pending), |l.events|;
    forall k | n <= k < |next.events|
      ensures next.events[k].thread == c.task.thread && next.events[k].sequence >= l.counters[c.task.thread]
    {
      assert next.events[k] == NewRow(s, c, pending[k - n], k - n, l.counters[c.task.thread]);
    }
  }

  lemma AppendContinues(s: Service, l: Ledger, c: Command)
    ensures Continues(l, After(s, l, c))
  {
    if c.task.thread in l.counters {
      ExtendedContinues(s, l, c, PendingSpecs(s, Existing(l.events, c.run), c.key, c.specs));
    }
  }

  lemma ContinuesTransitive(a: Ledger, b: Ledger, c: Ledger)
    requires Continues(a, b) && Continues(b, c)
    ensures Continues(a, c)
  {
    forall i | |a.events| <= i < |c.events|
      ensures c.events[i].thread in a.counters && c.events[i].sequence >= a.counters[c.events[i].thread]
    {
      if i < |b.events| { assert c.events[i] == b.events[i]; }
    }
  }

  ghost predicate StepsContinue(ledgers: seq<Ledger>) {
    forall k | 0 <= k < |ledgers| - 1 :: Continues(ledgers[k], ledgers[k + 1])
  }

  lemma {:induction false} ContinuesFar(ledgers: seq<Ledger>, i: nat, j: nat)
    requires StepsContinue(ledgers) && i <= j < |ledgers|
    ensures Continues(ledgers[i], ledgers[j])
    decreases j
  {
    if i < j {
      ContinuesFar(ledgers, i, j - 1);
      ContinuesTransitive(ledgers[i], ledgers[j - 1], ledgers[j]);
    }
  }

  lemma HistoryContinues(s: Service, commands: seq<Command>, ledgers: seq<Ledger>, i: nat, j: nat)
    requires History(s, commands, ledgers) && i <= j < |ledgers|
    ensures Continues(ledgers[i], ledgers[j])
  {
    forall k | 0 <= k < |commands|
      ensures Continues(ledgers[k], ledgers[k + 1])
    {
      AppendContinues(s, ledgers[k], commands[k]);
    }
    ContinuesFar(ledgers, i, j);
  }

  lemma {:induction false} HistoryKeepsSchema(s: Service, commands: seq<Command>, ledgers: seq<Ledger>, j: nat)
    requires History(s, commands, ledgers) && j < |ledgers| && Progressive(ledgers[0]) && CountersAbove(ledgers[0])
    ensures Progressive(ledgers[j]) && CountersAbove(ledgers[j])
    decreases j
  {
    if j > 0 {
      HistoryKeepsSchema(s, commands, ledgers, j - 1);
      AppendOutcome(s, ledgers[j - 1], commands[j - 1]);
    }
  }

  /**
   From an upgraded ledger on, every history of appends keeps the constraints of 0018, never
   changes an event, and gives each new event a sequence above all that its thread had: a
   reader who has seen a thread up to some sequence misses nothing by asking for what comes after it.
   */
  lemma ResumableHistory(s: Service, origin: Ledger, payloadOf: Event -> Option<string>,
                         commands: seq<Command>, ledgers: seq<Ledger>, i: nat, j: nat)
    requires Legacy(origin) && Upgradable(origin, payloadOf)
    requires History(s, commands, ledgers) && ledgers[0] == Upgraded(origin, payloadOf) && i <= j < |ledgers|
    ensures Progressive(ledgers[j]) && ledgers[i].events <= ledgers[j].events
    ensures forall a, b | 0 <= a < |ledgers[i].events| <= b < |ledgers[j].events| ::
      ledgers[j].events[b].thread == ledgers[i].events[a].thread ==>
        ledgers[j].events[b].sequence > ledgers[i].events[a].sequence
  {
    UpgradeMeetsSchema(origin, payloadOf);
    UpgradeSetsCounters(origin, payloadOf);
    HistoryKeepsSchema(s, commands, ledgers, i);
    HistoryKeepsSchema(s, commands, ledgers, j);
    HistoryContinues(s, commands, ledgers, i, j);
  }

  // ----- a ledger that cannot be upgraded, and appends that are refused -----

  const SAMPLE_SCOPE := Scope(1, 1, 1)
  const SAMPLE_KIND := "run.terminal"

  /** One run, of thread 1, with one event in the given thread. */
  function SampleLedger(thread: int): Ledger {
    Ledger([Event(1, SAMPLE_SCOPE, thread, 1, 1, SAMPLE_KIND, "p", 1, None, None)],
           map[1 := Run(SAMPLE_SCOPE, 1, 1)], {1, 2}, map[])
  }

  function SamplePayload(): Event -> Option<string> {
    (e: Event) => Some("p")
  }

  /** 0017 lets an event lie in another thread than its run; 0018 does not. */
  lemma OtherThreadRefused()
    ensures Legacy(SampleLedger(2)) && !Progressive(Upgraded(SampleLedger(2), SamplePayload()))
  {
    var l := SampleLedger(2);
    UpgradeMeetsSchema(l, SamplePayload());
    assert l.runs[l.events[0].run].thread != l.events[0].thread;
  }

  function PlainService(): Service {
    Service(s => s, s => s, s => s)
  }

  function SampleCommand(specs: seq<Spec>): Command {
    Command(1, Task(SAMPLE_SCOPE, 1, 1), "k", specs, (i: nat) => i + 2)
  }

  /** The ledger of thread 1 after the upgrade. */
  function UpgradedSample(): Ledger {
    Upgraded(SampleLedger(1), SamplePayload())
  }

  lemma SampleIsProgressive()
    ensures Progressive(UpgradedSample()) && CountersAbove(UpgradedSample())
  {
    UpgradeMeetsSchema(SampleLedger(1), SamplePayload());
    UpgradeSetsCounters(SampleLedger(1), SamplePayload());
  }

  function SampleRow(): Event {
    Event(1, SAMPLE_SCOPE, 1, 1, 1, SAMPLE_KIND, "p", 1, Some(LEGACY_PREFIX + SAMPLE_KIND), Some("p"))
  }

  lemma SampleExisting()
    ensures Existing(UpgradedSample().events, 1) == [SampleRow()]
  {
    var events := UpgradedSample().events;
    assert events == [SampleRow()];
    assert events[..0] == [] && OfRun([], 1) == [] && [] + [SampleRow()] == [SampleRow()];
    SortSorted([SampleRow()]);
  }

  /** A spec of the sample's type is known if it repeats the payload, and due if it does not. */
  lemma SampleJudged(payload: string)
    ensures Judge(PlainService(), [SampleRow()], "k", Spec(SAMPLE_KIND, payload, payload))
         == if payload == "p" then Known else Pending
  {
    var rows := [SampleRow()];
    assert rows[..0] == [] && LastBy(KeyOf(), rows[..0]) == map[] && LastBy(KindOf(), rows[..0]) == map[];
    assert LastBy(KeyOf(), rows).Keys == {SampleRow().sourceKey};
    assert LastBy(KindOf(), rows) == map[SAMPLE_KIND := SampleRow()];
    assert StableKey(PlainService(), "k", SAMPLE_KIND)[0] == 'k' && (LEGACY_PREFIX + SAMPLE_KIND)[0] == 'l';
  }

  lemma SamplePending(first: Spec, second: Spec)
    ensures var s, rows := PlainService(), [SampleRow()];
      PendingSpecs(s, rows, "k", [first, second]) ==
        (if Judge(s, rows, "k", first).Pending? then [first] else [])
          + if Judge(s, rows, "k", second).Pending? then [second] else []
  {
    assert [first, second][..1] == [first] && [first][..0] == [];
    assert PendingSpecs(PlainService(), [SampleRow()], "k", []) == [];
  }

  /** Two new payloads of one type in one call violate the unique key on the source key. */
  lemma TwoOfOneTypeRefused()
    ensures Appended(PlainService(), UpgradedSample(),
                     SampleCommand([Spec(SAMPLE_KIND, "q", "q"), Spec(SAMPLE_KIND, "r", "r")])) == Err(ConstraintViolated)
  {
    var s, l := PlainService(), UpgradedSample();
    var first, second := Spec(SAMPLE_KIND, "q", "q"), Spec(SAMPLE_KIND, "r", "r");
    var c := SampleCommand([first, second]);
    SampleIsProgressive();
    SampleExisting();
    SampleJudged("q");
    SampleJudged("r");
    SamplePending(first, second);
    var pending := PendingSpecs(s, [SampleRow()], "k", c.specs);
    assert pending == [first, second];
    assert pending[0].kind == pending[1].kind;
    AppendOutcome(s, l, c);
  }

  lemma SampleCommits(c: Command, second: Spec)
    requires c == SampleCommand([Spec(SAMPLE_KIND, "p", "p"), second]) && second == Spec(SAMPLE_KIND, "q", "q")
    requires PendingSpecs(PlainService(), Existing(UpgradedSample().events, 1), "k", c.specs) == [second]
    requires !AnyConflict(PlainService(), Existing(UpgradedSample().events, 1), "k", c.specs)
    ensures Appended(PlainService(), UpgradedSample(), c).Ok?
  {
    SampleIsProgressive();
    AppendOutcome(PlainService(), UpgradedSample(), c);
  }

  lemma SampleMixed(first: Spec, second: Spec)
    requires first == Spec(SAMPLE_KIND, "p", "p") && second == Spec(SAMPLE_KIND, "q", "q")
    ensures var s, c := PlainService(), SampleCommand([first, second]);
      && Appended(s, UpgradedSample(), c).Ok?
      && Mixed(s, Existing(UpgradedSample().events, c.run), c.key, c.specs)
  {
    var s, l := PlainService(), UpgradedSample();
    var c := SampleCommand([first, second]);
    SampleIsProgressive();
    SampleExisting();
    SampleJudged("p");
    SampleJudged("q");
    SamplePending(first, second);
    assert PendingSpecs(s, [SampleRow()], "k", c.specs) == [second];
    assert c.specs[0].kind == c.specs[1].kind;
    SampleCommits(c, second);
  }

  /** A call that repeats the latest payload beside a new one commits, and cannot be replayed. */
  lemma MixedReplayRefused()
    ensures var s, c := PlainService(), SampleCommand([Spec(SAMPLE_KIND, "p", "p"), Spec(SAMPLE_KIND, "q", "q")]);
      && Appended(s, UpgradedSample(), c).Ok?
      && Appended(s, Appended(s, UpgradedSample(), c).value, c) == Err(PayloadChanged)
  {
    SampleIsProgressive();
    SampleMixed(Spec(SAMPLE_KIND, "p", "p"), Spec(SAMPLE_KIND, "q", "q"));
    ReplayAddsNothing(PlainService(), UpgradedSample(),
                      SampleCommand([Spec(SAMPLE_KIND, "p", "p"), Spec(SAMPLE_KIND, "q", "q")]));
  }

  // ----- the tables in place -----

  method RowsOfRun(events: seq<Event>, run: int) returns (rows: seq<Event>)
    ensures rows == Existing(events, run)
  {
    rows := [];
    for i := 0 to |events|
      invariant rows == OfRun(events[..i], run)
    {
      assert events[..i + 1][..i] == events[..i];
      if events[i].run == run { rows := rows + [events[i]]; }
    }
    assert events[..|events|] == events;
    rows := SortBy(BySequence(), rows);
  }

  method Dictionary<K(==)>(f: Event -> K, rows: seq<Event>) returns (last: map<K, Event>)
    ensures last == LastBy(f, rows)
  {
    last := map[];
    for i := 0 to |rows|
      invariant last == LastBy(f, rows[..i])
    {
      assert rows[..i + 1][..i] == rows[..i];
      last := last[f(rows[i]) := rows[i]];
    }
    assert rows[..|rows|] == rows;
  }

  /** The loop over the specs; None where the source raises a conflict. */
  method SelectPending(s: Service, existing: seq<Event>, key: string, specs: seq<Spec>) returns (r: Option<seq<Spec>>)
    ensures r.None? <==> AnyConflict(s, existing, key, specs)
    ensures r.Some? ==> r.value == PendingSpecs(s, existing, key, specs)
  {
    var byKey := Dictionary(KeyOf(), existing);
    var latestByKind := Dictionary(KindOf(), existing);
    var pending: seq<Spec> := [];
    for i := 0 to |specs|
      invariant forall k | 0 <= k < i :: !Judge(s, existing, key, specs[k]).Conflicting?
      invariant pending == PendingSpecs(s, existing, key, specs[..i])
    {
      assert specs[..i + 1][..i] == specs[..i];
      var spec := specs[i];
      var stable := Some(StableKey(s, key, spec.kind));
      if stable in byKey {
        var exact := byKey[stable];
        if exact.hash != spec.hash || !Intact(s, exact, spec.hash) { return None; }
      } else if spec.kind in latestByKind && latestByKind[spec.kind].hash == spec.hash {
        if !Intact(s, latestByKind[spec.kind], spec.hash) { return None; }
      } else {
        pending := pending + [spec];
      }
    }
    assert specs[..|specs|] == specs;
    return Some(pending);
  }

  method BackfillRows(events: seq<Event>, payloadOf: Event -> Option<string>) returns (rows: seq<Event>)
    ensures rows == BackfilledEvents(events, payloadOf)
  {
    rows := [];
    for i := 0 to |events|
      invariant rows == BackfilledEvents(events[..i], payloadOf)
    {
      rows := rows + [Backfilled(events[i], payloadOf)];
    }
    assert events[..|events|] == events;
  }

  method CountThreads(events: seq<Event>, threads: set<int>) returns (next: map<int, int>)
    ensures next == map t | t in threads :: NextSequence(events, t)
  {
    next := map[];
    var left := threads;
    while left != {}
      invariant left <= threads && next.Keys == threads - left
      invariant forall t | t in next :: next[t] == NextSequence(events, t)
      decreases |left|
    {
      assert exists t :: t in left by { var t := MemberOf(left); }
      var t :| t in left;
      next := next[t := NextSequence(events, t)];
      left := left - {t};
    }
  }

  method BuildRows(s: Service, c: Command, pending: seq<Spec>, first: int) returns (rows: seq<Event>)
    ensures rows == NewRows(s, c, pending, first)
  {
    rows := [];
    var sequence := first;
    for i := 0 to |pending|
      invariant sequence == first + i && rows == NewRows(s, c, pending[..i], first)
    {
      rows := rows + [Event(
        c.newId(i), c.task.scope, c.task.thread, c.task.id, c.run, pending[i].kind, pending[i].hash, sequence,
        Some(StableKey(s, c.key, pending[i].kind)), Some(s.stored(pending[i].payload)))];
      sequence := sequence + 1;
    }
    assert pending[..|pending|] == pending;
  }

  /** The statements of append_event_specs up to the commit. */
  method Transaction(s: Service, l: Ledger, c: Command) returns (r: Result<Ledger, Refusal>)
    ensures r == Appended(s, l, c)
  {
    var existing := RowsOfRun(l.events, c.run);
    var selected := SelectPending(s, existing, c.key, c.specs);
    if selected.None? { return Err(PayloadChanged); }
    var pending := selected.value;
    if pending == [] { return Ok(l); }
    if c.task.thread !in l.counters { return Err(ThreadGone); }
    var next := l.counters[c.task.thread] + |pending|;
    var rows := BuildRows(s, c, pending, next - |pending|);
    var added := l.(events := l.events + rows, counters := l.counters[c.task.thread := next]);
    if Progressive(added) { return Ok(added); }
    return Err(ConstraintViolated);
  }

  class ProductLedger {
    var events: seq<Event>
    var runs: map<int, Run>
    var threads: set<int>
    var counters: map<int, int>

    function Contents(): Ledger
      reads this
    {
      Ledger(events, runs, threads, counters)
    }

    constructor (l: Ledger)
      ensures Contents() == l
    {
      events, runs, threads, counters := l.events, l.runs, l.threads, l.counters;
    }

    /** upgrade: the two updates, then the constraints, all in one transaction. */
    method Upgrade(payloadOf: Event -> Option<string>) returns (ok: bool)
      requires Legacy(Contents())
      modifies this
      ensures ok <==> Upgradable(old(Contents()), payloadOf)
      ensures Contents() == if ok then Upgraded(old(Contents()), payloadOf) else old(Contents())
    {
      var rows := BackfillRows(events, payloadOf);
      var next := CountThreads(events, threads);
      UpgradeMeetsSchema(Contents(), payloadOf);
      ok := Progressive(Ledger(rows, runs, threads, next));
      if ok { events, counters := rows, next; }
    }

    /** downgrade: the DELETE over the rows as they were, and the columns dropped. */
    method Downgrade()
      requires Progressive(Contents())
      modifies this
      ensures Contents() == Downgraded(old(Contents())) && Legacy(Contents())
    {
      DowngradeMeetsSchema(Contents());
      var kept: seq<Event> := [];
      for i := 0 to |events|
        invariant kept == Retained(events[..i], events)
      {
        assert events[..i + 1][..i] == events[..i];
        if !Superseded(events[i], events) { kept := kept + [events[i]]; }
      }
      assert events[..|events|] == events;
      events, counters := Stripped(kept), map[];
    }

    /** append_event_specs: the number of rows added, or the reason why the transaction is rolled back. */
    method Append(s: Service, c: Command) returns (r: Result<nat, Refusal>)
      modifies this
      ensures Contents() == After(s, old(Contents()), c)
      ensures r.Ok? ==> Appended(s, old(Contents()), c).Ok? && |events| == |old(events)| + r.value
      ensures r.Err? ==> Appended(s, old(Contents()), c) == Err(r.error)
      ensures Progressive(old(Contents())) && r.Ok? ==> AppendsDue(s, old(Contents()), c, Contents())
    {
      if Progressive(Contents()) { AppendRows(s, Contents(), c); }
      var outcome := Transaction(s, Contents(), c);
      if outcome.Err? { return Err(outcome.error); }
      AppendContinues(s, Contents(), c);
      var added := |outcome.value.events| - |events|;
      events, counters := outcome.value.events, outcome.value.counters;
      return Ok(added);
    }
  }
}
