/**
 The provenance rewrite of backend/alembic/versions/0019_ddgs_provenance.py on the ledger of domain
 events: it changes payloads and leaves the hashes that were stored with them, which
 backend/src/crypto_alert_v2/projections/domain_events.py compares when a call is replayed.
 */
module CorrectedEvents {
  import opened Wrappers
  import opened Sorting
  import opened ProgressiveEvents
  import Provenance

  /** The document that a stored payload is, and the stored form of a document. */
  datatype Jsonb = Jsonb(read: string -> Provenance.Json, write: Provenance.Json -> string)

  /** A document is read as it was stored. */
  ghost predicate LawfulJsonb(j: Jsonb) {
    forall doc :: j.read(j.write(doc)) == doc
  }

  function Rewritten(doc: Provenance.Json): Provenance.Json {
    Provenance.Rewrite(doc, Provenance.LEGACY_PROVIDER, Provenance.DDGS_PROVIDER)
  }

  /** The payload after the migration, which leaves a document without a stale label as it is. */
  function Corrected(j: Jsonb, payload: string): string {
    if Rewritten(j.read(payload)) == j.read(payload) then payload else j.write(Rewritten(j.read(payload)))
  }

  function CorrectedEvent(j: Jsonb, e: Event): Event {
    if e.payload.None? then e else e.(payload := Some(Corrected(j, e.payload.value)))
  }

  function CorrectedAll(j: Jsonb, events: seq<Event>): seq<Event> {
    seq(|events|, i requires 0 <= i < |events| => CorrectedEvent(j, events[i]))
  }

  function CorrectedLedger(j: Jsonb, l: Ledger): Ledger {
    l.(events := CorrectedAll(j, l.events))
  }

  predicate StalePayload(j: Jsonb, payload: string) {
    Provenance.Labelled(j.read(payload), Provenance.LEGACY_PROVIDER)
  }

  predicate Stale(j: Jsonb, e: Event) {
    e.payload.Some? && StalePayload(j, e.payload.value)
  }

  /** The hash tells a payload with a stale label from its correction. */
  ghost predicate TellsApart(s: Service, j: Jsonb) {
    forall p: string | StalePayload(j, p) :: s.payloadHash(Corrected(j, p)) != s.payloadHash(p)
  }

  // ----- the column -----

  /** An id is its text. */
  ghost predicate TellsIds(text: int -> string) {
    forall a, b :: text(a) == text(b) ==> a == b
  }

  ghost function PayloadColumn(j: Jsonb, text: int -> string, events: seq<Event>): Provenance.Column
    requires IdsUnique(events) && TellsIds(text)
  {
    map i | 0 <= i < |events| :: text(events[i].id) :=
      if events[i].payload.None? then None else Some(j.read(events[i].payload.value))
  }

  lemma ColumnAt(j: Jsonb, text: int -> string, events: seq<Event>, i: nat)
    requires IdsUnique(events) && TellsIds(text) && i < |events|
    ensures text(events[i].id) in PayloadColumn(j, text, events)
    ensures PayloadColumn(j, text, events)[text(events[i].id)]
         == if events[i].payload.None? then None else Some(j.read(events[i].payload.value))
  {
  }

  lemma PayloadCorrected(j: Jsonb, payload: string)
    requires LawfulJsonb(j)
    ensures j.read(Corrected(j, payload)) == Rewritten(j.read(payload))
  {
  }

  lemma ColumnCorrectedAt(j: Jsonb, text: int -> string, events: seq<Event>, next: seq<Event>, i: nat)
    requires IdsUnique(events) && IdsUnique(next) && TellsIds(text) && LawfulJsonb(j)
    requires i < |events| == |next| && next[i] == CorrectedEvent(j, events[i])
    ensures var id, before, after := text(events[i].id), PayloadColumn(j, text, events), PayloadColumn(j, text, next);
      && id in before && id in after
      && after[id] == if before[id].None? then None else Some(Rewritten(before[id].value))
  {
    ColumnAt(j, text, events, i);
    ColumnAt(j, text, next, i);
    if events[i].payload.Some? { PayloadCorrected(j, events[i].payload.value); }
  }

  lemma ColumnsAgree(before: Provenance.Column, after: Provenance.Column)
    requires before.Keys == after.Keys
    requires forall id | id in before :: after[id] == if before[id].None? then None else Some(Rewritten(before[id].value))
    ensures after == Provenance.RewriteColumn(before, Provenance.LEGACY_PROVIDER, Provenance.DDGS_PROVIDER)
  {
  }

  lemma ColumnKeys(j: Jsonb, text: int -> string, events: seq<Event>, next: seq<Event>)
    requires IdsUnique(events) && IdsUnique(next) && TellsIds(text)
    requires |events| == |next| && forall i | 0 <= i < |events| :: next[i].id == events[i].id
    ensures PayloadColumn(j, text, events).Keys == PayloadColumn(j, text, next).Keys
  {
  }

  /** The ledger is corrected as the migration rewrites the column of its payloads. */
  lemma CorrectedColumn(j: Jsonb, text: int -> string, events: seq<Event>)
    requires IdsUnique(events) && TellsIds(text) && LawfulJsonb(j)
    ensures IdsUnique(CorrectedAll(j, events))
    ensures PayloadColumn(j, text, CorrectedAll(j, events))
         == Provenance.RewriteColumn(PayloadColumn(j, text, events), Provenance.LEGACY_PROVIDER, Provenance.DDGS_PROVIDER)
  {
    var next := CorrectedAll(j, events);
    assert forall i | 0 <= i < |events| :: next[i].id == events[i].id;
    var before, after := PayloadColumn(j, text, events), PayloadColumn(j, text, next);
    ColumnKeys(j, text, events, next);
    forall id | id in before
      ensures after[id] == if before[id].None? then None else Some(Rewritten(before[id].value))
    {
      var i :| 0 <= i < |events| && text(events[i].id) == id;
      ColumnCorrectedAt(j, text, events, next, i);
    }
    ColumnsAgree(before, after);
  }

  // ----- what the service makes of a corrected row -----

  /** A payload that has its hash keeps it through the migration exactly when it has no stale label. */
  lemma IntactUnlessStale(s: Service, j: Jsonb, e: Event, hash: string)
    requires TellsApart(s, j) && Intact(s, e, hash)
    ensures Intact(s, CorrectedEvent(j, e), hash) <==> !Stale(j, e)
  {
    Provenance.ProvidersArePlain();
    Provenance.ChangesExactlyLabelled(j.read(e.payload.value), Provenance.LEGACY_PROVIDER, Provenance.DDGS_PROVIDER);
  }

  lemma CorrectedTail(j: Jsonb, events: seq<Event>)
    requires events != []
    ensures CorrectedAll(j, events) == [CorrectedEvent(j, events[0])] + CorrectedAll(j, events[1..])
    ensures CorrectedAll(j, events)[1..] == CorrectedAll(j, events[1..])
  {
  }

  lemma {:induction false} InsertCorrected(j: Jsonb, e: Event, events: seq<Event>)
    ensures Insert(BySequence(), CorrectedEvent(j, e), CorrectedAll(j, events))
         == CorrectedAll(j, Insert(BySequence(), e, events))
    decreases |events|
  {
    CorrectedTail(j, Insert(BySequence(), e, events));
    if events != [] {
      InsertCorrected(j, e, events[1..]);
      CorrectedTail(j, events);
    }
  }

  lemma {:induction false} SortCorrected(j: Jsonb, events: seq<Event>)
    ensures SortBy(BySequence(), CorrectedAll(j, events)) == CorrectedAll(j, SortBy(BySequence(), events))
    decreases |events|
  {
    if events == [] {
      assert CorrectedAll(j, events) == [];
    } else {
      SortCorrected(j, events[1..]);
      CorrectedTail(j, events);
      InsertCorrected(j, events[0], SortBy(BySequence(), events[1..]));
    }
  }

  lemma {:induction false} OfRunCorrected(j: Jsonb, events: seq<Event>, run: int)
    ensures OfRun(CorrectedAll(j, events), run) == CorrectedAll(j, OfRun(events, run))
    decreases |events|
  {
    if events != [] {
      var front := events[..|events| - 1];
      OfRunCorrected(j, front, run);
      assert CorrectedAll(j, events)[..|events| - 1] == CorrectedAll(j, front);
    }
  }

  lemma ExistingCorrected(j: Jsonb, events: seq<Event>, run: int)
    ensures Existing(CorrectedAll(j, events), run) == CorrectedAll(j, Existing(events, run))
  {
    OfRunCorrected(j, events, run);
    SortCorrected(j, OfRun(events, run));
  }

  lemma {:induction false} LastByCorrected<K>(j: Jsonb, f: Event -> K, rows: seq<Event>, k: K)
    requires forall e :: f(CorrectedEvent(j, e)) == f(e)
    ensures k in LastBy(f, CorrectedAll(j, rows)) <==> k in LastBy(f, rows)
    ensures k in LastBy(f, rows) ==> LastBy(f, CorrectedAll(j, rows))[k] == CorrectedEvent(j, LastBy(f, rows)[k])
    decreases |rows|
  {
    if rows != [] {
      var front := rows[..|rows| - 1];
      LastByCorrected(j, f, front, k);
      assert CorrectedAll(j, rows)[..|rows| - 1] == CorrectedAll(j, front);
    }
  }

  /** The row that the service compares a spec with, if there is one. */
  function RowFor(s: Service, existing: seq<Event>, key: string, spec: Spec): Option<Event> {
    var byKey, byKind := LastBy(KeyOf(), existing), LastBy(KindOf(), existing);
    var stable := Some(StableKey(s, key, spec.kind));
    if stable in byKey then Some(byKey[stable])
    else if spec.kind in byKind && byKind[spec.kind].hash == spec.hash then Some(byKind[spec.kind])
    else None
  }

  lemma RowForCorrected(s: Service, j: Jsonb, existing: seq<Event>, key: string, spec: Spec)
    ensures var row, next := RowFor(s, existing, key, spec), RowFor(s, CorrectedAll(j, existing), key, spec);
      next == if row.None? then None else Some(CorrectedEvent(j, row.value))
  {
    LastByCorrected(j, KeyOf(), existing, Some(StableKey(s, key, spec.kind)));
    LastByCorrected(j, KindOf(), existing, spec.kind);
  }

  lemma JudgedByRow(s: Service, existing: seq<Event>, key: string, spec: Spec)
    ensures var row := RowFor(s, existing, key, spec);
      Judge(s, existing, key, spec) ==
        if row.None? then Pending
        else if row.value.hash == spec.hash && Intact(s, row.value, spec.hash) then Known else Conflicting
  {
  }

  /** A known spec becomes a conflict exactly when its row has a stale label. */
  lemma KnownUnlessStale(s: Service, j: Jsonb, existing: seq<Event>, key: string, spec: Spec)
    requires TellsApart(s, j) && Judge(s, existing, key, spec).Known?
    ensures RowFor(s, existing, key, spec).Some?
    ensures Judge(s, CorrectedAll(j, existing), key, spec)
         == if Stale(j, RowFor(s, existing, key, spec).value) then Conflicting else Known
  {
    JudgedByRow(s, existing, key, spec);
    JudgedByRow(s, CorrectedAll(j, existing), key, spec);
    RowForCorrected(s, j, existing, key, spec);
    IntactUnlessStale(s, j, RowFor(s, existing, key, spec).value, spec.hash);
  }

  // ----- replays across the migration -----

  /** One of the specs is compared with a row that has a stale label. */
  predicate AnyStale(s: Service, j: Jsonb, existing: seq<Event>, key: string, specs: seq<Spec>) {
    exists k | 0 <= k < |specs| ::
      RowFor(s, existing, key, specs[k]).Some? && Stale(j, RowFor(s, existing, key, specs[k]).value)
  }

  lemma RowsAdded(s: Service, l: Ledger, c: Command, pending: seq<Spec>)
    requires c.task.thread in l.counters && pending != []
    ensures Extended(s, l, c, pending) != l
  {
    assert |Extended(s, l, c, pending).events| > |l.events|;
  }

  lemma AddsNothingKnown(s: Service, l: Ledger, c: Command)
    requires Appended(s, l, c) == Ok(l)
    ensures forall k | 0 <= k < |c.specs| :: Judge(s, Existing(l.events, c.run), c.key, c.specs[k]).Known?
  {
    var existing := Existing(l.events, c.run);
    var pending := PendingSpecs(s, existing, c.key, c.specs);
    PendingMembers(s, existing, c.key, c.specs);
    if c.task.thread in l.counters && pending != [] { RowsAdded(s, l, c, pending); }
    forall k | 0 <= k < |c.specs|
      ensures Judge(s, existing, c.key, c.specs[k]).Known?
    {
      assert c.specs[k] in c.specs;
    }
  }

  /**
   A call that adds nothing, such as a replay, adds nothing after the migration either, unless one
   of its specs is compared with a row that had a stale label: then it is refused as a changed payload.
   */
  lemma ReplayAfterCorrection(s: Service, j: Jsonb, l: Ledger, c: Command)
    requires TellsApart(s, j) && Appended(s, l, c) == Ok(l)
    ensures Appended(s, CorrectedLedger(j, l), c) ==
      if AnyStale(s, j, Existing(l.events, c.run), c.key, c.specs) then Err(PayloadChanged) else Ok(CorrectedLedger(j, l))
  {
    var existing := Existing(l.events, c.run);
    var corrected := CorrectedAll(j, existing);
    AddsNothingKnown(s, l, c);
    ExistingCorrected(j, l.events, c.run);
    forall k | 0 <= k < |c.specs|
      ensures RowFor(s, existing, c.key, c.specs[k]).Some?
      ensures Judge(s, corrected, c.key, c.specs[k])
           == if Stale(j, RowFor(s, existing, c.key, c.specs[k]).value) then Conflicting else Known
    {
      KnownUnlessStale(s, j, existing, c.key, c.specs[k]);
    }
    if !AnyStale(s, j, existing, c.key, c.specs) { NonePending(s, corrected, c.key, c.specs); }
  }

  /** In particular for the replay, after the migration, of a call that was committed before it. */
  lemma CommittedThenCorrected(s: Service, j: Jsonb, l: Ledger, c: Command)
    requires TellsApart(s, j) && Progressive(l) && CountersAbove(l) && Appended(s, l, c).Ok?
    requires var existing := Existing(l.events, c.run);
      !Mixed(s, existing, c.key, c.specs) && !AnyUnstable(s, PendingSpecs(s, existing, c.key, c.specs))
    ensures var next := Appended(s, l, c).value;
      Appended(s, CorrectedLedger(j, next), c) ==
        if AnyStale(s, j, Existing(next.events, c.run), c.key, c.specs) then Err(PayloadChanged)
        else Ok(CorrectedLedger(j, next))
  {
    ReplayAddsNothing(s, l, c);
    ReplayAfterCorrection(s, j, Appended(s, l, c).value, c);
  }

  /** The migration itself breaks no constraint. */
  lemma CorrectionMeetsSchema(j: Jsonb, l: Ledger)
    requires Progressive(l) && CountersAbove(l)
    ensures Progressive(CorrectedLedger(j, l)) && CountersAbove(CorrectedLedger(j, l))
  {
    var events := CorrectedAll(j, l.events);
    forall i | 0 <= i < |events|
      ensures events[i].(payload := None) == l.events[i].(payload := None) && events[i].payload.Some?
    {
    }
  }

  // ----- a replay that is refused -----

  /** The payload "p" names the legacy provider; corrected it is stored as "q". */
  function SampleJsonb(): Jsonb {
    Jsonb(t => Provenance.JObj(map["provider" :=
            Provenance.JStr(if t == "p" then Provenance.LEGACY_PROVIDER else Provenance.DDGS_PROVIDER)]),
          _ => "q")
  }

  lemma SampleStale(payload: string)
    ensures StalePayload(SampleJsonb(), payload) <==> payload == "p"
    ensures payload == "p" ==> Corrected(SampleJsonb(), payload) == "q"
  {
    var doc := SampleJsonb().read(payload);
    Provenance.ProvidersArePlain();
    Provenance.ChangesExactlyLabelled(doc, Provenance.LEGACY_PROVIDER, Provenance.DDGS_PROVIDER);
    assert doc.entries.Keys == {"provider"};
  }

  lemma SampleTellsApart()
    ensures TellsApart(PlainService(), SampleJsonb())
  {
    forall p: string | StalePayload(SampleJsonb(), p)
      ensures PlainService().payloadHash(Corrected(SampleJsonb(), p)) != PlainService().payloadHash(p)
    {
      SampleStale(p);
    }
  }

  /** A call that repeats the stored payload adds nothing, and is refused after the migration. */
  lemma CorrectedReplayRefused()
    ensures var s, l, c := PlainService(), UpgradedSample(), SampleCommand([Spec(SAMPLE_KIND, "p", "p")]);
      Appended(s, l, c) == Ok(l) && Appended(s, CorrectedLedger(SampleJsonb(), l), c) == Err(PayloadChanged)
  {
    var s, l, spec := PlainService(), UpgradedSample(), Spec(SAMPLE_KIND, "p", "p");
    var c := SampleCommand([spec]);
    SampleExisting();
    SampleJudged("p");
    NonePending(s, [SampleRow()], "k", c.specs);
    assert Appended(s, l, c) == Ok(l);
    SampleTellsApart();
    ReplayAfterCorrection(s, SampleJsonb(), l, c);
    KnownUnlessStale(s, SampleJsonb(), [SampleRow()], "k", spec);
    SampleRowStale(spec);
  }

  lemma SampleRowStale(spec: Spec)
    requires spec == Spec(SAMPLE_KIND, "p", "p")
    ensures AnyStale(PlainService(), SampleJsonb(), [SampleRow()], "k", [spec])
  {
    var row := RowFor(PlainService(), [SampleRow()], "k", spec);
    SampleJudged("p");
    JudgedByRow(PlainService(), [SampleRow()], "k", spec);
    SampleStale("p");
    assert row == Some(SampleRow()) by {
      assert [SampleRow()][..0] == [];
      assert LastBy(KindOf(), [SampleRow()]) == map[SAMPLE_KIND := SampleRow()];
      assert LastBy(KeyOf(), [SampleRow()]).Keys == {SampleRow().sourceKey};
      assert StableKey(PlainService(), "k", SAMPLE_KIND)[0] == 'k' && (LEGACY_PREFIX + SAMPLE_KIND)[0] == 'l';
    }
    assert [spec][0] == spec && Stale(SampleJsonb(), SampleRow());
  }
}
