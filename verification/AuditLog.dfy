/** The audit trail: producers append audit events to their own outbox, one worker copies them into the log. */
module AuditLog {
  import opened Common
  import opened Outbox

  datatype ActorType = UserActor | SystemActor | ServiceJob
  datatype ScopeType = ChapterScope | GlobalScope

  /** What a privileged use case records; JSON documents are opaque texts. */
  datatype AuditInput = AuditInput(
    actorId: Option<Id>, actorType: ActorType, action: string, resourceType: string, resourceId: Id,
    scopeType: Option<ScopeType>, scopeId: Option<Id>,
    beforeState: Option<string>, afterState: Option<string>, metadata: Option<string>)

  /** An outbox payload: an audit event carries its input, any other event nothing the worker reads. */
  datatype Payload = Audit(input: AuditInput) | Other(text: string)

  datatype EventRow = EventRow(
    aggregateType: string, aggregateId: Id, eventType: string, payload: Payload, occurredAt: int,
    processed: bool, attempts: nat)

  datatype LogRow = LogRow(
    occurredAt: int, actorId: Option<Id>, actorType: ActorType, action: string, resourceType: string, resourceId: Id,
    scopeType: Option<ScopeType>, scopeId: Option<Id>,
    beforeState: Option<string>, afterState: Option<string>, metadata: string)

  /** The eight bounded-context schemas, in the order the worker visits them. */
  datatype Schema = Identity | Volunteering | Training | Gamification | Community | Moderation | Notifications | Admin

  const SCHEMAS: seq<Schema> := [Identity, Volunteering, Training, Gamification, Community, Moderation, Notifications, Admin]

  const BATCH_SIZE := 100

  type Outboxes = map<Schema, map<Id, EventRow>>

  datatype Store = Store(outboxes: Outboxes, log: map<Id, LogRow>)

  function Coalesce(o: Option<string>, default: string): string {
    match o case Some(v) => v case None => default
  }

  /** The row `recordAuditEvent` appends. */
  function AuditEvent(input: AuditInput, now: int): EventRow {
    EventRow(input.resourceType, input.resourceId, "audit.recorded", Audit(input), now, false, 0)
  }

  /** The row the worker derives from an audit event. */
  function Derived(row: EventRow): LogRow
    requires row.payload.Audit?
  {
    var a := row.payload.input;
    LogRow(row.occurredAt, a.actorId, a.actorType, a.action, a.resourceType, a.resourceId, a.scopeType, a.scopeId,
           a.beforeState, a.afterState, Coalesce(a.metadata, "{}"))
  }

  function Pending(outbox: map<Id, EventRow>): set<Id> {
    set id | id in outbox && !outbox[id].processed && outbox[id].payload.Audit?
  }

  function AuditBatch(outbox: map<Id, EventRow>): (ids: seq<Id>)
    ensures |ids| == Min(BATCH_SIZE, |Pending(outbox)|)
    ensures forall id :: id in ids ==> id in outbox && outbox[id].payload.Audit?
  {
    var all := Ascending(Pending(outbox));
    var ids := all[..Min(BATCH_SIZE, |all|)];
    assert forall id :: id in ids ==> id in all;
    ids
  }

  /** The worker takes the oldest unprocessed audit events, at most a hundred, in id order, and nothing else. */
  lemma AuditBatchTakesOldest(outbox: map<Id, EventRow>)
    ensures var batch := AuditBatch(outbox);
      && (forall i, j :: 0 <= i < j < |batch| ==> batch[i] < batch[j]) && NoDuplicates(batch)
      && (forall id :: id in batch ==> id in outbox && !outbox[id].processed && outbox[id].payload.Audit?)
      && (forall i, id :: 0 <= i < |batch| && id in outbox && !outbox[id].processed && outbox[id].payload.Audit? && id < batch[i] ==>
            id in batch)
      && |batch| == Min(100, |set id | id in outbox && !outbox[id].processed && outbox[id].payload.Audit?|)
  {
    hide Ascending;
    var waiting, batch := Pending(outbox), AuditBatch(outbox);
    assert batch == Ascending(waiting)[..Min(BATCH_SIZE, |waiting|)];
    assert waiting == set id | id in outbox && !outbox[id].processed && outbox[id].payload.Audit?;
    forall id | id in batch ensures id in waiting {
      assert id in Ascending(waiting);
    }
    forall i, id | 0 <= i < |batch| && id in waiting && id < batch[i] ensures id in batch {
      PrefixHasTheLeast(waiting, Min(BATCH_SIZE, |waiting|), i, id);
    }
  }

  function Marked(row: EventRow): EventRow {
    row.(processed := true, attempts := row.attempts + 1)
  }

  function Retried(row: EventRow, recorded: bool): EventRow {
    if recorded then row.(attempts := row.attempts + 1) else row
  }

  function PutRow(outboxes: Outboxes, schema: Schema, id: Id, row: EventRow): (r: Outboxes)
    requires schema in outboxes
    ensures r.Keys == outboxes.Keys && r[schema] == outboxes[schema][id := row]
    ensures forall x :: x in outboxes && x != schema ==> r[x] == outboxes[x]
  {
    var updated: map<Id, EventRow> := outboxes[schema][id := row];
    outboxes[schema := updated]
  }

  /** One event's transaction: copy unless already there, then mark the source row. */
  function Copy(s: Store, schema: Schema, id: Id, fate: Fate): Store
    requires schema in s.outboxes && id in s.outboxes[schema] && s.outboxes[schema][id].payload.Audit?
  {
    var row := s.outboxes[schema][id];
    match fate
    case Aborts(recorded) => s.(outboxes := PutRow(s.outboxes, schema, id, Retried(row, recorded)))
    case Commits =>
      Store(PutRow(s.outboxes, schema, id, Marked(row)), if id in s.log then s.log else s.log[id := Derived(row)])
  }

  function CopyAll(s: Store, schema: Schema, ids: seq<Id>, faults: Faults): Store
    requires AllAudit(s, schema, ids)
    decreases |ids|
  {
    if ids == [] then s
    else
      assert ids[0] in ids;
      CopyAll(Copy(s, schema, ids[0], FateOf(faults, ids[0])), schema, ids[1..], faults)
  }

  /** How many of these transactions commit. */
  function CommitCount(ids: seq<Id>, faults: Faults): nat
    decreases |ids|
  {
    if ids == [] then 0 else (if ids[0] in faults then 0 else 1) + CommitCount(ids[1..], faults)
  }

  predicate AllAudit(s: Store, schema: Schema, ids: seq<Id>) {
    schema in s.outboxes && forall id :: id in ids ==> id in s.outboxes[schema] && s.outboxes[schema][id].payload.Audit?
  }

  lemma UnfoldCopy(s: Store, schema: Schema, ids: seq<Id>, i: nat, faults: Faults)
    requires i < |ids| && AllAudit(s, schema, ids[i..])
    ensures ids[i] in s.outboxes[schema] && s.outboxes[schema][ids[i]].payload.Audit?
    ensures var next := Copy(s, schema, ids[i], FateOf(faults, ids[i]));
      && AllAudit(next, schema, ids[i + 1..]) && next.outboxes.Keys == s.outboxes.Keys
      && CopyAll(s, schema, ids[i..], faults) == CopyAll(next, schema, ids[i + 1..], faults)
    ensures CommitCount(ids[i..], faults) == (if ids[i] in faults then 0 else 1) + CommitCount(ids[i + 1..], faults)
  {
    hide Copy, PutRow;
    assert ids[i..][0] == ids[i] && ids[i..][1..] == ids[i + 1..];
    assert ids[i] in ids[i..];
    forall id | id in ids[i + 1..] ensures id in ids[i..] {
    }
    CopyKeepsAudit(s, schema, ids[i], FateOf(faults, ids[i]), ids[i + 1..]);
  }

  lemma CopyKeepsAudit(s: Store, schema: Schema, id: Id, fate: Fate, ids: seq<Id>)
    requires AllAudit(s, schema, [id] + ids)
    ensures id in s.outboxes[schema] && s.outboxes[schema][id].payload.Audit?
    ensures AllAudit(Copy(s, schema, id, fate), schema, ids) && Copy(s, schema, id, fate).outboxes.Keys == s.outboxes.Keys
  {
    hide Derived;
    assert id in [id] + ids;
    forall x | x in ids ensures x in [id] + ids {
    }
  }

  lemma {:induction false} CopyAllKeepsSchemas(s: Store, schema: Schema, ids: seq<Id>, faults: Faults)
    requires AllAudit(s, schema, ids)
    ensures CopyAll(s, schema, ids, faults).outboxes.Keys == s.outboxes.Keys
    decreases |ids|
  {
    if ids != [] {
      assert ids[0] in ids;
      CopyAllKeepsSchemas(Copy(s, schema, ids[0], FateOf(faults, ids[0])), schema, ids[1..], faults);
    }
  }

  predicate AllPresent(outboxes: Outboxes, schemas: seq<Schema>) {
    forall schema :: schema in schemas ==> schema in outboxes
  }

  /** One whole run: every schema in turn, each with the batch its outbox shows by then. */
  function CopySchemas(s: Store, schemas: seq<Schema>, faults: Faults): Store
    requires AllPresent(s.outboxes, schemas)
    decreases |schemas|
  {
    if schemas == [] then s
    else
      var batch := AuditBatch(s.outboxes[schemas[0]]);
      CopyAllKeepsSchemas(s, schemas[0], batch, faults);
      CopySchemas(CopyAll(s, schemas[0], batch, faults), schemas[1..], faults)
  }

  /** How many rows one whole run drains. */
  function DrainedTotal(s: Store, schemas: seq<Schema>, faults: Faults): nat
    requires AllPresent(s.outboxes, schemas)
    decreases |schemas|
  {
    if schemas == [] then 0
    else
      var batch := AuditBatch(s.outboxes[schemas[0]]);
      CopyAllKeepsSchemas(s, schemas[0], batch, faults);
      CommitCount(batch, faults) + DrainedTotal(CopyAll(s, schemas[0], batch, faults), schemas[1..], faults)
  }

  // ---------- what a drain leaves waiting ----------

  /** What one transaction changes: its own row, and the log on a commit. */
  lemma CopyTouchesOne(s: Store, schema: Schema, id: Id, fate: Fate, x: Schema)
    requires schema in s.outboxes && id in s.outboxes[schema] && s.outboxes[schema][id].payload.Audit? && x in s.outboxes
    ensures var row, after := s.outboxes[schema][id], Copy(s, schema, id, fate);
      && x in after.outboxes && (x != schema ==> after.outboxes[x] == s.outboxes[x])
      && schema in after.outboxes
      && after.outboxes[schema] == s.outboxes[schema][id :=
           if fate.Commits? then row.(processed := true, attempts := row.attempts + 1)
           else if fate.recorded then row.(attempts := row.attempts + 1) else row]
      && s.log.Keys <= after.log.Keys && (fate.Commits? ==> id in after.log)
  {
    hide Derived, PutRow;
  }

  lemma {:induction false} CopyAllKeeps(s: Store, schema: Schema, ids: seq<Id>, faults: Faults, x: Schema)
    requires AllAudit(s, schema, ids) && x in s.outboxes
    ensures var after := CopyAll(s, schema, ids, faults);
      && x in after.outboxes && after.outboxes[x].Keys == s.outboxes[x].Keys && s.log.Keys <= after.log.Keys
      && (x != schema ==> after.outboxes[x] == s.outboxes[x])
    decreases |ids|
  {
    hide Copy;
    if ids != [] {
      assert ids == [ids[0]] + ids[1..];
      CopyKeepsAudit(s, schema, ids[0], FateOf(faults, ids[0]), ids[1..]);
      CopyTouchesOne(s, schema, ids[0], FateOf(faults, ids[0]), x);
      CopyAllKeeps(Copy(s, schema, ids[0], FateOf(faults, ids[0])), schema, ids[1..], faults, x);
    }
  }

  /** One row of the drained outbox: untouched outside the batch, marked and logged on a commit, retried on an abort. */
  lemma {:induction false} CopyAllRow(s: Store, schema: Schema, ids: seq<Id>, faults: Faults, id: Id)
    requires AllAudit(s, schema, ids) && NoDuplicates(ids) && id in s.outboxes[schema]
    ensures var before, after := s.outboxes[schema][id], CopyAll(s, schema, ids, faults);
      && schema in after.outboxes && id in after.outboxes[schema]
      && (id !in ids ==> after.outboxes[schema][id] == before)
      && (id in ids && id !in faults ==>
            after.outboxes[schema][id] == before.(processed := true, attempts := before.attempts + 1) && id in after.log)
      && (id in ids && id in faults ==>
            after.outboxes[schema][id] == if faults[id] then before.(attempts := before.attempts + 1) else before)
    decreases |ids|
  {
    hide Copy;
    if ids != [] {
      var head, rest := ids[0], ids[1..];
      assert ids == [head] + rest && head !in rest;
      CopyKeepsAudit(s, schema, head, FateOf(faults, head), rest);
      CopyTouchesOne(s, schema, head, FateOf(faults, head), schema);
      var next := Copy(s, schema, head, FateOf(faults, head));
      CopyAllRow(next, schema, rest, faults, id);
      if id == head {
        CopyAllKeeps(next, schema, rest, faults, schema);
      }
    }
  }

  /** A drain takes exactly its committed ids out of the waiting events, and each of them is logged. */
  lemma CopyAllDrains(s: Store, schema: Schema, ids: seq<Id>, faults: Faults)
    requires AllAudit(s, schema, ids) && NoDuplicates(ids) && forall id :: id in ids ==> id in Pending(s.outboxes[schema])
    ensures var after := CopyAll(s, schema, ids, faults);
      && schema in after.outboxes && Pending(after.outboxes[schema]) == Pending(s.outboxes[schema]) - Committed(ids, faults)
      && Committed(ids, faults) <= after.log.Keys
  {
    hide CopyAll;
    var after := CopyAll(s, schema, ids, faults);
    CopyAllKeeps(s, schema, ids, faults, schema);
    forall id | id in s.outboxes[schema]
      ensures id in Pending(after.outboxes[schema]) <==> id in Pending(s.outboxes[schema]) && id !in Committed(ids, faults)
      ensures id in Committed(ids, faults) ==> id in after.log
    {
      CopyAllRow(s, schema, ids, faults, id);
    }
  }

  lemma BatchIsPending(outbox: map<Id, EventRow>)
    ensures NoDuplicates(AuditBatch(outbox)) && forall id :: id in AuditBatch(outbox) ==> id in Pending(outbox)
    ensures |Committed(AuditBatch(outbox), map[])| == |AuditBatch(outbox)| == Min(100, |Pending(outbox)|)
    ensures Committed(AuditBatch(outbox), map[]) <= Pending(outbox)
  {
    hide AuditBatch;
    AuditBatchTakesOldest(outbox);
    DistinctCount(AuditBatch(outbox));
    assert Committed(AuditBatch(outbox), map[]) == Elements(AuditBatch(outbox));
  }

  lemma {:induction false} CommitsAreCounted(ids: seq<Id>, faults: Faults)
    requires NoDuplicates(ids)
    ensures CommitCount(ids, faults) == |Committed(ids, faults)|
    decreases |ids|
  {
    if ids != [] {
      CommitsAreCounted(ids[1..], faults);
      OneMore(Committed(ids, faults), Committed(ids[1..], faults), ids[0]);
    }
  }

  /** The events that stopped waiting are those the drain counts. */
  lemma DrainCounts(s: Store, schema: Schema, faults: Faults)
    requires schema in s.outboxes
    ensures var batch := AuditBatch(s.outboxes[schema]);
      && schema in CopyAll(s, schema, batch, faults).outboxes
      && |Pending(CopyAll(s, schema, batch, faults).outboxes[schema])| + CommitCount(batch, faults) == |Pending(s.outboxes[schema])|
  {
    hide CopyAll, AuditBatch, Pending;
    var batch := AuditBatch(s.outboxes[schema]);
    BatchIsPending(s.outboxes[schema]);
    CopyAllDrains(s, schema, batch, faults);
    CommitsAreCounted(batch, faults);
    assert Committed(batch, faults) <= Pending(s.outboxes[schema]);
    assert |Pending(s.outboxes[schema]) - Committed(batch, faults)| == |Pending(s.outboxes[schema])| - |Committed(batch, faults)|;
  }

  lemma SchemaDrains(s: Store, first: Schema, faults: Faults, x: Schema)
    requires first in s.outboxes && x in s.outboxes
    ensures var done, next := Committed(AuditBatch(s.outboxes[first]), faults), CopyAll(s, first, AuditBatch(s.outboxes[first]), faults);
      && next.outboxes.Keys == s.outboxes.Keys && s.log.Keys <= next.log.Keys && done <= next.log.Keys
      && Pending(next.outboxes[first]) == Pending(s.outboxes[first]) - done
      && (x != first ==> next.outboxes[x] == s.outboxes[x])
  {
    hide CopyAll, AuditBatch, Pending, Committed, NoDuplicates;
    var batch := AuditBatch(s.outboxes[first]);
    BatchIsPending(s.outboxes[first]);
    CopyAllKeepsSchemas(s, first, batch, faults);
    CopyAllKeeps(s, first, batch, faults, x);
    CopyAllDrains(s, first, batch, faults);
  }

  /** Schema by schema, a run takes the committed part of each batch out of what waited there, and logs it. */
  lemma {:induction false} RunDrains(s: Store, schemas: seq<Schema>, faults: Faults, x: Schema)
    requires AllPresent(s.outboxes, schemas) && NoDuplicates(schemas) && x in s.outboxes
    ensures var after := CopySchemas(s, schemas, faults);
      var done := if x in schemas then Committed(AuditBatch(s.outboxes[x]), faults) else {};
      && x in after.outboxes && Pending(after.outboxes[x]) == Pending(s.outboxes[x]) - done
      && done <= after.log.Keys && s.log.Keys <= after.log.Keys
    decreases |schemas|
  {
    hide CopyAll, AuditBatch, Pending, Committed;
    if schemas != [] {
      var first, rest := schemas[0], schemas[1..];
      assert first !in rest && (x in schemas <==> x == first || x in rest);
      SchemaDrains(s, first, faults, x);
      RunDrains(CopyAll(s, first, AuditBatch(s.outboxes[first]), faults), rest, faults, x);
    }
  }

  /** The audit events an outbox still owes the log. */
  ghost function Owed(outbox: map<Id, EventRow>): set<Id> {
    set id | id in outbox && !outbox[id].processed && outbox[id].payload.Audit?
  }

  lemma PendingIsOwed(outbox: map<Id, EventRow>)
    ensures Pending(outbox) == Owed(outbox)
  {
  }

  /** A hundred of the oldest unprocessed audit events, or all there are, have been marked and logged. */
  ghost predicate Progressed(before: map<Id, EventRow>, after: map<Id, EventRow>, log: map<Id, LogRow>) {
    var waiting, left := Owed(before), Owed(after);
    && left <= waiting && |left| == |waiting| - Min(100, |waiting|)
    && (forall id :: id in waiting - left ==> id in log)
    && (forall id, other :: id in waiting - left && other in left ==> id < other)
  }

  lemma RestIsYounger(outbox: map<Id, EventRow>, id: Id, other: Id)
    requires id in Committed(AuditBatch(outbox), map[]) && other in Pending(outbox) - Committed(AuditBatch(outbox), map[])
    ensures id < other
  {
    hide AuditBatch;
    AuditBatchTakesOldest(outbox);
    var i :| 0 <= i < |AuditBatch(outbox)| && AuditBatch(outbox)[i] == id;
    assert other !in AuditBatch(outbox);
  }

  /** A run without faults makes this progress in each of the eight schemas. */
  lemma EveryRunMakesProgress(s: Store, x: Schema)
    requires AllPresent(s.outboxes, SCHEMAS) && x in s.outboxes
    ensures var after := CopySchemas(s, SCHEMAS, map[]);
      x in after.outboxes && Progressed(s.outboxes[x], after.outboxes[x], after.log)
  {
    hide CopySchemas, AuditBatch, Committed, NoDuplicates, Pending, Owed;
    var after, done := CopySchemas(s, SCHEMAS, map[]), Committed(AuditBatch(s.outboxes[x]), map[]);
    EverySchemaOnce(x);
    RunDrains(s, SCHEMAS, map[], x);
    BatchIsPending(s.outboxes[x]);
    var waiting, left := Pending(s.outboxes[x]), Pending(after.outboxes[x]);
    PendingIsOwed(s.outboxes[x]);
    PendingIsOwed(after.outboxes[x]);
    assert left == waiting - done && waiting - left == done && |left| == |waiting| - |done|;
    forall id, other | id in done && other in left ensures id < other {
      RestIsYounger(s.outboxes[x], id, other);
    }
  }

  ghost function OwedTotal(outboxes: Outboxes, schemas: seq<Schema>): nat
    requires AllPresent(outboxes, schemas)
  {
    if schemas == [] then 0 else |Owed(outboxes[schemas[0]])| + OwedTotal(outboxes, schemas[1..])
  }

  lemma {:induction false} SameOwed(a: Outboxes, b: Outboxes, schemas: seq<Schema>)
    requires AllPresent(a, schemas) && AllPresent(b, schemas)
    requires forall x :: x in schemas ==> Owed(a[x]) == Owed(b[x])
    ensures OwedTotal(a, schemas) == OwedTotal(b, schemas)
    decreases |schemas|
  {
    hide Owed;
    if schemas != [] {
      SameOwed(a, b, schemas[1..]);
    }
  }

  /** The total a run reports is what all the outboxes together no longer owe. */
  lemma {:induction false} RunCounts(s: Store, schemas: seq<Schema>, faults: Faults)
    requires AllPresent(s.outboxes, schemas) && NoDuplicates(schemas)
    ensures var after := CopySchemas(s, schemas, faults).outboxes;
      && AllPresent(after, schemas)
      && DrainedTotal(s, schemas, faults) + OwedTotal(after, schemas) == OwedTotal(s.outboxes, schemas)
    decreases |schemas|
  {
    hide CopyAll, AuditBatch, Pending, Owed;
    if schemas != [] {
      var first, rest := schemas[0], schemas[1..];
      assert first !in rest;
      var next := CopyAll(s, first, AuditBatch(s.outboxes[first]), faults);
      SchemaDrains(s, first, faults, first);
      RunCounts(next, rest, faults);
      RunDrains(next, rest, faults, first);
      DrainCounts(s, first, faults);
      var after := CopySchemas(next, rest, faults).outboxes;
      PendingIsOwed(s.outboxes[first]);
      PendingIsOwed(next.outboxes[first]);
      PendingIsOwed(after[first]);
      forall x | x in rest ensures Owed(next.outboxes[x]) == Owed(s.outboxes[x]) {
        SchemaDrains(s, first, faults, x);
      }
      SameOwed(next.outboxes, s.outboxes, rest);
    }
  }

  lemma EverySchemaOnce(x: Schema)
    ensures x in SCHEMAS && NoDuplicates(SCHEMAS)
  {
    assert SCHEMAS[0] == Identity && SCHEMAS[1] == Volunteering && SCHEMAS[2] == Training && SCHEMAS[3] == Gamification
      && SCHEMAS[4] == Community && SCHEMAS[5] == Moderation && SCHEMAS[6] == Notifications && SCHEMAS[7] == Admin;
  }

  class AuditStore {
    var outboxes: Outboxes
    var log: map<Id, LogRow>

    ghost function Model(): Store
      reads this
    {
      Store(outboxes, log)
    }

    constructor ()
      ensures forall s :: s in SCHEMAS ==> s in outboxes && outboxes[s] == map[]
      ensures log == map[] && Inv(Model())
    {
      outboxes := map s | s in SCHEMAS :: map[];
      log := map[];
    }

    method RecordAuditEvent(schema: Schema, id: Id, input: AuditInput, now: int)
      requires schema in outboxes && id !in outboxes[schema]
      modifies this`outboxes
      ensures outboxes == PutRow(old(outboxes), schema, id, AuditEvent(input, now))
      ensures outboxes.Keys == old(outboxes).Keys && (forall x :: x in outboxes && x != schema ==> outboxes[x] == old(outboxes)[x])
      ensures outboxes[schema] == old(outboxes)[schema][id :=
                EventRow(input.resourceType, input.resourceId, "audit.recorded", Audit(input), now, false, 0)]
    {
      var row := EventRow(input.resourceType, input.resourceId, "audit.recorded", Audit(input), now, false, 0);
      outboxes := PutRow(outboxes, schema, id, row);
    }

    method CopyOne(schema: Schema, id: Id, fate: Fate)
      requires schema in outboxes && id in outboxes[schema] && outboxes[schema][id].payload.Audit?
      modifies this
      ensures Model() == Copy(old(Model()), schema, id, fate)
      ensures outboxes.Keys == old(outboxes).Keys && (forall x :: x in outboxes && x != schema ==> outboxes[x] == old(outboxes)[x])
      ensures var row := old(outboxes)[schema][id];
        && outboxes[schema] == old(outboxes)[schema][id :=
             if fate.Commits? then row.(processed := true, attempts := row.attempts + 1)
             else if fate.recorded then row.(attempts := row.attempts + 1) else row]
        && log == if fate.Aborts? || id in old(log) then old(log) else old(log)[id := Derived(row)]
    {
      hide Derived, PutRow;
      var savedOutboxes, savedLog := outboxes, log;
      var row := outboxes[schema][id];
      if id !in log {
        log := log[id := Derived(row)];
      }
      outboxes := PutRow(outboxes, schema, id, Marked(row));
      if fate.Aborts? {
        outboxes, log := savedOutboxes, savedLog;
        outboxes := PutRow(outboxes, schema, id, Retried(row, fate.recorded));
      }
    }

    /** `drainSchema`. The branch for rows the audit filter let through untagged cannot be taken. */
    method DrainSchema(schema: Schema, faults: Faults) returns (drained: nat)
      requires schema in outboxes
      modifies this
      ensures Model() == CopyAll(old(Model()), schema, AuditBatch(old(outboxes)[schema]), faults)
      ensures drained == CommitCount(AuditBatch(old(outboxes)[schema]), faults)
      ensures outboxes.Keys == old(outboxes).Keys
      ensures drained + |Owed(outboxes[schema])| == |Owed(old(outboxes)[schema])|
    {
      DrainCounts(Model(), schema, faults);
      PendingIsOwed(outboxes[schema]);
      drained := CopyRows(schema, AuditBatch(outboxes[schema]), faults);
      PendingIsOwed(outboxes[schema]);
    }

    method CopyRows(schema: Schema, rows: seq<Id>, faults: Faults) returns (drained: nat)
      requires AllAudit(Model(), schema, rows)
      modifies this
      ensures Model() == CopyAll(old(Model()), schema, rows, faults)
      ensures drained == CommitCount(rows, faults)
      ensures outboxes.Keys == old(outboxes).Keys
    {
      drained := 0;
      assert rows[0..] == rows;
      for i := 0 to |rows|
        invariant outboxes.Keys == old(outboxes).Keys && AllAudit(Model(), schema, rows[i..])
        invariant CopyAll(old(Model()), schema, rows, faults) == CopyAll(Model(), schema, rows[i..], faults)
        invariant drained + CommitCount(rows[i..], faults) == CommitCount(rows, faults)
      {
        UnfoldCopy(Model(), schema, rows, i, faults);
        CopyOne(schema, rows[i], FateOf(faults, rows[i]));
        if rows[i] !in faults {
          drained := drained + 1;
        }
      }
    }

    /** One run of the worker: drain every bounded context's outbox. */
    method AuditLogWriter(faults: Faults) returns (totalDrained: nat)
      requires AllPresent(outboxes, SCHEMAS)
      modifies this
      ensures Model() == CopySchemas(old(Model()), SCHEMAS, faults)
      ensures totalDrained == DrainedTotal(old(Model()), SCHEMAS, faults)
      ensures AllPresent(outboxes, SCHEMAS) && totalDrained + OwedTotal(outboxes, SCHEMAS) == OwedTotal(old(outboxes), SCHEMAS)
      ensures faults == map[] ==> forall x :: x in old(outboxes) ==> x in outboxes && Progressed(old(outboxes)[x], outboxes[x], log)
    {
      ghost var before := Model();
      if faults == map[] {
        forall x | x in outboxes ensures x in CopySchemas(before, SCHEMAS, faults).outboxes
                   && Progressed(before.outboxes[x], CopySchemas(before, SCHEMAS, faults).outboxes[x], CopySchemas(before, SCHEMAS, faults).log)
        {
          EveryRunMakesProgress(before, x);
        }
      }
      EverySchemaOnce(Identity);
      RunCounts(before, SCHEMAS, faults);
      totalDrained := DrainSchemas(SCHEMAS, faults);
    }

    method DrainSchemas(schemas: seq<Schema>, faults: Faults) returns (totalDrained: nat)
      requires AllPresent(outboxes, schemas)
      modifies this
      ensures Model() == CopySchemas(old(Model()), schemas, faults)
      ensures totalDrained == DrainedTotal(old(Model()), schemas, faults)
    {
      totalDrained := 0;
      assert schemas[0..] == schemas;
      for i := 0 to |schemas|
        invariant outboxes.Keys == old(outboxes).Keys && AllPresent(outboxes, schemas[i..])
        invariant CopySchemas(old(Model()), schemas, faults) == CopySchemas(Model(), schemas[i..], faults)
        invariant DrainedTotal(old(Model()), schemas, faults) == totalDrained + DrainedTotal(Model(), schemas[i..], faults)
      {
        assert schemas[i..][0] == schemas[i] && schemas[i..][1..] == schemas[i + 1..];
        var drained := DrainSchema(schemas[i], faults);
        totalDrained := totalDrained + drained;
      }
    }
  }

  // ---------- every run ----------

  datatype Step =
    | Record(schema: Schema, id: Id, input: AuditInput, now: int)
    | Emit(schema: Schema, id: Id, row: EventRow)      // any other domain event
    | CopyNext(schema: Schema, id: Id, fate: Fate)     // one transaction of some run of the worker, fresh or stale
    | Reset(schema: Schema, id: Id)                    // someone clears `processed_at`

  /** Event ids are ULIDs: unique across all eight outboxes. */
  predicate FreshId(s: Store, id: Id) {
    forall schema :: schema in s.outboxes ==> id !in s.outboxes[schema]
  }

  predicate Enabled(s: Store, step: Step) {
    && step.schema in s.outboxes
    && match step
       case Record(_, id, _, _) => FreshId(s, id)
       case Emit(_, id, row) => FreshId(s, id) && row.payload.Other? && !row.processed
       case CopyNext(schema, id, _) => id in s.outboxes[schema] && s.outboxes[schema][id].payload.Audit?
       case Reset(schema, id) => id in s.outboxes[schema]
  }

  function Next(s: Store, step: Step): Store
    requires Enabled(s, step)
  {
    match step
    case Record(schema, id, input, now) =>
      s.(outboxes := PutRow(s.outboxes, schema, id, AuditEvent(input, now)))
    case Emit(schema, id, row) => s.(outboxes := PutRow(s.outboxes, schema, id, row))
    case CopyNext(schema, id, fate) => Copy(s, schema, id, fate)
    case Reset(schema, id) =>
      s.(outboxes := PutRow(s.outboxes, schema, id, s.outboxes[schema][id].(processed := false)))
  }

  predicate IsAuditEvent(s: Store, schema: Schema, id: Id) {
    schema in s.outboxes && id in s.outboxes[schema] && s.outboxes[schema][id].payload.Audit?
  }

  /** Some outbox holds this audit event. */
  ghost predicate Recorded(s: Store, id: Id) {
    exists schema :: IsAuditEvent(s, schema, id)
  }

  ghost predicate RowIsDerived(s: Store, id: Id)
    requires id in s.log
  {
    exists schema :: IsAuditEvent(s, schema, id) && s.log[id] == Derived(s.outboxes[schema][id])
  }

  /** An id names one event. */
  ghost predicate IdsAreUnique(s: Store) {
    forall a, b, id :: a in s.outboxes && b in s.outboxes && id in s.outboxes[a] && id in s.outboxes[b] ==> a == b
  }

  /** Every audit event marked processed has its log row. */
  ghost predicate ProcessedIsLogged(s: Store) {
    forall schema, id :: IsAuditEvent(s, schema, id) && s.outboxes[schema][id].processed ==> id in s.log
  }

  ghost predicate Inv(s: Store) {
    IdsAreUnique(s) && ProcessedIsLogged(s) && forall id :: id in s.log ==> RowIsDerived(s, id)
  }

  /** Only the bookkeeping columns of an event may change. */
  predicate SameEvent(a: EventRow, b: EventRow) {
    a.(processed := false, attempts := 0) == b.(processed := false, attempts := 0)
  }

  ghost predicate Grows(a: Store, b: Store) {
    && a.outboxes.Keys == b.outboxes.Keys
    && (forall schema, id :: schema in a.outboxes && id in a.outboxes[schema] ==>
          id in b.outboxes[schema] && SameEvent(a.outboxes[schema][id], b.outboxes[schema][id]))
    && (forall id :: id in a.log ==> id in b.log && b.log[id] == a.log[id])
  }

  lemma StepGrows(s: Store, step: Step)
    requires Enabled(s, step)
    ensures Grows(s, Next(s, step))
  {
    hide PutRow;
  }

  lemma LogStaysDerived(s: Store, next: Store, id: Id)
    requires Grows(s, next) && id in s.log && RowIsDerived(s, id)
    ensures RowIsDerived(next, id)
  {
  }

  /** Where the ids of the outboxes are after a row is put: as before, but for the one put there. */
  lemma PutMovesNoId(outboxes: Outboxes, schema: Schema, id: Id, row: EventRow, x: Schema)
    requires schema in outboxes && x in outboxes
    ensures PutRow(outboxes, schema, id, row).Keys == outboxes.Keys
    ensures PutRow(outboxes, schema, id, row)[x].Keys == outboxes[x].Keys + if x == schema then {id} else {}
  {
  }

  lemma StepPutsOneRow(s: Store, step: Step) returns (row: EventRow)
    requires Enabled(s, step)
    ensures step.schema in s.outboxes && Next(s, step).outboxes == PutRow(s.outboxes, step.schema, step.id, row)
    ensures step.CopyNext? || step.Reset? ==> step.id in s.outboxes[step.schema]
    ensures step.Record? || step.Emit? ==> FreshId(s, step.id)
  {
    hide PutRow;
    match step
    case Record(_, _, input, now) => row := AuditEvent(input, now);
    case Emit(_, _, emitted) => row := emitted;
    case CopyNext(schema, id, fate) =>
      row := if fate.Aborts? then Retried(s.outboxes[schema][id], fate.recorded) else Marked(s.outboxes[schema][id]);
    case Reset(schema, id) => row := s.outboxes[schema][id].(processed := false);
  }

  lemma StepKeepsIds(s: Store, step: Step)
    requires IdsAreUnique(s) && Enabled(s, step)
    ensures IdsAreUnique(Next(s, step))
  {
    hide PutRow, Next, Enabled;
    var next := Next(s, step);
    var row := StepPutsOneRow(s, step);
    PutMovesNoId(s.outboxes, step.schema, step.id, row, step.schema);
    forall x | x in s.outboxes ensures x in next.outboxes && next.outboxes[x].Keys == s.outboxes[x].Keys + if x == step.schema then {step.id} else {} {
      PutMovesNoId(s.outboxes, step.schema, step.id, row, x);
    }
    assert next.outboxes.Keys == s.outboxes.Keys;
    forall a, b, id | a in next.outboxes && b in next.outboxes && id in next.outboxes[a].Keys && id in next.outboxes[b].Keys ensures a == b {
    }
  }

  lemma StepKeepsLogged(s: Store, step: Step)
    requires ProcessedIsLogged(s) && Enabled(s, step)
    ensures ProcessedIsLogged(Next(s, step))
  {
    var next := Next(s, step);
    StepGrows(s, step);
    forall schema, id | IsAuditEvent(next, schema, id) && next.outboxes[schema][id].processed ensures id in next.log {
      if schema != step.schema || id != step.id {
        assert next.outboxes[schema][id] == s.outboxes[schema][id];
        assert IsAuditEvent(s, schema, id);
      } else if !step.Record? && !step.Emit? {
        assert IsAuditEvent(s, schema, id);
      }
    }
  }

  lemma StepKeepsDerived(s: Store, step: Step, id: Id)
    requires Enabled(s, step) && id in Next(s, step).log && (id in s.log ==> RowIsDerived(s, id))
    ensures RowIsDerived(Next(s, step), id)
  {
    StepGrows(s, step);
    if id in s.log {
      LogStaysDerived(s, Next(s, step), id);
    } else {
      assert IsAuditEvent(Next(s, step), step.schema, id);
    }
  }

  lemma StepKeepsInv(s: Store, step: Step)
    requires Inv(s) && Enabled(s, step)
    ensures Inv(Next(s, step))
  {
    StepKeepsIds(s, step);
    StepKeepsLogged(s, step);
    forall id | id in Next(s, step).log ensures RowIsDerived(Next(s, step), id) {
      StepKeepsDerived(s, step, id);
    }
  }

  function Run(s: Store, steps: seq<Step>): Store
    requires AllEnabled(s, steps)
    decreases |steps|
  {
    if steps == [] then s else Run(Next(s, steps[0]), steps[1..])
  }

  predicate AllEnabled(s: Store, steps: seq<Step>)
    decreases |steps|
  {
    steps != [] ==> Enabled(s, steps[0]) && AllEnabled(Next(s, steps[0]), steps[1..])
  }

  lemma GrowsTransitive(a: Store, b: Store, c: Store)
    requires Grows(a, b) && Grows(b, c)
    ensures Grows(a, c)
  {
  }

  /** Over any interleaving of producers, worker transactions and resets, the log only grows and never lies. */
  lemma {:induction false} RunKeepsInv(s: Store, steps: seq<Step>)
    requires Inv(s) && AllEnabled(s, steps)
    ensures Inv(Run(s, steps)) && Grows(s, Run(s, steps))
    decreases |steps|
  {
    if steps != [] {
      StepKeepsInv(s, steps[0]);
      StepGrows(s, steps[0]);
      RunKeepsInv(Next(s, steps[0]), steps[1..]);
      GrowsTransitive(s, Next(s, steps[0]), Run(s, steps));
    }
  }

  /** Once every audit event is marked processed, the log holds exactly one row per recorded audit event. */
  lemma QuiescentLogIsComplete(s: Store, steps: seq<Step>)
    requires Inv(s) && AllEnabled(s, steps)
    requires forall schema, id :: IsAuditEvent(Run(s, steps), schema, id) ==> Run(s, steps).outboxes[schema][id].processed
    ensures var end := Run(s, steps);
      && (forall id :: id in end.log <==> Recorded(end, id))
      && forall schema, id :: IsAuditEvent(end, schema, id) ==> end.log[id] == Derived(end.outboxes[schema][id])
  {
    var end := Run(s, steps);
    RunKeepsInv(s, steps);
    forall schema, id | IsAuditEvent(end, schema, id) ensures end.log[id] == Derived(end.outboxes[schema][id]) {
      assert RowIsDerived(end, id);
    }
    forall id ensures id in end.log <==> Recorded(end, id) {
      if id in end.log {
        assert RowIsDerived(end, id);
      }
    }
  }

  /** What a use case recorded is what the log ends up saying, whenever the worker gets to it. */
  lemma RecordedIsLogged(s: Store, schema: Schema, id: Id, input: AuditInput, now: int, steps: seq<Step>)
    requires Inv(s) && Enabled(s, Record(schema, id, input, now))
    requires AllEnabled(Next(s, Record(schema, id, input, now)), steps)
    requires var end := Run(Next(s, Record(schema, id, input, now)), steps); id in end.log
    ensures var row := Run(Next(s, Record(schema, id, input, now)), steps).log[id];
      row == LogRow(now, input.actorId, input.actorType, input.action, input.resourceType, input.resourceId,
                    input.scopeType, input.scopeId, input.beforeState, input.afterState, Coalesce(input.metadata, "{}"))
  {
    var step := Record(schema, id, input, now);
    var after := Next(s, step);
    StepKeepsInv(s, step);
    RunKeepsInv(after, steps);
    var end := Run(after, steps);
    assert RowIsDerived(end, id);
    assert SameEvent(after.outboxes[schema][id], end.outboxes[schema][id]);
    assert IsAuditEvent(end, schema, id);
  }

  /** A whole `drainSchema` run is a sequence of such steps, so everything above covers it. */
  lemma {:induction false} DrainIsASequenceOfSteps(s: Store, schema: Schema, ids: seq<Id>, faults: Faults) returns (steps: seq<Step>)
    requires AllAudit(s, schema, ids)
    ensures AllEnabled(s, steps) && Run(s, steps) == CopyAll(s, schema, ids, faults)
    decreases |ids|
  {
    if ids == [] {
      steps := [];
    } else {
      var first := CopyNext(schema, ids[0], FateOf(faults, ids[0]));
      assert ids[0] in ids;
      var rest := DrainIsASequenceOfSteps(Next(s, first), schema, ids[1..], faults);
      steps := [first] + rest;
      assert steps[1..] == rest;
    }
  }
}
