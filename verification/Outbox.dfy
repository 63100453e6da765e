/** The generic outbox drain loop: one consumer, one batch, one short transaction per event. */
module Outbox {
  import opened Common

  type Kind = string

  /** An outbox event; its payload is read only by handlers. */
  datatype Event = Event(kind: Kind, payload: string)
  datatype Row = Row(event: Event, processed: bool, attempts: nat)

  /** A consumer's dispatch table: the kinds it has a handler for, and what each does to the consumer's own tables. */
  datatype Handlers<!S> = Handlers(kinds: set<Kind>, run: (Id, Event, S) -> S)

  /**
   * The tables a drain touches: the outbox, the ledger rows of each consumer in commit order, and the
   * tables each consumer's handlers write.
   */
  datatype Db<S> = Db(outbox: map<Id, Row>, ledger: map<Id, seq<Id>>, app: map<Id, S>)

  /** How the environment lets one event's transaction end; `recorded` says whether the attempt could still be noted. */
  datatype Fate = Commits | Aborts(recorded: bool)

  /** The events whose transaction aborts, each with whether the attempt is still recorded. */
  type Faults = map<Id, bool>

  function FateOf(faults: Faults, id: Id): Fate {
    if id in faults then Aborts(faults[id]) else Commits
  }

  datatype Counts = Counts(drained: nat, skippedDuplicate: nat, skippedUnhandled: nat, failed: nat)

  const NONE_YET := Counts(0, 0, 0, 0)

  // ---------- selecting a batch ----------

  function Unprocessed(outbox: map<Id, Row>): set<Id> {
    set id | id in outbox && !outbox[id].processed
  }

  predicate AllUnprocessed(outbox: map<Id, Row>, ids: seq<Id>) {
    forall id :: id in ids ==> id in outbox && !outbox[id].processed
  }

  function Min(a: nat, b: nat): nat {
    if a < b then a else b
  }

  predicate Known(outbox: map<Id, Row>, ids: seq<Id>) {
    forall id :: id in ids ==> id in outbox
  }

  function Batch(outbox: map<Id, Row>, limit: nat): (ids: seq<Id>)
    ensures |ids| == Min(limit, |Unprocessed(outbox)|)
    ensures AllUnprocessed(outbox, ids) && Known(outbox, ids)
  {
    var all := Ascending(Unprocessed(outbox));
    var ids := all[..Min(limit, |all|)];
    assert forall id :: id in ids ==> id in all;
    ids
  }

  /** The batch is in id order, repeats nothing, and skips no older unprocessed event. */
  lemma BatchTakesOldest(outbox: map<Id, Row>, limit: nat)
    ensures NoDuplicates(Batch(outbox, limit))
    ensures forall i, j :: 0 <= i < j < |Batch(outbox, limit)| ==> Batch(outbox, limit)[i] < Batch(outbox, limit)[j]
    ensures forall id :: id in Batch(outbox, limit) ==> id in outbox && !outbox[id].processed
    ensures forall i, id :: 0 <= i < |Batch(outbox, limit)| && id in outbox && !outbox[id].processed && id < Batch(outbox, limit)[i] ==>
              id in Batch(outbox, limit)
    ensures |Batch(outbox, limit)| == Min(limit, |set id | id in outbox && !outbox[id].processed|)
  {
    var waiting := Unprocessed(outbox);
    assert waiting == set id | id in outbox && !outbox[id].processed;
    forall i, id | 0 <= i < |Batch(outbox, limit)| && id in outbox && !outbox[id].processed && id < Batch(outbox, limit)[i]
      ensures id in Batch(outbox, limit)
    {
      PrefixHasTheLeast(waiting, Min(limit, |waiting|), i, id);
    }
  }

  // ---------- one event ----------

  function LedgerOf<S>(db: Db<S>, consumer: Id): seq<Id> {
    if consumer in db.ledger then db.ledger[consumer] else []
  }

  function MarkProcessed(outbox: map<Id, Row>, id: Id): map<Id, Row> {
    if id in outbox then outbox[id := Row(outbox[id].event, true, outbox[id].attempts + 1)] else outbox
  }

  function NoteAttempt(outbox: map<Id, Row>, id: Id): map<Id, Row> {
    if id in outbox then outbox[id := outbox[id].(attempts := outbox[id].attempts + 1)] else outbox
  }

  datatype Delivery<S> = Delivery(db: Db<S>, counts: Counts, threw: bool)

  /** One pass of the loop body. Only the unhandled branch runs outside the `try`, so only it can throw. */
  function Deliver<S>(db: Db<S>, counts: Counts, consumer: Id, handlers: Handlers<S>, id: Id, fate: Fate): Delivery<S>
    requires id in db.outbox && consumer in db.app
  {
    var event := db.outbox[id].event;
    if event.kind !in handlers.kinds then
      if fate.Aborts? then Delivery(db, counts, true)
      else Delivery(db.(outbox := MarkProcessed(db.outbox, id)),
                    counts.(skippedUnhandled := counts.skippedUnhandled + 1), false)
    else if fate.Aborts? then
      Delivery(if fate.recorded then db.(outbox := NoteAttempt(db.outbox, id)) else db,
               counts.(failed := counts.failed + 1), false)
    else if id in LedgerOf(db, consumer) then
      Delivery(db.(outbox := MarkProcessed(db.outbox, id)),
               counts.(skippedDuplicate := counts.skippedDuplicate + 1), false)
    else
      Delivery(Db(MarkProcessed(db.outbox, id),
                  db.ledger[consumer := LedgerOf(db, consumer) + [id]],
                  db.app[consumer := handlers.run(id, event, db.app[consumer])]),
               counts.(drained := counts.drained + 1), false)
  }

  /** The whole loop over one batch; a throw abandons the rest. */
  function DrainBatch<S>(db: Db<S>, counts: Counts, consumer: Id, handlers: Handlers<S>, ids: seq<Id>, faults: Faults): Delivery<S>
    requires Known(db.outbox, ids) && consumer in db.app
    decreases |ids|
  {
    if ids == [] then Delivery(db, counts, false)
    else
      var first := Deliver(db, counts, consumer, handlers, ids[0], FateOf(faults, ids[0]));
      if first.threw then first
      else DrainBatch(first.db, first.counts, consumer, handlers, ids[1..], faults)
  }

  class Database<S> {
    var outbox: map<Id, Row>
    var ledger: map<Id, seq<Id>>
    var app: map<Id, S>

    ghost function Model(): Db<S>
      reads this
    {
      Db(outbox, ledger, app)
    }

    constructor (app: map<Id, S>)
      ensures Model() == Db(map[], map[], app)
    {
      this.outbox, this.ledger, this.app := map[], map[], app;
    }

    method SetProcessed(id: Id)
      modifies this`outbox
      ensures outbox == MarkProcessed(old(outbox), id)
    {
      if id in outbox {
        outbox := outbox[id := Row(outbox[id].event, true, outbox[id].attempts + 1)];
      }
    }

    /**
     * The per-event transaction; on an abort everything it wrote is rolled back. Without a handler the event is
     * only marked, outside the transaction; with one, the ledger decides whether the handler runs.
     */
    method DeliverOne(counts: Counts, consumer: Id, handlers: Handlers<S>, id: Id, fate: Fate)
        returns (next: Counts, threw: bool)
      requires id in outbox && consumer in app
      modifies this
      ensures Delivery(Model(), next, threw) == Deliver(old(Model()), counts, consumer, handlers, id, fate)
      ensures threw <==> old(outbox)[id].event.kind !in handlers.kinds && fate.Aborts?
      ensures threw ==> next == counts && Model() == old(Model())
      ensures old(outbox)[id].event.kind !in handlers.kinds && fate.Commits? ==>
        && next == counts.(skippedUnhandled := counts.skippedUnhandled + 1)
        && outbox == old(outbox)[id := Row(old(outbox)[id].event, true, old(outbox)[id].attempts + 1)]
        && ledger == old(ledger) && app == old(app)
      ensures old(outbox)[id].event.kind in handlers.kinds && fate.Aborts? ==>
        && next == counts.(failed := counts.failed + 1)
        && outbox == (if fate.recorded then old(outbox)[id := old(outbox)[id].(attempts := old(outbox)[id].attempts + 1)] else old(outbox))
        && ledger == old(ledger) && app == old(app)
      ensures old(outbox)[id].event.kind in handlers.kinds && fate.Commits? && consumer in old(ledger) && id in old(ledger)[consumer] ==>
        && next == counts.(skippedDuplicate := counts.skippedDuplicate + 1)
        && outbox == old(outbox)[id := Row(old(outbox)[id].event, true, old(outbox)[id].attempts + 1)]
        && ledger == old(ledger) && app == old(app)
      ensures old(outbox)[id].event.kind in handlers.kinds && fate.Commits? && !(consumer in old(ledger) && id in old(ledger)[consumer]) ==>
        && next == counts.(drained := counts.drained + 1)
        && outbox == old(outbox)[id := Row(old(outbox)[id].event, true, old(outbox)[id].attempts + 1)]
        && ledger == old(ledger)[consumer := (if consumer in old(ledger) then old(ledger)[consumer] else []) + [id]]
        && app == old(app)[consumer := handlers.run(id, old(outbox)[id].event, old(app)[consumer])]
    {
      next, threw := counts, false;
      var event := outbox[id].event;
      if event.kind !in handlers.kinds {
        if fate.Aborts? {
          threw := true;
          return;
        }
        SetProcessed(id);
        next := counts.(skippedUnhandled := counts.skippedUnhandled + 1);
        return;
      }
      var savedOutbox, savedLedger, savedApp := outbox, ledger, app;
      var mine := if consumer in ledger then ledger[consumer] else [];
      var alreadyProcessed := id in mine;
      if !alreadyProcessed {
        ledger := ledger[consumer := mine + [id]];
        app := app[consumer := handlers.run(id, event, app[consumer])];
      }
      SetProcessed(id);
      if fate.Aborts? {
        outbox, ledger, app := savedOutbox, savedLedger, savedApp;
        if fate.recorded {
          outbox := outbox[id := outbox[id].(attempts := outbox[id].attempts + 1)];
        }
        next := counts.(failed := counts.failed + 1);
      } else if alreadyProcessed {
        next := counts.(skippedDuplicate := counts.skippedDuplicate + 1);
      } else {
        next := counts.(drained := counts.drained + 1);
      }
    }

    method DrainOutbox(consumer: Id, handlers: Handlers<S>, limit: nat, faults: Faults)
        returns (result: Counts, threw: bool)
      requires consumer in app
      modifies this
      ensures Delivery(Model(), result, threw)
           == DrainBatch(old(Model()), NONE_YET, consumer, handlers, Batch(old(outbox), limit), faults)
      ensures !threw ==> CountedAs(old(Model()), NONE_YET, consumer, handlers, Batch(old(outbox), limit), faults, result)
    {
      var rows := Batch(outbox, limit);
      result, threw := NONE_YET, false;
      ghost var whole := DrainBatch(Model(), NONE_YET, consumer, handlers, rows, faults);
      assert rows[0..] == rows;
      BatchTakesOldest(outbox, limit);
      if !whole.threw {
        EachCountedOnce(Model(), NONE_YET, consumer, handlers, rows, faults);
      }
      for i := 0 to |rows|
        invariant Known(outbox, rows[i..]) && consumer in app && !threw
        invariant whole == DrainBatch(Model(), result, consumer, handlers, rows[i..], faults)
      {
        UnfoldBatch(Model(), result, consumer, handlers, rows, i, faults);
        result, threw := DeliverOne(result, consumer, handlers, rows[i], FateOf(faults, rows[i]));
        if threw {
          return;
        }
      }
    }
  }

  /** The loop's next pass, and what is left for the passes after it. */
  lemma UnfoldBatch<S>(db: Db<S>, counts: Counts, consumer: Id, handlers: Handlers<S>, rows: seq<Id>, i: nat, faults: Faults)
    requires i < |rows| && Known(db.outbox, rows[i..]) && consumer in db.app
    ensures rows[i] in db.outbox
    ensures var step := Deliver(db, counts, consumer, handlers, rows[i], FateOf(faults, rows[i]));
      && Known(step.db.outbox, rows[i + 1..]) && consumer in step.db.app
      && DrainBatch(db, counts, consumer, handlers, rows[i..], faults)
         == if step.threw then step else DrainBatch(step.db, step.counts, consumer, handlers, rows[i + 1..], faults)
  {
  }

  ghost predicate UnhandledFault<S>(db: Db<S>, handlers: Handlers<S>, ids: seq<Id>, faults: Faults)
    requires Known(db.outbox, ids)
  {
    exists id :: id in ids && id in faults && db.outbox[id].event.kind !in handlers.kinds
  }

  /** A drain rejects after its first query exactly when marking an event it has no handler for fails. */
  lemma {:induction false} ThrowsExactlyWhen<S>(db: Db<S>, counts: Counts, consumer: Id, handlers: Handlers<S>, ids: seq<Id>, faults: Faults)
    requires Known(db.outbox, ids) && consumer in db.app
    ensures DrainBatch(db, counts, consumer, handlers, ids, faults).threw <==> UnhandledFault(db, handlers, ids, faults)
    decreases |ids|
  {
    if ids != [] {
      var first := Deliver(db, counts, consumer, handlers, ids[0], FateOf(faults, ids[0]));
      assert first.threw <==> ids[0] in faults && db.outbox[ids[0]].event.kind !in handlers.kinds;
      if !first.threw {
        ThrowsExactlyWhen(first.db, first.counts, consumer, handlers, ids[1..], faults);
        assert forall id :: id in db.outbox ==> id in first.db.outbox && first.db.outbox[id].event == db.outbox[id].event;
        assert forall id :: id in ids <==> id == ids[0] || id in ids[1..];
      }
    }
  }

  // ---------- what each counter counts, in terms of the tables the batch starts from ----------

  ghost function Unhandled<S>(db: Db<S>, handlers: Handlers<S>, ids: seq<Id>): set<Id>
    requires Known(db.outbox, ids)
  {
    set id | id in ids && db.outbox[id].event.kind !in handlers.kinds
  }

  ghost function Failing<S>(db: Db<S>, handlers: Handlers<S>, ids: seq<Id>, faults: Faults): set<Id>
    requires Known(db.outbox, ids)
  {
    set id | id in ids && db.outbox[id].event.kind in handlers.kinds && id in faults
  }

  ghost function AlreadyDone<S>(db: Db<S>, consumer: Id, handlers: Handlers<S>, ids: seq<Id>, faults: Faults): set<Id>
    requires Known(db.outbox, ids)
  {
    set id | id in ids && db.outbox[id].event.kind in handlers.kinds && id !in faults && id in LedgerOf(db, consumer)
  }

  ghost function NotYetDone<S>(db: Db<S>, consumer: Id, handlers: Handlers<S>, ids: seq<Id>, faults: Faults): set<Id>
    requires Known(db.outbox, ids)
  {
    set id | id in ids && db.outbox[id].event.kind in handlers.kinds && id !in faults && id !in LedgerOf(db, consumer)
  }

  ghost predicate CountedAs<S>(db: Db<S>, before: Counts, consumer: Id, handlers: Handlers<S>, ids: seq<Id>, faults: Faults, after: Counts)
    requires Known(db.outbox, ids)
  {
    && after.skippedUnhandled == before.skippedUnhandled + |Unhandled(db, handlers, ids)|
    && after.failed == before.failed + |Failing(db, handlers, ids, faults)|
    && after.skippedDuplicate == before.skippedDuplicate + |AlreadyDone(db, consumer, handlers, ids, faults)|
    && after.drained == before.drained + |NotYetDone(db, consumer, handlers, ids, faults)|
  }

  /** The first event belongs to one of the four, and delivering it moves none of the others. */
  lemma FirstSplitsOff<S>(db: Db<S>, next: Db<S>, consumer: Id, handlers: Handlers<S>, ids: seq<Id>, faults: Faults)
    requires ids != [] && NoDuplicates(ids) && Known(db.outbox, ids) && Known(next.outbox, ids[1..])
    requires forall x :: x in ids[1..] ==>
      next.outbox[x].event == db.outbox[x].event && (x in LedgerOf(next, consumer) <==> x in LedgerOf(db, consumer))
    ensures ids[0] in ids && ids[0] in db.outbox
    ensures var handled := db.outbox[ids[0]].event.kind in handlers.kinds;
      && |Unhandled(db, handlers, ids)| == |Unhandled(next, handlers, ids[1..])| + (if handled then 0 else 1)
      && |Failing(db, handlers, ids, faults)| == |Failing(next, handlers, ids[1..], faults)| + (if handled && ids[0] in faults then 1 else 0)
      && |AlreadyDone(db, consumer, handlers, ids, faults)| == |AlreadyDone(next, consumer, handlers, ids[1..], faults)|
         + (if handled && ids[0] !in faults && ids[0] in LedgerOf(db, consumer) then 1 else 0)
      && |NotYetDone(db, consumer, handlers, ids, faults)| == |NotYetDone(next, consumer, handlers, ids[1..], faults)|
         + (if handled && ids[0] !in faults && ids[0] !in LedgerOf(db, consumer) then 1 else 0)
  {
    hide LedgerOf;
    var id, rest := ids[0], ids[1..];
    assert id in ids && id !in rest && forall x :: x in ids <==> x == id || x in rest;
    OneMore(Unhandled(db, handlers, ids), Unhandled(next, handlers, rest), id);
    OneMore(Failing(db, handlers, ids, faults), Failing(next, handlers, rest, faults), id);
    OneMore(AlreadyDone(db, consumer, handlers, ids, faults), AlreadyDone(next, consumer, handlers, rest, faults), id);
    OneMore(NotYetDone(db, consumer, handlers, ids, faults), NotYetDone(next, consumer, handlers, rest, faults), id);
  }

  lemma OneMore(s: set<Id>, rest: set<Id>, x: Id)
    requires x !in rest && forall y :: y != x ==> (y in s <==> y in rest)
    ensures |s| == |rest| + if x in s then 1 else 0
  {
    assert s == if x in s then rest + {x} else rest;
  }

  lemma DeliverLeavesOthers<S>(db: Db<S>, counts: Counts, consumer: Id, handlers: Handlers<S>, id: Id, fate: Fate, x: Id)
    requires id in db.outbox && consumer in db.app && x in db.outbox && x != id
    ensures var after := Deliver(db, counts, consumer, handlers, id, fate).db;
      && x in after.outbox && after.outbox[x].event == db.outbox[x].event && consumer in after.app
      && (x in LedgerOf(after, consumer) <==> x in LedgerOf(db, consumer))
  {
  }

  /**
   * Unless it throws, a batch counts each event once and in its own column: no handler, failed, already in the
   * consumer's ledger, or newly handled.
   */
  lemma {:induction false} EachCountedOnce<S>(db: Db<S>, counts: Counts, consumer: Id, handlers: Handlers<S>, ids: seq<Id>, faults: Faults)
    requires NoDuplicates(ids) && Known(db.outbox, ids) && consumer in db.app
    requires !DrainBatch(db, counts, consumer, handlers, ids, faults).threw
    ensures CountedAs(db, counts, consumer, handlers, ids, faults, DrainBatch(db, counts, consumer, handlers, ids, faults).counts)
    decreases |ids|
  {
    hide LedgerOf, MarkProcessed, NoteAttempt;
    if ids != [] {
      var id, rest := ids[0], ids[1..];
      var first := Deliver(db, counts, consumer, handlers, id, FateOf(faults, id));
      assert id !in rest;
      forall x | x in rest
        ensures x in first.db.outbox && first.db.outbox[x].event == db.outbox[x].event && consumer in first.db.app
        ensures x in LedgerOf(first.db, consumer) <==> x in LedgerOf(db, consumer)
      {
        DeliverLeavesOthers(db, counts, consumer, handlers, id, FateOf(faults, id), x);
      }
      EachCountedOnce(first.db, first.counts, consumer, handlers, rest, faults);
      FirstSplitsOff(db, first.db, consumer, handlers, ids, faults);
    }
  }

  // ---------- a drainer running alone ----------

  function Committed(ids: seq<Id>, faults: Faults): set<Id> {
    set id | id in ids && id !in faults
  }

  function Total(n: Counts): nat {
    n.drained + n.skippedDuplicate + n.skippedUnhandled + n.failed
  }

  /** The ids a run adds to the ledger, in order: handled, committed, and not there before. */
  function NewlyHandled<S>(db: Db<S>, consumer: Id, handlers: Handlers<S>, ids: seq<Id>, faults: Faults): seq<Id>
    requires Known(db.outbox, ids)
  {
    if ids == [] then []
    else
      (if db.outbox[ids[0]].event.kind in handlers.kinds && ids[0] !in faults && ids[0] !in LedgerOf(db, consumer) then [ids[0]] else [])
      + NewlyHandled(db, consumer, handlers, ids[1..], faults)
  }

  lemma {:induction false} NewlyHandledStable<S>(a: Db<S>, b: Db<S>, consumer: Id, handlers: Handlers<S>, ids: seq<Id>, faults: Faults)
    requires Known(a.outbox, ids) && Known(b.outbox, ids)
    requires forall id :: id in ids ==> a.outbox[id].event == b.outbox[id].event
    requires forall id :: id in ids ==> (id in LedgerOf(a, consumer) <==> id in LedgerOf(b, consumer))
    ensures NewlyHandled(a, consumer, handlers, ids, faults) == NewlyHandled(b, consumer, handlers, ids, faults)
  {
    if ids != [] {
      NewlyHandledStable(a, b, consumer, handlers, ids[1..], faults);
    }
  }

  /** What the delivery of the events in `gone` leaves of the outbox, and how it was counted. */
  ghost predicate Effect<S>(db: Db<S>, counts: Counts, after: Delivery<S>, taken: nat, gone: set<Id>) {
    && Total(after.counts) == Total(counts) + taken
    && after.counts.failed + |gone| == counts.failed + taken
    && Unprocessed(after.db.outbox) == Unprocessed(db.outbox) - gone
  }

  /** What one pass leaves behind, when it does not throw and the event is still unprocessed. */
  lemma DeliverAlone<S>(db: Db<S>, counts: Counts, consumer: Id, handlers: Handlers<S>, id: Id, fate: Fate)
    requires id in Unprocessed(db.outbox) && consumer in db.app
    requires !Deliver(db, counts, consumer, handlers, id, fate).threw
    ensures var after := Deliver(db, counts, consumer, handlers, id, fate);
      && Effect(db, counts, after, 1, if fate.Commits? then {id} else {})
      && after.db.outbox.Keys == db.outbox.Keys && consumer in after.db.app
      && (forall x :: x in db.outbox && x != id ==> after.db.outbox[x] == db.outbox[x])
      && after.db.outbox[id].event == db.outbox[id].event
  {
  }

  lemma EffectThen<S>(db: Db<S>, counts: Counts, first: Delivery<S>, after: Delivery<S>, taken: nat, gone: set<Id>, goneAfter: set<Id>)
    requires Effect(db, counts, first, 1, gone) && Effect(first.db, first.counts, after, taken, goneAfter)
    requires gone !! goneAfter
    ensures Effect(db, counts, after, taken + 1, gone + goneAfter)
  {
  }

  lemma RestStaysUnprocessed<S>(db: Db<S>, after: Db<S>, ids: seq<Id>)
    requires ids != [] && NoDuplicates(ids) && AllUnprocessed(db.outbox, ids)
    requires after.outbox.Keys == db.outbox.Keys
    requires forall x :: x in db.outbox && x != ids[0] ==> after.outbox[x] == db.outbox[x]
    ensures NoDuplicates(ids[1..]) && AllUnprocessed(after.outbox, ids[1..]) && Known(after.outbox, ids[1..])
    ensures ids[0] in ids && ids[0] !in ids[1..]
  {
  }

  lemma CommittedCons(ids: seq<Id>, faults: Faults)
    requires ids != []
    ensures Committed(ids, faults) == (if ids[0] !in faults then {ids[0]} else {}) + Committed(ids[1..], faults)
  {
  }

  /** Every event is counted once, and exactly the committed ones leave the unprocessed set. */
  lemma {:induction false} BatchCounts<S>(db: Db<S>, counts: Counts, consumer: Id, handlers: Handlers<S>, ids: seq<Id>, faults: Faults)
    requires NoDuplicates(ids) && AllUnprocessed(db.outbox, ids) && Known(db.outbox, ids) && consumer in db.app
    requires !DrainBatch(db, counts, consumer, handlers, ids, faults).threw
    ensures Effect(db, counts, DrainBatch(db, counts, consumer, handlers, ids, faults), |ids|, Committed(ids, faults))
    decreases |ids|
  {
    if ids == [] {
      assert Committed(ids, faults) == {};
    } else {
      var id, rest := ids[0], ids[1..];
      var first := Deliver(db, counts, consumer, handlers, id, FateOf(faults, id));
      DeliverAlone(db, counts, consumer, handlers, id, FateOf(faults, id));
      RestStaysUnprocessed(db, first.db, ids);
      BatchCounts(first.db, first.counts, consumer, handlers, rest, faults);
      var gone := if id !in faults then {id} else {};
      CommittedCons(ids, faults);
      EffectThen(db, counts, first, DrainBatch(first.db, first.counts, consumer, handlers, rest, faults), |rest|,
                 gone, Committed(rest, faults));
    }
  }

  /** A failed event keeps its row but for the attempts; a row outside the batch does not change at all. */
  lemma {:induction false} BatchFrame<S>(db: Db<S>, counts: Counts, consumer: Id, handlers: Handlers<S>, ids: seq<Id>, faults: Faults, x: Id)
    requires NoDuplicates(ids) && AllUnprocessed(db.outbox, ids) && Known(db.outbox, ids) && consumer in db.app
    requires !DrainBatch(db, counts, consumer, handlers, ids, faults).threw
    requires x in db.outbox
    ensures var after := DrainBatch(db, counts, consumer, handlers, ids, faults);
      && x in after.db.outbox && after.db.outbox[x].event == db.outbox[x].event
      && (x !in ids ==> after.db.outbox[x] == db.outbox[x])
      && (x in ids && x in faults ==>
            after.db.outbox[x] == if faults[x] then db.outbox[x].(attempts := db.outbox[x].attempts + 1) else db.outbox[x])
      && (x in ids && x !in faults ==> after.db.outbox[x] == Row(db.outbox[x].event, true, db.outbox[x].attempts + 1))
    decreases |ids|
  {
    if ids != [] {
      var id, rest := ids[0], ids[1..];
      var first := Deliver(db, counts, consumer, handlers, id, FateOf(faults, id));
      DeliverAlone(db, counts, consumer, handlers, id, FateOf(faults, id));
      RestStaysUnprocessed(db, first.db, ids);
      assert x in ids <==> x == id || x in rest;
      BatchFrame(first.db, first.counts, consumer, handlers, rest, faults, x);
    }
  }

  /** The ledger and the consumer's tables grow by exactly the newly handled events, in batch order. */
  lemma {:induction false} BatchLedger<S>(db: Db<S>, counts: Counts, consumer: Id, handlers: Handlers<S>, ids: seq<Id>, faults: Faults)
    requires NoDuplicates(ids) && AllUnprocessed(db.outbox, ids) && Known(db.outbox, ids) && consumer in db.app
    requires !DrainBatch(db, counts, consumer, handlers, ids, faults).threw
    ensures var after := DrainBatch(db, counts, consumer, handlers, ids, faults);
      && LedgerOf(after.db, consumer) == LedgerOf(db, consumer) + NewlyHandled(db, consumer, handlers, ids, faults)
      && after.counts.drained == counts.drained + |NewlyHandled(db, consumer, handlers, ids, faults)|
    decreases |ids|
  {
    if ids != [] {
      var id, rest := ids[0], ids[1..];
      var first := Deliver(db, counts, consumer, handlers, id, FateOf(faults, id));
      DeliverAlone(db, counts, consumer, handlers, id, FateOf(faults, id));
      RestStaysUnprocessed(db, first.db, ids);
      BatchLedger(first.db, first.counts, consumer, handlers, rest, faults);
      LedgerSnoc(db, counts, consumer, handlers, ids, faults);
    }
  }

  lemma LedgerSnoc<S>(db: Db<S>, counts: Counts, consumer: Id, handlers: Handlers<S>, ids: seq<Id>, faults: Faults)
    requires ids != [] && NoDuplicates(ids) && Known(db.outbox, ids) && consumer in db.app
    requires !Deliver(db, counts, consumer, handlers, ids[0], FateOf(faults, ids[0])).threw
    ensures var first := Deliver(db, counts, consumer, handlers, ids[0], FateOf(faults, ids[0]));
      && Known(first.db.outbox, ids[1..])
      && LedgerOf(db, consumer) + NewlyHandled(db, consumer, handlers, ids, faults)
         == LedgerOf(first.db, consumer) + NewlyHandled(first.db, consumer, handlers, ids[1..], faults)
      && first.counts.drained - counts.drained
         == |NewlyHandled(db, consumer, handlers, ids, faults)| - |NewlyHandled(first.db, consumer, handlers, ids[1..], faults)|
  {
    var first := Deliver(db, counts, consumer, handlers, ids[0], FateOf(faults, ids[0]));
    var head := if db.outbox[ids[0]].event.kind in handlers.kinds && ids[0] !in faults && ids[0] !in LedgerOf(db, consumer)
                then [ids[0]] else [];
    assert LedgerOf(first.db, consumer) == LedgerOf(db, consumer) + head;
    var more := NewlyHandled(db, consumer, handlers, ids[1..], faults);
    assert NewlyHandled(db, consumer, handlers, ids, faults) == head + more;
    NewlyHandledStable(db, first.db, consumer, handlers, ids[1..], faults);
    ConcatAssociative(LedgerOf(db, consumer), head, more);
  }

  lemma BatchIsFresh(outbox: map<Id, Row>, limit: nat, faults: Faults)
    ensures NoDuplicates(Batch(outbox, limit)) && Committed(Batch(outbox, limit), faults) <= Unprocessed(outbox)
  {
    BatchTakesOldest(outbox, limit);
  }

  /** A run of `DrainOutbox` that does not throw: the four counters add up to the size of the batch it could take. */
  lemma RunAlone<S>(db: Db<S>, consumer: Id, handlers: Handlers<S>, limit: nat, faults: Faults)
    requires consumer in db.app
    requires !DrainBatch(db, NONE_YET, consumer, handlers, Batch(db.outbox, limit), faults).threw
    ensures var after := DrainBatch(db, NONE_YET, consumer, handlers, Batch(db.outbox, limit), faults);
      && Total(after.counts) == Min(limit, |Unprocessed(db.outbox)|)
      && |Unprocessed(after.db.outbox)| == |Unprocessed(db.outbox)| - (Total(after.counts) - after.counts.failed)
  {
    hide DrainBatch, Batch, NoDuplicates;
    var ids := Batch(db.outbox, limit);
    BatchIsFresh(db.outbox, limit, faults);
    BatchCounts(db, NONE_YET, consumer, handlers, ids, faults);
    EffectCardinality(db, NONE_YET, DrainBatch(db, NONE_YET, consumer, handlers, ids, faults), |ids|, Committed(ids, faults));
  }

  lemma EffectCardinality<S>(db: Db<S>, counts: Counts, after: Delivery<S>, taken: nat, gone: set<Id>)
    requires Effect(db, counts, after, taken, gone) && gone <= Unprocessed(db.outbox)
    ensures |Unprocessed(after.db.outbox)| == |Unprocessed(db.outbox)| - |gone|
  {
  }

  /** One run in which nothing fails. */
  function DrainOnce<S>(db: Db<S>, consumer: Id, handlers: Handlers<S>, limit: nat): (after: Db<S>)
    requires consumer in db.app
    ensures consumer in after.app
  {
    NeverThrows(db, NONE_YET, consumer, handlers, Batch(db.outbox, limit));
    DrainBatch(db, NONE_YET, consumer, handlers, Batch(db.outbox, limit), map[]).db
  }

  function DrainRuns<S>(db: Db<S>, consumer: Id, handlers: Handlers<S>, limit: nat, runs: nat): (after: Db<S>)
    requires consumer in db.app
    ensures consumer in after.app
    decreases runs
  {
    if runs == 0 then db
    else DrainRuns(DrainOnce(db, consumer, handlers, limit), consumer, handlers, limit, runs - 1)
  }

  lemma {:induction false} NeverThrows<S>(db: Db<S>, counts: Counts, consumer: Id, handlers: Handlers<S>, ids: seq<Id>)
    requires Known(db.outbox, ids) && consumer in db.app
    ensures var after := DrainBatch(db, counts, consumer, handlers, ids, map[]);
            !after.threw && consumer in after.db.app && after.counts.failed == counts.failed
    decreases |ids|
  {
    if ids != [] {
      var first := Deliver(db, counts, consumer, handlers, ids[0], Commits);
      NeverThrows(first.db, first.counts, consumer, handlers, ids[1..]);
    }
  }

  function Clamp(n: int): nat {
    if n < 0 then 0 else n
  }

  function Backlog(total: nat, limit: nat, runs: nat): nat {
    if runs == 0 then total
    else Backlog(total - Min(limit, total), limit, runs - 1)
  }

  lemma {:induction false} BacklogIsLinear(total: nat, limit: nat, runs: nat)
    ensures Backlog(total, limit, runs) == Clamp(total - runs * limit)
  {
    if runs > 0 {
      BacklogIsLinear(total - Min(limit, total), limit, runs - 1);
      assert runs * limit == (runs - 1) * limit + limit;
    }
  }

  lemma {:induction false} RunsFollowBacklog<S>(db: Db<S>, consumer: Id, handlers: Handlers<S>, limit: nat, runs: nat)
    requires consumer in db.app
    ensures |Unprocessed(DrainRuns(db, consumer, handlers, limit, runs).outbox)| == Backlog(|Unprocessed(db.outbox)|, limit, runs)
    decreases runs
  {
    if runs > 0 {
      OneRunTakesABatch(db, consumer, handlers, limit);
      RunsFollowBacklog(DrainOnce(db, consumer, handlers, limit), consumer, handlers, limit, runs - 1);
    }
  }

  /** If no handler fails, each run takes a full batch while there is one: n events are gone after ceil(n / limit) runs. */
  lemma RunsEmptyTheOutbox<S>(db: Db<S>, consumer: Id, handlers: Handlers<S>, limit: nat, runs: nat)
    requires consumer in db.app
    ensures |Unprocessed(DrainRuns(db, consumer, handlers, limit, runs).outbox)| == Clamp(|Unprocessed(db.outbox)| - runs * limit)
  {
    RunsFollowBacklog(db, consumer, handlers, limit, runs);
    BacklogIsLinear(|Unprocessed(db.outbox)|, limit, runs);
  }

  lemma OneRunTakesABatch<S>(db: Db<S>, consumer: Id, handlers: Handlers<S>, limit: nat)
    requires consumer in db.app
    ensures var left := |Unprocessed(db.outbox)|;
            |Unprocessed(DrainOnce(db, consumer, handlers, limit).outbox)| == left - Min(limit, left)
  {
    NeverThrows(db, NONE_YET, consumer, handlers, Batch(db.outbox, limit));
    RunAlone(db, consumer, handlers, limit, map[]);
  }
}
