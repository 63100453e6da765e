/**
 * Any number of drainers over one outbox, each working through a batch it selected earlier, with
 * aborting transactions, crashes, and outside resets of `processed_at` in between.
 */
module OutboxProtocol {
  import opened Common
  import opened Outbox

  datatype Drainer = Drainer(consumer: Id, batch: seq<Id>)

  /** The consumers: what each handles and the tables each starts from. */
  datatype Config<!S> = Config(handlers: map<Id, Handlers<S>>, initial: map<Id, S>)

  datatype System<S> = System(db: Db<S>, drainers: map<Id, Drainer>)

  datatype Step =
    | Append(id: Id, event: Event)              // a producer commits a new event
    | Poll(drainer: Id, consumer: Id, limit: nat) // a drainer selects its next batch
    | DeliverNext(drainer: Id, fate: Fate)      // one transaction of a drainer, on its possibly stale batch
    | Crash(drainer: Id)
    | Reset(id: Id)                             // someone clears `processed_at`

  ghost predicate WellFormedConfig<S>(cfg: Config<S>) {
    cfg.handlers.Keys == cfg.initial.Keys
  }

  function Start<S>(cfg: Config<S>): System<S> {
    System(Db(map[], map[], cfg.initial), map[])
  }

  ghost predicate Enabled<S>(cfg: Config<S>, sys: System<S>, step: Step) {
    match step
    case Append(id, _) => id !in sys.db.outbox
    case Poll(_, consumer, _) => consumer in cfg.handlers
    case DeliverNext(d, _) => d in sys.drainers && sys.drainers[d].batch != []
    case Crash(d) => d in sys.drainers
    case Reset(id) => id in sys.db.outbox
  }

  /** Drainers only ever hold ids that exist, for consumers that exist. */
  ghost predicate DrainersKnown<S>(cfg: Config<S>, sys: System<S>) {
    && WellFormedConfig(cfg) && sys.db.app.Keys == cfg.handlers.Keys
    && forall d :: d in sys.drainers ==>
         sys.drainers[d].consumer in cfg.handlers && Known(sys.db.outbox, sys.drainers[d].batch)
  }

  function HeadDelivery<S>(cfg: Config<S>, sys: System<S>, d: Id, fate: Fate): Delivery<S>
    requires DrainersKnown(cfg, sys) && d in sys.drainers && sys.drainers[d].batch != []
  {
    var who := sys.drainers[d];
    assert who.batch[0] in who.batch;
    Deliver(sys.db, NONE_YET, who.consumer, cfg.handlers[who.consumer], who.batch[0], fate)
  }

  ghost function Next<S>(cfg: Config<S>, sys: System<S>, step: Step): System<S>
    requires DrainersKnown(cfg, sys) && Enabled(cfg, sys, step)
  {
    match step
    case Append(id, event) => sys.(db := sys.db.(outbox := sys.db.outbox[id := Row(event, false, 0)]))
    case Poll(d, consumer, limit) => sys.(drainers := sys.drainers[d := Drainer(consumer, Batch(sys.db.outbox, limit))])
    case DeliverNext(d, fate) =>
      var done := HeadDelivery(cfg, sys, d, fate);
      var left := if done.threw then [] else sys.drainers[d].batch[1..];
      System(done.db, sys.drainers[d := sys.drainers[d].(batch := left)])
    case Crash(d) => sys.(drainers := sys.drainers - {d})
    case Reset(id) => sys.(db := sys.db.(outbox := sys.db.outbox[id := sys.db.outbox[id].(processed := false)]))
  }

  // ---------- exactly-once effects ----------

  /** The tables a consumer would have after handling these events once each, in this order. */
  function Fold<S>(handlers: Handlers<S>, outbox: map<Id, Row>, ids: seq<Id>, start: S): S
    requires Known(outbox, ids)
    decreases |ids|
  {
    if ids == [] then start
    else
      var front, last := ids[..|ids| - 1], ids[|ids| - 1];
      assert last in ids && forall id :: id in front ==> id in ids;
      handlers.run(last, outbox[last].event, Fold(handlers, outbox, front, start))
  }

  ghost predicate ConsumerExact<S>(cfg: Config<S>, sys: System<S>, c: Id)
    requires c in cfg.handlers && c in cfg.initial && c in sys.db.app
  {
    var ledger := LedgerOf(sys.db, c);
    && NoDuplicates(ledger) && Known(sys.db.outbox, ledger)
    && (forall id :: id in ledger ==> sys.db.outbox[id].event.kind in cfg.handlers[c].kinds)
    && sys.db.app[c] == Fold(cfg.handlers[c], sys.db.outbox, ledger, cfg.initial[c])
  }

  ghost predicate Inv<S>(cfg: Config<S>, sys: System<S>) {
    DrainersKnown(cfg, sys) && forall c :: c in cfg.handlers ==> ConsumerExact(cfg, sys, c)
  }

  /** Events are never lost or rewritten; only their bookkeeping changes. */
  ghost predicate SameEvents(a: map<Id, Row>, b: map<Id, Row>) {
    forall id :: id in a ==> id in b && b[id].event == a[id].event
  }

  lemma {:induction false} FoldStable<S>(handlers: Handlers<S>, a: map<Id, Row>, b: map<Id, Row>, ids: seq<Id>, start: S)
    requires Known(a, ids) && SameEvents(a, b)
    ensures Known(b, ids) && Fold(handlers, a, ids, start) == Fold(handlers, b, ids, start)
    decreases |ids|
  {
    if ids != [] {
      var front, last := ids[..|ids| - 1], ids[|ids| - 1];
      assert last in ids && forall id :: id in front ==> id in ids;
      FoldStable(handlers, a, b, front, start);
    }
  }

  lemma FoldSnoc<S>(handlers: Handlers<S>, outbox: map<Id, Row>, ids: seq<Id>, id: Id, start: S)
    requires Known(outbox, ids) && id in outbox
    ensures Known(outbox, ids + [id])
    ensures Fold(handlers, outbox, ids + [id], start) == handlers.run(id, outbox[id].event, Fold(handlers, outbox, ids, start))
  {
  }

  /** A consumer whose ledger and tables a step leaves alone stays exact. */
  lemma UntouchedStaysExact<S>(cfg: Config<S>, a: System<S>, b: System<S>, c: Id)
    requires c in cfg.handlers && c in cfg.initial && c in a.db.app && c in b.db.app
    requires ConsumerExact(cfg, a, c) && SameEvents(a.db.outbox, b.db.outbox)
    requires LedgerOf(b.db, c) == LedgerOf(a.db, c) && b.db.app[c] == a.db.app[c]
    ensures ConsumerExact(cfg, b, c)
  {
    FoldStable(cfg.handlers[c], a.db.outbox, b.db.outbox, LedgerOf(a.db, c), cfg.initial[c]);
  }

  lemma DeliveryFacts<S>(db: Db<S>, consumer: Id, handlers: Handlers<S>, id: Id, fate: Fate)
    requires id in db.outbox && consumer in db.app
    ensures var after := Deliver(db, NONE_YET, consumer, handlers, id, fate).db;
      && SameEvents(db.outbox, after.outbox) && after.outbox.Keys == db.outbox.Keys && after.app.Keys == db.app.Keys
      && (forall c :: c in db.app && c != consumer ==> LedgerOf(after, c) == LedgerOf(db, c) && after.app[c] == db.app[c])
      && ((LedgerOf(after, consumer) == LedgerOf(db, consumer) && after.app[consumer] == db.app[consumer])
          || (&& id !in LedgerOf(db, consumer) && db.outbox[id].event.kind in handlers.kinds
              && LedgerOf(after, consumer) == LedgerOf(db, consumer) + [id]
              && after.app[consumer] == handlers.run(id, db.outbox[id].event, db.app[consumer])))
  {
  }

  lemma DeliverKeepsExact<S>(cfg: Config<S>, sys: System<S>, d: Id, fate: Fate, c: Id)
    requires Inv(cfg, sys) && d in sys.drainers && sys.drainers[d].batch != [] && c in cfg.handlers
    ensures var next := Next(cfg, sys, DeliverNext(d, fate)); c in next.db.app && ConsumerExact(cfg, next, c)
  {
    var who := sys.drainers[d];
    var id := who.batch[0];
    assert id in who.batch;
    var next := Next(cfg, sys, DeliverNext(d, fate));
    DeliveryFacts(sys.db, who.consumer, cfg.handlers[who.consumer], id, fate);
    assert ConsumerExact(cfg, sys, c);
    if LedgerOf(next.db, c) == LedgerOf(sys.db, c) && next.db.app[c] == sys.db.app[c] {
      UntouchedStaysExact(cfg, sys, next, c);
    } else {
      var ledger := LedgerOf(sys.db, c);
      FoldStable(cfg.handlers[c], sys.db.outbox, next.db.outbox, ledger, cfg.initial[c]);
      FoldSnoc(cfg.handlers[c], next.db.outbox, ledger, id, cfg.initial[c]);
    }
  }

  /** Every step of every interleaving keeps each consumer's committed tables equal to its ledger's fold. */
  lemma StepKeepsInv<S>(cfg: Config<S>, sys: System<S>, step: Step)
    requires Inv(cfg, sys) && Enabled(cfg, sys, step)
    ensures Inv(cfg, Next(cfg, sys, step))
  {
    var next := Next(cfg, sys, step);
    DrainersStayKnown(cfg, sys, step);
    forall c | c in cfg.handlers ensures ConsumerExact(cfg, next, c) {
      if step.DeliverNext? {
        DeliverKeepsExact(cfg, sys, step.drainer, step.fate, c);
      } else {
        assert ConsumerExact(cfg, sys, c);
        UntouchedStaysExact(cfg, sys, next, c);
      }
    }
  }

  lemma DrainersStayKnown<S>(cfg: Config<S>, sys: System<S>, step: Step)
    requires DrainersKnown(cfg, sys) && Enabled(cfg, sys, step)
    ensures DrainersKnown(cfg, Next(cfg, sys, step))
    ensures SameEvents(sys.db.outbox, Next(cfg, sys, step).db.outbox)
  {
    var next := Next(cfg, sys, step);
    if step.DeliverNext? {
      var who := sys.drainers[step.drainer];
      assert who.batch[0] in who.batch;
      DeliveryFacts(sys.db, who.consumer, cfg.handlers[who.consumer], who.batch[0], step.fate);
    }
    forall d | d in next.drainers ensures next.drainers[d].consumer in cfg.handlers && Known(next.db.outbox, next.drainers[d].batch) {
      if d in sys.drainers {
        assert Known(sys.db.outbox, sys.drainers[d].batch);
      }
    }
  }

  // ---------- runs ----------

  ghost predicate IsRun<S>(cfg: Config<S>, run: seq<System<S>>, steps: seq<Step>) {
    && |run| == |steps| + 1 && run[0] == Start(cfg)
    && forall i :: 0 <= i < |steps| ==> StepTo(cfg, run[i], steps[i], run[i + 1])
  }

  ghost predicate StepTo<S>(cfg: Config<S>, a: System<S>, step: Step, b: System<S>) {
    DrainersKnown(cfg, a) && Enabled(cfg, a, step) && b == Next(cfg, a, step)
  }

  lemma StartIsExact<S>(cfg: Config<S>)
    requires WellFormedConfig(cfg)
    ensures Inv(cfg, Start(cfg))
  {
    forall c | c in cfg.handlers ensures ConsumerExact(cfg, Start(cfg), c) {
    }
  }

  lemma StepToKeepsInv<S>(cfg: Config<S>, a: System<S>, step: Step, b: System<S>)
    requires Inv(cfg, a) && StepTo(cfg, a, step, b)
    ensures Inv(cfg, b)
  {
    hide Inv, Next;
    StepKeepsInv(cfg, a, step);
  }

  lemma {:induction false} RunKeepsInv<S>(cfg: Config<S>, run: seq<System<S>>, steps: seq<Step>, k: nat)
    requires WellFormedConfig(cfg) && IsRun(cfg, run, steps) && k < |run|
    ensures Inv(cfg, run[k])
    decreases k
  {
    hide Inv, StepTo, Start;
    if k == 0 {
      StartIsExact(cfg);
    } else {
      RunKeepsInv(cfg, run, steps, k - 1);
      StepToKeepsInv(cfg, run[k - 1], steps[k - 1], run[k]);
    }
  }

  /**
   * At every point of every interleaving, each consumer's committed tables are the fold of its handlers
   * over its ledger in commit order, and no event is in that ledger twice.
   */
  lemma ExactlyOnceEffects<S>(cfg: Config<S>, run: seq<System<S>>, steps: seq<Step>, k: nat, c: Id)
    requires WellFormedConfig(cfg) && IsRun(cfg, run, steps) && k < |run| && c in cfg.handlers
    ensures var db := run[k].db; var ledger := LedgerOf(db, c);
      && NoDuplicates(ledger) && Known(db.outbox, ledger)
      && c in db.app && db.app[c] == Fold(cfg.handlers[c], db.outbox, ledger, cfg.initial[c])
  {
    RunKeepsInv(cfg, run, steps, k);
    assert ConsumerExact(cfg, run[k], c);
  }

  // ---------- a whole drain is such a run ----------

  lemma {:induction false} CountsAside<S>(db: Db<S>, a: Counts, b: Counts, consumer: Id, handlers: Handlers<S>, ids: seq<Id>, faults: Faults)
    requires Known(db.outbox, ids) && consumer in db.app
    ensures DrainBatch(db, a, consumer, handlers, ids, faults).db == DrainBatch(db, b, consumer, handlers, ids, faults).db
    decreases |ids|
  {
    if ids != [] {
      var x := Deliver(db, a, consumer, handlers, ids[0], FateOf(faults, ids[0]));
      var y := Deliver(db, b, consumer, handlers, ids[0], FateOf(faults, ids[0]));
      assert x.db == y.db && x.threw == y.threw;
      if !x.threw {
        CountsAside(x.db, x.counts, y.counts, consumer, handlers, ids[1..], faults);
      }
    }
  }

  lemma RunGoesOn<S>(cfg: Config<S>, run: seq<System<S>>, steps: seq<Step>, step: Step)
    requires IsRun(cfg, run, steps) && DrainersKnown(cfg, run[|steps|]) && Enabled(cfg, run[|steps|], step)
    ensures IsRun(cfg, run + [Next(cfg, run[|steps|], step)], steps + [step])
  {
    hide StepTo, Next, Enabled, DrainersKnown;
    var longer, all := run + [Next(cfg, run[|steps|], step)], steps + [step];
    forall i | 0 <= i < |all| ensures StepTo(cfg, longer[i], all[i], longer[i + 1]) {
      if i == |steps| {
        LastStep(cfg, run[|steps|], step);
      } else {
        assert StepTo(cfg, run[i], steps[i], run[i + 1]);
      }
    }
  }

  lemma LastStep<S>(cfg: Config<S>, sys: System<S>, step: Step)
    requires DrainersKnown(cfg, sys) && Enabled(cfg, sys, step)
    ensures StepTo(cfg, sys, step, Next(cfg, sys, step))
  {
  }

  /** A drainer alone with its batch, from wherever a run has got to. */
  lemma {:induction false} BatchIsSteps<S>(cfg: Config<S>, run: seq<System<S>>, steps: seq<Step>, d: Id, faults: Faults)
      returns (longer: seq<System<S>>, all: seq<Step>)
    requires IsRun(cfg, run, steps) && DrainersKnown(cfg, run[|steps|]) && d in run[|steps|].drainers
    ensures IsRun(cfg, longer, all)
    ensures var sys, who := run[|steps|], run[|steps|].drainers[d];
      longer[|all|].db == DrainBatch(sys.db, NONE_YET, who.consumer, cfg.handlers[who.consumer], who.batch, faults).db
    decreases |run[|steps|].drainers[d].batch|
  {
    hide IsRun, Deliver;
    RunShape(cfg, run, steps);
    var sys := run[|steps|];
    var who := sys.drainers[d];
    if who.batch == [] {
      longer, all := run, steps;
    } else {
      var id := who.batch[0];
      var step := DeliverNext(d, FateOf(faults, id));
      assert id in who.batch;
      var next := Next(cfg, sys, step);
      DrainersStayKnown(cfg, sys, step);
      RunGoesOn(cfg, run, steps, step);
      longer, all := BatchIsSteps(cfg, run + [next], steps + [step], d, faults);
      var first := Deliver(sys.db, NONE_YET, who.consumer, cfg.handlers[who.consumer], id, FateOf(faults, id));
      if !first.threw {
        CountsAside(first.db, NONE_YET, first.counts, who.consumer, cfg.handlers[who.consumer], who.batch[1..], faults);
      }
    }
  }

  lemma RunShape<S>(cfg: Config<S>, run: seq<System<S>>, steps: seq<Step>)
    requires IsRun(cfg, run, steps)
    ensures |run| == |steps| + 1
  {
  }

  /** What `DrainOutbox` does to the tables is one poll and its deliveries, so all of this file holds of it. */
  lemma DrainIsASequenceOfSteps<S>(cfg: Config<S>, run: seq<System<S>>, steps: seq<Step>, d: Id, consumer: Id, limit: nat, faults: Faults)
      returns (longer: seq<System<S>>, all: seq<Step>)
    requires WellFormedConfig(cfg) && IsRun(cfg, run, steps) && consumer in cfg.handlers && consumer in run[|steps|].db.app
    ensures IsRun(cfg, longer, all)
    ensures var db := run[|steps|].db;
      longer[|all|].db == DrainBatch(db, NONE_YET, consumer, cfg.handlers[consumer], Batch(db.outbox, limit), faults).db
  {
    hide IsRun, DrainBatch, Batch;
    RunShape(cfg, run, steps);
    RunKeepsInv(cfg, run, steps, |steps|);
    var step := Poll(d, consumer, limit);
    DrainersStayKnown(cfg, run[|steps|], step);
    RunGoesOn(cfg, run, steps, step);
    longer, all := BatchIsSteps(cfg, run + [Next(cfg, run[|steps|], step)], steps + [step], d, faults);
  }

  // ---------- does every consumer see every event? ----------

  ghost predicate PolledOnlyBy(steps: seq<Step>, consumers: set<Id>) {
    forall i :: 0 <= i < |steps| && steps[i].Poll? ==> steps[i].consumer in consumers
  }

  /** Every event marked processed that a consumer handles is in that consumer's ledger. */
  ghost predicate NothingMissed<S>(cfg: Config<S>, sys: System<S>, consumers: set<Id>) {
    forall c, id | c in consumers && c in cfg.handlers && id in sys.db.outbox
      && sys.db.outbox[id].processed && sys.db.outbox[id].event.kind in cfg.handlers[c].kinds :: id in LedgerOf(sys.db, c)
  }

  ghost predicate NeverMisses<S(!new)>(cfg: Config<S>, consumers: set<Id>) {
    forall run, steps :: IsRun(cfg, run, steps) && PolledOnlyBy(steps, consumers) ==> NothingMissed(cfg, run[|steps|], consumers)
  }

  /** No event kind matters to a consumer that shares the outbox with another one. */
  ghost predicate NothingShared<S>(cfg: Config<S>, consumers: set<Id>) {
    forall c, other, kind :: c in consumers && other in consumers && c != other && c in cfg.handlers && other in cfg.handlers ==>
      kind !in cfg.handlers[c].kinds
  }

  ghost predicate DrainersFrom<S>(sys: System<S>, consumers: set<Id>) {
    forall d :: d in sys.drainers ==> sys.drainers[d].consumer in consumers
  }

  lemma DeliverMissesNothing<S>(cfg: Config<S>, sys: System<S>, consumers: set<Id>, d: Id, fate: Fate)
    requires DrainersKnown(cfg, sys) && Enabled(cfg, sys, DeliverNext(d, fate))
    requires NothingShared(cfg, consumers) && DrainersFrom(sys, consumers) && NothingMissed(cfg, sys, consumers)
    ensures NothingMissed(cfg, Next(cfg, sys, DeliverNext(d, fate)), consumers)
  {
    var who := sys.drainers[d];
    var id := who.batch[0];
    assert id in who.batch;
    var next := Next(cfg, sys, DeliverNext(d, fate));
    DeliveryFacts(sys.db, who.consumer, cfg.handlers[who.consumer], id, fate);
    forall c, x | c in consumers && c in cfg.handlers && x in next.db.outbox && next.db.outbox[x].processed
        && next.db.outbox[x].event.kind in cfg.handlers[c].kinds
      ensures x in LedgerOf(next.db, c)
    {
      assert c == who.consumer;
      if x != id {
        assert next.db.outbox[x] == sys.db.outbox[x];
      }
    }
  }

  lemma {:induction false} RunMissesNothing<S>(cfg: Config<S>, run: seq<System<S>>, steps: seq<Step>, consumers: set<Id>, k: nat)
    requires WellFormedConfig(cfg) && IsRun(cfg, run, steps) && k < |run|
    requires NothingShared(cfg, consumers) && PolledOnlyBy(steps, consumers)
    ensures DrainersKnown(cfg, run[k]) && DrainersFrom(run[k], consumers) && NothingMissed(cfg, run[k], consumers)
    decreases k
  {
    if k > 0 {
      RunMissesNothing(cfg, run, steps, consumers, k - 1);
      var sys, step := run[k - 1], steps[k - 1];
      assert StepTo(cfg, sys, step, run[k]);
      DrainersStayKnown(cfg, sys, step);
      if step.DeliverNext? {
        DeliverMissesNothing(cfg, sys, consumers, step.drainer, step.fate);
      }
    }
  }

  /** Another consumer takes the only event first; the shared `processed_at` hides it from `c` for good. */
  lemma SharedEventIsMissed<S>(cfg: Config<S>, consumers: set<Id>, c: Id, other: Id, kind: Kind)
      returns (run: seq<System<S>>, steps: seq<Step>)
    requires WellFormedConfig(cfg) && c in consumers && other in consumers && c != other
    requires c in cfg.handlers && other in cfg.handlers && kind in cfg.handlers[c].kinds
    ensures IsRun(cfg, run, steps) && PolledOnlyBy(steps, consumers) && !NothingMissed(cfg, run[|steps|], consumers)
  {
    var event := Event(kind, "");
    steps := [Append(0, event), Poll(0, other, 1), DeliverNext(0, Commits)];
    var s0 := Start(cfg);
    var s1 := Next(cfg, s0, steps[0]);
    assert Unprocessed(s1.db.outbox) == {0};
    var all := Ascending(Unprocessed(s1.db.outbox));
    assert all[0] in all;
    assert Batch(s1.db.outbox, 1) == [0];
    var s2 := Next(cfg, s1, steps[1]);
    assert Known(s2.db.outbox, [0]);
    var s3 := Next(cfg, s2, steps[2]);
    run := [s0, s1, s2, s3];
    DeliveryFacts(s2.db, other, cfg.handlers[other], 0, Commits);
    assert LedgerOf(s3.db, c) == [] && s3.db.outbox[0].processed;
  }

  /**
   * The ledger keys let several consumers share one outbox without repeating effects, but the single
   * `processed_at` column does not let them share its events: every poller is sure to see all it handles
   * exactly when no two consumers poll or the ones that do handle nothing.
   */
  lemma FanOutExactlyWhen<S(!new)>(cfg: Config<S>, consumers: set<Id>)
    requires WellFormedConfig(cfg) && consumers <= cfg.handlers.Keys
    ensures NeverMisses(cfg, consumers) <==> NothingShared(cfg, consumers)
  {
    if NothingShared(cfg, consumers) {
      forall run, steps | IsRun(cfg, run, steps) && PolledOnlyBy(steps, consumers) ensures NothingMissed(cfg, run[|steps|], consumers) {
        RunMissesNothing(cfg, run, steps, consumers, |steps|);
      }
    }
    if !NothingShared(cfg, consumers) {
      var c, other, kind :| c in consumers && other in consumers && c != other && c in cfg.handlers && other in cfg.handlers
        && kind in cfg.handlers[c].kinds;
      var run, steps := SharedEventIsMissed(cfg, consumers, c, other, kind);
    }
  }

  /** With one consumer, once everything is processed its tables are the fold over every handled event, each once. */
  lemma SingleConsumerHandlesAll<S>(cfg: Config<S>, run: seq<System<S>>, steps: seq<Step>, c: Id)
    requires WellFormedConfig(cfg) && IsRun(cfg, run, steps) && c in cfg.handlers && PolledOnlyBy(steps, {c})
    requires forall id :: id in run[|steps|].db.outbox ==> run[|steps|].db.outbox[id].processed
    ensures var db := run[|steps|].db; var ledger := LedgerOf(db, c);
      && NoDuplicates(ledger) && Known(db.outbox, ledger)
      && Elements(ledger) == (set id | id in db.outbox && db.outbox[id].event.kind in cfg.handlers[c].kinds)
      && c in db.app && db.app[c] == Fold(cfg.handlers[c], db.outbox, ledger, cfg.initial[c])
  {
    RunKeepsInv(cfg, run, steps, |steps|);
    RunMissesNothing(cfg, run, steps, {c}, |steps|);
    assert ConsumerExact(cfg, run[|steps|], c);
    var db := run[|steps|].db;
    forall id ensures id in Elements(LedgerOf(db, c)) <==> id in db.outbox && db.outbox[id].event.kind in cfg.handlers[c].kinds {
      assert id in Elements(LedgerOf(db, c)) <==> id in LedgerOf(db, c);
    }
  }
}
