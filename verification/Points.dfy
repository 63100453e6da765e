/** The points ledger, the balances projected from it, the streak rows, and the consumer that feeds them. */
module Points {
  import opened Common
  import opened Calendar
  import opened Streaks

  datatype SourceType = HoursApproved | ModuleCompleted | CourseCompleted | ManualAdjustment

  datatype Entry = Entry(person: Id, points: int, source: SourceType, sourceId: Id, createdAt: int)

  datatype ActivityType = ShiftCadence | TrainingCadence

  datatype Published =
    | PointsAwarded(person: Id, points: int, source: SourceType)
    | StreakExtended(person: Id, activity: ActivityType, currentLength: nat)
    | StreakFrozen(person: Id, activity: ActivityType, freezesRemaining: int)
    | StreakBroken(person: Id, activity: ActivityType, previousLength: nat)

  datatype Payload =
    | Hours(person: Id, durationMinutes: nat, approvedAt: int)
    | ModuleDone(person: Id)
    | CourseDone(person: Id, completedAt: int)
    | Unrecognized(eventType: string)

  datatype Inbound = Inbound(sourceId: Id, payload: Payload)

  type ProcessedKey = (Id, SourceType)
  type StreakKey = (Id, ActivityType)

  datatype State = State(
    processed: set<ProcessedKey>, ledger: seq<Entry>, balances: map<Id, int>,
    streaks: map<StreakKey, StreakState>, published: seq<Published>)

  const POINTS_PER_HOUR := 10
  const POINTS_FOR_MODULE_COMPLETED := 25
  const POINTS_FOR_COURSE_COMPLETED := 100

  /** `Math.round(minutes / 60 * POINTS_PER_HOUR)`. */
  function ComputeHoursApprovedPoints(durationMinutes: nat): int {
    RoundDiv(durationMinutes * POINTS_PER_HOUR, 60)
  }

  // ---------- the steps ----------

  predicate HasKey(ledger: seq<Entry>, source: SourceType, sourceId: Id) {
    exists i :: 0 <= i < |ledger| && ledger[i].source == source && ledger[i].sourceId == sourceId
  }

  function Balance(s: State, person: Id): int {
    if person in s.balances then s.balances[person] else 0
  }

  function RecordPoints(s: State, e: Entry): State {
    if HasKey(s.ledger, e.source, e.sourceId) then s
    else s.(ledger := s.ledger + [e],
            balances := s.balances[e.person := Balance(s, e.person) + e.points],
            published := s.published + if e.points > 0 then [PointsAwarded(e.person, e.points, e.source)] else [])
  }

  function StreakRow(s: State, key: StreakKey): Option<StreakState> {
    if key in s.streaks then Some(s.streaks[key]) else None
  }

  function StreakEvent(key: StreakKey, before: Option<StreakState>, outcome: Outcome): Published
    requires outcome.kind != Unchanged
  {
    match outcome.kind
    case Extended => StreakExtended(key.0, key.1, outcome.state.currentLength)
    case FreezeUsed => StreakFrozen(key.0, key.1, outcome.state.freezesAvailable)
    case Reset => StreakBroken(key.0, key.1, match before case Some(b) => b.currentLength case None => 0)
  }

  function UpdateStreak(s: State, key: StreakKey, date: int): State {
    var before := StreakRow(s, key);
    var outcome := ApplyStreakActivity(before, date, MAX_FREEZES);
    if outcome.kind == Unchanged then s
    else s.(streaks := s.streaks[key := Stored(outcome.state)],
            published := s.published + [StreakEvent(key, before, outcome)])
  }

  predicate Recognized(e: Inbound) {
    !e.payload.Unrecognized?
  }

  function SourceOf(e: Inbound): SourceType
    requires Recognized(e)
  {
    match e.payload
    case Hours(_, _, _) => HoursApproved
    case ModuleDone(_) => ModuleCompleted
    case CourseDone(_, _) => CourseCompleted
  }

  function PointsOf(e: Inbound): int
    requires Recognized(e)
  {
    match e.payload
    case Hours(_, minutes, _) => ComputeHoursApprovedPoints(minutes)
    case ModuleDone(_) => POINTS_FOR_MODULE_COMPLETED
    case CourseDone(_, _) => POINTS_FOR_COURSE_COMPLETED
  }

  /** The streak an event feeds, and with which date. */
  function ActivityOf(e: Inbound): Option<(StreakKey, int)> {
    match e.payload
    case Hours(person, _, approvedAt) => Some(((person, ShiftCadence), approvedAt))
    case CourseDone(person, completedAt) => Some(((person, TrainingCadence), completedAt))
    case _ => None
  }

  function Dispatch(s: State, e: Inbound, now: int): State
    requires Recognized(e)
  {
    var credited := RecordPoints(s, Entry(e.payload.person, PointsOf(e), SourceOf(e), e.sourceId, now));
    match ActivityOf(e)
    case None => credited
    case Some(activity) => UpdateStreak(credited, activity.0, activity.1)
  }

  function Consume(s: State, e: Inbound, now: int): State {
    if !Recognized(e) || (e.sourceId, SourceOf(e)) in s.processed then s
    else Dispatch(s.(processed := s.processed + {(e.sourceId, SourceOf(e))}), e, now)
  }

  /** A ledger row that pays ten points an hour for these minutes, to the nearest point, halves going up. */
  predicate IsHoursRow(row: Entry, sourceId: Id, person: Id, minutes: nat) {
    row.source == HoursApproved && row.sourceId == sourceId && row.person == person && minutes - 3 < 6 * row.points <= minutes + 3
  }

  /** The award announced for a row that has just been added, when it is worth something. */
  ghost function Awards(before: seq<Entry>, after: seq<Entry>): seq<Published> {
    if |before| < |after| && after[|before|].points > 0 then
      [PointsAwarded(after[|before|].person, after[|before|].points, after[|before|].source)]
    else []
  }

  /** What a streak announces for an activity on this date. */
  ghost function StreakNews(s: State, key: StreakKey, date: int): seq<Published> {
    var before := if key in s.streaks then Some(s.streaks[key]) else None;
    var outcome := ApplyStreakActivity(before, date, MAX_FREEZES);
    match outcome.kind
    case Unchanged => []
    case Extended => [StreakExtended(key.0, key.1, outcome.state.currentLength)]
    case FreezeUsed => [StreakFrozen(key.0, key.1, outcome.state.freezesAvailable)]
    case Reset => [StreakBroken(key.0, key.1, if before.Some? then before.value.currentLength else 0)]
  }

  lemma HoursPayTenAnHour(minutes: nat)
    ensures minutes - 3 < 6 * ComputeHoursApprovedPoints(minutes) <= minutes + 3
  {
  }

  // ---------- the same as updates of the stored rows ----------

  class GamificationStore {
    var processed: set<ProcessedKey>
    var ledger: seq<Entry>
    var balances: map<Id, int>
    var streaks: map<StreakKey, StreakState>
    var published: seq<Published>

    ghost function Model(): State
      reads this
    {
      State(processed, ledger, balances, streaks, published)
    }

    constructor ()
      ensures Model() == State({}, [], map[], map[], [])
    {
      processed, ledger, balances, streaks, published := {}, [], map[], map[], [];
    }

    /** The insert may violate the ledger's unique key; then only the savepoint is rolled back. */
    method RecordPointsForEvent(e: Entry) returns (totalPoints: int, inserted: bool)
      modifies this
      ensures Model() == RecordPoints(old(Model()), e)
      ensures inserted <==> !HasKey(old(ledger), e.source, e.sourceId)
      ensures totalPoints == Balance(Model(), e.person)
      ensures !inserted ==> Model() == old(Model())
      ensures inserted ==>
        && processed == old(processed) && streaks == old(streaks)
        && ledger == old(ledger) + [e]
        && balances == old(balances)[e.person := (if e.person in old(balances) then old(balances)[e.person] else 0) + e.points]
        && published == old(published) + if e.points > 0 then [PointsAwarded(e.person, e.points, e.source)] else []
    {
      inserted := !(exists i :: 0 <= i < |ledger| && ledger[i].source == e.source && ledger[i].sourceId == e.sourceId);
      if !inserted {
        totalPoints := if e.person in balances then balances[e.person] else 0;
        return;
      }
      ledger := ledger + [e];
      totalPoints := (if e.person in balances then balances[e.person] else 0) + e.points;
      balances := balances[e.person := totalPoints];
      if e.points > 0 {
        published := published + [PointsAwarded(e.person, e.points, e.source)];
      } else {
        assert published == published + [];
      }
    }

    method UpdateStreakRow(key: StreakKey, date: int) returns (currentLength: nat)
      modifies this
      ensures Model() == UpdateStreak(old(Model()), key, date)
      ensures currentLength == ApplyStreakActivity(StreakRow(old(Model()), key), date, MAX_FREEZES).state.currentLength
      ensures processed == old(processed) && ledger == old(ledger) && balances == old(balances)
      ensures var before := if key in old(streaks) then Some(old(streaks)[key]) else None;
        var outcome := ApplyStreakActivity(before, date, MAX_FREEZES);
        && (outcome.kind == Unchanged ==> streaks == old(streaks) && published == old(published))
        && (outcome.kind != Unchanged ==> streaks == old(streaks)[key := Stored(outcome.state)])
        && (outcome.kind == Extended ==> published == old(published) + [StreakExtended(key.0, key.1, outcome.state.currentLength)])
        && (outcome.kind == FreezeUsed ==> published == old(published) + [StreakFrozen(key.0, key.1, outcome.state.freezesAvailable)])
        && (outcome.kind == Reset ==>
              published == old(published) + [StreakBroken(key.0, key.1, if before.Some? then before.value.currentLength else 0)])
    {
      var existing := if key in streaks then Some(streaks[key]) else None;
      var outcome := ApplyStreakActivity(existing, date, MAX_FREEZES);
      currentLength := outcome.state.currentLength;
      if outcome.kind == Unchanged {
        return;
      }
      streaks := streaks[key := Stored(outcome.state)];
      match outcome.kind {
        case Extended => published := published + [StreakExtended(key.0, key.1, outcome.state.currentLength)];
        case FreezeUsed => published := published + [StreakFrozen(key.0, key.1, outcome.state.freezesAvailable)];
        case Reset =>
          var previous := if existing.Some? then existing.value.currentLength else 0;
          published := published + [StreakBroken(key.0, key.1, previous)];
      }
    }

    /** The dedupe insert comes first; a collision rolls the whole transaction back before any handler runs. */
    method ConsumeInboundEvent(e: Inbound, now: int) returns (ran: bool, recognized: bool)
      modifies this
      ensures Model() == Consume(old(Model()), e, now)
      ensures recognized <==> !e.payload.Unrecognized?
      ensures !ran ==> Model() == old(Model())
      ensures match e.payload
        case Unrecognized(_) => !ran
        case Hours(person, minutes, approvedAt) =>
          && (ran <==> (e.sourceId, HoursApproved) !in old(processed))
          && (ran ==>
                && processed == old(processed) + {(e.sourceId, HoursApproved)}
                && streaks == UpdateStreak(old(Model()), (person, ShiftCadence), approvedAt).streaks
                && published == old(published) + Awards(old(ledger), ledger) + StreakNews(old(Model()), (person, ShiftCadence), approvedAt))
          && (ran && !HasKey(old(ledger), HoursApproved, e.sourceId) ==>
                && |ledger| == |old(ledger)| + 1 && old(ledger) <= ledger
                && IsHoursRow(ledger[|old(ledger)|], e.sourceId, person, minutes) && ledger[|old(ledger)|].createdAt == now)
        case ModuleDone(person) =>
          && (ran <==> (e.sourceId, ModuleCompleted) !in old(processed))
          && (ran ==>
                && processed == old(processed) + {(e.sourceId, ModuleCompleted)} && streaks == old(streaks)
                && published == old(published) + Awards(old(ledger), ledger))
          && (ran && !HasKey(old(ledger), ModuleCompleted, e.sourceId) ==>
                ledger == old(ledger) + [Entry(person, 25, ModuleCompleted, e.sourceId, now)])
        case CourseDone(person, completedAt) =>
          && (ran <==> (e.sourceId, CourseCompleted) !in old(processed))
          && (ran ==>
                && processed == old(processed) + {(e.sourceId, CourseCompleted)}
                && streaks == UpdateStreak(old(Model()), (person, TrainingCadence), completedAt).streaks
                && published == old(published) + Awards(old(ledger), ledger) + StreakNews(old(Model()), (person, TrainingCadence), completedAt))
          && (ran && !HasKey(old(ledger), CourseCompleted, e.sourceId) ==>
                ledger == old(ledger) + [Entry(person, 100, CourseCompleted, e.sourceId, now)])
    {
      if e.payload.Unrecognized? {
        return false, false;
      }
      var key := (e.sourceId, SourceOf(e));
      if key in processed {
        return false, true;
      }
      processed := processed + {key};
      match e.payload {
        case Hours(person, minutes, approvedAt) =>
          HoursPayTenAnHour(minutes);
          var points := ComputeHoursApprovedPoints(minutes);
          var _, _ := RecordPointsForEvent(Entry(person, points, HoursApproved, e.sourceId, now));
          var _ := UpdateStreakRow((person, ShiftCadence), approvedAt);
        case ModuleDone(person) =>
          var _, _ := RecordPointsForEvent(Entry(person, POINTS_FOR_MODULE_COMPLETED, ModuleCompleted, e.sourceId, now));
        case CourseDone(person, completedAt) =>
          var _, _ := RecordPointsForEvent(Entry(person, POINTS_FOR_COURSE_COMPLETED, CourseCompleted, e.sourceId, now));
          var _ := UpdateStreakRow((person, TrainingCadence), completedAt);
      }
      return true, true;
    }

    method AdminAdjustPoints(person: Id, points: int, freshId: Id, now: int)
      modifies this
      ensures Model() == RecordPoints(old(Model()), Entry(person, points, ManualAdjustment, freshId, now))
    {
      var _, _ := RecordPointsForEvent(Entry(person, points, ManualAdjustment, freshId, now));
    }
  }
}

/** What holds after any list of deliveries, redeliveries, adjustments and lost dedupe rows. */
module PointsRuns {
  import opened Common
  import opened Calendar
  import opened Streaks
  import opened Points

  datatype Step =
    | Deliver(event: Inbound, now: int)
    | Adjust(person: Id, points: int, id: Id, now: int)
    | Forget(keys: set<ProcessedKey>)   // rows of `processed_events` are lost

  function After(s: State, step: Step): State {
    match step
    case Deliver(e, now) => Consume(s, e, now)
    case Adjust(person, points, id, now) => RecordPoints(s, Entry(person, points, ManualAdjustment, id, now))
    case Forget(keys) => s.(processed := s.processed - keys)
  }

  const EMPTY := State({}, [], map[], map[], [])

  function Run(steps: seq<Step>): State {
    if steps == [] then EMPTY else After(Run(steps[..|steps| - 1]), steps[|steps| - 1])
  }

  // ---------- balance == sum of the ledger ----------

  function Sum(ledger: seq<Entry>, person: Id): int {
    if ledger == [] then 0
    else
      var last := ledger[|ledger| - 1];
      Sum(ledger[..|ledger| - 1], person) + if last.person == person then last.points else 0
  }

  ghost predicate KeysUnique(ledger: seq<Entry>) {
    forall i, j :: 0 <= i < j < |ledger| ==> !(ledger[i].source == ledger[j].source && ledger[i].sourceId == ledger[j].sourceId)
  }

  ghost predicate Projected(s: State) {
    KeysUnique(s.ledger) && forall p :: Balance(s, p) == Sum(s.ledger, p)
  }

  lemma RecordPointsProjects(s: State, e: Entry)
    requires Projected(s)
    ensures Projected(RecordPoints(s, e))
  {
  }

  lemma AfterProjects(s: State, step: Step)
    requires Projected(s)
    ensures Projected(After(s, step))
  {
    match step
    case Deliver(e, now) =>
      if Recognized(e) && (e.sourceId, SourceOf(e)) !in s.processed {
        var begun := s.(processed := s.processed + {(e.sourceId, SourceOf(e))});
        var entry := Entry(e.payload.person, PointsOf(e), SourceOf(e), e.sourceId, now);
        assert forall p :: Balance(begun, p) == Balance(s, p);
        RecordPointsProjects(begun, entry);
        assert forall p :: Balance(After(s, step), p) == Balance(RecordPoints(begun, entry), p);
      }
    case Adjust(person, points, id, now) => RecordPointsProjects(s, Entry(person, points, ManualAdjustment, id, now));
    case Forget(keys) => assert forall p :: Balance(After(s, step), p) == Balance(s, p);
  }

  /** At every point of every run each balance is the sum of its person's ledger rows, and no key repeats. */
  lemma {:induction false} BalanceIsLedgerSum(steps: seq<Step>)
    ensures KeysUnique(Run(steps).ledger) && forall p :: Balance(Run(steps), p) == Sum(Run(steps).ledger, p)
  {
    if steps != [] {
      BalanceIsLedgerSum(steps[..|steps| - 1]);
      AfterProjects(Run(steps[..|steps| - 1]), steps[|steps| - 1]);
    }
  }

  // ---------- the ledger depends only on which events were delivered ----------

  /** A ledger row without the time it was written. */
  datatype Credit = Credit(person: Id, points: int, source: SourceType, sourceId: Id)

  function CreditOf(e: Entry): Credit {
    Credit(e.person, e.points, e.source, e.sourceId)
  }

  function StepCredit(step: Step): Option<Credit> {
    match step
    case Deliver(e, _) => if Recognized(e) then Some(Credit(e.payload.person, PointsOf(e), SourceOf(e), e.sourceId)) else None
    case Adjust(person, points, id, _) => Some(Credit(person, points, ManualAdjustment, id))
    case Forget(_) => None
  }

  /** What was delivered or adjusted, each thing once however often it came. */
  function StepCredits(steps: seq<Step>): set<Credit> {
    set i | 0 <= i < |steps| && StepCredit(steps[i]).Some? :: StepCredit(steps[i]).value
  }

  function LedgerCredits(ledger: seq<Entry>): set<Credit> {
    set i | 0 <= i < |ledger| :: CreditOf(ledger[i])
  }

  predicate SameType(a: Payload, b: Payload) {
    (a.Hours? && b.Hours?) || (a.ModuleDone? && b.ModuleDone?) || (a.CourseDone? && b.CourseDone?)
  }

  /** An id names one event: deliveries with the same type and id carry the same payload. */
  ghost predicate IdsNameOneThing(steps: seq<Step>) {
    && (forall i, j :: 0 <= i < |steps| && 0 <= j < |steps| && steps[i].Deliver? && steps[j].Deliver?
          && SameType(steps[i].event.payload, steps[j].event.payload) && steps[i].event.sourceId == steps[j].event.sourceId
          ==> steps[i].event == steps[j].event)
    && (forall i, j :: 0 <= i < |steps| && 0 <= j < |steps| && steps[i].Adjust? && steps[j].Adjust? && steps[i].id == steps[j].id
          ==> steps[i].person == steps[j].person && steps[i].points == steps[j].points)
  }

  lemma PrefixNames(steps: seq<Step>)
    requires IdsNameOneThing(steps) && steps != []
    ensures IdsNameOneThing(steps[..|steps| - 1])
  {
  }

  lemma SameKeySameCredit(steps: seq<Step>, a: Credit, b: Credit)
    requires IdsNameOneThing(steps) && a in StepCredits(steps) && b in StepCredits(steps)
    requires a.source == b.source && a.sourceId == b.sourceId
    ensures a == b
  {
  }

  lemma StepCreditsSnoc(steps: seq<Step>, step: Step)
    ensures StepCredits(steps + [step]) == StepCredits(steps) + if StepCredit(step).Some? then {StepCredit(step).value} else {}
  {
    var all := steps + [step];
    forall c ensures c in StepCredits(all) <==> c in StepCredits(steps) || StepCredit(step) == Some(c) {
      if c in StepCredits(steps) {
        var i :| 0 <= i < |steps| && StepCredit(steps[i]).Some? && StepCredit(steps[i]).value == c;
        assert all[i] == steps[i];
      }
      if StepCredit(step) == Some(c) {
        assert all[|steps|] == step;
      }
    }
  }

  lemma LedgerCreditsSnoc(ledger: seq<Entry>, e: Entry)
    ensures LedgerCredits(ledger + [e]) == LedgerCredits(ledger) + {CreditOf(e)}
  {
    var all := ledger + [e];
    forall c ensures c in LedgerCredits(all) <==> c in LedgerCredits(ledger) || c == CreditOf(e) {
      if c in LedgerCredits(ledger) {
        var i :| 0 <= i < |ledger| && CreditOf(ledger[i]) == c;
        assert all[i] == ledger[i];
      }
      if c == CreditOf(e) {
        assert all[|ledger|] == e;
      }
    }
  }

  predicate Delivers(step: Step, key: ProcessedKey) {
    step.Deliver? && Recognized(step.event) && key == (step.event.sourceId, SourceOf(step.event))
  }

  predicate WasDelivered(steps: seq<Step>, key: ProcessedKey) {
    exists i :: 0 <= i < |steps| && Delivers(steps[i], key)
  }

  /** Every processed key was delivered before. */
  ghost predicate ProcessedWasDelivered(steps: seq<Step>, s: State) {
    forall key :: key in s.processed ==> WasDelivered(steps, key)
  }

  lemma {:induction false} RunProcessedWasDelivered(steps: seq<Step>)
    ensures ProcessedWasDelivered(steps, Run(steps))
  {
    if steps != [] {
      var front, last := steps[..|steps| - 1], steps[|steps| - 1];
      RunProcessedWasDelivered(front);
      forall key | key in Run(steps).processed ensures WasDelivered(steps, key) {
        if key in Run(front).processed {
          var i :| 0 <= i < |front| && Delivers(front[i], key);
          assert Delivers(steps[i], key);
        } else {
          assert Delivers(steps[|steps| - 1], key);
        }
      }
    }
  }

  /** Writing a credit whose key is free, or whose key already holds this very credit, adds exactly it. */
  lemma RecordAddsCredit(s: State, e: Entry)
    requires forall c :: c in LedgerCredits(s.ledger) && c.source == e.source && c.sourceId == e.sourceId ==> c == CreditOf(e)
    ensures LedgerCredits(RecordPoints(s, e).ledger) == LedgerCredits(s.ledger) + {CreditOf(e)}
  {
    if HasKey(s.ledger, e.source, e.sourceId) {
      var i :| 0 <= i < |s.ledger| && s.ledger[i].source == e.source && s.ledger[i].sourceId == e.sourceId;
      assert CreditOf(s.ledger[i]) in LedgerCredits(s.ledger);
    } else {
      LedgerCreditsSnoc(s.ledger, e);
    }
  }

  /** The ledger holds exactly one row for each distinct delivered event and adjustment. */
  lemma {:induction false} LedgerHoldsEachCreditOnce(steps: seq<Step>)
    requires IdsNameOneThing(steps)
    ensures LedgerCredits(Run(steps).ledger) == StepCredits(steps)
  {
    if steps != [] {
      var front, last := steps[..|steps| - 1], steps[|steps| - 1];
      assert front + [last] == steps;
      PrefixNames(steps);
      LedgerHoldsEachCreditOnce(front);
      StepCreditsSnoc(front, last);
      var s := Run(front);
      if StepCredit(last).Some? {
        var credit := StepCredit(last).value;
        assert credit in StepCredits(steps);
        forall c | c in LedgerCredits(s.ledger) && c.source == credit.source && c.sourceId == credit.sourceId ensures c == credit {
          SameKeySameCredit(steps, c, credit);
        }
        if last.Adjust? {
          RecordAddsCredit(s, Entry(last.person, last.points, ManualAdjustment, last.id, last.now));
        } else {
          DeliveryAddsCredit(front, last);
        }
      }
    }
  }

  lemma DeliveryAddsCredit(front: seq<Step>, last: Step)
    requires IdsNameOneThing(front + [last]) && last.Deliver? && Recognized(last.event)
    requires LedgerCredits(Run(front).ledger) == StepCredits(front)
    requires forall c :: c in LedgerCredits(Run(front).ledger) && c.source == SourceOf(last.event) && c.sourceId == last.event.sourceId
               ==> c == StepCredit(last).value
    ensures LedgerCredits(After(Run(front), last).ledger) == StepCredits(front) + {StepCredit(last).value}
  {
    var s, e := Run(front), last.event;
    var key := (e.sourceId, SourceOf(e));
    if key in s.processed {
      RunProcessedWasDelivered(front);
      var i :| 0 <= i < |front| && Delivers(front[i], key);
      assert (front + [last])[i] == front[i] && (front + [last])[|front|] == last;
      assert StepCredit(front[i]) == StepCredit(last);
      assert StepCredit(front[i]).value in StepCredits(front);
    } else {
      RecordAddsCredit(s.(processed := s.processed + {key}), Entry(e.payload.person, PointsOf(e), SourceOf(e), e.sourceId, last.now));
    }
  }

  /** The total a set of credits gives one person. */
  ghost function Worth(credits: set<Credit>, person: Id): int {
    if credits == {} then 0
    else
      var c :| c in credits;
      (if c.person == person then c.points else 0) + Worth(credits - {c}, person)
  }

  lemma {:induction false} WorthRemove(credits: set<Credit>, x: Credit, person: Id)
    requires x in credits
    ensures Worth(credits, person) == (if x.person == person then x.points else 0) + Worth(credits - {x}, person)
    decreases credits
  {
    var c :| c in credits && Worth(credits, person) == (if c.person == person then c.points else 0) + Worth(credits - {c}, person);
    if c != x {
      WorthRemove(credits - {c}, x, person);
      WorthRemove(credits - {x}, c, person);
      assert credits - {c} - {x} == credits - {x} - {c};
    }
  }

  lemma {:induction false} SumIsWorth(ledger: seq<Entry>, person: Id)
    requires KeysUnique(ledger)
    ensures Sum(ledger, person) == Worth(LedgerCredits(ledger), person)
  {
    if ledger != [] {
      var front, last := ledger[..|ledger| - 1], ledger[|ledger| - 1];
      assert front + [last] == ledger;
      SumIsWorth(front, person);
      LedgerCreditsSnoc(front, last);
      assert CreditOf(last) !in LedgerCredits(front);
      WorthRemove(LedgerCredits(ledger), CreditOf(last), person);
      assert LedgerCredits(ledger) - {CreditOf(last)} == LedgerCredits(front);
    }
  }

  /**
   * Each balance is the worth of the set of things delivered and adjusted, so neither the order nor the
   * number of deliveries, nor any forgotten dedupe row, can change it.
   */
  lemma BalanceIsWorthOfDistinct(steps: seq<Step>, person: Id)
    requires IdsNameOneThing(steps)
    ensures Balance(Run(steps), person) == Worth(StepCredits(steps), person)
  {
    BalanceIsLedgerSum(steps);
    LedgerHoldsEachCreditOnce(steps);
    SumIsWorth(Run(steps).ledger, person);
  }

  /** The same delivery or adjustment, whenever it came. */
  predicate SameThing(x: Step, y: Step) {
    (x.Deliver? && y.Deliver? && x.event == y.event)
    || (x.Adjust? && y.Adjust? && x.person == y.person && x.points == y.points && x.id == y.id)
  }

  ghost predicate AllIn(a: seq<Step>, b: seq<Step>) {
    forall i :: 0 <= i < |a| && !a[i].Forget? ==> exists j :: 0 <= j < |b| && SameThing(a[i], b[j])
  }

  lemma CreditsAllIn(a: seq<Step>, b: seq<Step>)
    requires AllIn(a, b)
    ensures StepCredits(a) <= StepCredits(b)
  {
    forall c | c in StepCredits(a) ensures c in StepCredits(b) {
      var i :| 0 <= i < |a| && StepCredit(a[i]).Some? && StepCredit(a[i]).value == c;
      var j :| 0 <= j < |b| && SameThing(a[i], b[j]);
      assert StepCredit(b[j]) == StepCredit(a[i]);
    }
  }

  /** Two runs over the same things give the same balances, in whatever order and however often they came. */
  lemma DeliveryOrderIsIrrelevant(a: seq<Step>, b: seq<Step>, person: Id)
    requires IdsNameOneThing(a) && IdsNameOneThing(b) && AllIn(a, b) && AllIn(b, a)
    ensures Balance(Run(a), person) == Balance(Run(b), person)
  {
    hide Run, Balance, Worth, StepCredits, AllIn, IdsNameOneThing;
    CreditsAllIn(a, b);
    CreditsAllIn(b, a);
    assert StepCredits(a) == StepCredits(b);
    BalanceIsWorthOfDistinct(a, person);
    BalanceIsWorthOfDistinct(b, person);
  }

  // ---------- what rows and balances are worth, in terms of what was delivered ----------

  /** The row pays for this step: its person, its key, and the points such an event is worth. */
  ghost predicate PaysFor(row: Entry, step: Step) {
    match step
    case Deliver(e, _) =>
      (match e.payload
       case Hours(person, minutes, _) => IsHoursRow(row, e.sourceId, person, minutes)
       case ModuleDone(person) => row.source == ModuleCompleted && row.sourceId == e.sourceId && row.person == person && row.points == 25
       case CourseDone(person, _) => row.source == CourseCompleted && row.sourceId == e.sourceId && row.person == person && row.points == 100
       case Unrecognized(_) => false)
    case Adjust(person, points, id, _) =>
      row.source == ManualAdjustment && row.sourceId == id && row.person == person && row.points == points
    case Forget(_) => false
  }

  predicate Pays(step: Step) {
    step.Adjust? || (step.Deliver? && !step.event.payload.Unrecognized?)
  }

  lemma CreditPays(row: Entry, step: Step)
    requires StepCredit(step) == Some(CreditOf(row))
    ensures PaysFor(row, step)
  {
    if step.Deliver? && step.event.payload.Hours? {
      HoursPayTenAnHour(step.event.payload.durationMinutes);
    }
  }

  /** Every row pays for some delivery or adjustment of the run, and every one of those is paid by exactly one row. */
  lemma LedgerPaysEachOnce(steps: seq<Step>)
    requires IdsNameOneThing(steps)
    ensures var ledger := Run(steps).ledger;
      && (forall i :: 0 <= i < |ledger| ==> exists k :: 0 <= k < |steps| && PaysFor(ledger[i], steps[k]))
      && (forall k :: 0 <= k < |steps| && Pays(steps[k]) ==> exists i :: 0 <= i < |ledger| && PaysFor(ledger[i], steps[k]))
      && (forall i, j, k | 0 <= i < |ledger| && 0 <= j < |ledger| && 0 <= k < |steps| && PaysFor(ledger[i], steps[k])
            && PaysFor(ledger[j], steps[k]) :: i == j)
  {
    hide PaysFor;
    var ledger := Run(steps).ledger;
    LedgerHoldsEachCreditOnce(steps);
    BalanceIsLedgerSum(steps);
    forall i | 0 <= i < |ledger| ensures exists k :: 0 <= k < |steps| && PaysFor(ledger[i], steps[k]) {
      assert CreditOf(ledger[i]) in LedgerCredits(ledger);
      var k :| 0 <= k < |steps| && StepCredit(steps[k]).Some? && StepCredit(steps[k]).value == CreditOf(ledger[i]);
      CreditPays(ledger[i], steps[k]);
    }
    forall k | 0 <= k < |steps| && Pays(steps[k]) ensures exists i :: 0 <= i < |ledger| && PaysFor(ledger[i], steps[k]) {
      assert StepCredit(steps[k]).value in StepCredits(steps);
      var i :| 0 <= i < |ledger| && CreditOf(ledger[i]) == StepCredit(steps[k]).value;
      CreditPays(ledger[i], steps[k]);
    }
    forall i, j, k | 0 <= i < |ledger| && 0 <= j < |ledger| && 0 <= k < |steps| && PaysFor(ledger[i], steps[k])
        && PaysFor(ledger[j], steps[k]) ensures i == j {
      SameKeyPaid(ledger[i], ledger[j], steps[k]);
    }
  }

  lemma SameKeyPaid(a: Entry, b: Entry, step: Step)
    requires PaysFor(a, step) && PaysFor(b, step)
    ensures a.source == b.source && a.sourceId == b.sourceId
  {
  }

  ghost function HoursOf(steps: seq<Step>, person: Id): set<(Id, int)> {
    set i | 0 <= i < |steps| && steps[i].Deliver? && steps[i].event.payload.Hours? && steps[i].event.payload.person == person
      :: (steps[i].event.sourceId, steps[i].event.payload.durationMinutes)
  }

  ghost function ModulesOf(steps: seq<Step>, person: Id): set<Id> {
    set i | 0 <= i < |steps| && steps[i].Deliver? && steps[i].event.payload.ModuleDone? && steps[i].event.payload.person == person
      :: steps[i].event.sourceId
  }

  ghost function CoursesOf(steps: seq<Step>, person: Id): set<Id> {
    set i | 0 <= i < |steps| && steps[i].Deliver? && steps[i].event.payload.CourseDone? && steps[i].event.payload.person == person
      :: steps[i].event.sourceId
  }

  ghost function AdjustmentsOf(steps: seq<Step>, person: Id): set<(Id, int)> {
    set i | 0 <= i < |steps| && steps[i].Adjust? && steps[i].person == person :: (steps[i].id, steps[i].points)
  }

  ghost function Total(s: set<(Id, int)>): int {
    if s == {} then 0
    else
      var x :| x in s;
      x.1 + Total(s - {x})
  }

  lemma {:induction false} TotalRemove(s: set<(Id, int)>, y: (Id, int))
    requires y in s
    ensures Total(s) == y.1 + Total(s - {y})
    decreases s
  {
    var x :| x in s && Total(s) == x.1 + Total(s - {x});
    if x != y {
      TotalRemove(s - {x}, y);
      TotalRemove(s - {y}, x);
      assert s - {x} - {y} == s - {y} - {x};
    }
  }

  lemma TotalAdd(s: set<(Id, int)>, y: (Id, int))
    requires y !in s
    ensures Total(s + {y}) == Total(s) + y.1 && |s + {y}| == |s| + 1
  {
    TotalRemove(s + {y}, y);
    assert s + {y} - {y} == s;
  }

  lemma HoursSnoc(steps: seq<Step>, step: Step, person: Id)
    ensures HoursOf(steps + [step], person) == HoursOf(steps, person)
      + if step.Deliver? && step.event.payload.Hours? && step.event.payload.person == person
        then {(step.event.sourceId, step.event.payload.durationMinutes as int)} else {}
  {
    var all := steps + [step];
    assert all[|steps|] == step && forall i :: 0 <= i < |steps| ==> all[i] == steps[i];
  }

  lemma DoneSnoc(steps: seq<Step>, step: Step, person: Id)
    ensures ModulesOf(steps + [step], person) == ModulesOf(steps, person)
      + if step.Deliver? && step.event.payload.ModuleDone? && step.event.payload.person == person then {step.event.sourceId} else {}
    ensures CoursesOf(steps + [step], person) == CoursesOf(steps, person)
      + if step.Deliver? && step.event.payload.CourseDone? && step.event.payload.person == person then {step.event.sourceId} else {}
  {
    var all := steps + [step];
    assert all[|steps|] == step && forall i :: 0 <= i < |steps| ==> all[i] == steps[i];
  }

  lemma AdjustmentsSnoc(steps: seq<Step>, step: Step, person: Id)
    ensures AdjustmentsOf(steps + [step], person) == AdjustmentsOf(steps, person)
      + if step.Adjust? && step.person == person then {(step.id, step.points)} else {}
  {
    var all := steps + [step];
    assert all[|steps|] == step && forall i :: 0 <= i < |steps| ==> all[i] == steps[i];
  }

  predicate HadBefore(steps: seq<Step>, step: Step) {
    exists i :: 0 <= i < |steps| && StepCredit(steps[i]) == StepCredit(step)
  }

  /** A step moves one balance by its credit, and only the first time it comes. */
  lemma BalanceMoves(front: seq<Step>, last: Step, person: Id)
    requires IdsNameOneThing(front + [last])
    ensures var credit := StepCredit(last);
      Balance(Run(front + [last]), person) == Balance(Run(front), person)
        + if credit.Some? && credit.value.person == person && !HadBefore(front, last) then credit.value.points else 0
  {
    hide Run, Balance;
    assert (front + [last])[..|front|] == front;
    PrefixNames(front + [last]);
    BalanceIsWorthOfDistinct(front, person);
    BalanceIsWorthOfDistinct(front + [last], person);
    StepCreditsSnoc(front, last);
    var credit := StepCredit(last);
    if credit.Some? {
      var all := StepCredits(front) + {credit.value};
      assert HadBefore(front, last) <==> credit.value in StepCredits(front);
      if HadBefore(front, last) {
        assert all == StepCredits(front);
      } else {
        WorthRemove(all, credit.value, person);
        assert all - {credit.value} == StepCredits(front);
      }
    } else {
      assert StepCredits(front) + {} == StepCredits(front);
    }
  }

  /** Under one name for one thing, a credit was had before exactly when its id was counted before. */
  lemma HadMeansCounted(front: seq<Step>, last: Step)
    requires IdsNameOneThing(front + [last]) && Pays(last)
    ensures match last
      case Deliver(e, _) =>
        (match e.payload
         case Hours(person, minutes, _) => HadBefore(front, last) <==> (e.sourceId, minutes as int) in HoursOf(front, person)
         case ModuleDone(person) => HadBefore(front, last) <==> e.sourceId in ModulesOf(front, person)
         case CourseDone(person, _) => HadBefore(front, last) <==> e.sourceId in CoursesOf(front, person)
         case Unrecognized(_) => true)
      case Adjust(person, points, id, _) => HadBefore(front, last) <==> (id, points) in AdjustmentsOf(front, person)
      case Forget(_) => true
  {
    var all := front + [last];
    assert all[|front|] == last && forall i :: 0 <= i < |front| ==> all[i] == front[i];
    if HadBefore(front, last) {
      var i :| 0 <= i < |front| && StepCredit(front[i]) == StepCredit(last);
      assert all[i] == front[i];
    }
  }

  /** What a balance holds beyond modules, courses and adjustments. */
  ghost function HourPart(steps: seq<Step>, person: Id): int {
    Balance(Run(steps), person) - 25 * |ModulesOf(steps, person)| - 100 * |CoursesOf(steps, person)| - Total(AdjustmentsOf(steps, person))
  }

  predicate HoursStep(step: Step, person: Id) {
    step.Deliver? && step.event.payload.Hours? && step.event.payload.person == person
  }

  lemma OtherSetsStay(front: seq<Step>, last: Step, person: Id)
    requires HoursStep(last, person) || !Pays(last) || (last.Deliver? && last.event.payload.person != person) || (last.Adjust? && last.person != person)
    ensures ModulesOf(front + [last], person) == ModulesOf(front, person) && CoursesOf(front + [last], person) == CoursesOf(front, person)
    ensures AdjustmentsOf(front + [last], person) == AdjustmentsOf(front, person)
    ensures !HoursStep(last, person) ==> HoursOf(front + [last], person) == HoursOf(front, person)
  {
    hide HoursOf, ModulesOf, CoursesOf, AdjustmentsOf;
    HoursSnoc(front, last, person);
    DoneSnoc(front, last, person);
    AdjustmentsSnoc(front, last, person);
  }

  /** A first delivery of hours moves the hour part by a sixth of its minutes, up to half a point. */
  lemma HoursMove(front: seq<Step>, last: Step, person: Id)
    requires IdsNameOneThing(front + [last]) && HoursStep(last, person)
    ensures var x, all := (last.event.sourceId, last.event.payload.durationMinutes as int), front + [last];
      && HoursOf(all, person) == HoursOf(front, person) + {x}
      && (x in HoursOf(front, person) ==> HourPart(all, person) == HourPart(front, person))
      && (x !in HoursOf(front, person) ==>
            && Total(HoursOf(all, person)) == Total(HoursOf(front, person)) + x.1 && |HoursOf(all, person)| == |HoursOf(front, person)| + 1
            && x.1 - 3 < 6 * (HourPart(all, person) - HourPart(front, person)) <= x.1 + 3)
  {
    hide Run, Balance, HoursOf, ModulesOf, CoursesOf, AdjustmentsOf, IdsNameOneThing, HadBefore, ComputeHoursApprovedPoints;
    var x := (last.event.sourceId, last.event.payload.durationMinutes as int);
    HoursSnoc(front, last, person);
    OtherSetsStay(front, last, person);
    BalanceMoves(front, last, person);
    HadMeansCounted(front, last);
    HoursPayTenAnHour(last.event.payload.durationMinutes);
    if x !in HoursOf(front, person) {
      TotalAdd(HoursOf(front, person), x);
    }
  }

  lemma ModuleMoves(front: seq<Step>, last: Step, person: Id)
    requires IdsNameOneThing(front + [last]) && last.Deliver? && last.event.payload.ModuleDone? && last.event.payload.person == person
    ensures HourPart(front + [last], person) == HourPart(front, person) && HoursOf(front + [last], person) == HoursOf(front, person)
  {
    hide Run, Balance, HoursOf, ModulesOf, CoursesOf, AdjustmentsOf, IdsNameOneThing, HadBefore, Total;
    HoursSnoc(front, last, person);
    DoneSnoc(front, last, person);
    AdjustmentsSnoc(front, last, person);
    BalanceMoves(front, last, person);
    HadMeansCounted(front, last);
    OneMoreId(ModulesOf(front, person), last.event.sourceId);
    assert CoursesOf(front + [last], person) == CoursesOf(front, person);
  }

  lemma CourseMoves(front: seq<Step>, last: Step, person: Id)
    requires IdsNameOneThing(front + [last]) && last.Deliver? && last.event.payload.CourseDone? && last.event.payload.person == person
    ensures HourPart(front + [last], person) == HourPart(front, person) && HoursOf(front + [last], person) == HoursOf(front, person)
  {
    hide Run, Balance, HoursOf, ModulesOf, CoursesOf, AdjustmentsOf, IdsNameOneThing, HadBefore, Total;
    HoursSnoc(front, last, person);
    DoneSnoc(front, last, person);
    AdjustmentsSnoc(front, last, person);
    BalanceMoves(front, last, person);
    HadMeansCounted(front, last);
    OneMoreId(CoursesOf(front, person), last.event.sourceId);
    assert ModulesOf(front + [last], person) == ModulesOf(front, person);
  }

  lemma OneMoreId(s: set<Id>, x: Id)
    ensures |s + {x}| == |s| + (if x in s then 0 else 1) && |s + {}| == |s|
  {
    if x in s {
      assert s + {x} == s;
    }
    assert s + {} == s;
  }

  lemma AdjustMoves(front: seq<Step>, last: Step)
    requires IdsNameOneThing(front + [last]) && last.Adjust?
    ensures HourPart(front + [last], last.person) == HourPart(front, last.person)
    ensures HoursOf(front + [last], last.person) == HoursOf(front, last.person)
  {
    hide Run, Balance, HoursOf, ModulesOf, CoursesOf, AdjustmentsOf, IdsNameOneThing, HadBefore;
    var person, x := last.person, (last.id, last.points);
    HoursSnoc(front, last, person);
    DoneSnoc(front, last, person);
    AdjustmentsSnoc(front, last, person);
    BalanceMoves(front, last, person);
    HadMeansCounted(front, last);
    if x in AdjustmentsOf(front, person) {
      assert AdjustmentsOf(front, person) + {x} == AdjustmentsOf(front, person);
    } else {
      TotalAdd(AdjustmentsOf(front, person), x);
    }
  }

  lemma OthersStay(front: seq<Step>, last: Step, person: Id)
    requires IdsNameOneThing(front + [last])
    requires !Pays(last) || (last.Deliver? && last.event.payload.person != person) || (last.Adjust? && last.person != person)
    ensures HourPart(front + [last], person) == HourPart(front, person) && HoursOf(front + [last], person) == HoursOf(front, person)
  {
    hide Run, Balance, HoursOf, ModulesOf, CoursesOf, AdjustmentsOf, IdsNameOneThing, HadBefore;
    OtherSetsStay(front, last, person);
    BalanceMoves(front, last, person);
  }

  /**
   * A balance by kind: 25 points for each distinct module, 100 for each distinct course, each adjustment once, and
   * for the hours a sixth of the distinct delivered minutes, up to half a point for each entry.
   */
  lemma {:induction false} BalanceByKind(steps: seq<Step>, person: Id)
    requires IdsNameOneThing(steps)
    ensures var hours := HoursOf(steps, person);
      var hourPart := Balance(Run(steps), person) - 25 * |ModulesOf(steps, person)| - 100 * |CoursesOf(steps, person)|
                      - Total(AdjustmentsOf(steps, person));
      Total(hours) - 3 * |hours| <= 6 * hourPart <= Total(hours) + 3 * |hours|
    decreases |steps|
  {
    hide Run, Balance, HoursOf, ModulesOf, CoursesOf, AdjustmentsOf, IdsNameOneThing;
    if steps == [] {
      NothingYet(person);
    } else {
      var front, last := steps[..|steps| - 1], steps[|steps| - 1];
      assert front + [last] == steps;
      PrefixNames(steps);
      BalanceByKind(front, person);
      if HoursStep(last, person) {
        HoursMove(front, last, person);
        var x := (last.event.sourceId, last.event.payload.durationMinutes as int);
        assert x in HoursOf(front, person) ==> HoursOf(front, person) + {x} == HoursOf(front, person);
      } else if last.Deliver? && last.event.payload.ModuleDone? && last.event.payload.person == person {
        ModuleMoves(front, last, person);
      } else if last.Deliver? && last.event.payload.CourseDone? && last.event.payload.person == person {
        CourseMoves(front, last, person);
      } else if last.Adjust? && last.person == person {
        AdjustMoves(front, last);
      } else {
        OthersStay(front, last, person);
      }
    }
  }

  lemma NothingYet(person: Id)
    ensures Balance(Run([]), person) == 0 && HoursOf([], person) == {} && AdjustmentsOf([], person) == {}
    ensures ModulesOf([], person) == {} && CoursesOf([], person) == {}
  {
  }

  // ---------- redelivery changes nothing, even when its dedupe row is gone ----------

  ghost predicate Covered(s: State, key: StreakKey, date: int) {
    key in s.streaks && s.streaks[key].lastActivityDate.Some? && Week(date) <= Week(s.streaks[key].lastActivityDate.value)
  }

  /** The event's points are in the ledger and its streak is at or past its week. */
  ghost predicate Applied(s: State, e: Inbound) {
    && Recognized(e) && HasKey(s.ledger, SourceOf(e), e.sourceId)
    && (ActivityOf(e).Some? ==> Covered(s, ActivityOf(e).value.0, ActivityOf(e).value.1))
  }

  lemma HasKeySnoc(ledger: seq<Entry>, e: Entry, source: SourceType, id: Id)
    ensures HasKey(ledger + [e], source, id) <==> HasKey(ledger, source, id) || (e.source == source && e.sourceId == id)
  {
    var all := ledger + [e];
    if HasKey(ledger, source, id) {
      var i :| 0 <= i < |ledger| && ledger[i].source == source && ledger[i].sourceId == id;
      assert all[i] == ledger[i];
    }
    assert all[|ledger|] == e;
  }

  lemma UpdateCovers(s: State, key: StreakKey, date: int)
    ensures Covered(UpdateStreak(s, key, date), key, date)
    ensures forall k, d :: Covered(s, k, d) ==> Covered(UpdateStreak(s, key, date), k, d)
  {
    var before := StreakRow(s, key);
    var next := ApplyStreakActivity(before, date, MAX_FREEZES).state;
    WeekMovesForward(before, date, MAX_FREEZES);
    TruncationKeepsWeek(next.lastActivityDate.value);
    if before.None? || before.value.lastActivityDate.None? {
    } else {
      WeeksBetweenIsExact(before.value.lastActivityDate.value, date);
    }
  }

  lemma AppliedStays(s: State, step: Step, e: Inbound)
    requires Applied(s, e)
    ensures Applied(After(s, step), e)
  {
    match step
    case Deliver(other, now) =>
      if Recognized(other) {
        HasKeySnoc(s.ledger, Entry(other.payload.person, PointsOf(other), SourceOf(other), other.sourceId, now), SourceOf(e), e.sourceId);
        if ActivityOf(other).Some? {
          var begun := s.(processed := s.processed + {(other.sourceId, SourceOf(other))});
          var credited := RecordPoints(begun, Entry(other.payload.person, PointsOf(other), SourceOf(other), other.sourceId, now));
          UpdateCovers(credited, ActivityOf(other).value.0, ActivityOf(other).value.1);
          if ActivityOf(e).Some? {
            assert Covered(credited, ActivityOf(e).value.0, ActivityOf(e).value.1);
          }
        }
      }
    case Adjust(person, points, id, now) =>
      HasKeySnoc(s.ledger, Entry(person, points, ManualAdjustment, id, now), SourceOf(e), e.sourceId);
    case Forget(_) =>
  }

  lemma FirstDeliveryApplies(s: State, e: Inbound, now: int)
    requires Recognized(e) && (e.sourceId, SourceOf(e)) !in s.processed
    ensures Applied(Consume(s, e, now), e)
  {
    var begun := s.(processed := s.processed + {(e.sourceId, SourceOf(e))});
    var entry := Entry(e.payload.person, PointsOf(e), SourceOf(e), e.sourceId, now);
    HasKeySnoc(s.ledger, entry, SourceOf(e), e.sourceId);
    if ActivityOf(e).Some? {
      UpdateCovers(RecordPoints(begun, entry), ActivityOf(e).value.0, ActivityOf(e).value.1);
    }
  }

  /** Everything delivered so far stays applied. */
  lemma {:induction false} DeliveredStaysApplied(steps: seq<Step>, k: nat)
    requires IdsNameOneThing(steps) && k < |steps| && steps[k].Deliver? && Recognized(steps[k].event)
    ensures Applied(Run(steps), steps[k].event)
    decreases |steps|
  {
    var front, last := steps[..|steps| - 1], steps[|steps| - 1];
    PrefixNames(steps);
    var s := Run(front);
    if k < |front| {
      DeliveredStaysApplied(front, k);
      AppliedStays(s, last, steps[k].event);
    } else {
      var e := last.event;
      var key := (e.sourceId, SourceOf(e));
      if key in s.processed {
        RunProcessedWasDelivered(front);
        var i :| 0 <= i < |front| && Delivers(front[i], key);
        assert steps[i] == front[i];
        DeliveredStaysApplied(front, i);
      } else {
        FirstDeliveryApplies(s, e, last.now);
      }
    }
  }

  lemma AppliedRedeliveryIsNoOp(s: State, e: Inbound, now: int)
    requires Applied(s, e)
    ensures Consume(s, e, now) == s.(processed := s.processed + {(e.sourceId, SourceOf(e))})
  {
    var key := (e.sourceId, SourceOf(e));
    if key in s.processed {
      assert s.processed + {key} == s.processed;
    } else if ActivityOf(e).Some? {
      var activity := ActivityOf(e).value;
      OldActivityIsNoOp(s.streaks[activity.0], activity.1, MAX_FREEZES);
    }
  }

  /**
   * Delivering an event again at any later point, whatever was forgotten in between, changes no ledger
   * row, balance or streak and publishes nothing.
   */
  lemma RedeliveryChangesNothing(steps: seq<Step>, k: nat, now: int)
    requires IdsNameOneThing(steps) && k < |steps| && steps[k].Deliver?
    ensures var s, again := Run(steps), Consume(Run(steps), steps[k].event, now);
      again.ledger == s.ledger && again.balances == s.balances && again.streaks == s.streaks && again.published == s.published
  {
    if Recognized(steps[k].event) {
      DeliveredStaysApplied(steps, k);
      AppliedRedeliveryIsNoOp(Run(steps), steps[k].event, now);
    }
  }

  // ---------- every streak row is the closed form over the delivered dates ----------

  /** The dates delivered for one streak, redeliveries included, in delivery order. */
  function Dates(steps: seq<Step>, key: StreakKey): seq<int> {
    if steps == [] then []
    else
      var last := steps[|steps| - 1];
      Dates(steps[..|steps| - 1], key)
      + if last.Deliver? && last.event.payload.Hours? && (last.event.payload.person, ShiftCadence) == key then [last.event.payload.approvedAt]
        else if last.Deliver? && last.event.payload.CourseDone? && (last.event.payload.person, TrainingCadence) == key then
          [last.event.payload.completedAt]
        else []
  }

  ghost predicate RowFollows(s: State, key: StreakKey, dates: seq<int>) {
    StreakRow(s, key) == match StreakAfter(dates, MAX_FREEZES) case None => None case Some(state) => Some(Stored(state))
  }

  lemma UpdateFollows(s: State, key: StreakKey, dates: seq<int>, date: int)
    requires RowFollows(s, key, dates)
    ensures RowFollows(UpdateStreak(s, key, date), key, dates + [date])
  {
    assert (dates + [date])[..|dates|] == dates;
    var before := StreakAfter(dates, MAX_FREEZES);
    if before.Some? {
      StoringLosesNothing(before.value, date, MAX_FREEZES);
      StoredIsStable(before.value);
    }
  }

  lemma StoredIsStable(s: StreakState)
    ensures Stored(Stored(s)) == Stored(s)
  {
  }

  /** A date no later than the row's week adds nothing to the closed form. */
  lemma CoveredDateAddsNothing(s: State, key: StreakKey, dates: seq<int>, date: int)
    requires RowFollows(s, key, dates) && Covered(s, key, date)
    ensures RowFollows(s, key, dates + [date])
  {
    UpdateFollows(s, key, dates, date);
    OldActivityIsNoOp(s.streaks[key], date, MAX_FREEZES);
  }

  lemma {:induction false} StreakRowIsClosedForm(steps: seq<Step>, key: StreakKey)
    requires IdsNameOneThing(steps)
    ensures RowFollows(Run(steps), key, Dates(steps, key))
    ensures Dates(steps, key) != [] ==>
      && StreakAfter(Dates(steps, key), 2).Some? && Records(Dates(steps, key)) != []
      && ClosedForm(StreakAfter(Dates(steps, key), 2).value, Records(Dates(steps, key)), 2)
  {
    if steps != [] {
      var front, last := steps[..|steps| - 1], steps[|steps| - 1];
      PrefixNames(steps);
      StreakRowIsClosedForm(front, key);
      StepFollows(front, last, key);
      assert front + [last] == steps;
    }
    if Dates(steps, key) != [] {
      StreakIsClosedForm(Dates(steps, key), MAX_FREEZES);
    }
  }

  lemma DatesSnoc(front: seq<Step>, last: Step, key: StreakKey)
    ensures Dates(front + [last], key) == Dates(front, key)
      + if last.Deliver? && ActivityOf(last.event).Some? && ActivityOf(last.event).value.0 == key then [ActivityOf(last.event).value.1] else []
  {
    assert (front + [last])[..|front|] == front;
  }

  lemma StepFollows(front: seq<Step>, last: Step, key: StreakKey)
    requires IdsNameOneThing(front + [last]) && RowFollows(Run(front), key, Dates(front, key))
    ensures RowFollows(After(Run(front), last), key, Dates(front + [last], key))
  {
    hide Run, Dates, StreakAfter, UpdateStreak, IdsNameOneThing, Stored;
    var steps, s := front + [last], Run(front);
    DatesSnoc(front, last, key);
    assert Dates(front, key) + [] == Dates(front, key);
    if last.Deliver? && ActivityOf(last.event).Some? {
      var e := last.event;
      var activity := ActivityOf(e).value;
      if (e.sourceId, SourceOf(e)) in s.processed {
        RunOf(front, last);
        DeliveredStaysApplied(steps, |front|);
        if activity.0 == key {
          CoveredDateAddsNothing(s, key, Dates(front, key), activity.1);
        }
      } else {
        var begun := s.(processed := s.processed + {(e.sourceId, SourceOf(e))});
        var credited := RecordPoints(begun, Entry(e.payload.person, PointsOf(e), SourceOf(e), e.sourceId, last.now));
        assert RowFollows(credited, key, Dates(front, key));
        if activity.0 == key {
          UpdateFollows(credited, key, Dates(front, key), activity.1);
        } else {
          OtherRowStays(credited, activity.0, activity.1, key);
        }
      }
    }
  }

  lemma RunOf(front: seq<Step>, last: Step)
    ensures Run(front + [last]) == After(Run(front), last)
  {
    assert (front + [last])[..|front|] == front;
  }

  lemma OtherRowStays(s: State, key: StreakKey, date: int, other: StreakKey)
    requires key != other
    ensures StreakRow(UpdateStreak(s, key, date), other) == StreakRow(s, other)
  {
  }

  /**
   * What a streak activity publishes, told by the weeks of its dates alone: nothing in a week already reached, the
   * new length after an extension, the freezes left after a forgiven gap, the lost length after an unforgiven one.
   */
  lemma UpdatePublishes(s: State, key: StreakKey, dates: seq<int>, date: int)
    requires RowFollows(s, key, dates)
    ensures var all, r := dates + [date], Records(dates + [date]);
      && r != []
      && UpdateStreak(s, key, date).published == s.published +
           if !OpensNewWeek(all, |dates|) then []
           else if !Gap(r, |r| - 1) then [StreakExtended(key.0, key.1, |Credited(r, 2)|)]
           else if |GapsUpTo(r, |r| - 1)| <= 2 then [StreakFrozen(key.0, key.1, 2 - |GapsUpTo(r, |r| - 1)|)]
           else [StreakBroken(key.0, key.1, |Credited(Records(dates), 2)|)]
  {
    hide Records, Gap, GapsUpTo, Credited, IsBestOverPrefixes, OpensNewWeek, ApplyStreakActivity;
    var all := dates + [date];
    assert all[..|dates|] == dates;
    var before := StreakAfter(dates, MAX_FREEZES);
    KindTellsTheGap(dates, date, MAX_FREEZES);
    StreakIsClosedForm(all, MAX_FREEZES);
    if before.Some? {
      StoringLosesNothing(before.value, date, MAX_FREEZES);
      StreakIsClosedForm(dates, MAX_FREEZES);
    } else {
      FirstActivityExtends(date);
    }
    assert s.published + [] == s.published;
  }

  lemma FirstActivityExtends(date: int)
    ensures ApplyStreakActivity(None, date, MAX_FREEZES).kind == Extended
  {
  }

  // ---------- rounding of hour points ----------

  function TotalMinutes(minutes: seq<nat>): nat {
    if minutes == [] then 0 else TotalMinutes(minutes[..|minutes| - 1]) + minutes[|minutes| - 1]
  }

  function TotalHourPoints(minutes: seq<nat>): int {
    if minutes == [] then 0
    else TotalHourPoints(minutes[..|minutes| - 1]) + ComputeHoursApprovedPoints(minutes[|minutes| - 1])
  }

  /** Rounding each entry separately costs at most half a point per entry. */
  lemma {:induction false} HourPointsStayClose(minutes: seq<nat>)
    ensures -3 * |minutes| <= 6 * TotalHourPoints(minutes) - TotalMinutes(minutes) <= 3 * |minutes|
  {
    if minutes != [] {
      HourPointsStayClose(minutes[..|minutes| - 1]);
    }
  }
}
