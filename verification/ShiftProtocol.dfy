/**
 * Applying, deciding, cancelling and withdrawing as concurrent calls: each reads first, and commits its
 * transaction later against whatever the tables hold by then.
 */
module ShiftProtocol {
  import opened Common
  import opened Shifts

  /** What a call read before its transaction. */
  datatype Call =
    | Applying(shift: Id, person: Id)
    | Accepting(app: Id)
    | Waitlisting(app: Id)
    | Declining(app: Id, from: AppStatus)
    | Cancelling(shift: Id)
    | Withdrawing(app: Id, wasAccepted: bool)

  datatype Decision = Accept | Decline | Waitlist

  datatype System = System(db: Db, calls: map<Id, Call>)

  datatype Step =
    | BeginApply(call: Id, shift: Id, person: Id, now: int)
    | BeginDecide(call: Id, app: Id, decision: Decision, trainingSatisfied: bool)
    | BeginCancel(call: Id, shift: Id, hoursApproved: bool)
    | BeginWithdraw(call: Id, app: Id, caller: Id)
    | Commit(call: Id, freshId: Id, now: int, pick: Option<Id>)
    | Abort(call: Id)

  // ---------- the reads: `None` is a refused call ----------

  function ReadApply(db: Db, shift: Id, person: Id, now: int): Option<Call> {
    if shift !in db.shifts || db.shifts[shift].status != Scheduled || db.shifts[shift].startsAt <= now then None
    else if HasActive(db, shift, person) then None
    else Some(Applying(shift, person))
  }

  function ReadDecide(db: Db, app: Id, decision: Decision, trainingSatisfied: bool): Option<Call> {
    if app !in db.apps then None
    else
      var status := db.apps[app].status;
      match decision
      case Decline => if status in {Pending, Waitlisted} then Some(Declining(app, status)) else None
      case Waitlist => if status == Pending then Some(Waitlisting(app)) else None
      case Accept =>
        if status != Pending then None
        else if trainingSatisfied then Some(Accepting(app)) else Some(Waitlisting(app))
  }

  function ReadCancel(db: Db, shift: Id, hoursApproved: bool): Option<Call> {
    if shift !in db.shifts || db.shifts[shift].status != Scheduled || hoursApproved then None else Some(Cancelling(shift))
  }

  function ReadWithdraw(db: Db, app: Id, caller: Id): Option<Call> {
    if app !in db.apps || db.apps[app].person != caller || !IsActive(db.apps[app].status) then None
    else Some(Withdrawing(app, db.apps[app].status == Accepted))
  }

  // ---------- the interleaving ----------

  /** Calls only name rows that exist, and a decline starts from a status that can be declined. */
  ghost predicate CallKnown(db: Db, call: Call) {
    match call
    case Applying(shift, _) => shift in db.shifts
    case Accepting(app) => app in db.apps
    case Waitlisting(app) => app in db.apps
    case Declining(app, from) => app in db.apps && from in {Pending, Waitlisted}
    case Cancelling(shift) => shift in db.shifts
    case Withdrawing(app, _) => app in db.apps
  }

  ghost predicate Known(sys: System) {
    Linked(sys.db) && forall c :: c in sys.calls ==> CallKnown(sys.db, sys.calls[c])
  }

  ghost predicate Enabled(sys: System, step: Step) {
    Known(sys) &&
    match step
    case Commit(c, freshId, _, pick) =>
      && c in sys.calls && freshId !in sys.db.apps
      && sys.db.events[ApplicationAccepted(freshId)] == 0
      && (sys.calls[c].Withdrawing? ==>
            var call := sys.calls[c];
            IsEarliestWaitlisted(Released(sys.db, call.app, call.wasAccepted), sys.db.apps[call.app].shift, pick))
    case Abort(c) => c in sys.calls
    case _ => true
  }

  /** The transaction of a pending call, run against the current tables. */
  ghost function Transaction(db: Db, call: Call, freshId: Id, now: int, pick: Option<Id>): Option<Db>
    requires Linked(db) && CallKnown(db, call)
    requires call.Withdrawing? ==> IsEarliestWaitlisted(Released(db, call.app, call.wasAccepted), db.apps[call.app].shift, pick)
  {
    match call
    case Applying(shift, person) => ApplyTx(db, freshId, shift, person, now)
    case Accepting(app) => AcceptTx(db, app)
    case Waitlisting(app) => WaitlistTx(db, app)
    case Declining(app, from) => DeclineTx(db, app, from)
    case Cancelling(shift) => CancelTx(db, shift)
    case Withdrawing(app, wasAccepted) => Some(WithdrawTx(db, app, wasAccepted, pick))
  }

  function WithCall(sys: System, id: Id, call: Option<Call>): System {
    match call case None => sys case Some(c) => sys.(calls := sys.calls[id := c])
  }

  ghost function Next(sys: System, step: Step): System
    requires Enabled(sys, step)
  {
    match step
    case BeginApply(c, shift, person, now) => WithCall(sys, c, ReadApply(sys.db, shift, person, now))
    case BeginDecide(c, app, decision, trained) => WithCall(sys, c, ReadDecide(sys.db, app, decision, trained))
    case BeginCancel(c, shift, hoursApproved) => WithCall(sys, c, ReadCancel(sys.db, shift, hoursApproved))
    case BeginWithdraw(c, app, caller) => WithCall(sys, c, ReadWithdraw(sys.db, app, caller))
    case Commit(c, freshId, now, pick) =>
      var db := match Transaction(sys.db, sys.calls[c], freshId, now, pick) case Some(after) => after case None => sys.db;
      System(db, sys.calls - {c})
    case Abort(c) => sys.(calls := sys.calls - {c})
  }

  // ---------- what every interleaving keeps ----------

  /** The counter of a shift is the number of its accepted applications. */
  ghost predicate Agrees(db: Db, shift: Id)
    requires shift in db.shifts
  {
    db.shifts[shift].acceptedCount == |AppsWith(db, shift, Accepted)|
  }

  ghost predicate Agreement(db: Db) {
    forall s :: s in db.shifts ==> Agrees(db, s)
  }

  ghost predicate WithinCapacity(db: Db) {
    forall s :: s in db.shifts ==> 0 <= db.shifts[s].acceptedCount <= db.shifts[s].capacity
  }

  ghost predicate OneActiveEach(db: Db) {
    forall a, b | a in db.apps && b in db.apps && a != b && IsActive(db.apps[a].status) && IsActive(db.apps[b].status)
      && db.apps[a].shift == db.apps[b].shift :: db.apps[a].person != db.apps[b].person
  }

  ghost predicate AcceptedOnce(db: Db) {
    && (forall a :: db.events[ApplicationAccepted(a)] <= 1)
    && (forall a :: a in db.apps && db.apps[a].status in {Pending, Waitlisted} ==> db.events[ApplicationAccepted(a)] == 0)
  }

  /** What holds even with withdrawals in the mix. */
  ghost predicate Base(db: Db) {
    Linked(db) && WithinCapacity(db) && OneActiveEach(db) && AcceptedOnce(db)
  }

  // Each transaction is a chain of the same few row changes; each of these keeps `Base`.

  lemma LeavingOrMovingKeepsBase(db: Db, app: Id, status: AppStatus, event: Event)
    requires Base(db) && app in db.apps && !event.ApplicationAccepted?
    requires IsActive(status) ==> IsActive(db.apps[app].status)
    requires status != Pending && (status == Waitlisted ==> db.apps[app].status == Pending)
    ensures Base(SetStatus(db, app, status, event))
  {
  }

  lemma AcceptingKeepsBase(db: Db, app: Id)
    requires Base(db) && app in db.apps && db.apps[app].status in {Pending, Waitlisted}
    requires HasRoom(db, db.apps[app].shift)
    ensures Base(SetStatus(AddToCount(db, db.apps[app].shift, 1), app, Accepted, ApplicationAccepted(app)))
  {
    var next := SetStatus(AddToCount(db, db.apps[app].shift, 1), app, Accepted, ApplicationAccepted(app));
    assert forall a :: next.events[ApplicationAccepted(a)] == db.events[ApplicationAccepted(a)] + if a == app then 1 else 0;
  }

  lemma ApplyKeepsBase(db: Db, id: Id, shift: Id, person: Id, now: int)
    requires Base(db) && shift in db.shifts && id !in db.apps && db.events[ApplicationAccepted(id)] == 0
    requires ApplyTx(db, id, shift, person, now).Some?
    ensures Base(ApplyTx(db, id, shift, person, now).value)
  {
  }

  lemma CancelKeepsBase(db: Db, shift: Id)
    requires Base(db) && shift in db.shifts && CancelTx(db, shift).Some?
    ensures Base(CancelTx(db, shift).value)
  {
    var next := CancelTx(db, shift).value;
    assert forall a :: DeclinedEvents(ActiveApps(db, shift))[ApplicationAccepted(a)] == 0;
    assert forall a :: next.events[ApplicationAccepted(a)] == db.events[ApplicationAccepted(a)];
  }

  lemma WithdrawKeepsBase(db: Db, app: Id, wasAccepted: bool, pick: Option<Id>)
    requires Base(db) && app in db.apps
    requires IsEarliestWaitlisted(Released(db, app, wasAccepted), db.apps[app].shift, pick)
    ensures Base(WithdrawTx(db, app, wasAccepted, pick))
  {
    var shift := db.apps[app].shift;
    LeavingOrMovingKeepsBase(db, app, Withdrawn, ApplicationWithdrawn(app));
    var released := Released(db, app, wasAccepted);
    assert Base(released);
    if wasAccepted && pick.Some? && HasRoom(released, shift) {
      AcceptingKeepsBase(released, pick.value);
    }
  }

  lemma TransactionKeepsBase(db: Db, call: Call, freshId: Id, now: int, pick: Option<Id>)
    requires Base(db) && CallKnown(db, call) && freshId !in db.apps && db.events[ApplicationAccepted(freshId)] == 0
    requires call.Withdrawing? ==> IsEarliestWaitlisted(Released(db, call.app, call.wasAccepted), db.apps[call.app].shift, pick)
    requires Transaction(db, call, freshId, now, pick).Some?
    ensures Base(Transaction(db, call, freshId, now, pick).value)
  {
    match call
    case Applying(shift, person) => ApplyKeepsBase(db, freshId, shift, person, now);
    case Accepting(app) =>
      if HasRoom(db, db.apps[app].shift) {
        AcceptingKeepsBase(db, app);
      } else {
        LeavingOrMovingKeepsBase(db, app, Waitlisted, ApplicationWaitlisted(app));
      }
    case Waitlisting(app) => LeavingOrMovingKeepsBase(db, app, Waitlisted, ApplicationWaitlisted(app));
    case Declining(app, from) => LeavingOrMovingKeepsBase(db, app, Declined, ApplicationDeclined(app));
    case Cancelling(shift) => CancelKeepsBase(db, shift);
    case Withdrawing(app, wasAccepted) => WithdrawKeepsBase(db, app, wasAccepted, pick);
  }

  // ---------- the counter ----------

  lemma StatusChangeCounts(db: Db, app: Id, status: AppStatus, event: Event, s: Id)
    requires app in db.apps
    ensures |AppsWith(SetStatus(db, app, status, event), s, Accepted)|
         == |AppsWith(db, s, Accepted)|
            - (if db.apps[app].shift == s && db.apps[app].status == Accepted then 1 else 0)
            + (if db.apps[app].shift == s && status == Accepted then 1 else 0)
  {
    var before, after := AppsWith(db, s, Accepted), AppsWith(SetStatus(db, app, status, event), s, Accepted);
    var next := SetStatus(db, app, status, event);
    assert forall a :: a != app ==> (a in next.apps <==> a in db.apps) && (a in db.apps ==> next.apps[a] == db.apps[a]);
    if db.apps[app].shift != s || (status == Accepted <==> db.apps[app].status == Accepted) {
      assert after == before;
    } else if status == Accepted {
      assert app !in before && after == before + {app};
    } else {
      assert app in before && after == before - {app};
    }
  }

  lemma CountOnly(db: Db, shift: Id, n: int, s: Id)
    requires shift in db.shifts
    ensures AppsWith(AddToCount(db, shift, n), s, Accepted) == AppsWith(db, s, Accepted)
  {
  }

  lemma CancelAgrees(db: Db, shift: Id)
    requires Agreement(db) && shift in db.shifts && CancelTx(db, shift).Some?
    ensures Agreement(CancelTx(db, shift).value)
  {
    var next := CancelTx(db, shift).value;
    forall s | s in next.shifts ensures Agrees(next, s) {
      assert Agrees(db, s);
      if s == shift {
        assert AppsWith(next, s, Accepted) == {};
      } else {
        assert AppsWith(next, s, Accepted) == AppsWith(db, s, Accepted);
      }
    }
  }

  lemma ApplyAgrees(db: Db, id: Id, shift: Id, person: Id, now: int)
    requires Agreement(db) && id !in db.apps && ApplyTx(db, id, shift, person, now).Some?
    ensures Agreement(ApplyTx(db, id, shift, person, now).value)
  {
    var next := ApplyTx(db, id, shift, person, now).value;
    forall s | s in next.shifts ensures Agrees(next, s) {
      assert Agrees(db, s);
      assert AppsWith(next, s, Accepted) == AppsWith(db, s, Accepted);
    }
  }

  lemma MoveAgrees(db: Db, app: Id, status: AppStatus, event: Event)
    requires Agreement(db) && app in db.apps && db.apps[app].status != Accepted && status != Accepted
    ensures Agreement(SetStatus(db, app, status, event))
  {
    forall s | s in db.shifts ensures Agrees(SetStatus(db, app, status, event), s) {
      assert Agrees(db, s);
      StatusChangeCounts(db, app, status, event, s);
    }
  }

  lemma AcceptAgrees(db: Db, app: Id)
    requires Linked(db) && Agreement(db) && app in db.apps && db.apps[app].status != Accepted
    ensures Agreement(SetStatus(AddToCount(db, db.apps[app].shift, 1), app, Accepted, ApplicationAccepted(app)))
  {
    var shift := db.apps[app].shift;
    var counted := AddToCount(db, shift, 1);
    forall s | s in db.shifts ensures Agrees(SetStatus(counted, app, Accepted, ApplicationAccepted(app)), s) {
      assert Agrees(db, s);
      CountOnly(db, shift, 1, s);
      StatusChangeCounts(counted, app, Accepted, ApplicationAccepted(app), s);
    }
  }

  /** Every transaction but a withdrawal keeps the counter equal to the accepted set. */
  lemma TransactionAgrees(db: Db, call: Call, freshId: Id, now: int, pick: Option<Id>)
    requires Base(db) && Agreement(db) && CallKnown(db, call) && freshId !in db.apps && !call.Withdrawing?
    requires Transaction(db, call, freshId, now, pick).Some?
    ensures Agreement(Transaction(db, call, freshId, now, pick).value)
  {
    match call
    case Applying(shift, person) => ApplyAgrees(db, freshId, shift, person, now);
    case Accepting(app) =>
      if HasRoom(db, db.apps[app].shift) {
        AcceptAgrees(db, app);
      } else {
        MoveAgrees(db, app, Waitlisted, ApplicationWaitlisted(app));
      }
    case Waitlisting(app) => MoveAgrees(db, app, Waitlisted, ApplicationWaitlisted(app));
    case Declining(app, from) => MoveAgrees(db, app, Declined, ApplicationDeclined(app));
    case Cancelling(shift) => CancelAgrees(db, shift);
  }

  /** What the withdrawal read about its application is still what the row says, as far as the counter can tell. */
  ghost predicate ReadStillTrue(db: Db, app: Id, wasAccepted: bool)
    requires Linked(db) && app in db.apps
  {
    (wasAccepted && db.shifts[db.apps[app].shift].acceptedCount > 0) <==> db.apps[app].status == Accepted
  }

  lemma ReleasedCounts(db: Db, app: Id, wasAccepted: bool, s: Id)
    requires Linked(db) && app in db.apps && s in db.shifts && Agrees(db, s)
    ensures var released := Released(db, app, wasAccepted);
            released.shifts[s].acceptedCount - |AppsWith(released, s, Accepted)|
            == (if db.apps[app].shift == s && db.apps[app].status == Accepted then 1 else 0)
               - (if db.apps[app].shift == s && wasAccepted && db.shifts[s].acceptedCount > 0 then 1 else 0)
  {
    var shift := db.apps[app].shift;
    StatusChangeCounts(db, app, Withdrawn, ApplicationWithdrawn(app), s);
    CountOnly(SetStatus(db, app, Withdrawn, ApplicationWithdrawn(app)), shift, -1, s);
  }

  lemma PromotionIsNeutral(db: Db, app: Id, s: Id)
    requires Linked(db) && app in db.apps && db.apps[app].status == Waitlisted && s in db.shifts
    ensures var next := SetStatus(AddToCount(db, db.apps[app].shift, 1), app, Accepted, ApplicationAccepted(app));
            next.shifts[s].acceptedCount - |AppsWith(next, s, Accepted)|
            == db.shifts[s].acceptedCount - |AppsWith(db, s, Accepted)|
  {
    CountOnly(db, db.apps[app].shift, 1, s);
    StatusChangeCounts(AddToCount(db, db.apps[app].shift, 1), app, Accepted, ApplicationAccepted(app), s);
  }

  /** A withdrawal, whose status update is unguarded, keeps the counter right exactly when its earlier read still holds. */
  lemma WithdrawAgreesExactlyWhen(db: Db, app: Id, wasAccepted: bool, pick: Option<Id>)
    requires Linked(db) && Agreement(db) && app in db.apps
    requires IsEarliestWaitlisted(Released(db, app, wasAccepted), db.apps[app].shift, pick)
    ensures Agreement(WithdrawTx(db, app, wasAccepted, pick)) <==> ReadStillTrue(db, app, wasAccepted)
  {
    var shift := db.apps[app].shift;
    var released, next := Released(db, app, wasAccepted), WithdrawTx(db, app, wasAccepted, pick);
    forall s | s in db.shifts ensures Agrees(next, s) <==> s != shift || ReadStillTrue(db, app, wasAccepted) {
      assert Agrees(db, s);
      ReleasedCounts(db, app, wasAccepted, s);
      if next != released {
        PromotionIsNeutral(released, pick.value, s);
      }
    }
  }

  // ---------- runs ----------

  lemma StepKeepsKnown(sys: System, step: Step)
    requires Base(sys.db) && Enabled(sys, step)
    ensures Known(Next(sys, step)) && Base(Next(sys, step).db)
  {
    var next := Next(sys, step);
    if step.Commit? && Transaction(sys.db, sys.calls[step.call], step.freshId, step.now, step.pick).Some? {
      TransactionKeepsBase(sys.db, sys.calls[step.call], step.freshId, step.now, step.pick);
      RowsStay(sys.db, sys.calls[step.call], step.freshId, step.now, step.pick);
    }
    forall c | c in next.calls ensures CallKnown(next.db, next.calls[c]) {
      if c in sys.calls {
        assert CallKnown(sys.db, sys.calls[c]);
      }
    }
  }

  lemma RowsStay(db: Db, call: Call, freshId: Id, now: int, pick: Option<Id>)
    requires Linked(db) && CallKnown(db, call)
    requires call.Withdrawing? ==> IsEarliestWaitlisted(Released(db, call.app, call.wasAccepted), db.apps[call.app].shift, pick)
    requires Transaction(db, call, freshId, now, pick).Some?
    ensures var next := Transaction(db, call, freshId, now, pick).value;
            db.apps.Keys <= next.apps.Keys && db.shifts.Keys == next.shifts.Keys
  {
  }

  ghost predicate StartsEmpty(sys: System) {
    && sys.db.apps == map[] && sys.db.events == multiset{} && sys.calls == map[]
    && forall s :: s in sys.db.shifts ==> sys.db.shifts[s].acceptedCount == 0
  }

  ghost predicate StepTo(a: System, step: Step, b: System) {
    Enabled(a, step) && b == Next(a, step)
  }

  ghost predicate IsRun(run: seq<System>, steps: seq<Step>) {
    && |run| == |steps| + 1 && StartsEmpty(run[0])
    && forall i :: 0 <= i < |steps| ==> StepTo(run[i], steps[i], run[i + 1])
  }

  lemma EmptyIsFine(sys: System)
    requires StartsEmpty(sys)
    ensures Known(sys) && Base(sys.db) && Agreement(sys.db)
  {
  }

  /**
   * In every interleaving, withdrawals included: no counter leaves its capacity, nobody has two active
   * applications for one shift, and no application is accepted twice.
   */
  lemma {:induction false} EveryInterleaving(run: seq<System>, steps: seq<Step>, k: nat)
    requires IsRun(run, steps) && k < |run|
    ensures Known(run[k]) && WithinCapacity(run[k].db) && OneActiveEach(run[k].db) && AcceptedOnce(run[k].db)
    decreases k
  {
    if k == 0 {
      EmptyIsFine(run[0]);
    } else {
      EveryInterleaving(run, steps, k - 1);
      assert StepTo(run[k - 1], steps[k - 1], run[k]);
      StepKeepsKnown(run[k - 1], steps[k - 1]);
    }
  }

  /** The k-th step is not a withdrawal committing on a read that no longer holds. */
  ghost predicate NoStaleWithdrawal(sys: System, step: Step)
    requires Enabled(sys, step)
  {
    step.Commit? && sys.calls[step.call].Withdrawing? ==>
      ReadStillTrue(sys.db, sys.calls[step.call].app, sys.calls[step.call].wasAccepted)
  }

  lemma StepAgreesExactlyWhen(sys: System, step: Step)
    requires Base(sys.db) && Enabled(sys, step) && Agreement(sys.db)
    ensures Agreement(Next(sys, step).db) <==> NoStaleWithdrawal(sys, step)
  {
    if step.Commit? {
      var call := sys.calls[step.call];
      if call.Withdrawing? {
        WithdrawAgreesExactlyWhen(sys.db, call.app, call.wasAccepted, step.pick);
      } else if Transaction(sys.db, call, step.freshId, step.now, step.pick).Some? {
        TransactionAgrees(sys.db, call, step.freshId, step.now, step.pick);
      }
    }
  }

  ghost predicate NoneStale(run: seq<System>, steps: seq<Step>)
    requires IsRun(run, steps)
  {
    forall i :: 0 <= i < |steps| ==> StepTo(run[i], steps[i], run[i + 1]) && NoStaleWithdrawal(run[i], steps[i])
  }

  lemma {:induction false} AgreesUntil(run: seq<System>, steps: seq<Step>, k: nat)
    requires IsRun(run, steps) && k < |run|
    requires forall i :: 0 <= i < k ==> StepTo(run[i], steps[i], run[i + 1]) && NoStaleWithdrawal(run[i], steps[i])
    ensures Agreement(run[k].db)
    decreases k
  {
    if k == 0 {
      EmptyIsFine(run[0]);
    } else {
      AgreesUntil(run, steps, k - 1);
      EveryInterleaving(run, steps, k - 1);
      assert StepTo(run[k - 1], steps[k - 1], run[k]);
      StepAgreesExactlyWhen(run[k - 1], steps[k - 1]);
    }
  }

  /**
   * A shift's counter is its number of accepted applications at every point of a run exactly when no
   * withdrawal in it commits on a stale read; with no withdrawals that is every interleaving.
   */
  lemma CounterAgreesExactlyWhen(run: seq<System>, steps: seq<Step>)
    requires IsRun(run, steps)
    ensures (forall k :: 0 <= k < |run| ==> Agreement(run[k].db)) <==> NoneStale(run, steps)
  {
    if NoneStale(run, steps) {
      forall k | 0 <= k < |run| ensures Agreement(run[k].db) {
        AgreesUntil(run, steps, k);
      }
    }
    if forall k :: 0 <= k < |run| ==> Agreement(run[k].db) {
      forall i | 0 <= i < |steps| ensures StepTo(run[i], steps[i], run[i + 1]) && NoStaleWithdrawal(run[i], steps[i]) {
        EveryInterleaving(run, steps, i);
        assert StepTo(run[i], steps[i], run[i + 1]);
        assert Agreement(run[i].db) && Agreement(run[i + 1].db);
        StepAgreesExactlyWhen(run[i], steps[i]);
      }
    }
  }

  lemma CounterAgreesWithoutWithdrawals(run: seq<System>, steps: seq<Step>, k: nat)
    requires IsRun(run, steps) && k < |run|
    requires forall i :: 0 <= i < |steps| ==> !steps[i].BeginWithdraw?
    ensures Agreement(run[k].db)
  {
    forall i | 0 <= i < |steps| ensures StepTo(run[i], steps[i], run[i + 1]) && NoStaleWithdrawal(run[i], steps[i]) {
      NoWithdrawalPending(run, steps, i);
    }
    AgreesUntil(run, steps, k);
  }

  lemma {:induction false} NoWithdrawalPending(run: seq<System>, steps: seq<Step>, k: nat)
    requires IsRun(run, steps) && k < |run|
    requires forall i :: 0 <= i < |steps| ==> !steps[i].BeginWithdraw?
    ensures forall c :: c in run[k].calls ==> !run[k].calls[c].Withdrawing?
    decreases k
  {
    if k > 0 {
      NoWithdrawalPending(run, steps, k - 1);
      assert StepTo(run[k - 1], steps[k - 1], run[k]);
    }
  }

  // ---------- the stale case does happen ----------

  /** Shift 7 with one place, and application 3 of person 50 once it exists. */
  ghost function Scene(count: int, app: Option<AppStatus>, events: multiset<Event>, calls: map<Id, Call>): System {
    System(Db(map[7 := Shift(Scheduled, 100, 1, count)],
              match app case None => map[] case Some(status) => map[3 := Application(7, 50, status, 0)], events), calls)
  }

  const SUBMITTED := multiset{ApplicationSubmitted(3)}

  lemma SceneApply()
    ensures StepTo(Scene(0, None, multiset{}, map[]), BeginApply(1, 7, 50, 0), Scene(0, None, multiset{}, map[1 := Applying(7, 50)]))
    ensures StepTo(Scene(0, None, multiset{}, map[1 := Applying(7, 50)]), Commit(1, 3, 0, None), Scene(0, Some(Pending), SUBMITTED, map[]))
  {
  }

  lemma SceneRead()
    ensures StepTo(Scene(0, Some(Pending), SUBMITTED, map[]), BeginWithdraw(1, 3, 50),
                   Scene(0, Some(Pending), SUBMITTED, map[1 := Withdrawing(3, false)]))
    ensures StepTo(Scene(0, Some(Pending), SUBMITTED, map[1 := Withdrawing(3, false)]), BeginDecide(2, 3, Accept, true),
                   Scene(0, Some(Pending), SUBMITTED, map[1 := Withdrawing(3, false), 2 := Accepting(3)]))
  {
    assert Known(Scene(0, Some(Pending), SUBMITTED, map[]));
    assert Known(Scene(0, Some(Pending), SUBMITTED, map[1 := Withdrawing(3, false)]));
  }

  lemma SceneAccept()
    ensures StepTo(Scene(0, Some(Pending), SUBMITTED, map[1 := Withdrawing(3, false), 2 := Accepting(3)]), Commit(2, 4, 0, None),
                   Scene(1, Some(Accepted), SUBMITTED + multiset{ApplicationAccepted(3)}, map[1 := Withdrawing(3, false)]))
  {
    var a := Scene(0, Some(Pending), SUBMITTED, map[1 := Withdrawing(3, false), 2 := Accepting(3)]);
    var b := Scene(1, Some(Accepted), SUBMITTED + multiset{ApplicationAccepted(3)}, map[1 := Withdrawing(3, false)]);
    assert Known(a);
    assert Next(a, Commit(2, 4, 0, None)).db == b.db;
    assert Next(a, Commit(2, 4, 0, None)).calls == b.calls;
  }

  lemma SceneWithdraw()
    ensures var events := SUBMITTED + multiset{ApplicationAccepted(3)};
            StepTo(Scene(1, Some(Accepted), events, map[1 := Withdrawing(3, false)]), Commit(1, 4, 0, None),
                   Scene(1, Some(Withdrawn), events + multiset{ApplicationWithdrawn(3)}, map[]))
  {
    var events := SUBMITTED + multiset{ApplicationAccepted(3)};
    var a := Scene(1, Some(Accepted), events, map[1 := Withdrawing(3, false)]);
    var b := Scene(1, Some(Withdrawn), events + multiset{ApplicationWithdrawn(3)}, map[]);
    assert Known(a);
    assert AppsWith(Released(a.db, 3, false), 7, Waitlisted) == {};
    assert Next(a, Commit(1, 4, 0, None)).db == b.db;
    assert Next(a, Commit(1, 4, 0, None)).calls == b.calls;
  }

  /** The applicant withdraws on a read that still says pending while an approver accepts. */
  lemma StaleWithdrawalHappens() returns (run: seq<System>, steps: seq<Step>)
    ensures IsRun(run, steps) && !Agreement(run[|steps|].db)
  {
    var accepted := SUBMITTED + multiset{ApplicationAccepted(3)};
    run := [Scene(0, None, multiset{}, map[]),
            Scene(0, None, multiset{}, map[1 := Applying(7, 50)]),
            Scene(0, Some(Pending), SUBMITTED, map[]),
            Scene(0, Some(Pending), SUBMITTED, map[1 := Withdrawing(3, false)]),
            Scene(0, Some(Pending), SUBMITTED, map[1 := Withdrawing(3, false), 2 := Accepting(3)]),
            Scene(1, Some(Accepted), accepted, map[1 := Withdrawing(3, false)]),
            Scene(1, Some(Withdrawn), accepted + multiset{ApplicationWithdrawn(3)}, map[])];
    steps := [BeginApply(1, 7, 50, 0), Commit(1, 3, 0, None), BeginWithdraw(1, 3, 50), BeginDecide(2, 3, Accept, true),
              Commit(2, 4, 0, None), Commit(1, 4, 0, None)];
    SceneApply();
    SceneRead();
    SceneAccept();
    SceneWithdraw();
    var end := run[6].db;
    assert AppsWith(end, 7, Accepted) == {};
    assert !Agrees(end, 7);
  }
}
