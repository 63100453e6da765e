/** Shifts and their applications: every transaction the volunteering use cases commit. */
module Shifts {
  import opened Common

  datatype ShiftStatus = Scheduled | Cancelled | Completed
  datatype Shift = Shift(status: ShiftStatus, startsAt: int, capacity: nat, acceptedCount: int)

  datatype AppStatus = Pending | Accepted | Waitlisted | Declined | Withdrawn
  datatype Application = Application(shift: Id, person: Id, status: AppStatus, appliedAt: int)

  datatype Event =
    | ApplicationSubmitted(app: Id)
    | ApplicationAccepted(app: Id)
    | ApplicationWaitlisted(app: Id)
    | ApplicationDeclined(app: Id)
    | ApplicationWithdrawn(app: Id)
    | ShiftCancelled(shift: Id)

  /** The outbox is a table of rows with fresh ids, so only how often each event occurs matters. */
  datatype Db = Db(shifts: map<Id, Shift>, apps: map<Id, Application>, events: multiset<Event>)

  predicate IsActive(status: AppStatus) {
    status in {Pending, Accepted, Waitlisted}
  }

  function AppsWith(db: Db, shift: Id, status: AppStatus): set<Id> {
    set a | a in db.apps && db.apps[a].shift == shift && db.apps[a].status == status
  }

  function ActiveApps(db: Db, shift: Id): set<Id> {
    set a | a in db.apps && db.apps[a].shift == shift && IsActive(db.apps[a].status)
  }

  predicate HasActive(db: Db, shift: Id, person: Id) {
    exists a :: a in db.apps && db.apps[a].shift == shift && db.apps[a].person == person && IsActive(db.apps[a].status)
  }

  // ---------- the transactions; `None` is a rollback ----------

  function SetStatus(db: Db, app: Id, status: AppStatus, event: Event): Db
    requires app in db.apps
  {
    db.(apps := db.apps[app := db.apps[app].(status := status)], events := db.events + multiset{event})
  }

  function AddToCount(db: Db, shift: Id, n: int): Db
    requires shift in db.shifts
  {
    db.(shifts := db.shifts[shift := db.shifts[shift].(acceptedCount := db.shifts[shift].acceptedCount + n)])
  }

  predicate HasRoom(db: Db, shift: Id)
    requires shift in db.shifts
  {
    db.shifts[shift].acceptedCount < db.shifts[shift].capacity
  }

  predicate Linked(db: Db) {
    forall a :: a in db.apps ==> db.apps[a].shift in db.shifts
  }

  /** The insert trips the partial unique index when the person already has an active application. */
  function ApplyTx(db: Db, id: Id, shift: Id, person: Id, now: int): Option<Db> {
    if HasActive(db, shift, person) then None
    else Some(db.(apps := db.apps[id := Application(shift, person, Pending, now)],
                  events := db.events + multiset{ApplicationSubmitted(id)}))
  }

  /** The guarded increment, then the status update that only matches a pending row. */
  function AcceptTx(db: Db, app: Id): Option<Db>
    requires Linked(db) && app in db.apps
  {
    var shift := db.apps[app].shift;
    var incremented := HasRoom(db, shift);
    if db.apps[app].status != Pending then None
    else if incremented then Some(SetStatus(AddToCount(db, shift, 1), app, Accepted, ApplicationAccepted(app)))
    else Some(SetStatus(db, app, Waitlisted, ApplicationWaitlisted(app)))
  }

  function WaitlistTx(db: Db, app: Id): Option<Db>
    requires app in db.apps
  {
    if db.apps[app].status != Pending then None else Some(SetStatus(db, app, Waitlisted, ApplicationWaitlisted(app)))
  }

  function DeclineTx(db: Db, app: Id, from: AppStatus): Option<Db>
    requires app in db.apps
  {
    if db.apps[app].status != from then None else Some(SetStatus(db, app, Declined, ApplicationDeclined(app)))
  }

  function DeclinedEvents(ids: set<Id>): multiset<Event> {
    multiset(set a | a in ids :: ApplicationDeclined(a))
  }

  function DeclineAll(apps: map<Id, Application>, ids: set<Id>): map<Id, Application> {
    map a | a in apps :: if a in ids then apps[a].(status := Declined) else apps[a]
  }

  function CancelTx(db: Db, shift: Id): Option<Db>
    requires shift in db.shifts
  {
    if db.shifts[shift].status != Scheduled then None
    else
      var affected := ActiveApps(db, shift);
      Some(Db(db.shifts[shift := db.shifts[shift].(status := Cancelled, acceptedCount := 0)],
              DeclineAll(db.apps, affected),
              db.events + DeclinedEvents(affected) + multiset{ShiftCancelled(shift)}))
  }

  /** A waitlisted application nobody on this shift applied before; several may tie. */
  predicate IsEarliestWaitlisted(db: Db, shift: Id, pick: Option<Id>) {
    var waiting := AppsWith(db, shift, Waitlisted);
    match pick
    case None => waiting == {}
    case Some(a) => a in waiting && forall b :: b in waiting ==> db.apps[a].appliedAt <= db.apps[b].appliedAt
  }

  /** The row after the unguarded status update, and the freed slot if the earlier read said `accepted`. */
  function Released(db: Db, app: Id, wasAccepted: bool): Db
    requires Linked(db) && app in db.apps
  {
    var shift := db.apps[app].shift;
    var withdrawn := SetStatus(db, app, Withdrawn, ApplicationWithdrawn(app));
    if wasAccepted && db.shifts[shift].acceptedCount > 0 then AddToCount(withdrawn, shift, -1) else withdrawn
  }

  function WithdrawTx(db: Db, app: Id, wasAccepted: bool, pick: Option<Id>): Db
    requires Linked(db) && app in db.apps
    requires IsEarliestWaitlisted(Released(db, app, wasAccepted), db.apps[app].shift, pick)
  {
    var shift := db.apps[app].shift;
    var released := Released(db, app, wasAccepted);
    if !wasAccepted || pick.None? || !HasRoom(released, shift) then released
    else SetStatus(AddToCount(released, shift, 1), pick.value, Accepted, ApplicationAccepted(pick.value))
  }

  // ---------- the same transactions as updates of the tables ----------

  class VolunteeringStore {
    var shifts: map<Id, Shift>
    var apps: map<Id, Application>
    var events: multiset<Event>

    ghost function Model(): Db
      reads this
    {
      Db(shifts, apps, events)
    }

    constructor (shifts: map<Id, Shift>)
      ensures Model() == Db(shifts, map[], multiset{})
    {
      this.shifts, apps, events := shifts, map[], multiset{};
    }

    method UpdateStatus(app: Id, status: AppStatus, event: Event)
      requires app in apps
      modifies this`apps, this`events
      ensures Model() == SetStatus(old(Model()), app, status, event)
    {
      apps := apps[app := apps[app].(status := status)];
      events := events + multiset{event};
    }

    method BumpCount(shift: Id, n: int)
      requires shift in shifts
      modifies this`shifts
      ensures Model() == AddToCount(old(Model()), shift, n)
    {
      shifts := shifts[shift := shifts[shift].(acceptedCount := shifts[shift].acceptedCount + n)];
    }

    method Apply(id: Id, shift: Id, person: Id, now: int) returns (committed: bool)
      modifies this
      ensures Leaves(old(Model()), committed, Model(), ApplyTx(old(Model()), id, shift, person, now))
      ensures committed <==> !exists a :: a in old(apps) && old(apps)[a].shift == shift && old(apps)[a].person == person
                                          && old(apps)[a].status in {Pending, Accepted, Waitlisted}
      ensures !committed ==> Model() == old(Model())
      ensures committed ==>
        && shifts == old(shifts) && apps == old(apps)[id := Application(shift, person, Pending, now)]
        && events == old(events) + multiset{ApplicationSubmitted(id)}
    {
      if exists a :: a in apps && apps[a].shift == shift && apps[a].person == person && IsActive(apps[a].status) {
        return false;
      }
      apps := apps[id := Application(shift, person, Pending, now)];
      events := events + multiset{ApplicationSubmitted(id)};
      return true;
    }

    method Accept(app: Id) returns (committed: bool, outcome: AppStatus)
      requires Linked(Model()) && app in apps
      modifies this
      ensures Leaves(old(Model()), committed, Model(), AcceptTx(old(Model()), app))
      ensures committed ==> app in apps && outcome == apps[app].status
      ensures committed <==> old(apps)[app].status == Pending
      ensures !committed ==> Model() == old(Model())
      ensures var shift := old(apps)[app].shift;
        && (committed && old(shifts)[shift].acceptedCount < old(shifts)[shift].capacity ==>
              && apps == old(apps)[app := old(apps)[app].(status := Accepted)]
              && shifts == old(shifts)[shift := old(shifts)[shift].(acceptedCount := old(shifts)[shift].acceptedCount + 1)]
              && events == old(events) + multiset{ApplicationAccepted(app)})
        && (committed && old(shifts)[shift].acceptedCount >= old(shifts)[shift].capacity ==>
              && apps == old(apps)[app := old(apps)[app].(status := Waitlisted)]
              && shifts == old(shifts) && events == old(events) + multiset{ApplicationWaitlisted(app)})
    {
      var saved := shifts;
      var shift := apps[app].shift;
      var incremented := false;
      if shifts[shift].acceptedCount < shifts[shift].capacity {
        BumpCount(shift, 1);
        incremented := true;
      }
      outcome := if incremented then Accepted else Waitlisted;
      if apps[app].status != Pending {
        shifts := saved;
        return false, outcome;
      }
      UpdateStatus(app, outcome, if outcome == Accepted then ApplicationAccepted(app) else ApplicationWaitlisted(app));
      return true, outcome;
    }

    method Waitlist(app: Id) returns (committed: bool)
      requires app in apps
      modifies this
      ensures Leaves(old(Model()), committed, Model(), WaitlistTx(old(Model()), app))
      ensures committed <==> old(apps)[app].status == Pending
      ensures !committed ==> Model() == old(Model())
      ensures committed ==>
        && apps == old(apps)[app := old(apps)[app].(status := Waitlisted)]
        && shifts == old(shifts) && events == old(events) + multiset{ApplicationWaitlisted(app)}
    {
      if apps[app].status != Pending {
        return false;
      }
      UpdateStatus(app, Waitlisted, ApplicationWaitlisted(app));
      return true;
    }

    method Decline(app: Id, from: AppStatus) returns (committed: bool)
      requires app in apps
      modifies this
      ensures Leaves(old(Model()), committed, Model(), DeclineTx(old(Model()), app, from))
      ensures committed <==> old(apps)[app].status == from
      ensures !committed ==> Model() == old(Model())
      ensures committed ==>
        && apps == old(apps)[app := old(apps)[app].(status := Declined)]
        && shifts == old(shifts) && events == old(events) + multiset{ApplicationDeclined(app)}
    {
      if apps[app].status != from {
        return false;
      }
      UpdateStatus(app, Declined, ApplicationDeclined(app));
      return true;
    }

    method Cancel(shift: Id) returns (committed: bool)
      requires shift in shifts
      modifies this
      ensures Leaves(old(Model()), committed, Model(), CancelTx(old(Model()), shift))
      ensures committed <==> old(shifts)[shift].status == Scheduled
      ensures !committed ==> Model() == old(Model())
      ensures committed ==>
        && shifts == old(shifts)[shift := old(shifts)[shift].(status := Cancelled, acceptedCount := 0)]
        && apps.Keys == old(apps).Keys
        && (forall a :: a in apps ==>
              apps[a] == if old(apps)[a].shift == shift && old(apps)[a].status in {Pending, Accepted, Waitlisted}
                         then old(apps)[a].(status := Declined) else old(apps)[a])
        && events == old(events) + multiset{ShiftCancelled(shift)}
             + multiset(set a | a in old(apps) && old(apps)[a].shift == shift && old(apps)[a].status in {Pending, Accepted, Waitlisted}
                          :: ApplicationDeclined(a))
    {
      var affected := set a | a in apps && apps[a].shift == shift && IsActive(apps[a].status);
      assert affected == ActiveApps(Model(), shift);
      if shifts[shift].status != Scheduled {
        return false;
      }
      shifts := shifts[shift := shifts[shift].(status := Cancelled, acceptedCount := 0)];
      var left := affected;
      while left != {}
        invariant left <= affected && shifts == old(shifts)[shift := old(shifts)[shift].(status := Cancelled, acceptedCount := 0)]
        invariant apps == DeclineAll(old(apps), affected - left)
        invariant events == old(events) + DeclinedEvents(affected - left)
        decreases left
      {
        var a :| a in left;
        assert a in apps && a !in affected - left;
        DeclinedEventsAdd(affected - left, a);
        assert affected - (left - {a}) == affected - left + {a};
        apps := apps[a := apps[a].(status := Declined)];
        events := events + multiset{ApplicationDeclined(a)};
        left := left - {a};
      }
      assert affected - left == affected;
      events := events + multiset{ShiftCancelled(shift)};
      return true;
    }

    method Withdraw(app: Id, wasAccepted: bool) returns (pick: Option<Id>)
      requires Linked(Model()) && app in apps
      modifies this
      ensures IsEarliestWaitlisted(Released(old(Model()), app, wasAccepted), old(apps)[app].shift, pick)
      ensures Model() == WithdrawTx(old(Model()), app, wasAccepted, pick)
      ensures Withdrew(old(Model()), app, wasAccepted, pick, Model())
    {
      ghost var before := Model();
      var shift := apps[app].shift;
      UpdateStatus(app, Withdrawn, ApplicationWithdrawn(app));
      if wasAccepted && shifts[shift].acceptedCount > 0 {
        BumpCount(shift, -1);
      }
      assert Model() == Released(old(Model()), app, wasAccepted);
      var waiting := set a | a in apps && apps[a].shift == shift && apps[a].status == Waitlisted;
      assert waiting == AppsWith(Model(), shift, Waitlisted);
      if waiting == {} {
        WithdrawTxIs(before, app, wasAccepted, None);
        return None;
      }
      EarliestExists(apps, waiting);
      var earliest :| earliest in waiting && forall b :: b in waiting ==> apps[earliest].appliedAt <= apps[b].appliedAt;
      pick := Some(earliest);
      WithdrawTxIs(before, app, wasAccepted, pick);
      if wasAccepted && shifts[shift].acceptedCount < shifts[shift].capacity {
        BumpCount(shift, 1);
        UpdateStatus(earliest, Accepted, ApplicationAccepted(earliest));
      }
    }
  }

  /** Somebody other than `app` waits for a place on its shift. */
  ghost predicate Waits(db: Db, app: Id, b: Id)
    requires app in db.apps
  {
    b in db.apps && b != app && db.apps[b].shift == db.apps[app].shift && db.apps[b].status == Waitlisted
  }

  /**
   * The whole effect of a withdrawal. A place is freed if the earlier read said accepted, and goes to the one who has
   * waited longest, if anybody waits and the count after the release is below capacity.
   */
  ghost predicate Withdrew(before: Db, app: Id, wasAccepted: bool, pick: Option<Id>, after: Db)
    requires Linked(before) && app in before.apps
  {
    var shift := before.apps[app].shift;
    var count := before.shifts[shift].acceptedCount;
    var freed := if wasAccepted && count > 0 then count - 1 else count;
    var left := before.apps[app := before.apps[app].(status := Withdrawn)];
    && (pick.None? <==> forall b :: !Waits(before, app, b))
    && (pick.Some? ==>
          && Waits(before, app, pick.value)
          && forall b :: Waits(before, app, b) ==> before.apps[pick.value].appliedAt <= before.apps[b].appliedAt)
    && if wasAccepted && pick.Some? && freed < before.shifts[shift].capacity then
         && after.shifts == before.shifts[shift := before.shifts[shift].(acceptedCount := freed + 1)]
         && after.apps == left[pick.value := before.apps[pick.value].(status := Accepted)]
         && after.events == before.events + multiset{ApplicationWithdrawn(app)} + multiset{ApplicationAccepted(pick.value)}
       else
         && after.shifts == before.shifts[shift := before.shifts[shift].(acceptedCount := freed)]
         && after.apps == left && after.events == before.events + multiset{ApplicationWithdrawn(app)}
  }

  lemma WithdrawTxIs(db: Db, app: Id, wasAccepted: bool, pick: Option<Id>)
    requires Linked(db) && app in db.apps
    requires IsEarliestWaitlisted(Released(db, app, wasAccepted), db.apps[app].shift, pick)
    ensures Withdrew(db, app, wasAccepted, pick, WithdrawTx(db, app, wasAccepted, pick))
  {
    var shift, released := db.apps[app].shift, Released(db, app, wasAccepted);
    var waiting := AppsWith(released, shift, Waitlisted);
    forall b ensures b in waiting <==> Waits(db, app, b) {
    }
    if pick.None? {
      forall b ensures !Waits(db, app, b) {
        assert b !in waiting;
      }
    }
  }

  /** What a call leaves behind: the transaction's outcome, or nothing at all. */
  ghost predicate Leaves(before: Db, committed: bool, after: Db, tx: Option<Db>) {
    (committed <==> tx.Some?) && after == match tx case Some(db) => db case None => before
  }

  lemma DeclinedEventsAdd(ids: set<Id>, a: Id)
    requires a !in ids
    ensures DeclinedEvents(ids + {a}) == DeclinedEvents(ids) + multiset{ApplicationDeclined(a)}
  {
  }

  lemma {:induction false} EarliestExists(apps: map<Id, Application>, waiting: set<Id>)
    requires waiting != {} && forall a :: a in waiting ==> a in apps
    ensures exists a :: a in waiting && forall b :: b in waiting ==> apps[a].appliedAt <= apps[b].appliedAt
    decreases waiting
  {
    var x :| x in waiting;
    var rest := waiting - {x};
    assert forall b :: b in waiting ==> b == x || b in rest;
    if rest == {} {
      assert x in waiting && forall b :: b in waiting ==> apps[x].appliedAt <= apps[b].appliedAt;
    } else {
      EarliestExists(apps, rest);
      var y :| y in rest && forall b :: b in rest ==> apps[y].appliedAt <= apps[b].appliedAt;
      var m := if apps[x].appliedAt < apps[y].appliedAt then x else y;
      assert m in waiting && forall b :: b in waiting ==> apps[m].appliedAt <= apps[b].appliedAt;
    }
  }
}
