/** What a call does when nothing comes between its reads and its commit, told on the rows of the tables. */
module ShiftCalls {
  import opened Common
  import opened Shifts
  import opened ShiftProtocol

  ghost predicate Idle(sys: System, c: Id, freshId: Id) {
    Known(sys) && c !in sys.calls && freshId !in sys.db.apps && sys.db.events[ApplicationAccepted(freshId)] == 0
  }

  /** The call runs: it was let through by its reads, and commits to these tables. */
  ghost predicate Does(mid: System, c: Id, freshId: Id, now: int, pick: Option<Id>, after: Db) {
    c in mid.calls && Enabled(mid, Commit(c, freshId, now, pick)) && Next(mid, Commit(c, freshId, now, pick)).db == after
  }

  /** Applying gets in exactly for a scheduled shift that has not started, to which the person has no active application. */
  lemma ApplyAlone(sys: System, c: Id, shift: Id, person: Id, readAt: int, id: Id, now: int)
    requires Idle(sys, c, id)
    ensures var db, mid := sys.db, Next(sys, BeginApply(c, shift, person, readAt));
      if shift in db.shifts && db.shifts[shift].status == Scheduled && readAt < db.shifts[shift].startsAt
         && !exists a :: a in db.apps && db.apps[a].shift == shift && db.apps[a].person == person && db.apps[a].status in {Pending, Accepted, Waitlisted}
      then Does(mid, c, id, now, None, db.(apps := db.apps[id := Application(shift, person, Pending, now)],
                                           events := db.events + multiset{ApplicationSubmitted(id)}))
      else mid == sys
  {
  }

  /** The tables after one application is decided. */
  function Decided(db: Db, app: Id, status: AppStatus, event: Event, places: nat): Db
    requires Linked(db) && app in db.apps
  {
    var shift := db.apps[app].shift;
    Db(db.shifts[shift := db.shifts[shift].(acceptedCount := db.shifts[shift].acceptedCount + places)],
       db.apps[app := db.apps[app].(status := status)], db.events + multiset{event})
  }

  lemma SameShift(db: Db, shift: Id)
    requires shift in db.shifts
    ensures db.shifts[shift := db.shifts[shift].(acceptedCount := db.shifts[shift].acceptedCount + 0)] == db.shifts
  {
  }

  /** An accept takes a place if one is free and training is done, and otherwise puts the application on the waitlist. */
  lemma AcceptAlone(sys: System, c: Id, app: Id, trained: bool, freshId: Id, now: int)
    requires Idle(sys, c, freshId)
    ensures var db, mid := sys.db, Next(sys, BeginDecide(c, app, Accept, trained));
      if app in db.apps && db.apps[app].status == Pending then
        var shift := db.shifts[db.apps[app].shift];
        Does(mid, c, freshId, now, None,
             if trained && shift.acceptedCount < shift.capacity then Decided(db, app, Accepted, ApplicationAccepted(app), 1)
             else Decided(db, app, Waitlisted, ApplicationWaitlisted(app), 0))
      else mid == sys
  {
    if app in sys.db.apps {
      SameShift(sys.db, sys.db.apps[app].shift);
    }
  }

  /** Declining works on pending and waitlisted applications, waitlisting on pending ones; neither moves the counter. */
  lemma DeclineOrWaitlistAlone(sys: System, c: Id, app: Id, decision: Decision, trained: bool, freshId: Id, now: int)
    requires Idle(sys, c, freshId) && decision != Accept
    ensures var db, mid := sys.db, Next(sys, BeginDecide(c, app, decision, trained));
      if app in db.apps && decision == Decline && db.apps[app].status in {Pending, Waitlisted} then
        Does(mid, c, freshId, now, None, Decided(db, app, Declined, ApplicationDeclined(app), 0))
      else if app in db.apps && decision == Waitlist && db.apps[app].status == Pending then
        Does(mid, c, freshId, now, None, Decided(db, app, Waitlisted, ApplicationWaitlisted(app), 0))
      else mid == sys
  {
    if app in sys.db.apps {
      SameShift(sys.db, sys.db.apps[app].shift);
    }
  }

  /** Cancelling works on a scheduled shift without approved hours, and declines everybody still active on it. */
  lemma CancelAlone(sys: System, c: Id, shift: Id, hoursApproved: bool, freshId: Id, now: int)
    requires Idle(sys, c, freshId)
    ensures var db, mid := sys.db, Next(sys, BeginCancel(c, shift, hoursApproved));
      if shift in db.shifts && db.shifts[shift].status == Scheduled && !hoursApproved then
        && c in mid.calls && Enabled(mid, Commit(c, freshId, now, None))
        && var after := Next(mid, Commit(c, freshId, now, None)).db;
           && after.shifts == db.shifts[shift := db.shifts[shift].(status := Cancelled, acceptedCount := 0)]
           && after.apps.Keys == db.apps.Keys
           && (forall a :: a in db.apps ==>
                 after.apps[a] == if db.apps[a].shift == shift && db.apps[a].status in {Pending, Accepted, Waitlisted}
                                  then db.apps[a].(status := Declined) else db.apps[a])
      else mid == sys
  {
  }

  /** Withdrawing works for the applicant of an active application; a freed place goes to the one waiting longest. */
  lemma WithdrawAlone(sys: System, c: Id, app: Id, caller: Id, freshId: Id, now: int, pick: Option<Id>)
    requires Idle(sys, c, freshId)
    ensures var db, mid := sys.db, Next(sys, BeginWithdraw(c, app, caller));
      if app in db.apps && db.apps[app].person == caller && db.apps[app].status in {Pending, Accepted, Waitlisted} then
        && c in mid.calls
        && (Enabled(mid, Commit(c, freshId, now, pick)) ==>
              Withdrew(db, app, db.apps[app].status == Accepted, pick, Next(mid, Commit(c, freshId, now, pick)).db))
      else mid == sys
  {
    var db, mid := sys.db, Next(sys, BeginWithdraw(c, app, caller));
    if c in mid.calls && Enabled(mid, Commit(c, freshId, now, pick)) {
      WithdrawTxIs(db, app, db.apps[app].status == Accepted, pick);
    }
  }

  // ---------- the commits by themselves, however stale their reads ----------

  /** Whatever came in between, the commit of an accept decides by the row it finds. */
  lemma AcceptCommits(sys: System, c: Id, freshId: Id, now: int, pick: Option<Id>)
    requires Enabled(sys, Commit(c, freshId, now, pick)) && sys.calls[c].Accepting?
    ensures var db, app, after := sys.db, sys.calls[c].app, Next(sys, Commit(c, freshId, now, pick)).db;
      && app in db.apps && db.apps[app].shift in db.shifts
      && var shift := db.shifts[db.apps[app].shift];
         after == if db.apps[app].status != Pending then db
                  else if shift.acceptedCount < shift.capacity then Decided(db, app, Accepted, ApplicationAccepted(app), 1)
                  else Decided(db, app, Waitlisted, ApplicationWaitlisted(app), 0)
  {
    SameShift(sys.db, sys.db.apps[sys.calls[c].app].shift);
  }

  /** The commit of a withdrawal promotes by the rows it finds, and frees a place by what it read. */
  lemma WithdrawCommits(sys: System, c: Id, freshId: Id, now: int, pick: Option<Id>)
    requires Enabled(sys, Commit(c, freshId, now, pick)) && sys.calls[c].Withdrawing?
    ensures sys.calls[c].app in sys.db.apps
    ensures Withdrew(sys.db, sys.calls[c].app, sys.calls[c].wasAccepted, pick, Next(sys, Commit(c, freshId, now, pick)).db)
  {
    WithdrawTxIs(sys.db, sys.calls[c].app, sys.calls[c].wasAccepted, pick);
  }
}
