/**
 * Role calls interleaved: every call reads and checks first, and its transaction may commit at any later time,
 * or never, or again, while persons change status and other calls go on.
 */
module RoleRuns {
  import opened Common
  import opened Roles

  /** A call that has passed its checks. */
  datatype Ticket =
    | GrantTicket(caller: Id, key: Key)
    | RevokeTicket(caller: Id, assignment: Id)
    | EraseTicket(caller: Id, person: Id)

  datatype World = World(db: Identity, tickets: set<Ticket>)

  datatype Step =
    | Check(ticket: Ticket)
    | Commit(ticket: Ticket, newId: Id, now: int)
    | Sweep(person: Id, now: int)
    | Register(person: Id)
    | SetStatus(person: Id, status: PersonStatus)

  /** What a call has to find before it opens its transaction. */
  predicate Passes(db: Identity, t: Ticket) {
    match t
    case GrantTicket(caller, key) => ScopeCheck(key) && Can(db, caller, key) && !KeyTaken(db.rows, key)
    case RevokeTicket(caller, id) => id in db.rows && Standing(db.rows[id]) && Can(db, caller, db.rows[id].key)
    case EraseTicket(caller, person) => MayErase(db, caller, person) && person in db.persons && db.persons[person] != Anonymized
  }

  function Transaction(db: Identity, t: Ticket, newId: Id, now: int): Option<Identity> {
    match t
    case GrantTicket(caller, key) => InsertGrant(db, newId, caller, key)
    case RevokeTicket(caller, id) => UpdateRevoked(db, id, caller, now)
    case EraseTicket(caller, person) => Anonymize(db, person, Some(caller), now)
  }

  /** A transaction that a constraint refuses leaves no trace. */
  function Committed(db: Identity, result: Option<Identity>): Identity {
    match result case None => db case Some(next) => next
  }

  /** The trigger on persons lets nobody leave `anonymized`, and only erasure and the sweep enter it. */
  predicate StatusMayBecome(db: Identity, person: Id, status: PersonStatus) {
    person in db.persons && db.persons[person] != Anonymized && status != Anonymized
  }

  function Next(w: World, step: Step): World {
    match step
    case Check(t) => if Passes(w.db, t) then w.(tickets := w.tickets + {t}) else w
    case Commit(t, newId, now) => if t in w.tickets then w.(db := Committed(w.db, Transaction(w.db, t, newId, now))) else w
    case Sweep(person, now) => w.(db := Committed(w.db, Anonymize(w.db, person, None, now)))
    case Register(person) => if person in w.db.persons then w else w.(db := w.db.(persons := w.db.persons[person := Active]))
    case SetStatus(person, status) =>
      if StatusMayBecome(w.db, person, status) then w.(db := w.db.(persons := w.db.persons[person := status])) else w
  }

  function Run(w: World, steps: seq<Step>): World {
    if steps == [] then w else Next(Run(w, steps[..|steps| - 1]), steps[|steps| - 1])
  }

  // ---------- a call nothing comes in between ----------

  /** The tables after a check and its commit in one go. */
  function Straight(w: World, t: Ticket, newId: Id, now: int): Identity {
    Next(Next(w, Check(t)), Commit(t, newId, now)).db
  }

  /** A grant adds exactly its row, its event and its audit record when it is well scoped, allowed and new; else nothing. */
  lemma GrantAlone(w: World, caller: Id, key: Key, newId: Id, now: int)
    requires GrantTicket(caller, key) !in w.tickets && newId !in w.db.rows
    ensures var db, after := w.db, Straight(w, GrantTicket(caller, key), newId, now);
      if (key.scopeType == Global <==> key.scopeId == None) && Can(db, caller, key) && !HoldsSome(db.rows, key) && key.subject in db.persons
      then after == Identity(db.persons, db.rows[newId := Assignment(key, caller, None, None)], db.events + [RoleGranted(newId), Audited(true, newId)])
      else after == db
  {
    assert KeyTaken(w.db.rows, key) <==> HoldsSome(w.db.rows, key);
  }

  /** A revocation fills the two columns of exactly one active row that the caller may manage; else nothing. */
  lemma RevokeAlone(w: World, caller: Id, id: Id, newId: Id, now: int)
    requires RevokeTicket(caller, id) !in w.tickets
    ensures var db, after := w.db, Straight(w, RevokeTicket(caller, id), newId, now);
      if id in db.rows && db.rows[id].revokedAt == None && Can(db, caller, db.rows[id].key)
      then after == Identity(db.persons, db.rows[id := db.rows[id].(revokedBy := Some(caller), revokedAt := Some(now))],
                             db.events + [RoleRevoked(id), Audited(false, id)])
      else after == db
  {
  }

  /** An erasure anonymizes the person and revokes all they hold, when the caller may; else nothing. */
  lemma EraseAlone(w: World, caller: Id, person: Id, newId: Id, now: int)
    requires EraseTicket(caller, person) !in w.tickets
    ensures var db, after := w.db, Straight(w, EraseTicket(caller, person), newId, now);
      if MayErase(db, caller, person) && person in db.persons && db.persons[person] != Anonymized then
        && after.persons == db.persons[person := Anonymized] && after.events == db.events && after.rows.Keys == db.rows.Keys
        && forall id :: id in db.rows ==>
             after.rows[id] == if db.rows[id].key.subject == person && db.rows[id].revokedAt == None
                               then db.rows[id].(revokedBy := Some(caller), revokedAt := Some(now)) else db.rows[id]
      else after == db
  {
  }

  // ---------- who leads what at the start ----------

  ghost predicate NoOrgAdmin(db: Identity) {
    forall id :: id in db.rows && Standing(db.rows[id]) ==> !(db.rows[id].key.role == OrgAdmin && db.rows[id].key.scopeType == Global)
  }

  ghost predicate Leads(db: Identity, person: Id, chapter: Option<Id>) {
    exists id :: id in db.rows && Standing(db.rows[id]) && db.rows[id].key == Key(person, ChapterLead, Chapter, chapter)
  }

  /** The person led that key's chapter, and the key is one a chapter lead hands out. */
  ghost predicate DelegatedBy(start: Identity, person: Id, key: Key) {
    Delegable(key) && Leads(start, person, key.scopeId)
  }

  /** How a row present at the start may have changed: not at all, or once, by a lead of its chapter or its erased subject. */
  ghost predicate OldRowConfined(start: Identity, db: Identity, id: Id)
    requires id in start.rows
  {
    && id in db.rows
    && (db.rows[id] == start.rows[id]
        || (&& Standing(start.rows[id]) && db.rows[id].revokedAt.Some? && db.rows[id].revokedBy.Some?
            && db.rows[id].key == start.rows[id].key && db.rows[id].grantedBy == start.rows[id].grantedBy
            && (|| DelegatedBy(start, db.rows[id].revokedBy.value, db.rows[id].key)
                || (&& db.rows[id].revokedBy.value == db.rows[id].key.subject
                    && db.rows[id].key.subject in db.persons && db.persons[db.rows[id].key.subject] == Anonymized))))
  }

  ghost predicate NewRowConfined(start: Identity, db: Identity, id: Id) {
    id in db.rows && id !in start.rows ==> DelegatedBy(start, db.rows[id].grantedBy, db.rows[id].key)
  }

  ghost predicate TicketConfined(start: Identity, db: Identity, t: Ticket) {
    match t
    case GrantTicket(caller, key) => DelegatedBy(start, caller, key)
    case RevokeTicket(caller, id) => id in db.rows && DelegatedBy(start, caller, db.rows[id].key)
    case EraseTicket(caller, person) => caller == person
  }

  ghost predicate Confined(start: Identity, w: World) {
    && (forall id :: id in start.rows ==> OldRowConfined(start, w.db, id))
    && (forall id :: id in w.db.rows ==> NewRowConfined(start, w.db, id))
    && (forall t :: t in w.tickets ==> TicketConfined(start, w.db, t))
  }

  // ---------- nobody gains authority ----------

  /** An active row that no chapter lead hands out was there from the start. */
  lemma UndelegableIsOld(start: Identity, w: World, id: Id)
    requires Confined(start, w) && id in w.db.rows && Standing(w.db.rows[id]) && !Delegable(w.db.rows[id].key)
    ensures id in start.rows && start.rows[id] == w.db.rows[id]
  {
  }

  lemma AuthorityIsOld(start: Identity, w: World, caller: Id, key: Key)
    requires Confined(start, w) && NoOrgAdmin(start) && Can(w.db, caller, key)
    ensures DelegatedBy(start, caller, key)
  {
  }

  lemma NoAdminAppears(start: Identity, w: World, person: Id)
    requires Confined(start, w) && NoOrgAdmin(start)
    ensures !IsOrgAdmin(ActiveAssignments(w.db.rows, person))
  {
  }

  lemma CheckConfined(start: Identity, w: World, t: Ticket)
    requires Confined(start, w) && NoOrgAdmin(start) && Passes(w.db, t)
    ensures TicketConfined(start, w.db, t)
  {
    hide Confined, Can, DelegatedBy, IsOrgAdmin;
    match t
    case GrantTicket(caller, key) => AuthorityIsOld(start, w, caller, key);
    case RevokeTicket(caller, id) => AuthorityIsOld(start, w, caller, w.db.rows[id].key);
    case EraseTicket(caller, person) => NoAdminAppears(start, w, caller);
  }

  /** Rows keep their keys and ids, and an anonymized person stays so. */
  ghost predicate Succeeds(a: Identity, b: Identity) {
    && (forall id :: id in a.rows ==> id in b.rows && b.rows[id].key == a.rows[id].key)
    && (forall p :: p in a.persons ==> p in b.persons && (a.persons[p] == Anonymized ==> b.persons[p] == Anonymized))
  }

  lemma TicketsStay(start: Identity, a: Identity, b: Identity, tickets: set<Ticket>)
    requires Succeeds(a, b) && forall t :: t in tickets ==> TicketConfined(start, a, t)
    ensures forall t :: t in tickets ==> TicketConfined(start, b, t)
  {
  }

  lemma CommitConfined(start: Identity, w: World, t: Ticket, newId: Id, now: int)
    requires Confined(start, w) && t in w.tickets && Transaction(w.db, t, newId, now).Some?
    ensures Confined(start, World(Transaction(w.db, t, newId, now).value, w.tickets))
  {
    hide DelegatedBy, KeyTaken;
    var db := Transaction(w.db, t, newId, now).value;
    TicketsStay(start, w.db, db, w.tickets);
    assert TicketConfined(start, w.db, t);
    forall id | id in start.rows ensures OldRowConfined(start, db, id) {
      assert OldRowConfined(start, w.db, id);
    }
    forall id | id in db.rows ensures NewRowConfined(start, db, id) {
      assert id in w.db.rows ==> NewRowConfined(start, w.db, id);
    }
  }

  lemma SweepConfined(start: Identity, w: World, person: Id, now: int)
    requires Confined(start, w) && Anonymize(w.db, person, None, now).Some?
    ensures Confined(start, World(Anonymize(w.db, person, None, now).value, w.tickets))
  {
    hide DelegatedBy;
    var db := Anonymize(w.db, person, None, now).value;
    SweepWorksExactlyWhen(w.db, person, 0, now);
    NothingHeldNothingRevoked(w.db, person, now);
    TicketsStay(start, w.db, db, w.tickets);
    forall id | id in start.rows ensures OldRowConfined(start, db, id) {
      assert OldRowConfined(start, w.db, id);
    }
    forall id | id in db.rows ensures NewRowConfined(start, db, id) {
      assert NewRowConfined(start, w.db, id);
    }
  }

  lemma StatusConfined(start: Identity, w: World, step: Step)
    requires Confined(start, w) && (step.Register? || step.SetStatus?)
    ensures Confined(start, Next(w, step))
  {
    hide DelegatedBy;
    var db := Next(w, step).db;
    TicketsStay(start, w.db, db, w.tickets);
    forall id | id in start.rows ensures OldRowConfined(start, db, id) {
      assert OldRowConfined(start, w.db, id);
    }
    forall id | id in db.rows ensures NewRowConfined(start, db, id) {
      assert NewRowConfined(start, w.db, id);
    }
  }

  lemma StepConfined(start: Identity, w: World, step: Step)
    requires Confined(start, w) && NoOrgAdmin(start)
    ensures Confined(start, Next(w, step))
  {
    hide NoOrgAdmin, TicketConfined, OldRowConfined, NewRowConfined, Passes, Transaction, Anonymize;
    match step
    case Check(t) =>
      if Passes(w.db, t) {
        CheckConfined(start, w, t);
      }
    case Commit(t, newId, now) =>
      if t in w.tickets && Transaction(w.db, t, newId, now).Some? {
        CommitConfined(start, w, t, newId, now);
      }
    case Sweep(person, now) =>
      if Anonymize(w.db, person, None, now).Some? {
        SweepConfined(start, w, person, now);
      }
    case Register(_) => StatusConfined(start, w, step);
    case SetStatus(_, _) => StatusConfined(start, w, step);
  }

  lemma {:induction false} RunConfined(start: Identity, steps: seq<Step>)
    requires NoOrgAdmin(start)
    ensures Confined(start, Run(World(start, {}), steps))
    decreases |steps|
  {
    hide NoOrgAdmin, Next;
    if steps != [] {
      RunConfined(start, steps[..|steps| - 1]);
      StepConfined(start, Run(World(start, {}), steps[..|steps| - 1]), steps[|steps| - 1]);
    }
  }

  /**
   * From a state in which nobody is an organisation admin, no interleaving of role calls, erasures, sweeps and
   * status changes lets anyone become one, and no row ever changes but
   * mentor and volunteer rows of a chapter, by someone who led that chapter at the start, and the rows of
   * someone who erased themselves.
   */
  lemma DelegationIsConfined(start: Identity, steps: seq<Step>)
    requires NoOrgAdmin(start)
    ensures var db := Run(World(start, {}), steps).db;
      && NoOrgAdmin(db)
      && (forall id :: id in db.rows && id !in start.rows ==> DelegatedBy(start, db.rows[id].grantedBy, db.rows[id].key))
      && (forall id :: id in start.rows ==> OldRowConfined(start, db, id))
  {
    hide DelegatedBy, OldRowConfined, Run;
    RunConfined(start, steps);
    var w := Run(World(start, {}), steps);
    forall id | id in w.db.rows && Standing(w.db.rows[id])
      ensures !(w.db.rows[id].key.role == OrgAdmin && w.db.rows[id].key.scopeType == Global)
    {
      if w.db.rows[id].key.role == OrgAdmin {
        UndelegableIsOld(start, w, id);
      }
    }
    forall id | id in w.db.rows && id !in start.rows ensures DelegatedBy(start, w.db.rows[id].grantedBy, w.db.rows[id].key) {
      assert NewRowConfined(start, w.db, id);
    }
  }

  // ---------- what every run keeps ----------

  ghost predicate EventsMatch(db: Identity) {
    && NoDuplicates(db.events)
    && (forall id :: RoleGranted(id) in db.events || Audited(true, id) in db.events ==> id in db.rows)
    && (forall id :: RoleRevoked(id) in db.events || Audited(false, id) in db.events ==> id in db.rows && !Standing(db.rows[id]))
  }

  ghost predicate Sound(db: Identity) {
    && OneActivePerKey(db.rows) && EventsMatch(db)
    && (forall id :: id in db.rows ==> ScopeCheck(db.rows[id].key) && RevocationCheck(db.rows[id]))
  }

  lemma TwoMore<T>(s: seq<T>, a: T, b: T)
    requires NoDuplicates(s) && a !in s && b !in s && a != b
    ensures NoDuplicates(s + [a, b])
  {
  }

  lemma CommitSound(db: Identity, t: Ticket, newId: Id, now: int)
    requires Sound(db) && Transaction(db, t, newId, now).Some?
    ensures Sound(Transaction(db, t, newId, now).value)
  {
    hide OneActivePerKey, KeyTaken, NoDuplicates;
    match t
    case GrantTicket(caller, key) =>
      InsertKeepsKeys(db, newId, caller, key);
      TwoMore(db.events, RoleGranted(newId), Audited(true, newId));
    case RevokeTicket(caller, id) =>
      RevokeKeepsKeys(db, id, caller, now);
      TwoMore(db.events, RoleRevoked(id), Audited(false, id));
    case EraseTicket(caller, person) =>
      AnonymizeKeepsKeys(db, person, Some(caller), now);
  }

  lemma SweepSound(db: Identity, person: Id, now: int)
    requires Sound(db) && Anonymize(db, person, None, now).Some?
    ensures Sound(Anonymize(db, person, None, now).value)
  {
    hide OneActivePerKey;
    SweepWorksExactlyWhen(db, person, 0, now);
    NothingHeldNothingRevoked(db, person, now);
  }

  lemma StepSound(w: World, step: Step)
    requires Sound(w.db)
    ensures Sound(Next(w, step).db)
  {
    hide OneActivePerKey, NoDuplicates, Transaction, Anonymize, Passes;
    match step
    case Check(t) =>
    case Commit(t, newId, now) =>
      if t in w.tickets && Transaction(w.db, t, newId, now).Some? {
        CommitSound(w.db, t, newId, now);
      }
    case Sweep(person, now) =>
      if Anonymize(w.db, person, None, now).Some? {
        SweepSound(w.db, person, now);
      }
    case Register(_) =>
    case SetStatus(_, _) =>
  }

  /**
   * In every interleaving at most one assignment is active for a subject, role and scope, the table's checks hold,
   * and no grant or revocation is announced or audited twice.
   */
  lemma {:induction false} EveryRunIsSound(start: Identity, steps: seq<Step>)
    requires Sound(start)
    ensures Sound(Run(World(start, {}), steps).db)
    decreases |steps|
  {
    hide Sound, Next;
    if steps != [] {
      EveryRunIsSound(start, steps[..|steps| - 1]);
      StepSound(Run(World(start, {}), steps[..|steps| - 1]), steps[|steps| - 1]);
    }
  }

  // ---------- roles of the anonymized ----------

  ghost predicate AnonymizedHoldNothing(db: Identity) {
    forall id :: id in db.rows && Standing(db.rows[id]) ==>
      db.rows[id].key.subject in db.persons && db.persons[db.rows[id].key.subject] != Anonymized
  }

  /** The step inserts a row for somebody who is already anonymized: no grant looks at its subject's status. */
  ghost predicate GrantsToAnonymized(w: World, step: Step) {
    && step.Commit? && step.ticket in w.tickets && step.ticket.GrantTicket?
    && Transaction(w.db, step.ticket, step.newId, step.now).Some?
    && w.db.persons[step.ticket.key.subject] == Anonymized
  }

  /** Erasure's promise that an anonymized person keeps no active role holds until such a grant commits, and no longer. */
  lemma AnonymizedHoldNothingExactlyWhen(w: World, step: Step)
    requires AnonymizedHoldNothing(w.db)
    ensures AnonymizedHoldNothing(Next(w, step).db) <==> !GrantsToAnonymized(w, step)
  {
    hide KeyTaken, Passes;
    if GrantsToAnonymized(w, step) {
      assert Standing(Next(w, step).db.rows[step.newId]);
    } else if step.Sweep? && Anonymize(w.db, step.person, None, step.now).Some? {
      SweepWorksExactlyWhen(w.db, step.person, 0, step.now);
      NothingHeldNothingRevoked(w.db, step.person, step.now);
    }
  }

  /** Such a grant needs no race: an admin asks for it after the erasure and it goes through. */
  lemma GrantToAnonymizedHappens() returns (start: Identity, steps: seq<Step>)
    ensures Sound(start) && AnonymizedHoldNothing(start)
    ensures !AnonymizedHoldNothing(Run(World(start, {}), steps).db)
  {
    var admin := Assignment(Key(1, OrgAdmin, Global, None), 1, None, None);
    var key := Key(2, Volunteer, Global, None);
    var ticket := GrantTicket(1, key);
    start := Identity(map[1 := Active, 2 := Anonymized], map[7 := admin], []);
    steps := [Check(ticket), Commit(ticket, 8, 0)];
    assert admin == start.rows[7] && admin in ActiveAssignments(start.rows, 1);
    assert Passes(start, ticket);
    var w := World(start, {});
    assert steps[..1] == [Check(ticket)] && [Check(ticket)][..0] == [];
    assert Run(w, steps[..1]) == Next(w, Check(ticket));
    assert Run(w, steps) == Next(Next(w, Check(ticket)), Commit(ticket, 8, 0));
    assert Standing(Run(w, steps).db.rows[8]);
  }
}
