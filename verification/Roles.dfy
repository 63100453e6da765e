/** Granting and revoking roles through the policy check, against the constraints of the assignment table. */
module Roles {
  import opened Common

  datatype Role = Volunteer | Mentor | ChapterLead | ContentAdmin | OrgAdmin | Moderator
  datatype ScopeType = Global | Chapter | Team
  datatype PersonStatus = Active | Deactivated | Anonymized

  /** Who holds which role where: what the unique index of active assignments is over. */
  datatype Key = Key(subject: Id, role: Role, scopeType: ScopeType, scopeId: Option<Id>)

  datatype Assignment = Assignment(key: Key, grantedBy: Id, revokedBy: Option<Id>, revokedAt: Option<int>)

  datatype RoleEvent = RoleGranted(assignment: Id) | RoleRevoked(assignment: Id) | Audited(granted: bool, assignment: Id)

  datatype RoleError = InvalidRoleScope | ForbiddenAction | ConstraintViolation | AssignmentNotFound

  datatype Identity = Identity(persons: map<Id, PersonStatus>, rows: map<Id, Assignment>, events: seq<RoleEvent>)

  predicate Standing(row: Assignment) {
    row.revokedAt.None?
  }

  // ---------- the table's constraints ----------

  /** A scope id exactly for chapter and team scopes. */
  predicate ScopeCheck(key: Key) {
    key.scopeType == Global <==> key.scopeId.None?
  }

  /** Both revocation columns or neither. */
  predicate RevocationCheck(row: Assignment) {
    row.revokedBy.Some? <==> row.revokedAt.Some?
  }

  predicate Holds(rows: map<Id, Assignment>, id: Id, key: Key) {
    id in rows && rows[id].key == key && Standing(rows[id])
  }

  predicate KeyTaken(rows: map<Id, Assignment>, key: Key) {
    exists id :: id in rows && Holds(rows, id, key)
  }

  /** At most one active assignment for a subject, role and scope. */
  ghost predicate OneActivePerKey(rows: map<Id, Assignment>) {
    forall a, b, key :: Holds(rows, a, key) && Holds(rows, b, key) ==> a == b
  }

  // ---------- the policy ----------

  function ActiveAssignments(rows: map<Id, Assignment>, subject: Id): set<Assignment> {
    set id | id in rows && rows[id].key.subject == subject && Standing(rows[id]) :: rows[id]
  }

  predicate HasRoleInScope(facts: set<Assignment>, role: Role, scopeType: ScopeType, scopeId: Option<Id>) {
    exists a :: a in facts && a.key.role == role && Standing(a) && a.key.scopeType == scopeType
                && (scopeType == Global || a.key.scopeId == scopeId)
  }

  predicate IsOrgAdmin(facts: set<Assignment>) {
    HasRoleInScope(facts, OrgAdmin, Global, None)
  }

  /** Roles a chapter lead may hand out, inside a chapter. */
  predicate Delegable(key: Key) {
    key.scopeType == Chapter && (key.role == Mentor || key.role == Volunteer)
  }

  predicate ChapterLeadMay(key: Key, facts: set<Assignment>) {
    Delegable(key) && HasRoleInScope(facts, ChapterLead, Chapter, key.scopeId)
  }

  /** The rule `role.grant` and `role.revoke` share, behind the check of the caller's own status. */
  predicate Can(s: Identity, caller: Id, key: Key) {
    && caller in s.persons && s.persons[caller] == Active
    && (IsOrgAdmin(ActiveAssignments(s.rows, caller)) || ChapterLeadMay(key, ActiveAssignments(s.rows, caller)))
  }

  ghost predicate HoldsSome(rows: map<Id, Assignment>, key: Key) {
    exists id :: Holds(rows, id, key)
  }

  /** Who passes: an active person who is an organisation admin, or leads the chapter of a mentor or volunteer key. */
  lemma CanExactlyWhen(s: Identity, caller: Id, key: Key)
    requires forall id :: id in s.rows ==> ScopeCheck(s.rows[id].key)
    ensures Can(s, caller, key) <==>
      && caller in s.persons && s.persons[caller] == Active
      && (|| HoldsSome(s.rows, Key(caller, OrgAdmin, Global, None))
          || (key.scopeType == Chapter && key.role in {Mentor, Volunteer} && HoldsSome(s.rows, Key(caller, ChapterLead, Chapter, key.scopeId))))
  {
    var facts := ActiveAssignments(s.rows, caller);
    FactsAreRows(s.rows, caller, OrgAdmin, Global, None);
    FactsAreRows(s.rows, caller, ChapterLead, Chapter, key.scopeId);
  }

  lemma FactsAreRows(rows: map<Id, Assignment>, caller: Id, role: Role, scopeType: ScopeType, scopeId: Option<Id>)
    requires forall id :: id in rows ==> ScopeCheck(rows[id].key)
    requires scopeType == Global ==> scopeId.None?
    ensures HasRoleInScope(ActiveAssignments(rows, caller), role, scopeType, scopeId) <==> HoldsSome(rows, Key(caller, role, scopeType, scopeId))
  {
    var facts := ActiveAssignments(rows, caller);
    if HasRoleInScope(facts, role, scopeType, scopeId) {
      var fact :| fact in facts && fact.key.role == role && Standing(fact) && fact.key.scopeType == scopeType
                  && (scopeType == Global || fact.key.scopeId == scopeId);
      var id :| id in rows && rows[id] == fact && fact.key.subject == caller;
      assert Holds(rows, id, Key(caller, role, scopeType, scopeId));
    }
    if HoldsSome(rows, Key(caller, role, scopeType, scopeId)) {
      var id :| Holds(rows, id, Key(caller, role, scopeType, scopeId));
      assert rows[id] in facts;
    }
  }

  predicate MayErase(s: Identity, caller: Id, person: Id) {
    && caller in s.persons && s.persons[caller] == Active
    && (caller == person || IsOrgAdmin(ActiveAssignments(s.rows, caller)))
  }

  /** Who may erase a person: themselves or a global organisation admin, while active. */
  lemma MayEraseExactlyWhen(s: Identity, caller: Id, person: Id)
    requires forall id :: id in s.rows ==> ScopeCheck(s.rows[id].key)
    ensures MayErase(s, caller, person) <==>
      && caller in s.persons && s.persons[caller] == Active
      && (caller == person || HoldsSome(s.rows, Key(caller, OrgAdmin, Global, None)))
  {
    FactsAreRows(s.rows, caller, OrgAdmin, Global, None);
  }

  // ---------- the transactions ----------

  /** Inserts the row and its two events; nothing when a constraint refuses the row. */
  function InsertGrant(s: Identity, id: Id, caller: Id, key: Key): Option<Identity> {
    if id in s.rows || key.subject !in s.persons || caller !in s.persons || !ScopeCheck(key) || KeyTaken(s.rows, key) then None
    else Some(s.(rows := s.rows[id := Assignment(key, caller, None, None)],
                 events := s.events + [RoleGranted(id), Audited(true, id)]))
  }

  /** `UPDATE … WHERE revoked_at IS NULL`. */
  function UpdateRevoked(s: Identity, id: Id, caller: Id, now: int): Option<Identity> {
    if id !in s.rows || !Standing(s.rows[id]) || caller !in s.persons then None
    else Some(s.(rows := s.rows[id := s.rows[id].(revokedBy := Some(caller), revokedAt := Some(now))],
                 events := s.events + [RoleRevoked(id), Audited(false, id)]))
  }

  function RevokeAllOf(rows: map<Id, Assignment>, person: Id, revoker: Option<Id>, now: int): map<Id, Assignment> {
    map id | id in rows ::
      if rows[id].key.subject == person && Standing(rows[id]) then rows[id].(revokedBy := revoker, revokedAt := Some(now)) else rows[id]
  }

  /** Anonymizes the person and revokes what they still hold, if the rows written pass the table's check. */
  function Anonymize(s: Identity, person: Id, revoker: Option<Id>, now: int): Option<Identity> {
    var rows := RevokeAllOf(s.rows, person, revoker, now);
    if person !in s.persons || (exists id :: id in rows && rows[id] != s.rows[id] && !RevocationCheck(rows[id])) then None
    else Some(s.(persons := s.persons[person := Anonymized], rows := rows))
  }

  lemma NothingListedNothingHeld(rows: map<Id, Assignment>, person: Id)
    requires ActiveAssignments(rows, person) == {}
    ensures forall id :: id in rows ==> !(rows[id].key.subject == person && Standing(rows[id]))
  {
    assert forall id :: id in rows && rows[id].key.subject == person && Standing(rows[id]) ==> rows[id] in ActiveAssignments(rows, person);
  }

  /**
   * The retention sweep writes no revoker, which the table's check refuses, so it anonymizes a person
   * exactly when they hold no active role; erasure names its requester and always goes through.
   */
  lemma SweepWorksExactlyWhen(s: Identity, person: Id, caller: Id, now: int)
    requires person in s.persons
    ensures Anonymize(s, person, None, now).Some? <==> ActiveAssignments(s.rows, person) == {}
    ensures Anonymize(s, person, Some(caller), now).Some?
  {
    var rows := RevokeAllOf(s.rows, person, None, now);
    if ActiveAssignments(s.rows, person) != {} {
      var row :| row in ActiveAssignments(s.rows, person);
      var id :| id in s.rows && s.rows[id] == row && row.key.subject == person && Standing(row);
      assert id in rows && rows[id] != s.rows[id] && !RevocationCheck(rows[id]);
    } else {
      NothingListedNothingHeld(s.rows, person);
    }
  }

  // ---------- the calls ----------

  datatype Granted = Granted(assignment: Id, alreadyActive: bool)

  class IdentityStore {
    var persons: map<Id, PersonStatus>
    var rows: map<Id, Assignment>
    var events: seq<RoleEvent>
    var nextId: Id

    ghost function Model(): Identity
      reads this
    {
      Identity(persons, rows, events)
    }

    ghost predicate Valid()
      reads this
    {
      && OneActivePerKey(rows)
      && (forall id :: id in rows ==> id < nextId && ScopeCheck(rows[id].key) && RevocationCheck(rows[id]))
    }

    constructor ()
      ensures Valid() && Model() == Identity(map[], map[], [])
    {
      persons, rows, events, nextId := map[], map[], [], 0;
    }

    /** Exactly the authorised, well-scoped requests succeed; one whose key is already held changes nothing. */
    method GrantRole(caller: Id, key: Key) returns (r: Result<Granted, RoleError>)
      requires Valid()
      modifies this
      ensures Valid() && persons == old(persons)
      ensures r == Err(InvalidRoleScope) <==> !ScopeCheck(key)
      ensures r == Err(ForbiddenAction) <==> ScopeCheck(key) && !Can(old(Model()), caller, key)
      ensures r == Err(ConstraintViolation) <==>
              ScopeCheck(key) && Can(old(Model()), caller, key) && !KeyTaken(old(rows), key) && key.subject !in persons
      ensures r != Err(AssignmentNotFound)
      ensures r.Ok? ==> Holds(rows, r.value.assignment, key) && (r.value.alreadyActive <==> KeyTaken(old(rows), key))
      ensures r.Ok? && !r.value.alreadyActive ==>
        var id := r.value.assignment;
        && id !in old(rows)
        && rows == old(rows)[id := Assignment(key, caller, None, None)]
        && events == old(events) + [RoleGranted(id), Audited(true, id)]
        && InsertGrant(old(Model()), id, caller, key) == Some(Model())
      ensures r.Err? || r.value.alreadyActive ==> Model() == old(Model())
    {
      if (key.scopeType != Global) != key.scopeId.Some? {
        return Err(InvalidRoleScope);
      }
      if !Can(Identity(persons, rows, events), caller, key) {
        return Err(ForbiddenAction);
      }
      if id :| id in rows && rows[id].key == key && Standing(rows[id]) {
        return Ok(Granted(id, true));
      }
      var id := nextId;
      if key.subject !in persons {
        return Err(ConstraintViolation);
      }
      nextId := nextId + 1;
      rows := rows[id := Assignment(key, caller, None, None)];
      events := events + [RoleGranted(id), Audited(true, id)];
      InsertKeepsKeys(old(Model()), id, caller, key);
      return Ok(Granted(id, false));
    }

    /** Sets the revocation columns of one active row that the caller may revoke, and nothing else. */
    method RevokeRole(caller: Id, assignment: Id, now: int) returns (r: Result<(), RoleError>)
      requires Valid()
      modifies this
      ensures Valid() && persons == old(persons)
      ensures r == Err(AssignmentNotFound) <==> !(assignment in old(rows) && Standing(old(rows)[assignment]))
      ensures r.Ok? <==> assignment in old(rows) && Standing(old(rows)[assignment]) && Can(old(Model()), caller, old(rows)[assignment].key)
      ensures r.Err? ==> r.error.AssignmentNotFound? || r.error.ForbiddenAction?
      ensures r.Err? ==> Model() == old(Model())
      ensures r.Ok? ==>
        && rows == old(rows)[assignment := old(rows)[assignment].(revokedBy := Some(caller), revokedAt := Some(now))]
        && events == old(events) + [RoleRevoked(assignment), Audited(false, assignment)]
        && UpdateRevoked(old(Model()), assignment, caller, now) == Some(Model())
    {
      if assignment !in rows || !Standing(rows[assignment]) {
        return Err(AssignmentNotFound);
      }
      if !Can(Identity(persons, rows, events), caller, rows[assignment].key) {
        return Err(ForbiddenAction);
      }
      rows := rows[assignment := rows[assignment].(revokedBy := Some(caller), revokedAt := Some(now))];
      events := events + [RoleRevoked(assignment), Audited(false, assignment)];
      RevokeKeepsKeys(old(Model()), assignment, caller, now);
      return Ok(());
    }

    /** The role side of an erasure: the person is anonymized and every active row of theirs revoked. */
    method RequestErasure(caller: Id, person: Id, now: int) returns (ok: bool)
      requires Valid()
      modifies this
      ensures Valid() && events == old(events)
      ensures ok <==>
        && caller in old(persons) && old(persons)[caller] == Active
        && (caller == person || HoldsSome(old(rows), Key(caller, OrgAdmin, Global, None)))
        && person in old(persons) && old(persons)[person] != Anonymized
      ensures !ok ==> Model() == old(Model())
      ensures ok ==> persons == old(persons)[person := Anonymized] && rows.Keys == old(rows).Keys && ActiveAssignments(rows, person) == {}
      ensures ok ==> Anonymize(old(Model()), person, Some(caller), now) == Some(Model())
      ensures ok ==> forall id :: id in rows ==>
        rows[id] == if old(rows)[id].key.subject == person && Standing(old(rows)[id])
                    then old(rows)[id].(revokedBy := Some(caller), revokedAt := Some(now)) else old(rows)[id]
    {
      MayEraseExactlyWhen(Model(), caller, person);
      if !MayErase(Identity(persons, rows, events), caller, person) || person !in persons || persons[person] == Anonymized {
        return false;
      }
      persons := persons[person := Anonymized];
      rows := RevokeAllOf(rows, person, Some(caller), now);
      AnonymizeKeepsKeys(old(Model()), person, Some(caller), now);
      return true;
    }

    /** Stops with an error at the first person who still holds an active role; the ones before stay anonymized. */
    method SweepInactivePersons(stale: seq<Id>) returns (done: nat, ok: bool)
      requires Valid() && forall p :: p in stale ==> p in persons
      modifies this
      ensures Valid() && rows == old(rows) && events == old(events)
      ensures done <= |stale| && (ok <==> done == |stale|)
      ensures forall i :: 0 <= i < done ==> ActiveAssignments(old(rows), stale[i]) == {}
      ensures !ok ==> ActiveAssignments(old(rows), stale[done]) != {}
      ensures persons.Keys == old(persons).Keys
      ensures forall p :: p in persons ==> persons[p] == if p in stale[..done] then Anonymized else old(persons)[p]
    {
      done := 0;
      while done < |stale|
        invariant done <= |stale| && rows == old(rows) && events == old(events) && Valid()
        invariant persons.Keys == old(persons).Keys
        invariant forall p :: p in persons ==> persons[p] == if p in stale[..done] then Anonymized else old(persons)[p]
        invariant forall i :: 0 <= i < done ==> ActiveAssignments(old(rows), stale[i]) == {}
      {
        SweepWorksExactlyWhen(Model(), stale[done], 0, 0);
        match Anonymize(Identity(persons, rows, events), stale[done], None, 0)
        case None => return done, false;
        case Some(next) =>
          NothingHeldNothingRevoked(Model(), stale[done], 0);
          assert stale[..done + 1] == stale[..done] + [stale[done]];
          persons, rows := next.persons, next.rows;
          done := done + 1;
      }
      return done, true;
    }
  }

  lemma NothingHeldNothingRevoked(s: Identity, person: Id, now: int)
    requires ActiveAssignments(s.rows, person) == {}
    ensures RevokeAllOf(s.rows, person, None, now) == s.rows
  {
    NothingListedNothingHeld(s.rows, person);
  }

  // ---------- the unique index under each transaction ----------

  lemma InsertKeepsKeys(s: Identity, id: Id, caller: Id, key: Key)
    requires OneActivePerKey(s.rows) && InsertGrant(s, id, caller, key).Some?
    ensures OneActivePerKey(InsertGrant(s, id, caller, key).value.rows)
  {
    var next := InsertGrant(s, id, caller, key).value;
    forall a, b, k | Holds(next.rows, a, k) && Holds(next.rows, b, k) ensures a == b {
      if a != id && b != id {
        assert Holds(s.rows, a, k) && Holds(s.rows, b, k);
      }
    }
  }

  lemma RevokeKeepsKeys(s: Identity, id: Id, caller: Id, now: int)
    requires OneActivePerKey(s.rows) && UpdateRevoked(s, id, caller, now).Some?
    ensures OneActivePerKey(UpdateRevoked(s, id, caller, now).value.rows)
  {
    var next := UpdateRevoked(s, id, caller, now).value;
    forall a, b, k | Holds(next.rows, a, k) && Holds(next.rows, b, k) ensures a == b {
      assert Holds(s.rows, a, k) && Holds(s.rows, b, k);
    }
  }

  lemma AnonymizeKeepsKeys(s: Identity, person: Id, revoker: Option<Id>, now: int)
    requires OneActivePerKey(s.rows) && Anonymize(s, person, revoker, now).Some?
    ensures OneActivePerKey(Anonymize(s, person, revoker, now).value.rows)
    ensures ActiveAssignments(Anonymize(s, person, revoker, now).value.rows, person) == {}
  {
    var next := Anonymize(s, person, revoker, now).value;
    forall a, b, k | Holds(next.rows, a, k) && Holds(next.rows, b, k) ensures a == b {
      assert Holds(s.rows, a, k) && Holds(s.rows, b, k);
    }
  }
}
