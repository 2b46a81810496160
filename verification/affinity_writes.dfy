/**
 What an accepted write leaves Affinity holding, told by the record a read of it
 answers from then on.
 */
module AffinityWrites {
  import opened Options
  import opened AffinityMemo

  /** Whoever is employed, has a membership or a value is held, and so is where. */
  ghost predicate Referential(ws: Workspace) {
    && (forall pair :: pair in ws.employed ==> pair.0 in ws.persons && pair.1 in ws.organizations)
    && (forall e :: e in ws.entries ==> IsHeld(ws, ws.entries[e].of, ws.entries[e].entry.entityId))
  }

  predicate IsHeld(ws: Workspace, kind: Kind, id: int) {
    if kind == Person then id in ws.persons else id in ws.organizations
  }

  lemma WriteKeepsReferential(v: Vendor, ws: Workspace, op: Op)
    requires Referential(ws) && Accepted(v, ws, op)
    ensures Referential(Written(v, ws, op))
  {
  }

  lemma {:induction false} RunKeepsReferential(v: Vendor, c: Client, ops: seq<Op>)
    requires Referential(c.ws)
    ensures Referential(Run(v, c, ops).ws)
    decreases |ops|
  {
    if ops != [] {
      StepKeepsReferential(v, c, ops[0]);
      RunKeepsReferential(v, Step(v, c, ops[0]), ops[1..]);
    }
  }

  lemma StepKeepsReferential(v: Vendor, c: Client, op: Op)
    requires Referential(c.ws)
    ensures Referential(Step(v, c, op).ws)
  {
    StepWrites(v, c, op);
    if Accepted(v, c.ws, op) {
      WriteKeepsReferential(v, c.ws, op);
    }
  }

  /** A call writes what it says, or nothing where it is refused. */
  lemma StepWrites(v: Vendor, c: Client, op: Op)
    ensures Step(v, c, op).ws == if Accepted(v, c.ws, op) then Written(v, c.ws, op) else c.ws
  {
  }

  /** Both sides tell of one employment. */
  lemma SidesAgree(ws: Workspace, person: int, organization: int)
    ensures organization in PersonHit(ws, person).organizationIds <==> person in OrganizationHit(ws, organization).personIds
  {
    assert organization in Employers(ws, person) <==> (person, organization) in ws.employed;
    assert person in Employees(ws, organization) <==> (person, organization) in ws.employed;
  }

  /** The person a read by id answers. */
  predicate ReadsPerson(v: Vendor, ws: Workspace, id: int, p: PersonRecord) {
    Ask(v, ws, RecordKey(Person, id)) == Some(PersonAnswer(p))
  }

  predicate ReadsOrganization(v: Vendor, ws: Workspace, id: int, o: OrganizationRecord) {
    Ask(v, ws, RecordKey(Organization, id)) == Some(OrganizationAnswer(o))
  }

  lemma NoMembership(ws: Workspace, kind: Kind, id: int)
    requires Referential(ws) && !IsHeld(ws, kind, id)
    ensures Memberships(ws, kind, id) == map[]
  {
    forall e | e in ws.entries
      ensures ws.entries[e].of != kind || ws.entries[e].entry.entityId != id
    {
      assert IsHeld(ws, ws.entries[e].of, ws.entries[e].entry.entityId);
    }
    assert forall e :: e !in Memberships(ws, kind, id);
  }

  /** A new person reads as what was sent: both names, the one address unless it is
      empty, the one company unless none or 0, and no membership. */
  lemma NewPersonReads(v: Vendor, ws: Workspace, op: Op)
    requires Referential(ws) && op.CreatePerson? && Accepted(v, ws, op)
    ensures ReadsPerson(v, Written(v, ws, op), op.newId, PersonRecord(op.newId,
      PersonAttrs(op.firstName, op.lastName, if op.email == None || op.email == Some("") then [] else [op.email.value]),
      if op.orgId == None || op.orgId == Some(0) then {} else {op.orgId.value}, Some(map[])))
  {
    var after, joined := Written(v, ws, op), if op.orgId == None || op.orgId == Some(0) then {} else {op.orgId.value};
    assert Employers(after, op.newId) == joined by {
      forall o
        ensures o in Employers(after, op.newId) <==> o in joined
      {
        assert o in Employers(after, op.newId) <==> (op.newId, o) in after.employed;
        assert (op.newId, o) !in ws.employed;
      }
    }
    NoMembership(ws, Person, op.newId);
    assert Memberships(after, Person, op.newId) == Memberships(ws, Person, op.newId);
  }

  /** An updated person reads as before, but for the names, addresses and companies
      sent. */
  lemma UpdatedPersonReads(v: Vendor, ws: Workspace, id: int, payload: PersonPayload, was: PersonRecord)
    requires Accepted(v, ws, UpdatePerson(id, payload)) && ReadsPerson(v, ws, id, was)
    ensures ReadsPerson(v, Written(v, ws, UpdatePerson(id, payload)), id, PersonRecord(id,
      PersonAttrs(
        if payload.firstName == None then was.attrs.firstName else payload.firstName.value,
        if payload.lastName == None then was.attrs.lastName else payload.lastName.value,
        if payload.emails == None then was.attrs.emails else payload.emails.value),
      if payload.organizationIds == None then was.organizationIds else payload.organizationIds.value,
      was.entries))
  {
    var after := Written(v, ws, UpdatePerson(id, payload));
    UpdatedEmployers(v, ws, id, payload);
    assert Memberships(after, Person, id) == Memberships(ws, Person, id);
  }

  lemma UpdatedEmployers(v: Vendor, ws: Workspace, id: int, payload: PersonPayload)
    requires Accepted(v, ws, UpdatePerson(id, payload))
    ensures Employers(Written(v, ws, UpdatePerson(id, payload)), id)
      == if payload.organizationIds == None then Employers(ws, id) else payload.organizationIds.value
  {
    var after := Written(v, ws, UpdatePerson(id, payload));
    if payload.organizationIds.Some? {
      forall o
        ensures o in Employers(after, id) <==> o in payload.organizationIds.value
      {
        assert o in Employers(after, id) <==> (id, o) in after.employed;
      }
    }
  }

  /** A new company reads as what was sent, in the workspace, with nobody in it. */
  lemma NewOrganizationReads(v: Vendor, ws: Workspace, op: Op)
    requires Referential(ws) && op.CreateOrganization? && Accepted(v, ws, op)
    ensures ReadsOrganization(v, Written(v, ws, op), op.newId,
      OrganizationRecord(op.newId, OrganizationAttrs(op.name, op.domain, false), {}, Some(map[])))
  {
    var after := Written(v, ws, op);
    assert Employees(after, op.newId) == {} by {
      forall p
        ensures p !in Employees(after, op.newId)
      {
        assert p in Employees(after, op.newId) <==> (p, op.newId) in ws.employed;
      }
    }
    NoMembership(ws, Organization, op.newId);
    assert Memberships(after, Organization, op.newId) == Memberships(ws, Organization, op.newId);
  }

  /** An updated company reads as before but for its domain. */
  lemma UpdatedOrganizationReads(v: Vendor, ws: Workspace, id: int, domain: string, was: OrganizationRecord)
    requires Accepted(v, ws, UpdateOrganization(id, domain)) && ReadsOrganization(v, ws, id, was)
    ensures ReadsOrganization(v, Written(v, ws, UpdateOrganization(id, domain)), id,
      OrganizationRecord(id, OrganizationAttrs(was.attrs.name, Some(domain), was.attrs.global), was.personIds, was.entries))
  {
    var after := Written(v, ws, UpdateOrganization(id, domain));
    assert Memberships(after, Organization, id) == Memberships(ws, Organization, id);
  }

  /** A new membership reads as what was sent, by its own key and on its record. */
  lemma NewEntryReads(v: Vendor, ws: Workspace, op: Op)
    requires op.CreateEntry? && Accepted(v, ws, op)
    ensures var after, entry := Written(v, ws, op), Entry(op.listId, op.entityId, op.createdAt);
      && Ask(v, after, EntryKey(op.listId, op.newId)) == Some(EntryAnswer(op.newId, entry))
      && Memberships(after, op.of, op.entityId) == Memberships(ws, op.of, op.entityId)[op.newId := entry]
  {
  }

  /** The rows of a scope once one of them is this: as before, but for that row. */
  function WithRow(rows: map<int, ValueRow>, id: int, row: ValueRow, scope: Scope): map<int, ValueRow> {
    if InScope(row, scope) then rows[id := row] else rows
  }

  /** The value rows a read of a scope answers, once one is written: as before, but
      for that row, there exactly where it is in scope. */
  lemma WrittenRowReads(v: Vendor, ws: Workspace, op: Op, scope: Scope)
    requires Accepted(v, ws, op)
    ensures var was, now := RowsIn(ws, scope), RowsIn(Written(v, ws, op), scope);
      && (op.CreateValue? ==> now == WithRow(was, op.newId, op.row, scope))
      && (op.UpdateValue? ==> now == WithRow(was, op.rowId, ws.rows[op.rowId].(value := op.newValue), scope))
      && (op.DeleteValue? ==> now == was - {op.rowId})
  {
  }
}
