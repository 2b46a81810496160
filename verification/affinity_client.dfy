/**
 The Affinity client with its read memo, updated in place as the source does it.
 Every call is proved to be the `Step` of affinity_memo.dfy, so what is proved
 there of every run holds of this class.
 */
module AffinityClients {
  import opened Options
  import opened AffinityMemo

  /** The company a new person is created into, as the index names it. */
  ghost function JoinedRefs(orgId: Option<int>): (refs: set<Ref>)
    ensures refs == if orgId.Some? && orgId.value != 0 then {OrganizationRef(orgId.value)} else {}
  {
    set o | o in Truthy(orgId) :: OrganizationRef(o)
  }

  lemma NotedNothing(index: Index, key: Key)
    ensures Noted(index, key, {}) == index
  {
    forall r | r in index ensures Noted(index, key, {})[r] == index[r] {
      assert index[r] + {} == index[r];
    }
  }

  lemma SomeMember<T>(s: set<T>) returns (x: T)
    requires s != {}
    ensures x in s
  {
    x :| x in s;
  }

  class AffinityClient {
    const vendor: Vendor
    /** What Affinity holds: the far side of the wire. */
    var workspace: Workspace
    var memo: Memo
    var index: Index

    constructor (vendor: Vendor, workspace: Workspace)
      ensures this.vendor == vendor && State() == Opened(workspace)
    {
      this.vendor := vendor;
      this.workspace := workspace;
      memo, index := map[], map[];
    }

    ghost function State(): Client
      reads this
    {
      Client(workspace, memo, index)
    }

    // ── The index ────────────────────────────────────────────────────────

    /** Put a key under every record its answer carries. */
    method NoteAnswer(key: Key, refs: set<Ref>)
      modifies this`index
      ensures index == Noted(old(index), key, refs)
    {
      var left := refs;
      NotedNothing(index, key);
      assert refs - left == {};
      while left != {}
        invariant left <= refs
        invariant index == Noted(old(index), key, refs - left)
        decreases left
      {
        var ref :| ref in left;
        var keys := if ref in index then index[ref] else {};
        index := index[ref := keys + {key}];
        left := left - {ref};
      }
    }

    /** Drop from the memo each key the index holds under any of these refs. */
    method ForgetAnswersCarrying(refs: set<Ref>)
      modifies this`memo
      ensures memo == old(memo) - KeysCarrying(index, refs)
    {
      var left := refs;
      var keys: set<Key> := {};
      while left != {}
        invariant left <= refs
        invariant keys == KeysCarrying(index, refs - left)
        decreases left
      {
        var ref :| ref in left;
        assert KeysCarrying(index, refs - (left - {ref}))
            == KeysCarrying(index, refs - left) + (if ref in index then index[ref] else {}) by {
          assert refs - (left - {ref}) == refs - left + {ref};
        }
        keys := keys + if ref in index then index[ref] else {};
        left := left - {ref};
      }
      assert refs - left == refs;
      memo := memo - keys;
    }

    /** File each membership an entity read carries inline as the entry it is. */
    method WithMembershipsFiled(entries: map<int, Entry>)
      modifies this`memo
      ensures memo == old(memo) + EntriesFiled(entries)
    {
      var left := entries.Keys;
      ghost var filed := EntriesFiled(entries);
      while left != {}
        invariant left <= entries.Keys
        invariant forall k :: k in memo <==> k in old(memo) || (k in filed && k.entryId !in left)
        invariant forall k :: k in memo ==> memo[k] == if k in filed && k.entryId !in left then filed[k] else old(memo)[k]
        decreases left
      {
        ghost var some := SomeMember(left);
        var e :| e in left;
        memo := memo[EntryKey(entries[e].listId, e) := EntryAnswer(e, entries[e])];
        left := left - {e};
      }
    }

    /** File a write's response under the record's own key, and index it. */
    method FileRecord(kind: Kind, id: int, answer: Answer)
      requires Ask(vendor, workspace, RecordKey(kind, id)) == Some(answer)
      modifies this`memo, this`index
      ensures State() == Filed(vendor, old(State()), kind, id)
    {
      memo := memo[RecordKey(kind, id) := answer];
      NoteAnswer(RecordKey(kind, id), Carried(answer));
    }

    method ForgetSearches(kind: Kind)
      modifies this`memo
      ensures memo == old(memo) - SearchKeys(old(memo), kind)
    {
      memo := memo - SearchKeys(memo, kind);
    }

    method ForgetFieldValues()
      modifies this`memo
      ensures memo == old(memo) - AllValuesKeys(old(memo))
    {
      memo := memo - AllValuesKeys(memo);
    }

    /** The answers a row is part of; every one when its owner is not known. */
    method ForgetFieldValuesOf(owner: Option<(int, Option<int>)>)
      modifies this`memo
      ensures memo == old(memo) - if owner.Some? then ValuesKeysOf(owner.value.0, owner.value.1) else AllValuesKeys(old(memo))
    {
      if owner.None? {
        ForgetFieldValues();
      } else {
        memo := memo - ValuesKeysOf(owner.value.0, owner.value.1);
      }
    }

    /** Put a write to the vendor, which may refuse it. */
    method Send(op: Op) returns (accepted: bool)
      modifies this`workspace
      ensures accepted == Accepted(vendor, old(workspace), op)
      ensures workspace == if accepted then Written(vendor, old(workspace), op) else old(workspace)
    {
      accepted := Accepted(vendor, workspace, op);
      if accepted {
        workspace := Written(vendor, workspace, op);
      }
    }

    // ── Reads ────────────────────────────────────────────────────────────

    /** The one read every getter goes through: serve the memo, or ask and
        remember. A coherent memo serves what Affinity would answer now. */
    method MemoisedRead(key: Key) returns (r: Option<Answer>)
      modifies this`memo, this`index
      ensures State() == Step(vendor, old(State()), Read(key))
      ensures Exact(vendor, old(State())) ==> r == Ask(vendor, workspace, key)
      ensures r == if key in old(memo) then Some(old(memo)[key]) else Ask(vendor, workspace, key)
    {
      if key in memo {
        assert Exact(vendor, State()) ==> Current(vendor, State(), key);
        return Some(memo[key]);
      }
      r := Ask(vendor, workspace, key);
      if r.Some? {
        WithMembershipsFiled(Inline(r.value));
        NoteAnswer(key, Carried(r.value));
        memo := memo[key := r.value];
      }
    }

    method GetRecord(kind: Kind, id: int) returns (r: Option<Answer>)
      modifies this`memo, this`index
      ensures State() == Step(vendor, old(State()), Read(RecordKey(kind, id)))
      ensures Exact(vendor, old(State())) ==> r == Ask(vendor, workspace, RecordKey(kind, id))
    {
      r := MemoisedRead(RecordKey(kind, id));
    }

    method SearchPage(kind: Kind, page: Page) returns (r: Option<Answer>)
      modifies this`memo, this`index
      ensures State() == Step(vendor, old(State()), Read(SearchKey(kind, page)))
      ensures Exact(vendor, old(State())) ==> r == Ask(vendor, workspace, SearchKey(kind, page))
    {
      r := MemoisedRead(SearchKey(kind, page));
    }

    method GetListEntry(listId: int, entryId: int) returns (r: Option<Answer>)
      modifies this`memo, this`index
      ensures State() == Step(vendor, old(State()), Read(EntryKey(listId, entryId)))
      ensures Exact(vendor, old(State())) ==> r == Ask(vendor, workspace, EntryKey(listId, entryId))
      ensures EntryKey(listId, entryId) in old(memo) ==> r == Some(old(memo)[EntryKey(listId, entryId)])
    {
      r := MemoisedRead(EntryKey(listId, entryId));
    }

    method GetFieldValues(scope: Scope) returns (r: Option<Answer>)
      modifies this`memo, this`index
      ensures State() == Step(vendor, old(State()), Read(ValuesKey(scope)))
      ensures Exact(vendor, old(State())) ==> r == Ask(vendor, workspace, ValuesKey(scope))
    {
      r := MemoisedRead(ValuesKey(scope));
    }

    // ── Writes ───────────────────────────────────────────────────────────

    method CreateOrganization(newId: int, name: string, domain: Option<string>) returns (r: Option<Answer>)
      modifies this
      ensures State() == Step(vendor, old(State()), Op.CreateOrganization(newId, name, domain))
      ensures r == if Accepted(vendor, old(workspace), Op.CreateOrganization(newId, name, domain)) then Ask(vendor, workspace, RecordKey(Organization, newId)) else None
    {
      var accepted := Send(Op.CreateOrganization(newId, name, domain));
      if !accepted { return None; }
      r := Ask(vendor, workspace, RecordKey(Organization, newId));
      ForgetSearches(Organization);
      FileRecord(Organization, newId, r.value);
      var confirming := GetRecord(Organization, newId);
    }

    method UpdateOrganization(id: int, domain: string) returns (r: Option<Answer>)
      modifies this
      ensures State() == Step(vendor, old(State()), Op.UpdateOrganization(id, domain))
      ensures r == if Accepted(vendor, old(workspace), Op.UpdateOrganization(id, domain)) then Ask(vendor, workspace, RecordKey(Organization, id)) else None
    {
      var accepted := Send(Op.UpdateOrganization(id, domain));
      if !accepted { return None; }
      r := Ask(vendor, workspace, RecordKey(Organization, id));
      FileRecord(Organization, id, r.value);
      ForgetSearches(Organization);
    }

    method CreatePerson(newId: int, firstName: string, lastName: string, email: Option<string>, orgId: Option<int>)
      returns (r: Option<Answer>)
      modifies this
      ensures State() == Step(vendor, old(State()), Op.CreatePerson(newId, firstName, lastName, email, orgId))
      ensures r == if Accepted(vendor, old(workspace), Op.CreatePerson(newId, firstName, lastName, email, orgId)) then Ask(vendor, workspace, RecordKey(Person, newId)) else None
    {
      var accepted := Send(Op.CreatePerson(newId, firstName, lastName, email, orgId));
      if !accepted { return None; }
      r := Ask(vendor, workspace, RecordKey(Person, newId));
      ForgetSearches(Person);
      if orgId.Some? && orgId.value != 0 {
        ForgetAnswersCarrying({OrganizationRef(orgId.value)});
      }
      assert memo == old(memo) - SearchKeys(old(memo), Person) - KeysCarrying(index, JoinedRefs(orgId));
      FileRecord(Person, newId, r.value);
      var confirming := GetRecord(Person, newId);
    }

    method UpdatePerson(id: int, payload: PersonPayload) returns (r: Option<Answer>)
      modifies this
      ensures State() == Step(vendor, old(State()), Op.UpdatePerson(id, payload))
      ensures r == if Accepted(vendor, old(workspace), Op.UpdatePerson(id, payload)) then Ask(vendor, workspace, RecordKey(Person, id)) else None
    {
      var accepted := Send(Op.UpdatePerson(id, payload));
      if !accepted { return None; }
      r := Ask(vendor, workspace, RecordKey(Person, id));
      var joined := if payload.organizationIds.Some? then payload.organizationIds.value else {};
      ForgetAnswersCarrying({PersonRef(id)} + set o | o in joined :: OrganizationRef(o));
      if payload.firstName.Some? || payload.lastName.Some? || payload.emails.Some? {
        ForgetSearches(Person);
      }
      assert memo == old(memo) - ForgottenByUpdate(old(State()), id, payload);
      FileRecord(Person, id, r.value);
    }

    method CreateListEntry(newId: int, listId: int, of: Kind, entityId: int, createdAt: string) returns (r: Option<int>)
      modifies this
      ensures State() == Step(vendor, old(State()), CreateEntry(newId, listId, of, entityId, createdAt))
      ensures r == if Accepted(vendor, old(workspace), CreateEntry(newId, listId, of, entityId, createdAt)) then Some(newId) else None
    {
      var accepted := Send(CreateEntry(newId, listId, of, entityId, createdAt));
      if !accepted { return None; }
      memo := memo - {RecordKey(Organization, entityId), RecordKey(Person, entityId)};
      memo := memo[EntryKey(listId, newId) := EntryAnswer(newId, workspace.entries[newId].entry)];
      var confirming := GetListEntry(listId, newId);
      r := Some(confirming.value.entryId);
    }

    method DeleteListEntry(listId: int, entryId: int) returns (accepted: bool)
      modifies this
      ensures State() == Step(vendor, old(State()), DeleteEntry(listId, entryId))
      ensures accepted == Accepted(vendor, old(workspace), DeleteEntry(listId, entryId))
    {
      accepted := Send(DeleteEntry(listId, entryId));
      if accepted {
        memo := memo - {EntryKey(listId, entryId)};
        memo := memo - RecordKeys(memo);
        ForgetFieldValues();
        assert memo == old(memo) - ({EntryKey(listId, entryId)} + RecordKeys(old(memo)) + AllValuesKeys(old(memo)));
      }
    }

    method CreateFieldValue(newId: int, row: ValueRow) returns (accepted: bool)
      modifies this
      ensures State() == Step(vendor, old(State()), CreateValue(newId, row))
      ensures accepted == Accepted(vendor, old(workspace), CreateValue(newId, row))
    {
      accepted := Send(CreateValue(newId, row));
      if accepted {
        ForgetFieldValuesOf(Some((row.entityId, row.entry)));
      }
    }

    method UpdateFieldValue(rowId: int, value: string, ownerNamed: bool) returns (accepted: bool)
      modifies this
      ensures State() == Step(vendor, old(State()), UpdateValue(rowId, value, ownerNamed))
      ensures accepted == Accepted(vendor, old(workspace), UpdateValue(rowId, value, ownerNamed))
    {
      accepted := Send(UpdateValue(rowId, value, ownerNamed));
      if accepted {
        var row := workspace.rows[rowId];
        ForgetFieldValuesOf(if ownerNamed then Some((row.entityId, row.entry)) else None);
      }
    }

    method DeleteFieldValue(rowId: int) returns (accepted: bool)
      modifies this
      ensures State() == Step(vendor, old(State()), DeleteValue(rowId))
      ensures accepted == Accepted(vendor, old(workspace), DeleteValue(rowId))
    {
      accepted := Send(DeleteValue(rowId));
      if accepted {
        ForgetFieldValues();
      }
    }

    method DeleteRecord(kind: Kind, id: int) returns (accepted: bool)
      modifies this
      ensures State() == Step(vendor, old(State()), if kind == Person then DeletePerson(id) else DeleteOrganization(id))
      ensures accepted == Accepted(vendor, old(workspace), if kind == Person then DeletePerson(id) else DeleteOrganization(id))
    {
      accepted := Send(if kind == Person then DeletePerson(id) else DeleteOrganization(id));
      if accepted {
        memo := memo - {RecordKey(kind, id)};
        ForgetSearches(kind);
        ForgetFieldValues();
        assert memo == old(memo) - ({RecordKey(kind, id)} + SearchKeys(old(memo), kind) + AllValuesKeys(old(memo)));
      }
    }
  }
}
