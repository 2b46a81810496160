/**
 The per-run read memo of the Affinity client, as a specification.

 A `Workspace` is what Affinity holds. `Ask` is the answer it gives now to the
 question a memo key names. `Step` is what one client call does to the
 workspace, the memo and the index of which answers carry which record.
 The class in affinity_client.dfy performs the same steps in place.
 */
module AffinityMemo {
  import opened Options

  datatype Kind = Person | Organization

  /** A record an answer can carry. Entry refs are never indexed. */
  datatype Ref = PersonRef(id: int) | OrganizationRef(id: int) | EntryRef(id: int)

  function RefOf(kind: Kind, id: int): Ref {
    match kind
    case Person => PersonRef(id)
    case Organization => OrganizationRef(id)
  }

  /** A list entry less its own id, which keys it wherever it is held. */
  datatype Entry = Entry(listId: int, entityId: int, createdAt: string)

  datatype PersonAttrs = PersonAttrs(firstName: string, lastName: string, emails: seq<string>)
  datatype OrganizationAttrs = OrganizationAttrs(name: string, domain: Option<string>, global: bool)

  /** A list entry and the kind of record its list is made of. */
  datatype Membership = Membership(entry: Entry, of: Kind)

  /** One field value. `entry` is set when the field belongs to a list. */
  datatype ValueRow = ValueRow(fieldId: int, owner: Kind, entityId: int, entry: Option<int>, value: string)

  /** What Affinity holds. Employment is kept once, as (person, organization) pairs. */
  datatype Workspace = Workspace(
    persons: map<int, PersonAttrs>,
    organizations: map<int, OrganizationAttrs>,
    employed: set<(int, int)>,
    entries: map<int, Membership>,
    rows: map<int, ValueRow>,
    gone: set<Ref>)

  datatype Page = Page(term: string, pageSize: int, token: Option<string>)
  datatype Hits = Hits(ids: seq<int>, next: Option<string>)

  /** How Affinity matches and pages a search: any function of the searched
      kind's attributes and the page asked for. */
  datatype Vendor = Vendor(
    findPeople: (map<int, PersonAttrs>, Page) -> Hits,
    findOrganizations: (map<int, OrganizationAttrs>, Page) -> Hits)

  datatype Scope = OfRecord(kind: Kind, id: int) | OfEntry(entryId: int)

  /** A memo key names the question its answer was given to. */
  datatype Key =
    | RecordKey(kind: Kind, id: int)
    | EntryKey(listId: int, entryId: int)
    | ValuesKey(scope: Scope)
    | SearchKey(kind: Kind, page: Page)

  /** `entries` is the inline memberships: a by-id read has them, a search hit does not. */
  datatype PersonRecord = PersonRecord(id: int, attrs: PersonAttrs, organizationIds: set<int>, entries: Option<map<int, Entry>>)
  datatype OrganizationRecord = OrganizationRecord(id: int, attrs: OrganizationAttrs, personIds: set<int>, entries: Option<map<int, Entry>>)

  datatype Answer =
    | PersonAnswer(person: PersonRecord)
    | OrganizationAnswer(organization: OrganizationRecord)
    | EntryAnswer(entryId: int, entry: Entry)
    | RowsAnswer(rows: map<int, ValueRow>)
    | PeoplePage(people: seq<PersonRecord>, next: Option<string>)
    | OrganizationsPage(organizations: seq<OrganizationRecord>, next: Option<string>)

  // ── What Affinity answers now ──────────────────────────────────────────

  function Employers(ws: Workspace, person: int): set<int> {
    set pair | pair in ws.employed && pair.0 == person :: pair.1
  }

  function Employees(ws: Workspace, organization: int): set<int> {
    set pair | pair in ws.employed && pair.1 == organization :: pair.0
  }

  function Memberships(ws: Workspace, kind: Kind, id: int): map<int, Entry> {
    map e | e in ws.entries && ws.entries[e].of == kind && ws.entries[e].entry.entityId == id :: ws.entries[e].entry
  }

  function PersonHit(ws: Workspace, id: int): PersonRecord {
    var attrs := if id in ws.persons then ws.persons[id] else PersonAttrs("", "", []);
    PersonRecord(id, attrs, Employers(ws, id), None)
  }

  function OrganizationHit(ws: Workspace, id: int): OrganizationRecord {
    var attrs := if id in ws.organizations then ws.organizations[id] else OrganizationAttrs("", None, false);
    OrganizationRecord(id, attrs, Employees(ws, id), None)
  }

  function RowsIn(ws: Workspace, scope: Scope): map<int, ValueRow> {
    map i | i in ws.rows && InScope(ws.rows[i], scope) :: ws.rows[i]
  }

  /** A record's values include those on its list entries, which name it too. */
  predicate InScope(row: ValueRow, scope: Scope) {
    match scope
    case OfRecord(kind, id) => row.owner == kind && row.entityId == id
    case OfEntry(entryId) => row.entry == Some(entryId)
  }

  /** The answer to a key's question, or None where Affinity answers an error. */
  function Ask(v: Vendor, ws: Workspace, key: Key): Option<Answer> {
    match key
    case RecordKey(Person, id) =>
      if id in ws.persons
      then Some(PersonAnswer(PersonHit(ws, id).(entries := Some(Memberships(ws, Person, id)))))
      else None
    case RecordKey(Organization, id) =>
      if id in ws.organizations
      then Some(OrganizationAnswer(OrganizationHit(ws, id).(entries := Some(Memberships(ws, Organization, id)))))
      else None
    case EntryKey(listId, e) =>
      if e in ws.entries && ws.entries[e].entry.listId == listId
      then Some(EntryAnswer(e, ws.entries[e].entry))
      else None
    case ValuesKey(scope) => Some(RowsAnswer(RowsIn(ws, scope)))
    case SearchKey(Person, page) =>
      var hits := v.findPeople(ws.persons, page);
      Some(PeoplePage(seq(|hits.ids|, i requires 0 <= i < |hits.ids| => PersonHit(ws, hits.ids[i])), hits.next))
    case SearchKey(Organization, page) =>
      var hits := v.findOrganizations(ws.organizations, page);
      Some(OrganizationsPage(seq(|hits.ids|, i requires 0 <= i < |hits.ids| => OrganizationHit(ws, hits.ids[i])), hits.next))
  }

  // ── What an answer carries, and the index of it ────────────────────────

  function CarriedByPerson(p: PersonRecord): set<Ref> {
    {PersonRef(p.id)} + set o | o in p.organizationIds :: OrganizationRef(o)
  }

  function CarriedByOrganization(o: OrganizationRecord): set<Ref> {
    {OrganizationRef(o.id)} + set p | p in o.personIds :: PersonRef(p)
  }

  /** The records an answer is indexed under. */
  function Carried(answer: Answer): set<Ref> {
    match answer
    case PersonAnswer(p) => CarriedByPerson(p)
    case OrganizationAnswer(o) => CarriedByOrganization(o)
    case PeoplePage(people, _) => set p, r | p in people && r in CarriedByPerson(p) :: r
    case OrganizationsPage(orgs, _) => set o, r | o in orgs && r in CarriedByOrganization(o) :: r
    case _ => {}
  }

  /** The records an answer is about: what it carries, and the entry it is. */
  function Mentioned(answer: Answer): set<Ref> {
    Carried(answer) + (if answer.EntryAnswer? then {EntryRef(answer.entryId)} else {})
  }

  type Memo = map<Key, Answer>
  type Index = map<Ref, set<Key>>

  function Noted(index: Index, key: Key, refs: set<Ref>): Index {
    map r | r in index.Keys + refs ::
      (if r in index then index[r] else {}) + (if r in refs then {key} else {})
  }

  function KeysCarrying(index: Index, refs: set<Ref>): set<Key> {
    set r, k | r in refs && r in index && k in index[r] :: k
  }

  function SearchKeys(memo: Memo, kind: Kind): set<Key> {
    set k | k in memo && k.SearchKey? && k.kind == kind
  }

  function AllValuesKeys(memo: Memo): set<Key> {
    set k | k in memo && k.ValuesKey?
  }

  /** Every key under `record/`: the records and the list entries alike. */
  function RecordKeys(memo: Memo): set<Key> {
    set k | k in memo && (k.RecordKey? || k.EntryKey?)
  }

  /** The value answers a row can show in: those of either kind's record with its
      owner's id, since a row names no kind, and its list entry's if it has one. */
  function ValuesKeysOf(entityId: int, entry: Option<int>): set<Key> {
    {ValuesKey(OfRecord(Organization, entityId)), ValuesKey(OfRecord(Person, entityId))}
    + (if entry.Some? then {ValuesKey(OfEntry(entry.value))} else {})
  }

  function EntriesFiled(entries: map<int, Entry>): Memo {
    map k | k in (set e | e in entries :: EntryKey(entries[e].listId, e)) :: EntryAnswer(k.entryId, entries[k.entryId])
  }

  // ── One client call ────────────────────────────────────────────────────

  datatype Client = Client(ws: Workspace, memo: Memo, index: Index)

  datatype PersonPayload = PersonPayload(
    firstName: Option<string>, lastName: Option<string>,
    emails: Option<seq<string>>, organizationIds: Option<set<int>>)

  /** A call, with what the vendor decides in it: the id a new record gets, and
      whether a value update's answer names the record its row sits on. */
  datatype Op =
    | Read(key: Key)
    | CreateOrganization(newId: int, name: string, domain: Option<string>)
    | UpdateOrganization(id: int, newDomain: string)
    | CreatePerson(newId: int, firstName: string, lastName: string, email: Option<string>, orgId: Option<int>)
    | UpdatePerson(id: int, payload: PersonPayload)
    | CreateEntry(newId: int, listId: int, of: Kind, entityId: int, createdAt: string)
    | DeleteEntry(listId: int, entryId: int)
    | CreateValue(newId: int, row: ValueRow)
    | UpdateValue(rowId: int, newValue: string, ownerNamed: bool)
    | DeleteValue(rowId: int)
    | DeletePerson(id: int)
    | DeleteOrganization(id: int)

  /** What the vendor refuses: a read or write of what it does not hold, and an
      id given out twice. A refused call throws before the memo is touched. */
  predicate Accepted(v: Vendor, ws: Workspace, op: Op) {
    match op
    case Read(key) => Ask(v, ws, key).Some?
    case CreateOrganization(newId, _, _) => newId !in ws.organizations && OrganizationRef(newId) !in ws.gone
    case UpdateOrganization(id, _) => id in ws.organizations
    case CreatePerson(newId, _, _, _, orgId) =>
      newId !in ws.persons && PersonRef(newId) !in ws.gone && Truthy(orgId) <= ws.organizations.Keys
    case UpdatePerson(id, payload) =>
      id in ws.persons && (payload.organizationIds.Some? ==> payload.organizationIds.value <= ws.organizations.Keys)
    case CreateEntry(newId, _, of, entityId, _) =>
      newId !in ws.entries && EntryRef(newId) !in ws.gone
      && entityId in (if of == Person then ws.persons.Keys else ws.organizations.Keys)
    case DeleteEntry(listId, e) => e in ws.entries && ws.entries[e].entry.listId == listId
    case CreateValue(newId, _) => newId !in ws.rows
    case UpdateValue(rowId, _, _) => rowId in ws.rows
    case DeleteValue(rowId) => rowId in ws.rows
    case DeletePerson(id) => id in ws.persons
    case DeleteOrganization(id) => id in ws.organizations
  }

  /** An id as the client tests it: absent and 0 are both "none". */
  function Truthy(id: Option<int>): set<int> {
    if id.Some? && id.value != 0 then {id.value} else {}
  }

  function Patched(attrs: PersonAttrs, payload: PersonPayload): PersonAttrs {
    PersonAttrs(
      if payload.firstName.Some? then payload.firstName.value else attrs.firstName,
      if payload.lastName.Some? then payload.lastName.value else attrs.lastName,
      if payload.emails.Some? then payload.emails.value else attrs.emails)
  }

  /** What an accepted call leaves in the workspace. */
  function Written(v: Vendor, ws: Workspace, op: Op): Workspace
    requires Accepted(v, ws, op)
  {
    match op
    case Read(_) => ws
    case CreateOrganization(newId, name, domain) =>
      ws.(organizations := ws.organizations[newId := OrganizationAttrs(name, domain, false)])
    case UpdateOrganization(id, domain) =>
      ws.(organizations := ws.organizations[id := ws.organizations[id].(domain := Some(domain))])
    case CreatePerson(newId, firstName, lastName, email, orgId) =>
      var emails := if email.Some? && email.value != "" then [email.value] else [];
      ws.(persons := ws.persons[newId := PersonAttrs(firstName, lastName, emails)],
          employed := ws.employed + (set o | o in Truthy(orgId) :: (newId, o)))
    case UpdatePerson(id, payload) =>
      ws.(persons := ws.persons[id := Patched(ws.persons[id], payload)],
          employed := if payload.organizationIds.None? then ws.employed else
            (set pair | pair in ws.employed && pair.0 != id) + (set o | o in payload.organizationIds.value :: (id, o)))
    case CreateEntry(newId, listId, of, entityId, createdAt) =>
      ws.(entries := ws.entries[newId := Membership(Entry(listId, entityId, createdAt), of)])
    case DeleteEntry(_, e) =>
      ws.(entries := ws.entries - {e},
          rows := (map i | i in ws.rows && ws.rows[i].entry != Some(e) :: ws.rows[i]))
    case CreateValue(newId, row) => ws.(rows := ws.rows[newId := row])
    case UpdateValue(rowId, value, _) => ws.(rows := ws.rows[rowId := ws.rows[rowId].(value := value)])
    case DeleteValue(rowId) => ws.(rows := ws.rows - {rowId})
    case DeletePerson(id) => RecordRemoved(ws.(persons := ws.persons - {id}), Person, id)
    case DeleteOrganization(id) => RecordRemoved(ws.(organizations := ws.organizations - {id}), Organization, id)
  }

  /** A record takes its employers, its memberships and their values with it. */
  function RecordRemoved(ws: Workspace, kind: Kind, id: int): Workspace {
    var itsEntries := Memberships(ws, kind, id).Keys;
    ws.(employed := (set pair | pair in ws.employed && (if kind == Person then pair.0 else pair.1) != id),
        entries := ws.entries - itsEntries,
        rows := (map i | i in ws.rows && !InScope(ws.rows[i], OfRecord(kind, id)) :: ws.rows[i]),
        gone := ws.gone + {RefOf(kind, id)} + (set e | e in itsEntries :: EntryRef(e)))
  }

  /** The memberships a by-id read carries inline; each is the entry itself. */
  function Inline(answer: Answer): map<int, Entry> {
    match answer
    case PersonAnswer(p) => if p.entries.Some? then p.entries.value else map[]
    case OrganizationAnswer(o) => if o.entries.Some? then o.entries.value else map[]
    case _ => map[]
  }

  /** Remember what a read brought back: the answer, the entries inline in it,
      and which records it carries. */
  function Remembered(v: Vendor, c: Client, key: Key): Client
    requires Ask(v, c.ws, key).Some?
  {
    var answer := Ask(v, c.ws, key).value;
    c.(memo := (c.memo + EntriesFiled(Inline(answer)))[key := answer], index := Noted(c.index, key, Carried(answer)))
  }

  /** File a write's own response as the record it is. */
  function Filed(v: Vendor, c: Client, kind: Kind, id: int): Client
    requires Ask(v, c.ws, RecordKey(kind, id)).Some?
  {
    var key := RecordKey(kind, id);
    var answer := Ask(v, c.ws, key).value;
    c.(memo := c.memo[key := answer], index := Noted(c.index, key, Carried(answer)))
  }

  function Forget(c: Client, keys: set<Key>): Client {
    c.(memo := c.memo - keys)
  }

  /** What an update of a person makes wrong: every answer that carries the
      person or a company now joined, and, when an attribute was sent, every
      person search. */
  function ForgottenByUpdate(c: Client, id: int, payload: PersonPayload): set<Key> {
    var joined := if payload.organizationIds.Some? then payload.organizationIds.value else {};
    KeysCarrying(c.index, {PersonRef(id)} + set o | o in joined :: OrganizationRef(o))
    + (if payload.firstName.Some? || payload.lastName.Some? || payload.emails.Some?
       then SearchKeys(c.memo, Person) else {})
  }

  /** One client call, as the source orders it. */
  function Step(v: Vendor, c: Client, op: Op): Client {
    if op.Read? && op.key in c.memo then c
    else if !Accepted(v, c.ws, op) then c
    else
      var w := c.(ws := Written(v, c.ws, op));
      match op
      case Read(key) => Remembered(v, c, key)
      case CreateOrganization(newId, _, _) =>
        Filed(v, Forget(w, SearchKeys(w.memo, Organization)), Organization, newId)
      case UpdateOrganization(id, _) =>
        var filed := Filed(v, w, Organization, id);
        Forget(filed, SearchKeys(filed.memo, Organization))
      case CreatePerson(newId, _, _, _, orgId) =>
        var searched := Forget(w, SearchKeys(w.memo, Person));
        var joined := set o | o in Truthy(orgId) :: OrganizationRef(o);
        Filed(v, Forget(searched, KeysCarrying(w.index, joined)), Person, newId)
      case UpdatePerson(id, payload) =>
        Filed(v, Forget(w, ForgottenByUpdate(w, id, payload)), Person, id)
      case CreateEntry(newId, listId, _, entityId, _) =>
        var f := Forget(w, {RecordKey(Organization, entityId), RecordKey(Person, entityId)});
        f.(memo := f.memo[EntryKey(listId, newId) := EntryAnswer(newId, w.ws.entries[newId].entry)])
      case DeleteEntry(listId, e) =>
        Forget(w, {EntryKey(listId, e)} + RecordKeys(w.memo) + AllValuesKeys(w.memo))
      case CreateValue(_, row) => Forget(w, ValuesKeysOf(row.entityId, row.entry))
      case UpdateValue(rowId, _, ownerNamed) =>
        var row := w.ws.rows[rowId];
        Forget(w, if ownerNamed then ValuesKeysOf(row.entityId, row.entry) else AllValuesKeys(w.memo))
      case DeleteValue(_) => Forget(w, AllValuesKeys(w.memo))
      case DeletePerson(id) =>
        Forget(w, {RecordKey(Person, id)} + SearchKeys(w.memo, Person) + AllValuesKeys(w.memo))
      case DeleteOrganization(id) =>
        Forget(w, {RecordKey(Organization, id)} + SearchKeys(w.memo, Organization) + AllValuesKeys(w.memo))
  }

  function Run(v: Vendor, c: Client, ops: seq<Op>): Client
    decreases |ops|
  {
    if ops == [] then c else Run(v, Step(v, c, ops[0]), ops[1..])
  }

  // ── Coherence ──────────────────────────────────────────────────────────

  /** Every remembered answer is in the index under every record it carries. */
  ghost predicate Indexed(c: Client) {
    forall k, r :: k in c.memo && r in Carried(c.memo[k]) ==> r in c.index && k in c.index[r]
  }

  ghost predicate Current(v: Vendor, c: Client, k: Key)
    requires k in c.memo
  {
    Ask(v, c.ws, k) == Some(c.memo[k])
  }

  /** Every remembered answer is what Affinity would answer now. */
  ghost predicate Exact(v: Vendor, c: Client) {
    forall k :: k in c.memo ==> Current(v, c, k)
  }

  /** Every remembered answer that mentions no deleted record is. */
  ghost predicate Coherent(v: Vendor, c: Client) {
    forall k :: k in c.memo ==> Current(v, c, k) || Mentioned(c.memo[k]) * c.ws.gone != {}
  }

  ghost predicate Good(v: Vendor, c: Client) {
    Indexed(c) && Coherent(v, c)
  }

  /** A memo entry survives a call when the vendor still answers it the same. */
  lemma SurvivorsStayCoherent(v: Vendor, c: Client, c': Client, filled: set<Key>)
    requires Coherent(v, c) && c.ws.gone <= c'.ws.gone
    requires forall k :: k in filled && k in c'.memo ==> Current(v, c', k)
    requires forall k :: k in c'.memo && k !in filled ==> k in c.memo && c'.memo[k] == c.memo[k]
    requires forall k :: k in c'.memo && k !in filled && Current(v, c, k) ==>
      Ask(v, c'.ws, k) == Ask(v, c.ws, k) || Mentioned(c.memo[k]) * c'.ws.gone != {}
    ensures Coherent(v, c')
  {
    forall k | k in c'.memo && k !in filled
      ensures Current(v, c', k) || Mentioned(c'.memo[k]) * c'.ws.gone != {}
    {
      if !Current(v, c, k) {
        var r :| r in Mentioned(c.memo[k]) * c.ws.gone;
        assert r in Mentioned(c'.memo[k]) * c'.ws.gone;
      }
    }
  }

  /** Filing one answer and noting it keeps the index complete, whatever else
      was dropped or filed that carries nothing. */
  lemma NotedKeepsIndexed(c: Client, memo: Memo, key: Key, answer: Answer)
    requires Indexed(c)
    requires key in memo && memo[key] == answer
    requires forall k :: k in memo && k != key ==> Carried(memo[k]) == {} || (k in c.memo && memo[k] == c.memo[k])
    ensures Indexed(c.(memo := memo, index := Noted(c.index, key, Carried(answer))))
  {
  }

  lemma ReadKeepsGood(v: Vendor, c: Client, key: Key)
    requires Good(v, c) && Ask(v, c.ws, key).Some?
    ensures Good(v, Remembered(v, c, key))
  {
    var answer := Ask(v, c.ws, key).value;
    var inline := EntriesFiled(Inline(answer));
    InlineEntriesAreCurrent(v, c.ws, key);
    FillingKeepsIndexed(c, inline, key, answer);
    FillingKeepsCoherent(v, c, inline, key, answer);
  }

  /** Filing answers that carry nothing, and one that is then noted. */
  lemma FillingKeepsIndexed(c: Client, inline: Memo, key: Key, answer: Answer)
    requires Indexed(c) && forall k :: k in inline ==> Carried(inline[k]) == {}
    ensures Indexed(c.(memo := (c.memo + inline)[key := answer], index := Noted(c.index, key, Carried(answer))))
  {
    NotedKeepsIndexed(c, (c.memo + inline)[key := answer], key, answer);
  }

  /** Filing current answers keeps the memo coherent. */
  lemma FillingKeepsCoherent(v: Vendor, c: Client, inline: Memo, key: Key, answer: Answer)
    requires Coherent(v, c) && Ask(v, c.ws, key) == Some(answer)
    requires forall k :: k in inline ==> Ask(v, c.ws, k) == Some(inline[k])
    ensures Coherent(v, c.(memo := (c.memo + inline)[key := answer], index := Noted(c.index, key, Carried(answer))))
  {
    var c' := c.(memo := (c.memo + inline)[key := answer], index := Noted(c.index, key, Carried(answer)));
    SurvivorsStayCoherent(v, c, c', {key} + inline.Keys);
  }

  /** A membership read inline is the answer to a read of that list entry. */
  lemma InlineEntriesAreCurrent(v: Vendor, ws: Workspace, key: Key)
    requires Ask(v, ws, key).Some?
    ensures var inline := EntriesFiled(Inline(Ask(v, ws, key).value));
      forall k :: k in inline ==> Carried(inline[k]) == {} && Ask(v, ws, k) == Some(inline[k])
  {
    var entries := Inline(Ask(v, ws, key).value);
    assert entries == map[] || (key.RecordKey? && entries == Memberships(ws, key.kind, key.id));
  }

  // ── Each write forgets enough ──────────────────────────────────────────

  /** The answers a write leaves remembered are still right, or are about a
      record it deleted. */
  ghost predicate Survives(v: Vendor, c: Client, ws: Workspace, forgotten: set<Key>) {
    && c.ws.gone <= ws.gone
    && forall k :: k in c.memo && k !in forgotten && Current(v, c, k) ==>
         Ask(v, ws, k) == Ask(v, c.ws, k) || Mentioned(c.memo[k]) * ws.gone != {}
  }

  lemma ForgetKeepsGood(v: Vendor, c: Client, ws: Workspace, forgotten: set<Key>)
    requires Good(v, c) && Survives(v, c, ws, forgotten)
    ensures Good(v, Forget(c.(ws := ws), forgotten))
  {
    ForgetKeepsIndexed(c.(ws := ws), forgotten);
    ForgetKeepsCoherent(v, c, ws, forgotten);
  }

  lemma ForgetKeepsIndexed(c: Client, forgotten: set<Key>)
    requires Indexed(c)
    ensures Indexed(Forget(c, forgotten))
  {
  }

  lemma ForgetKeepsCoherent(v: Vendor, c: Client, ws: Workspace, forgotten: set<Key>)
    requires Coherent(v, c) && Survives(v, c, ws, forgotten)
    ensures Coherent(v, Forget(c.(ws := ws), forgotten))
  {
    SurvivorsStayCoherent(v, c, Forget(c.(ws := ws), forgotten), {});
  }

  lemma FilingKeepsGood(v: Vendor, c: Client, kind: Kind, id: int)
    requires Good(v, c) && Ask(v, c.ws, RecordKey(kind, id)).Some?
    ensures Good(v, Filed(v, c, kind, id))
  {
    var key := RecordKey(kind, id);
    NotedKeepsIndexed(c, Filed(v, c, kind, id).memo, key, Ask(v, c.ws, key).value);
    SurvivorsStayCoherent(v, c, Filed(v, c, kind, id), {key});
  }

  /** What the index does not name carries none of the records asked about. */
  lemma UnnamedCarriesNone(c: Client, refs: set<Ref>, k: Key)
    requires Indexed(c) && k in c.memo && k !in KeysCarrying(c.index, refs)
    ensures Carried(c.memo[k]) !! refs
  {
    forall r | r in refs ensures r !in Carried(c.memo[k]) {
      assert r in c.index ==> k !in c.index[r];
    }
  }

  /** The hard write: who a person works for is held on both sides, so joining
      and leaving companies makes answers on both sides wrong. An answer that
      carries neither the person nor a company joined is not one of them: a
      company left still lists the person, so its answers carry them. */
  lemma UpdatePersonSurvives(v: Vendor, c: Client, id: int, payload: PersonPayload)
    requires Indexed(c) && Accepted(v, c.ws, UpdatePerson(id, payload))
    ensures Survives(v, c, Written(v, c.ws, UpdatePerson(id, payload)),
                     ForgottenByUpdate(c, id, payload) + {RecordKey(Person, id)})
  {
    var ws := Written(v, c.ws, UpdatePerson(id, payload));
    var forgotten := ForgottenByUpdate(c, id, payload);
    var joined := if payload.organizationIds.Some? then payload.organizationIds.value else {};
    var refs := {PersonRef(id)} + set o | o in joined :: OrganizationRef(o);
    forall k | k in c.memo && k !in forgotten && k != RecordKey(Person, id) && Current(v, c, k)
      ensures Ask(v, ws, k) == Ask(v, c.ws, k)
    {
      UnnamedCarriesNone(c, refs, k);
      assert PersonRef(id) in refs && forall o :: o in joined ==> OrganizationRef(o) in refs;
      if k.SearchKey? && k.kind == Person {
        assert k in SearchKeys(c.memo, Person);
        assert ws.persons == c.ws.persons;
      }
      SameUnlessCarried(v, c.ws, ws, k, id, joined);
    }
  }

  /** Only person `p`'s employers moved, and any gained is in `joined`. */
  ghost predicate OnlyMoved(before: Workspace, after: Workspace, p: int, joined: set<int>) {
    && (forall pair :: pair in before.employed && pair !in after.employed ==> pair.0 == p)
    && (forall pair :: pair in after.employed && pair !in before.employed ==> pair.0 == p && pair.1 in joined)
  }

  /** The answer does not show the move: it carries no company joined, nor the
      person where an employer was lost. */
  ghost predicate BlindTo(before: Workspace, after: Workspace, carried: set<Ref>, p: int, joined: set<int>) {
    && (before.employed <= after.employed || PersonRef(p) !in carried)
    && (forall o :: o in joined ==> OrganizationRef(o) !in carried)
  }

  lemma SameEmployers(before: Workspace, after: Workspace, q: int, p: int, joined: set<int>)
    requires OnlyMoved(before, after, p, joined) && q != p
    ensures Employers(after, q) == Employers(before, q)
  {
    forall o ensures o in Employers(after, q) <==> o in Employers(before, q) {
      assert o in Employers(after, q) <==> (q, o) in after.employed;
      assert o in Employers(before, q) <==> (q, o) in before.employed;
    }
  }

  lemma SameEmployees(before: Workspace, after: Workspace, o: int, p: int, joined: set<int>)
    requires OnlyMoved(before, after, p, joined)
    requires BlindTo(before, after, CarriedByOrganization(OrganizationHit(before, o)), p, joined)
    ensures Employees(after, o) == Employees(before, o)
  {
    var carried := CarriedByOrganization(OrganizationHit(before, o));
    assert OrganizationRef(o) in carried;
    forall q ensures q in Employees(after, o) <==> q in Employees(before, o) {
      assert q in Employees(after, o) <==> (q, o) in after.employed;
      assert q in Employees(before, o) <==> (q, o) in before.employed;
      assert q in Employees(before, o) ==> PersonRef(q) in carried;
    }
  }

  /** An answer blind to a move of one person's employers is the same after it,
      unless it is that person's record or a search of people whose attributes moved. */
  lemma SameUnlessCarried(v: Vendor, before: Workspace, after: Workspace, k: Key, p: int, joined: set<int>)
    requires before.organizations == after.organizations && before.entries == after.entries && before.rows == after.rows
    requires before.persons - {p} == after.persons - {p}
    requires OnlyMoved(before, after, p, joined)
    requires k.SearchKey? && k.kind == Person ==>
      before.persons == after.persons && PersonRef(p) !in Carried(Ask(v, before, k).value)
    requires k != RecordKey(Person, p)
    requires Ask(v, before, k).Some? ==> BlindTo(before, after, Carried(Ask(v, before, k).value), p, joined)
    ensures Ask(v, after, k) == Ask(v, before, k)
  {
    assert forall q :: q in before.persons - {p} <==> q in before.persons && q != p;
    assert forall q :: q in after.persons - {p} <==> q in after.persons && q != p;
    match k
    case RecordKey(Person, id) =>
      SameEmployers(before, after, id, p, joined);
      assert id in before.persons - {p} <==> id in after.persons - {p};
    case RecordKey(Organization, id) =>
      if id in before.organizations {
        SameEmployees(before, after, id, p, joined);
      }
    case EntryKey(_, _) =>
    case ValuesKey(_) =>
    case SearchKey(Person, page) =>
      var records := Ask(v, before, k).value.people;
      forall i | 0 <= i < |records| ensures PersonHit(after, records[i].id) == records[i] {
        assert records[i] in records;
        assert PersonRef(records[i].id) in CarriedByPerson(records[i]);
        SameEmployers(before, after, records[i].id, p, joined);
      }
      assert Ask(v, after, k).value.people == records;
    case SearchKey(Organization, page) =>
      var records := Ask(v, before, k).value.organizations;
      forall i | 0 <= i < |records| ensures OrganizationHit(after, records[i].id) == records[i] {
        assert records[i] in records;
        assert CarriedByOrganization(records[i]) <= Carried(Ask(v, before, k).value);
        SameEmployees(before, after, records[i].id, p, joined);
      }
      assert Ask(v, after, k).value.organizations == records;
  }

  lemma CreatePersonSurvives(v: Vendor, c: Client, op: Op)
    requires Indexed(c) && op.CreatePerson? && Accepted(v, c.ws, op)
    ensures Survives(v, c, Written(v, c.ws, op),
      SearchKeys(c.memo, Person) + KeysCarrying(c.index, set o | o in Truthy(op.orgId) :: OrganizationRef(o))
      + {RecordKey(Person, op.newId)})
  {
    var ws := Written(v, c.ws, op);
    var joined := Truthy(op.orgId);
    var refs := set o | o in joined :: OrganizationRef(o);
    forall k | k in c.memo && k !in SearchKeys(c.memo, Person) && k !in KeysCarrying(c.index, refs)
               && k != RecordKey(Person, op.newId) && Current(v, c, k)
      ensures Ask(v, ws, k) == Ask(v, c.ws, k)
    {
      UnnamedCarriesNone(c, refs, k);
      assert forall o :: o in joined ==> OrganizationRef(o) in refs;
      SameUnlessCarried(v, c.ws, ws, k, op.newId, joined);
    }
  }

  /** A search answer reads its kind's attributes and the employers, no more. */
  lemma SameSearch(v: Vendor, before: Workspace, after: Workspace, k: Key)
    requires k.SearchKey? && before.employed == after.employed
    requires if k.kind == Person then before.persons == after.persons else before.organizations == after.organizations
    ensures Ask(v, after, k) == Ask(v, before, k)
  {
    if k.kind == Person {
      assert Ask(v, after, k).value.people == Ask(v, before, k).value.people;
    } else {
      assert Ask(v, after, k).value.organizations == Ask(v, before, k).value.organizations;
    }
  }

  /** A create or an update of an organization moves what its kind's searches
      answer and its own record, and nothing else. */
  lemma OrganizationWriteSurvives(v: Vendor, c: Client, op: Op, id: int)
    requires Accepted(v, c.ws, op)
    requires (op.CreateOrganization? && id == op.newId) || (op.UpdateOrganization? && id == op.id)
    ensures Survives(v, c, Written(v, c.ws, op), SearchKeys(c.memo, Organization) + {RecordKey(Organization, id)})
  {
    var ws := Written(v, c.ws, op);
    forall k | k in c.memo && k !in SearchKeys(c.memo, Organization) && k != RecordKey(Organization, id)
      ensures Ask(v, ws, k) == Ask(v, c.ws, k)
    {
      if k.SearchKey? {
        SameSearch(v, c.ws, ws, k);
      }
    }
  }

  /** A new membership shows on the record it is for, read by id, and nowhere else. */
  lemma CreateEntrySurvives(v: Vendor, c: Client, op: Op)
    requires op.CreateEntry? && Accepted(v, c.ws, op)
    ensures Survives(v, c, Written(v, c.ws, op),
      {RecordKey(Organization, op.entityId), RecordKey(Person, op.entityId)})
  {
    var ws := Written(v, c.ws, op);
    forall k | k in c.memo && k != RecordKey(Organization, op.entityId) && k != RecordKey(Person, op.entityId) && Current(v, c, k)
      ensures Ask(v, ws, k) == Ask(v, c.ws, k)
    {
      if k.RecordKey? {
        assert Memberships(ws, k.kind, k.id) == Memberships(c.ws, k.kind, k.id);
      } else if k.SearchKey? {
        SameSearch(v, c.ws, ws, k);
      }
    }
  }

  lemma DeleteEntrySurvives(v: Vendor, c: Client, op: Op)
    requires op.DeleteEntry? && Accepted(v, c.ws, op)
    ensures Survives(v, c, Written(v, c.ws, op), RecordKeys(c.memo) + AllValuesKeys(c.memo))
  {
    var ws := Written(v, c.ws, op);
    forall k | k in c.memo && k !in RecordKeys(c.memo) && k !in AllValuesKeys(c.memo)
      ensures Ask(v, ws, k) == Ask(v, c.ws, k)
    {
      SameSearch(v, c.ws, ws, k);
    }
  }

  /** A value row's writes move only the answers the row is part of. */
  lemma ValueWriteSurvives(v: Vendor, c: Client, op: Op, row: ValueRow)
    requires Accepted(v, c.ws, op)
    requires (op.CreateValue? && row == op.row) || (op.UpdateValue? && row == c.ws.rows[op.rowId])
          || (op.DeleteValue? && row == c.ws.rows[op.rowId])
    ensures Survives(v, c, Written(v, c.ws, op), ValuesKeysOf(row.entityId, row.entry))
  {
    var ws := Written(v, c.ws, op);
    forall k | k in c.memo && k !in ValuesKeysOf(row.entityId, row.entry)
      ensures Ask(v, ws, k) == Ask(v, c.ws, k)
    {
      if k.ValuesKey? {
        assert !InScope(row, k.scope);
        assert RowsIn(ws, k.scope) == RowsIn(c.ws, k.scope);
      } else if k.SearchKey? {
        SameSearch(v, c.ws, ws, k);
      }
    }
  }

  /** A whole-record delete leaves remembered the answers of the other side;
      each of them mentions the record deleted, or an entry that went with it. */
  lemma DeleteSurvives(v: Vendor, c: Client, op: Op, kind: Kind)
    requires Accepted(v, c.ws, op)
    requires (op.DeletePerson? && kind == Person) || (op.DeleteOrganization? && kind == Organization)
    ensures Survives(v, c, Written(v, c.ws, op),
      {RecordKey(kind, op.id)} + SearchKeys(c.memo, kind) + AllValuesKeys(c.memo))
  {
    var ws := Written(v, c.ws, op);
    forall k | k in c.memo && k != RecordKey(kind, op.id) && k !in SearchKeys(c.memo, kind) && !k.ValuesKey? && Current(v, c, k)
      ensures Ask(v, ws, k) == Ask(v, c.ws, k) || Mentioned(c.memo[k]) * ws.gone != {}
    {
      if Mentioned(c.memo[k]) * ws.gone == {} {
        assert RefOf(kind, op.id) in ws.gone;
        assert forall e :: e in Memberships(c.ws, kind, op.id) ==> EntryRef(e) in ws.gone;
        DeleteUnseen(v, c.ws, ws, kind, op.id, k);
      }
    }
  }

  ghost predicate Removes(before: Workspace, after: Workspace, kind: Kind, id: int) {
    after == RecordRemoved(
      if kind == Person then before.(persons := before.persons - {id}) else before.(organizations := before.organizations - {id}),
      kind, id)
  }

  lemma RecordUnseen(v: Vendor, before: Workspace, after: Workspace, kind: Kind, id: int, side: Kind, other: int)
    requires Removes(before, after, kind, id) && RecordKey(side, other) != RecordKey(kind, id)
    requires Ask(v, before, RecordKey(side, other)).Some?
    requires RefOf(kind, id) !in Carried(Ask(v, before, RecordKey(side, other)).value)
    ensures Ask(v, after, RecordKey(side, other)) == Ask(v, before, RecordKey(side, other))
  {
    assert Memberships(after, side, other) == Memberships(before, side, other);
    SameSides(before, after, kind, id, side, other);
  }

  lemma PeopleUnseen(v: Vendor, before: Workspace, after: Workspace, id: int, page: Page)
    requires Removes(before, after, Organization, id)
    requires OrganizationRef(id) !in Carried(Ask(v, before, SearchKey(Person, page)).value)
    ensures Ask(v, after, SearchKey(Person, page)) == Ask(v, before, SearchKey(Person, page))
  {
    var answer := Ask(v, before, SearchKey(Person, page)).value;
    forall i | 0 <= i < |answer.people| ensures PersonHit(after, answer.people[i].id) == answer.people[i] {
      assert answer.people[i] in answer.people;
      assert CarriedByPerson(answer.people[i]) <= Carried(answer);
      SameSides(before, after, Organization, id, Person, answer.people[i].id);
    }
    assert Ask(v, after, SearchKey(Person, page)).value.people == answer.people;
  }

  lemma OrganizationsUnseen(v: Vendor, before: Workspace, after: Workspace, id: int, page: Page)
    requires Removes(before, after, Person, id)
    requires PersonRef(id) !in Carried(Ask(v, before, SearchKey(Organization, page)).value)
    ensures Ask(v, after, SearchKey(Organization, page)) == Ask(v, before, SearchKey(Organization, page))
  {
    var answer := Ask(v, before, SearchKey(Organization, page)).value;
    forall i | 0 <= i < |answer.organizations| ensures OrganizationHit(after, answer.organizations[i].id) == answer.organizations[i] {
      assert answer.organizations[i] in answer.organizations;
      assert CarriedByOrganization(answer.organizations[i]) <= Carried(answer);
      SameSides(before, after, Person, id, Organization, answer.organizations[i].id);
    }
    assert Ask(v, after, SearchKey(Organization, page)).value.organizations == answer.organizations;
  }

  lemma DeleteUnseen(v: Vendor, before: Workspace, after: Workspace, kind: Kind, id: int, k: Key)
    requires Removes(before, after, kind, id)
    requires k != RecordKey(kind, id) && !(k.SearchKey? && k.kind == kind) && !k.ValuesKey?
    requires Ask(v, before, k).Some? && RefOf(kind, id) !in Mentioned(Ask(v, before, k).value)
    requires forall e :: e in Memberships(before, kind, id) ==> EntryRef(e) !in Mentioned(Ask(v, before, k).value)
    ensures Ask(v, after, k) == Ask(v, before, k)
  {
    match k
    case RecordKey(side, other) => RecordUnseen(v, before, after, kind, id, side, other);
    case EntryKey(_, e) => assert EntryRef(e) in Mentioned(Ask(v, before, k).value);
    case SearchKey(Person, page) => PeopleUnseen(v, before, after, id, page);
    case SearchKey(Organization, page) => OrganizationsUnseen(v, before, after, id, page);
  }

  /** A record that does not name the deleted one has the same other side. */
  lemma SameSides(before: Workspace, after: Workspace, kind: Kind, id: int, side: Kind, other: int)
    requires after.employed == (set pair | pair in before.employed && (if kind == Person then pair.0 else pair.1) != id)
    requires side == Person ==> RefOf(kind, id) !in CarriedByPerson(PersonHit(before, other))
    requires side == Organization ==> RefOf(kind, id) !in CarriedByOrganization(OrganizationHit(before, other))
    ensures side == Person ==> Employers(after, other) == Employers(before, other)
    ensures side == Organization ==> Employees(after, other) == Employees(before, other)
  {
    if side == Person {
      forall o ensures o in Employers(after, other) <==> o in Employers(before, other) {
        assert o in Employers(after, other) <==> (other, o) in after.employed;
        assert o in Employers(before, other) <==> (other, o) in before.employed;
      }
    } else {
      forall p ensures p in Employees(after, other) <==> p in Employees(before, other) {
        assert p in Employees(after, other) <==> (p, other) in after.employed;
        assert p in Employees(before, other) <==> (p, other) in before.employed;
      }
    }
  }

  // ── Over every run ─────────────────────────────────────────────────────

  /** Forget, then file the record written: the shape of every record write. */
  lemma WriteAndFileKeepsGood(v: Vendor, c: Client, ws: Workspace, forgotten: set<Key>, kind: Kind, id: int)
    requires Good(v, c) && Ask(v, ws, RecordKey(kind, id)).Some?
    requires Survives(v, c, ws, forgotten + {RecordKey(kind, id)})
    ensures Good(v, Filed(v, Forget(c.(ws := ws), forgotten), kind, id))
  {
    var key := RecordKey(kind, id);
    ForgetKeepsGood(v, c, ws, forgotten + {key});
    var f := Forget(c.(ws := ws), forgotten + {key});
    FilingKeepsGood(v, f, kind, id);
    assert Filed(v, f, kind, id).memo == Filed(v, Forget(c.(ws := ws), forgotten), kind, id).memo;
  }

  /** What the client leaves of the memo after a write, as one forgetting. */
  lemma StepAsForgetAndFile(v: Vendor, c: Client, op: Op)
    requires Accepted(v, c.ws, op)
    ensures op.UpdateOrganization? ==>
      Step(v, c, op) == Filed(v, Forget(c.(ws := Written(v, c.ws, op)), SearchKeys(c.memo, Organization)), Organization, op.id)
    ensures op.CreatePerson? ==>
      Step(v, c, op) == Filed(v, Forget(c.(ws := Written(v, c.ws, op)),
        SearchKeys(c.memo, Person) + KeysCarrying(c.index, set o | o in Truthy(op.orgId) :: OrganizationRef(o))), Person, op.newId)
  {
    var w := c.(ws := Written(v, c.ws, op));
    if op.UpdateOrganization? {
      var filed := Filed(v, w, Organization, op.id);
      assert SearchKeys(filed.memo, Organization) == SearchKeys(c.memo, Organization);
      assert Step(v, c, op).memo == Filed(v, Forget(w, SearchKeys(c.memo, Organization)), Organization, op.id).memo;
    } else if op.CreatePerson? {
      var joined := set o | o in Truthy(op.orgId) :: OrganizationRef(o);
      assert (w.memo - SearchKeys(c.memo, Person)) - KeysCarrying(c.index, joined)
          == w.memo - (SearchKeys(c.memo, Person) + KeysCarrying(c.index, joined));
    }
  }

  /** Every call, accepted or refused, keeps the index complete and the memo coherent. */
  lemma StepKeepsGood(v: Vendor, c: Client, op: Op)
    requires Good(v, c)
    ensures Good(v, Step(v, c, op))
  {
    if (op.Read? && op.key in c.memo) || !Accepted(v, c.ws, op) {
      return;
    }
    var ws := Written(v, c.ws, op);
    match op
    case Read(key) => ReadKeepsGood(v, c, key);
    case CreateOrganization(newId, _, _) =>
      OrganizationWriteSurvives(v, c, op, newId);
      WriteAndFileKeepsGood(v, c, ws, SearchKeys(c.memo, Organization), Organization, newId);
    case UpdateOrganization(id, _) =>
      OrganizationWriteSurvives(v, c, op, id);
      WriteAndFileKeepsGood(v, c, ws, SearchKeys(c.memo, Organization), Organization, id);
      StepAsForgetAndFile(v, c, op);
    case CreatePerson(newId, _, _, _, orgId) =>
      CreatePersonSurvives(v, c, op);
      var joined := set o | o in Truthy(orgId) :: OrganizationRef(o);
      WriteAndFileKeepsGood(v, c, ws, SearchKeys(c.memo, Person) + KeysCarrying(c.index, joined), Person, newId);
      StepAsForgetAndFile(v, c, op);
    case UpdatePerson(id, payload) =>
      UpdatePersonSurvives(v, c, id, payload);
      WriteAndFileKeepsGood(v, c, ws, ForgottenByUpdate(c, id, payload), Person, id);
    case CreateEntry(_, _, _, _, _) => CreateEntryKeepsGood(v, c, op);
    case DeleteEntry(listId, e) =>
      DeleteEntrySurvives(v, c, op);
      ForgetKeepsGood(v, c, ws, {EntryKey(listId, e)} + RecordKeys(c.memo) + AllValuesKeys(c.memo));
    case CreateValue(_, row) =>
      ValueWriteSurvives(v, c, op, row);
      ForgetKeepsGood(v, c, ws, ValuesKeysOf(row.entityId, row.entry));
    case UpdateValue(rowId, _, _) => UpdateValueKeepsGood(v, c, op);
    case DeleteValue(rowId) =>
      var row := c.ws.rows[rowId];
      ValueWriteSurvives(v, c, op, row);
      ForgetKeepsGood(v, c, ws, AllValuesKeys(c.memo));
    case DeletePerson(id) =>
      DeleteSurvives(v, c, op, Person);
      ForgetKeepsGood(v, c, ws, {RecordKey(Person, id)} + SearchKeys(c.memo, Person) + AllValuesKeys(c.memo));
    case DeleteOrganization(id) =>
      DeleteSurvives(v, c, op, Organization);
      ForgetKeepsGood(v, c, ws, {RecordKey(Organization, id)} + SearchKeys(c.memo, Organization) + AllValuesKeys(c.memo));
  }

  lemma CreateEntryKeepsGood(v: Vendor, c: Client, op: Op)
    requires Good(v, c) && op.CreateEntry? && Accepted(v, c.ws, op)
    ensures Good(v, Step(v, c, op))
  {
    var ws := Written(v, c.ws, op);
    var forgotten := {RecordKey(Organization, op.entityId), RecordKey(Person, op.entityId)};
    CreateEntrySurvives(v, c, op);
    ForgetKeepsGood(v, c, ws, forgotten);
    EntryFiledKeepsGood(v, Forget(c.(ws := ws), forgotten), op.listId, op.newId);
  }

  lemma EntryFiledKeepsGood(v: Vendor, c: Client, listId: int, e: int)
    requires Good(v, c) && e in c.ws.entries && c.ws.entries[e].entry.listId == listId
    ensures Good(v, c.(memo := c.memo[EntryKey(listId, e) := EntryAnswer(e, c.ws.entries[e].entry)]))
  {
    var key := EntryKey(listId, e);
    var c' := c.(memo := c.memo[key := EntryAnswer(e, c.ws.entries[e].entry)]);
    assert Indexed(c') by {
      forall k, r | k in c'.memo && r in Carried(c'.memo[k]) ensures r in c'.index && k in c'.index[r] {
        assert k != key;
      }
    }
    SurvivorsStayCoherent(v, c, c', {key});
  }

  lemma UpdateValueKeepsGood(v: Vendor, c: Client, op: Op)
    requires Good(v, c) && op.UpdateValue? && Accepted(v, c.ws, op)
    ensures Good(v, Step(v, c, op))
  {
    var ws := Written(v, c.ws, op);
    var row := c.ws.rows[op.rowId];
    ValueWriteSurvives(v, c, op, row);
    ForgetKeepsGood(v, c, ws, if op.ownerNamed then ValuesKeysOf(row.entityId, row.entry) else AllValuesKeys(c.memo));
  }

  /** A run starts with nothing remembered. */
  function Opened(ws: Workspace): Client {
    Client(ws, map[], map[])
  }

  lemma {:induction false} RunKeepsGood(v: Vendor, c: Client, ops: seq<Op>)
    requires Good(v, c)
    ensures Good(v, Run(v, c, ops))
    decreases |ops|
  {
    if ops != [] {
      StepKeepsGood(v, c, ops[0]);
      RunKeepsGood(v, Step(v, c, ops[0]), ops[1..]);
    }
  }

  predicate DeletesNoRecord(ops: seq<Op>) {
    forall op :: op in ops ==> !op.DeletePerson? && !op.DeleteOrganization?
  }

  lemma {:induction false} NothingGoes(v: Vendor, c: Client, ops: seq<Op>)
    requires DeletesNoRecord(ops)
    ensures Run(v, c, ops).ws.gone == c.ws.gone
    decreases |ops|
  {
    if ops != [] {
      assert ops[0] in ops;
      NothingGoes(v, Step(v, c, ops[0]), ops[1..]);
    }
  }

  /** The law the memo is for: after every run of reads and writes that deletes
      no whole record, every remembered answer is the answer Affinity gives now. */
  lemma RememberedAnswersAreCurrent(v: Vendor, ws: Workspace, ops: seq<Op>)
    requires ws.gone == {} && DeletesNoRecord(ops)
    ensures Exact(v, Run(v, Opened(ws), ops)) && Indexed(Run(v, Opened(ws), ops))
  {
    RunKeepsGood(v, Opened(ws), ops);
    NothingGoes(v, Opened(ws), ops);
  }

  /** With record deletes in the run, what is out of date is about a deleted
      record, and only that. */
  lemma StaleAnswersAreAboutTheDeleted(v: Vendor, ws: Workspace, ops: seq<Op>, k: Key)
    requires k in Run(v, Opened(ws), ops).memo
    requires Mentioned(Run(v, Opened(ws), ops).memo[k]) !! Run(v, Opened(ws), ops).ws.gone
    ensures Ask(v, Run(v, Opened(ws), ops).ws, k) == Some(Run(v, Opened(ws), ops).memo[k])
  {
    RunKeepsGood(v, Opened(ws), ops);
  }

  /** A remembered answer a whole-record delete leaves behind: the other side's
      record or search that lists it, or a list entry it was on. */
  ghost predicate LeftBehind(c: Client, kind: Kind, id: int, k: Key)
    requires k in c.memo
  {
    match k
    case RecordKey(other, _) => other != kind && RefOf(kind, id) in Carried(c.memo[k])
    case SearchKey(other, _) => other != kind && RefOf(kind, id) in Carried(c.memo[k])
    case EntryKey(_, e) => e in Memberships(c.ws, kind, id)
    case ValuesKey(_) => false
  }

  /** Deleting a whole record keeps the memo exact if and only if nothing
      remembered lists it from the other side and none of its entries is remembered. */
  lemma DeleteStaysExactIff(v: Vendor, c: Client, op: Op, kind: Kind)
    requires Exact(v, c) && Accepted(v, c.ws, op)
    requires (op.DeletePerson? && kind == Person) || (op.DeleteOrganization? && kind == Organization)
    ensures Exact(v, Step(v, c, op)) <==> forall k :: k in c.memo ==> !LeftBehind(c, kind, op.id, k)
  {
    forall k | k in c.memo && LeftBehind(c, kind, op.id, k)
      ensures k in Step(v, c, op).memo && !Current(v, Step(v, c, op), k)
    {
      LeftBehindIsStale(v, c, op, kind, k);
    }
    forall k | k in Step(v, c, op).memo && !LeftBehind(c, kind, op.id, k)
      ensures Current(v, Step(v, c, op), k)
    {
      assert Current(v, c, k);
      NotLeftBehindIsCurrent(v, c, op, kind, k);
    }
  }

  lemma NotLeftBehindIsCurrent(v: Vendor, c: Client, op: Op, kind: Kind, k: Key)
    requires Accepted(v, c.ws, op)
    requires (op.DeletePerson? && kind == Person) || (op.DeleteOrganization? && kind == Organization)
    requires k in c.memo && Ask(v, c.ws, k) == Some(c.memo[k]) && !LeftBehind(c, kind, op.id, k)
    requires k != RecordKey(kind, op.id) && !(k.SearchKey? && k.kind == kind) && !k.ValuesKey?
    ensures Ask(v, Written(v, c.ws, op), k) == Some(c.memo[k])
  {
    assert RefOf(kind, op.id) !in Mentioned(c.memo[k]);
    assert forall e :: e in Memberships(c.ws, kind, op.id) ==> EntryRef(e) !in Mentioned(c.memo[k]);
    DeleteUnseen(v, c.ws, Written(v, c.ws, op), kind, op.id, k);
  }

  ghost predicate Deletes(op: Op, kind: Kind) {
    (op.DeletePerson? && kind == Person) || (op.DeleteOrganization? && kind == Organization)
  }

  lemma RecordLeftBehind(v: Vendor, c: Client, op: Op, kind: Kind, other: int)
    requires Accepted(v, c.ws, op) && Deletes(op, kind)
    requires var k := RecordKey(if kind == Person then Organization else Person, other);
      k in c.memo && Current(v, c, k) && LeftBehind(c, kind, op.id, k)
    ensures var k := RecordKey(if kind == Person then Organization else Person, other);
      Ask(v, Written(v, c.ws, op), k) != Some(c.memo[k])
  {
    OtherSideLoses(c.ws, Written(v, c.ws, op), kind, op.id, other);
  }

  lemma PeoplePageLeftBehind(v: Vendor, c: Client, op: Op, page: Page)
    requires op.DeleteOrganization? && Accepted(v, c.ws, op)
    requires var k := SearchKey(Person, page); k in c.memo && Current(v, c, k) && LeftBehind(c, Organization, op.id, k)
    ensures Ask(v, Written(v, c.ws, op), SearchKey(Person, page)) != Some(c.memo[SearchKey(Person, page)])
  {
    var ws, answer := Written(v, c.ws, op), c.memo[SearchKey(Person, page)];
    var i :| 0 <= i < |answer.people| && OrganizationRef(op.id) in CarriedByPerson(answer.people[i]);
    OtherSideLoses(c.ws, ws, Organization, op.id, answer.people[i].id);
    assert Ask(v, ws, SearchKey(Person, page)).value.people[i] != answer.people[i];
  }

  lemma OrganizationsPageLeftBehind(v: Vendor, c: Client, op: Op, page: Page)
    requires op.DeletePerson? && Accepted(v, c.ws, op)
    requires var k := SearchKey(Organization, page); k in c.memo && Current(v, c, k) && LeftBehind(c, Person, op.id, k)
    ensures Ask(v, Written(v, c.ws, op), SearchKey(Organization, page)) != Some(c.memo[SearchKey(Organization, page)])
  {
    var ws, answer := Written(v, c.ws, op), c.memo[SearchKey(Organization, page)];
    var i :| 0 <= i < |answer.organizations| && PersonRef(op.id) in CarriedByOrganization(answer.organizations[i]);
    OtherSideLoses(c.ws, ws, Person, op.id, answer.organizations[i].id);
    assert Ask(v, ws, SearchKey(Organization, page)).value.organizations[i] != answer.organizations[i];
  }

  lemma DeleteForgets(v: Vendor, c: Client, op: Op, kind: Kind, k: Key)
    requires Accepted(v, c.ws, op) && Deletes(op, kind) && k in c.memo
    requires k != RecordKey(kind, op.id) && !(k.SearchKey? && k.kind == kind) && !k.ValuesKey?
    ensures Step(v, c, op).ws == Written(v, c.ws, op)
    ensures k in Step(v, c, op).memo && Step(v, c, op).memo[k] == c.memo[k]
  {
  }

  lemma LeftBehindIsStale(v: Vendor, c: Client, op: Op, kind: Kind, k: Key)
    requires Accepted(v, c.ws, op) && k in c.memo && Current(v, c, k)
    requires (op.DeletePerson? && kind == Person) || (op.DeleteOrganization? && kind == Organization)
    requires LeftBehind(c, kind, op.id, k)
    ensures k in Step(v, c, op).memo && !Current(v, Step(v, c, op), k)
  {
    DeleteForgets(v, c, op, kind, k);
    match k
    case RecordKey(_, other) => RecordLeftBehind(v, c, op, kind, other);
    case EntryKey(_, e) =>
    case SearchKey(Person, page) => PeoplePageLeftBehind(v, c, op, page);
    case SearchKey(Organization, page) => OrganizationsPageLeftBehind(v, c, op, page);
  }

  /** After a delete the record is on no other record's side. */
  lemma OtherSideLoses(before: Workspace, after: Workspace, kind: Kind, id: int, other: int)
    requires after.employed == (set pair | pair in before.employed && (if kind == Person then pair.0 else pair.1) != id)
    ensures kind == Person ==> id !in Employees(after, other)
    ensures kind == Organization ==> id !in Employers(after, other)
  {
  }

  lemma RunOfTwo(v: Vendor, c: Client, first: Op, second: Op)
    ensures Run(v, c, [first, second]) == Step(v, Step(v, c, first), second)
  {
    assert [first, second][1..] == [second] && [second][1..] == [];
    assert Run(v, Step(v, c, first), [second]) == Run(v, Step(v, Step(v, c, first), second), []);
  }

  lemma ReadLeavesExact(v: Vendor, ws: Workspace, key: Key)
    requires ws.gone == {} && Ask(v, ws, key).Some?
    ensures var read := Step(v, Opened(ws), Read(key));
      Good(v, read) && Exact(v, read) && key in read.memo && read.memo[key] == Ask(v, ws, key).value && read.ws == ws
  {
    StepKeepsGood(v, Opened(ws), Read(key));
  }

  /** The delete that leaves an answer behind, whoever is deleted: a company read,
      then one of its people deleted. Its remembered record still lists them. */
  lemma DeleteLeavesACompanyStale(v: Vendor, ws: Workspace, person: int, company: int)
    requires ws.gone == {} && (person, company) in ws.employed
    requires person in ws.persons && company in ws.organizations
    ensures var c := Run(v, Opened(ws), [Read(RecordKey(Organization, company)), DeletePerson(person)]);
      Indexed(c) && !Exact(v, c)
  {
    var key := RecordKey(Organization, company);
    var read := Step(v, Opened(ws), Read(key));
    RunOfTwo(v, Opened(ws), Read(key), DeletePerson(person));
    ReadLeavesExact(v, ws, key);
    assert person in Employees(ws, company);
    assert LeftBehind(read, Person, person, key);
    DeleteStaysExactIff(v, read, DeletePerson(person), Person);
    StepKeepsGood(v, read, DeletePerson(person));
  }
}
