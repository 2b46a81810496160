/**
 Which record an identity search adopts. The rules are those of
 `findMatchingOrganisation` and `findMatchingPerson`; `search` is how a term and
 the caller's first rule become the records the rules then read.
 */
module MatchShortcut {
  import opened Options
  import opened PagedSearch

  type Search<!T> = (string, T -> bool) -> seq<T>

  /** Every search answered as the client answers it, with the page-of-50 shortcut. */
  function Shortcut<T>(held: string -> seq<T>): Search<T> {
    (term: string, enough: T -> bool) => FirstPageOrAll(held(term), Some(enough))
  }

  /** Every search answered with its first 500, whatever the caller's first rule is. */
  function FullRead<T>(held: string -> seq<T>): Search<T> {
    (term: string, enough: T -> bool) => FirstFiveHundred(held(term))
  }

  // ── Organizations ──────────────────────────────────────────────────────

  datatype Organization = Organization(id: int, name: Option<string>, domain: Option<string>, domains: seq<string>, global: bool)

  /** Text and URL handling the module imports, and the model asked to judge. */
  datatype Tools = Tools(
    lower: string -> string,
    host: string -> Option<string>,
    registered: string -> Option<string>,
    judge: seq<Organization> -> Option<int>)

  datatype Path = ByDomain | ByEmail | ByName | ExactPrivate | JudgePrivate | JudgeGlobal | Judged | NoMatch

  /** `shown` is what the judge was asked to choose from, when it was asked. */
  datatype Decision<T> = Decision(path: Path, record: Option<T>, shown: Option<seq<T>>)

  predicate HoldsDomain(t: Tools, wanted: string, org: Organization) {
    org.domain.Some? && org.domain.value != "" &&
    (t.host(org.domain.value) == Some(wanted)
     || t.registered(wanted) == t.registered(org.domain.value)
     || exists d :: d in org.domains && t.host(d) == Some(wanted))
  }

  predicate NamedInWorkspace(t: Tools, name: string, org: Organization) {
    !org.global && org.name.Some? && t.lower(org.name.value) == t.lower(name)
  }

  function DomainRule(t: Tools, wanted: string): Organization -> bool {
    (o: Organization) => HoldsDomain(t, wanted, o)
  }

  function NameRule(t: Tools, name: string): Organization -> bool {
    (o: Organization) => NamedInWorkspace(t, name, o)
  }

  function IdRule(id: int): Organization -> bool {
    (o: Organization) => o.id == id
  }

  function FindMatchingOrganization(t: Tools, search: Search<Organization>, name: string, domain: Option<string>): Decision<Organization> {
    var wanted := if domain.Some? && domain.value != "" then t.host(domain.value) else None;
    if wanted.Some? && wanted.value != "" then
      var byDomain := search(wanted.value, DomainRule(t, wanted.value));
      var held, named := Find(byDomain, DomainRule(t, wanted.value)), Find(byDomain, NameRule(t, name));
      if held.Some? then Decision(ByDomain, held, None)
      else if named.Some? then Decision(ExactPrivate, named, None)
      else MatchByName(t, search, name)
    else MatchByName(t, search, name)
  }

  function MatchByName(t: Tools, search: Search<Organization>, name: string): Decision<Organization> {
    DecideByName(t, search(name, NameRule(t, name)), name)
  }

  function DecideByName(t: Tools, byName: seq<Organization>, name: string): Decision<Organization> {
    var named := Find(byName, NameRule(t, name));
    if named.Some? then Decision(ExactPrivate, named, None)
    else if byName == [] then Decision(NoMatch, None, None)
    else
      var id := t.judge(byName);
      var close := if id.Some? && id.value != 0 then Find(byName, IdRule(id.value)) else None;
      if close.None? then Decision(NoMatch, None, Some(byName))
      else Decision(if close.value.global then JudgeGlobal else JudgePrivate, close, Some(byName))
  }

  /** The shortcut changes no decision about a company: the same record, by the
      same rule, and the judge is shown the same candidates. */
  lemma OrganizationDecisionUnchanged(t: Tools, held: string -> seq<Organization>, name: string, domain: Option<string>)
    ensures FindMatchingOrganization(t, Shortcut(held), name, domain) == FindMatchingOrganization(t, FullRead(held), name, domain)
  {
    var wanted := if domain.Some? && domain.value != "" then t.host(domain.value) else None;
    if wanted.Some? && wanted.value != "" {
      ShortcutIsInvisible(held(wanted.value), DomainRule(t, wanted.value));
    }
    ShortcutIsInvisible(held(name), NameRule(t, name));
  }

  // ── People ─────────────────────────────────────────────────────────────

  datatype Person = Person(id: int, firstName: string, lastName: string, primaryEmail: Option<string>, emails: seq<string>)

  datatype PersonTools = PersonTools(
    trimLower: string -> string,
    stripAffixes: string -> Option<string>,
    judge: seq<Person> -> Option<int>)

  /** An address as it is compared; none for one that is absent or blank, so
      that two missing addresses never match. */
  function NormalizeEmail(t: PersonTools, email: Option<string>): (wanted: Option<string>)
    ensures wanted.None? <==> email.None? || t.trimLower(email.value) == ""
    ensures wanted.Some? ==> wanted.value == t.trimLower(email.value) && wanted.value != ""
  {
    if email.None? || t.trimLower(email.value) == "" then None else Some(t.trimLower(email.value))
  }

  predicate OwnsPrimary(t: PersonTools, wanted: string, p: Person) {
    NormalizeEmail(t, p.primaryEmail) == Some(wanted)
  }

  predicate OwnsAny(t: PersonTools, wanted: string, p: Person) {
    exists e :: e in p.emails && NormalizeEmail(t, Some(e)) == Some(wanted)
  }

  function PrimaryRule(t: PersonTools, wanted: string): Person -> bool {
    (p: Person) => OwnsPrimary(t, wanted, p)
  }

  function AddressRule(t: PersonTools, wanted: string): Person -> bool {
    (p: Person) => OwnsAny(t, wanted, p)
  }

  function FullNameRule(name: string): Person -> bool {
    (p: Person) => p.firstName + " " + p.lastName == name
  }

  function PersonIdRule(id: int): Person -> bool {
    (p: Person) => p.id == id
  }

  function FindMatchingPerson(t: PersonTools, search: Search<Person>, name: string, email: Option<string>): Decision<Person> {
    var wanted := NormalizeEmail(t, email);
    if wanted.Some? then
      var people := search(wanted.value, PrimaryRule(t, wanted.value));
      var first, other := Find(people, PrimaryRule(t, wanted.value)), Find(people, AddressRule(t, wanted.value));
      if first.Some? then Decision(ByEmail, first, None)
      else if other.Some? then Decision(ByEmail, other, None)
      else MatchPersonByName(t, search, name)
    else MatchPersonByName(t, search, name)
  }

  function MatchPersonByName(t: PersonTools, search: Search<Person>, name: string): Decision<Person> {
    var clean := t.stripAffixes(name);
    if clean.None? || clean.value == "" then Decision(NoMatch, None, None)
    else DecidePersonByName(t, search(clean.value, FullNameRule(clean.value)), clean.value)
  }

  function DecidePersonByName(t: PersonTools, people: seq<Person>, name: string): Decision<Person> {
    var named := Find(people, FullNameRule(name));
    if named.Some? then Decision(ByName, named, None)
    else
      var id := t.judge(people);
      var best := if id.Some? then Find(people, PersonIdRule(id.value)) else None;
      Decision(if best.Some? then Judged else NoMatch, best, Some(people))
  }

  /** Two addresses are one exactly when both are there, are not blank, and are
      spelled alike less case and padding: missing addresses never match. */
  lemma AddressesMatchIff(t: PersonTools, email: Option<string>, p: Person)
    ensures NormalizeEmail(t, email).Some? && OwnsPrimary(t, NormalizeEmail(t, email).value, p)
      <==> email.Some? && p.primaryEmail.Some? && t.trimLower(email.value) == t.trimLower(p.primaryEmail.value) != ""
  {
  }

  /** Nor any decision about a person. */
  lemma PersonDecisionUnchanged(t: PersonTools, held: string -> seq<Person>, name: string, email: Option<string>)
    ensures FindMatchingPerson(t, Shortcut(held), name, email) == FindMatchingPerson(t, FullRead(held), name, email)
  {
    var wanted := NormalizeEmail(t, email);
    if wanted.Some? {
      ShortcutIsInvisible(held(wanted.value), PrimaryRule(t, wanted.value));
    }
    var clean := t.stripAffixes(name);
    if clean.Some? {
      ShortcutIsInvisible(held(clean.value), FullNameRule(clean.value));
    }
  }

  /** Every search answered with its page of 50 alone. */
  function FiftyAlone<T>(held: string -> seq<T>): Search<T> {
    (term: string, enough: T -> bool) => PageAt(held(term), SEARCH_PAGE_SIZE, None).records
  }

  /** Without the fall back to 500 the shortcut would show: where the one company
      of a name stands outside the first 50, it is adopted by its name, and by the
      page of 50 alone it is left to the judge, who is not shown it. */
  lemma FiftyAloneWouldDecideOtherwise(t: Tools, held: string -> seq<Organization>, name: string, at: nat)
    requires SEARCH_PAGE_SIZE <= at < |held(name)| && at < AFFINITY_PAGE_SIZE
    requires NamedInWorkspace(t, name, held(name)[at])
    requires forall i :: 0 <= i < |held(name)| && i != at ==> !NamedInWorkspace(t, name, held(name)[i])
    ensures FindMatchingOrganization(t, Shortcut(held), name, None) == Decision(ExactPrivate, Some(held(name)[at]), None)
    ensures var fifty := FindMatchingOrganization(t, FiftyAlone(held), name, None);
      fifty.path != ExactPrivate && fifty.shown == Some(held(name)[..SEARCH_PAGE_SIZE])
  {
    var named := NameRule(t, name);
    var page, whole := held(name)[..SEARCH_PAGE_SIZE], FirstFiveHundred(held(name));
    assert PageAt(held(name), SEARCH_PAGE_SIZE, None).records == page;
    assert Find(page, named).None?;
    assert whole[at] == held(name)[at] && whole[at] in whole;
    assert FirstPageOrAll(held(name), Some(named)) == whole;
    var found := Find(whole, named);
    var i :| 0 <= i < |whole| && whole[i] == found.value;
    assert whole[i] == held(name)[i];
  }
}
