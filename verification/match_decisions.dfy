/**
 What each decision about a company or a person means, told by the records'
 fields: which record a rule adopts, and when the judge is asked.
 */
module MatchDecisions {
  import opened Options
  import opened PagedSearch
  import opened MatchShortcut

  /** The records an identity search is decided among. */
  function Candidates<T>(held: seq<T>): seq<T> {
    if |held| <= 500 then held else held[..500]
  }

  ghost predicate AnyMeets<T>(records: seq<T>, rule: T -> bool) {
    exists i :: 0 <= i < |records| && rule(records[i])
  }

  /** The record is the first of these that meets the rule. */
  ghost predicate IsFirst<T(!new)>(records: seq<T>, rule: T -> bool, record: Option<T>) {
    exists i :: 0 <= i < |records| && record == Some(records[i]) && rule(records[i])
      && forall j :: 0 <= j < i ==> !rule(records[j])
  }

  lemma {:induction false} FindIsFirst<T(!new)>(records: seq<T>, rule: T -> bool)
    ensures Find(records, rule).Some? <==> AnyMeets(records, rule)
    ensures Find(records, rule).Some? ==> IsFirst(records, rule, Find(records, rule))
  {
    if records != [] && !rule(records[0]) {
      FindIsFirst(records[1..], rule);
      if Find(records, rule).Some? {
        var i :| 0 <= i < |records[1..]| && Find(records, rule) == Some(records[1..][i]) && rule(records[1..][i])
          && forall j :: 0 <= j < i ==> !rule(records[1..][j]);
        assert records[i + 1] == records[1..][i];
        assert forall j :: 0 < j < i + 1 ==> records[j] == records[1..][j - 1];
      }
    }
  }

  // ── Companies ──────────────────────────────────────────────────────────

  /** The host a domain is matched by: there where a domain is given and has one. */
  predicate WantsHost(t: Tools, domain: Option<string>, host: string) {
    domain.Some? && domain.value != "" && t.host(domain.value) == Some(host) && host != ""
  }

  /** The company's own domain has this host, or its registered domain (or neither
      has one), or another
      of its domains has this host. */
  predicate HasDomain(t: Tools, host: string, o: Organization) {
    o.domain.Some? && o.domain.value != ""
    && (t.host(o.domain.value) == Some(host) || t.registered(o.domain.value) == t.registered(host)
        || exists d :: d in o.domains && t.host(d) == Some(host))
  }

  /** A workspace company of this name, less case. */
  predicate HasName(t: Tools, name: string, o: Organization) {
    !o.global && o.name.Some? && t.lower(o.name.value) == t.lower(name)
  }

  function ByHost(t: Tools, host: string): Organization -> bool {
    (o: Organization) => HasDomain(t, host, o)
  }

  function ByTheName(t: Tools, name: string): Organization -> bool {
    (o: Organization) => HasName(t, name, o)
  }

  function ById(id: int): Organization -> bool {
    (o: Organization) => o.id == id
  }

  /** What a decision by name is: an exact workspace name, else what the judge
      names among all the candidates, if it names one of them. */
  ghost predicate DecidedByName(t: Tools, name: string, named: seq<Organization>, d: Decision<Organization>) {
    if AnyMeets(named, ByTheName(t, name)) then
      d.path == ExactPrivate && IsFirst(named, ByTheName(t, name), d.record) && d.shown.None?
    else if named == [] then d == Decision(NoMatch, None, None)
    else
      && d.shown == Some(named)
      && var id := t.judge(named);
         if id.Some? && id.value != 0 && AnyMeets(named, ById(id.value)) then
           IsFirst(named, ById(id.value), d.record) && d.path == if d.record.value.global then JudgeGlobal else JudgePrivate
         else d.path == NoMatch && d.record.None?
  }

  ghost predicate DecidedByHost(t: Tools, name: string, hosted: seq<Organization>, named: seq<Organization>, host: string, d: Decision<Organization>) {
    if AnyMeets(hosted, ByHost(t, host)) then
      d.path == ByDomain && IsFirst(hosted, ByHost(t, host), d.record) && d.shown.None?
    else if AnyMeets(hosted, ByTheName(t, name)) then
      d.path == ExactPrivate && IsFirst(hosted, ByTheName(t, name), d.record) && d.shown.None?
    else DecidedByName(t, name, named, d)
  }

  lemma {:induction false} FindAgrees<T(!new)>(records: seq<T>, f: T -> bool, g: T -> bool)
    requires forall r :: f(r) <==> g(r)
    ensures Find(records, f) == Find(records, g)
  {
    if records != [] {
      FindAgrees(records[1..], f, g);
    }
  }

  lemma NameFound(t: Tools, name: string, records: seq<Organization>)
    ensures Find(records, NameRule(t, name)).Some? <==> AnyMeets(records, ByTheName(t, name))
    ensures Find(records, NameRule(t, name)).Some? ==> IsFirst(records, ByTheName(t, name), Find(records, NameRule(t, name)))
  {
    FindAgrees(records, NameRule(t, name), ByTheName(t, name));
    FindIsFirst(records, ByTheName(t, name));
  }

  lemma HostFound(t: Tools, host: string, records: seq<Organization>)
    ensures Find(records, DomainRule(t, host)).Some? <==> AnyMeets(records, ByHost(t, host))
    ensures Find(records, DomainRule(t, host)).Some? ==> IsFirst(records, ByHost(t, host), Find(records, DomainRule(t, host)))
  {
    FindAgrees(records, DomainRule(t, host), ByHost(t, host));
    FindIsFirst(records, ByHost(t, host));
  }

  lemma IdFound(id: int, records: seq<Organization>)
    ensures Find(records, IdRule(id)).Some? <==> AnyMeets(records, ById(id))
    ensures Find(records, IdRule(id)).Some? ==> IsFirst(records, ById(id), Find(records, IdRule(id)))
  {
    FindAgrees(records, IdRule(id), ById(id));
    FindIsFirst(records, ById(id));
  }

  lemma NameDecisionMeans(t: Tools, named: seq<Organization>, name: string)
    ensures DecidedByName(t, name, named, DecideByName(t, named, name))
  {
    NameFound(t, name, named);
    var id := t.judge(named);
    if id.Some? {
      IdFound(id.value, named);
    }
  }

  lemma FirstAreCandidates<T>(held: seq<T>)
    ensures FirstFiveHundred(held) == Candidates(held)
  {
  }

  /** The decision with every search answered by its candidates: where a host is
      wanted, and where none is. */
  lemma HostDecisionIs(t: Tools, held: string -> seq<Organization>, name: string, domain: Option<string>, host: string)
    requires WantsHost(t, domain, host)
    ensures DecidedByHost(t, name, Candidates(held(host)), Candidates(held(name)), host,
      FindMatchingOrganization(t, FullRead(held), name, domain))
  {
    var hosted := Candidates(held(host));
    FirstAreCandidates(held(name));
    FirstAreCandidates(held(host));
    NameDecisionMeans(t, Candidates(held(name)), name);
    HostFound(t, host, hosted);
    NameFound(t, name, hosted);
  }

  lemma NameDecisionIs(t: Tools, held: string -> seq<Organization>, name: string, domain: Option<string>)
    requires domain.None? || domain.value == "" || t.host(domain.value).None? || t.host(domain.value).value == ""
    ensures DecidedByName(t, name, Candidates(held(name)), FindMatchingOrganization(t, FullRead(held), name, domain))
  {
    FirstAreCandidates(held(name));
    NameDecisionMeans(t, Candidates(held(name)), name);
  }

  /** A company's decision, among the first 500 of each search: by its domain where
      a candidate has it; else by a workspace name, the domain's candidates first;
      else by the judge, who is asked exactly when the name has candidates, and
      only by whom a global company is adopted. */
  lemma OrganizationDecisionMeans(t: Tools, held: string -> seq<Organization>, name: string, domain: Option<string>)
    ensures var d, named := FindMatchingOrganization(t, Shortcut(held), name, domain), Candidates(held(name));
      && (forall host :: WantsHost(t, domain, host) ==> DecidedByHost(t, name, Candidates(held(host)), named, host, d))
      && ((forall host :: !WantsHost(t, domain, host)) ==> DecidedByName(t, name, named, d))
  {
    OrganizationDecisionUnchanged(t, held, name, domain);
    forall host | WantsHost(t, domain, host)
      ensures DecidedByHost(t, name, Candidates(held(host)), Candidates(held(name)), host, FindMatchingOrganization(t, Shortcut(held), name, domain))
    {
      HostDecisionIs(t, held, name, domain, host);
    }
    if forall host :: !WantsHost(t, domain, host) {
      assert domain.Some? && t.host(domain.value).Some? ==> !WantsHost(t, domain, t.host(domain.value).value);
      NameDecisionIs(t, held, name, domain);
    }
  }

  /** A global company is adopted by the domain or by the judge, never by name. */
  lemma GlobalIsNeverAdoptedByName(t: Tools, held: string -> seq<Organization>, name: string, domain: Option<string>)
    ensures var d := FindMatchingOrganization(t, Shortcut(held), name, domain);
      && (d.record.Some? && d.record.value.global ==> d.path == ByDomain || d.path == JudgeGlobal)
      && (d.path == JudgeGlobal ==> d.record.Some? && d.record.value.global && d.shown.Some? && d.record.value in d.shown.value)
  {
    OrganizationDecisionMeans(t, held, name, domain);
    var d := FindMatchingOrganization(t, Shortcut(held), name, domain);
    if domain.Some? && t.host(domain.value).Some? && WantsHost(t, domain, t.host(domain.value).value) {
      assert DecidedByHost(t, name, Candidates(held(t.host(domain.value).value)), Candidates(held(name)), t.host(domain.value).value, d);
    } else {
      assert DecidedByName(t, name, Candidates(held(name)), d);
    }
  }

  // ── People ─────────────────────────────────────────────────────────────

  /** The person's first address is this one, less case and padding. */
  predicate HasFirst(t: PersonTools, wanted: string, p: Person) {
    p.primaryEmail.Some? && t.trimLower(p.primaryEmail.value) == wanted
  }

  predicate HasAddress(t: PersonTools, wanted: string, p: Person) {
    exists e :: e in p.emails && t.trimLower(e) == wanted
  }

  function ByFirst(t: PersonTools, wanted: string): Person -> bool {
    (p: Person) => HasFirst(t, wanted, p)
  }

  function ByAddress(t: PersonTools, wanted: string): Person -> bool {
    (p: Person) => HasAddress(t, wanted, p)
  }

  function ByFullName(name: string): Person -> bool {
    (p: Person) => p.firstName + " " + p.lastName == name
  }

  function ByPersonId(id: int): Person -> bool {
    (p: Person) => p.id == id
  }

  ghost predicate DecidedByFullName(t: PersonTools, name: string, named: seq<Person>, d: Decision<Person>) {
    if AnyMeets(named, ByFullName(name)) then
      d.path == ByName && IsFirst(named, ByFullName(name), d.record) && d.shown.None?
    else
      && d.shown == Some(named)
      && var id := t.judge(named);
         if id.Some? && AnyMeets(named, ByPersonId(id.value)) then d.path == Judged && IsFirst(named, ByPersonId(id.value), d.record)
         else d.path == NoMatch && d.record.None?
  }

  /** By the name less its affixes; without one there is no match, and no judge. */
  ghost predicate DecidedWithoutAddress(t: PersonTools, held: string -> seq<Person>, name: string, d: Decision<Person>) {
    var clean := t.stripAffixes(name);
    if clean.Some? && clean.value != "" then DecidedByFullName(t, clean.value, Candidates(held(clean.value)), d)
    else d == Decision(NoMatch, None, None)
  }

  ghost predicate DecidedByAddress(t: PersonTools, held: string -> seq<Person>, name: string, wanted: string, d: Decision<Person>) {
    var addressed := Candidates(held(wanted));
    if AnyMeets(addressed, ByFirst(t, wanted)) then
      d.path == ByEmail && IsFirst(addressed, ByFirst(t, wanted), d.record) && d.shown.None?
    else if AnyMeets(addressed, ByAddress(t, wanted)) then
      d.path == ByEmail && IsFirst(addressed, ByAddress(t, wanted), d.record) && d.shown.None?
    else DecidedWithoutAddress(t, held, name, d)
  }

  lemma AddressFound(t: PersonTools, wanted: string, records: seq<Person>)
    requires wanted != ""
    ensures Find(records, PrimaryRule(t, wanted)).Some? <==> AnyMeets(records, ByFirst(t, wanted))
    ensures Find(records, PrimaryRule(t, wanted)).Some? ==> IsFirst(records, ByFirst(t, wanted), Find(records, PrimaryRule(t, wanted)))
    ensures Find(records, AddressRule(t, wanted)).Some? <==> AnyMeets(records, ByAddress(t, wanted))
    ensures Find(records, AddressRule(t, wanted)).Some? ==> IsFirst(records, ByAddress(t, wanted), Find(records, AddressRule(t, wanted)))
  {
    FindAgrees(records, PrimaryRule(t, wanted), ByFirst(t, wanted));
    FindAgrees(records, AddressRule(t, wanted), ByAddress(t, wanted));
    FindIsFirst(records, ByFirst(t, wanted));
    FindIsFirst(records, ByAddress(t, wanted));
  }

  lemma FullNameFound(name: string, records: seq<Person>)
    ensures Find(records, FullNameRule(name)).Some? <==> AnyMeets(records, ByFullName(name))
    ensures Find(records, FullNameRule(name)).Some? ==> IsFirst(records, ByFullName(name), Find(records, FullNameRule(name)))
  {
    FindAgrees(records, FullNameRule(name), ByFullName(name));
    FindIsFirst(records, ByFullName(name));
  }

  lemma PersonIdFound(id: int, records: seq<Person>)
    ensures Find(records, PersonIdRule(id)).Some? <==> AnyMeets(records, ByPersonId(id))
    ensures Find(records, PersonIdRule(id)).Some? ==> IsFirst(records, ByPersonId(id), Find(records, PersonIdRule(id)))
  {
    FindAgrees(records, PersonIdRule(id), ByPersonId(id));
    FindIsFirst(records, ByPersonId(id));
  }

  lemma FullNameDecisionMeans(t: PersonTools, named: seq<Person>, name: string)
    ensures DecidedByFullName(t, name, named, DecidePersonByName(t, named, name))
  {
    FullNameFound(name, named);
    var id := t.judge(named);
    if id.Some? {
      PersonIdFound(id.value, named);
    }
  }

  lemma WithoutAddressMeans(t: PersonTools, held: string -> seq<Person>, name: string)
    ensures DecidedWithoutAddress(t, held, name, MatchPersonByName(t, FullRead(held), name))
  {
    var clean := t.stripAffixes(name);
    if clean.Some? {
      FirstAreCandidates(held(clean.value));
      FullNameDecisionMeans(t, Candidates(held(clean.value)), clean.value);
    }
  }

  /** A person's decision, among the first 500 of each search: by the address where
      one is given that is not blank, a first address before any other; else by the
      full name less its affixes; else by the judge. */
  lemma PersonDecisionMeans(t: PersonTools, held: string -> seq<Person>, name: string, email: Option<string>)
    ensures var d := FindMatchingPerson(t, Shortcut(held), name, email);
      if email.Some? && t.trimLower(email.value) != "" then DecidedByAddress(t, held, name, t.trimLower(email.value), d)
      else DecidedWithoutAddress(t, held, name, d)
  {
    PersonDecisionUnchanged(t, held, name, email);
    WithoutAddressMeans(t, held, name);
    if email.Some? && t.trimLower(email.value) != "" {
      var wanted := t.trimLower(email.value);
      FirstAreCandidates(held(wanted));
      AddressFound(t, wanted, Candidates(held(wanted)));
    }
  }
}
