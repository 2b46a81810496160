/**
 How a write joins its record to its parents: by the employer association, by a
 reference field of the parent's, or, for a parent neither covers, not at all.
 */
module ParentLinks {
  import opened Options
  import opened Links

  /** What a parent is: a company, a person, a list entry (and the record whose
      fields it holds, where there is one), or something that holds no field. */
  datatype Kind = Organization | Person | Entry(holder: Option<Holder>) | Other

  /** A parent of a write: its kind, its id where that is a whole number, and the
      edge the write came along. */
  datatype Parent = Parent(kind: Kind, id: Option<int>, edge: string)

  /** The reference fields edges name: on companies, on people, on list entries. */
  datatype Catalog = Catalog(ofEntity: (bool, string) -> Option<Field>, ofEntry: (Holder, string) -> Option<Field>)

  function FieldOn(catalog: Catalog, holder: Holder, edge: string): Option<Field> {
    if holder.Entity? then catalog.ofEntity(holder.isOrg, edge) else catalog.ofEntry(holder, edge)
  }

  function HolderFor(parent: Parent): Option<Holder> {
    if parent.id.None? then None
    else match parent.kind
      case Organization => Some(Entity(true, parent.id.value))
      case Person => Some(Entity(false, parent.id.value))
      case Entry(holder) => holder
      case Other => None
  }

  /** The reference a parent points at the child through. */
  function ReferenceOf(catalog: Catalog, parent: Parent): Option<(Holder, Field)> {
    var holder := HolderFor(parent);
    if holder.None? then None
    else
      var field := FieldOn(catalog, holder.value, parent.edge);
      if field.None? then None else Some((holder.value, field.value))
  }

  predicate ByReference(catalog: Catalog, parent: Parent) {
    ReferenceOf(catalog, parent).Some?
  }

  /** A company or a person the child is joined to as an employer or an employee. */
  predicate ByEmployment(catalog: Catalog, parent: Parent, isOrg: bool) {
    parent.kind == (if isOrg then Organization else Person) && parent.id.Some? && catalog.ofEntity(isOrg, parent.edge).None?
  }

  /** The two ways never both cover a parent. */
  lemma PassesAreDisjoint(catalog: Catalog, parent: Parent, isOrg: bool)
    ensures !(ByReference(catalog, parent) && ByEmployment(catalog, parent, isOrg))
  {
  }

  datatype Pass = Pass(handled: nat, made: nat)

  datatype Association = NoParents | Unsupported | Made | Already

  function TotalHandled(passes: seq<Pass>): nat {
    if passes == [] then 0 else passes[0].handled + TotalHandled(passes[1..])
  }

  function TotalMade(passes: seq<Pass>): nat {
    if passes == [] then 0 else passes[0].made + TotalMade(passes[1..])
  }

  function CombineParentAssociation(parents: nat, passes: seq<Pass>): Association {
    if parents == 0 then NoParents
    else if TotalHandled(passes) < parents then Unsupported
    else if TotalMade(passes) > 0 then Made
    else Already
  }

  lemma OfTwoPasses(parents: nat, p: Pass, q: Pass)
    ensures TotalHandled([p, q]) == p.handled + q.handled && TotalMade([p, q]) == p.made + q.made
  {
    assert [p, q][1..] == [q] && [q][1..] == [];
    assert TotalHandled([q]) == q.handled + TotalHandled([]) && TotalMade([q]) == q.made + TotalMade([]);
  }

  // ── The reference pass ─────────────────────────────────────────────────

  /** One parent more: pointed at the child, where it is by reference. */
  function ReferOne(catalog: Catalog, parent: Parent, child: int, pass: Pass, t: Table): (Pass, Table) {
    var reference := ReferenceOf(catalog, parent);
    if reference.None? then (pass, t)
    else
      var (holder, field) := reference.value;
      var made := if PointingRows(t.rows, holder, field, child) == [] then 1 else 0;
      (Pass(pass.handled + 1, pass.made + made), Pointed(t, holder, field, child))
  }

  function Referred(catalog: Catalog, parents: seq<Parent>, child: int, t: Table): (Pass, Table) {
    if parents == [] then (Pass(0, 0), t)
    else
      var (pass, now) := Referred(catalog, parents[..|parents| - 1], child, t);
      ReferOne(catalog, parents[|parents| - 1], child, pass, now)
  }

  method ReferParent(catalog: Catalog, parent: Parent, child: int, before: Pass, workspace: Workspace) returns (pass: Pass)
    requires workspace.Valid()
    modifies workspace
    ensures workspace.Valid() && (pass, workspace.State()) == ReferOne(catalog, parent, child, before, old(workspace.State()))
  {
    pass := before;
    var reference := ReferenceOf(catalog, parent);
    if reference.Some? {
      var made := workspace.AssertCustomReference(reference.value.0, reference.value.1, child);
      pass := Pass(pass.handled + 1, pass.made + if made then 1 else 0);
    }
  }

  method ApplyCustomReferenceParentLinks(catalog: Catalog, parents: seq<Parent>, child: int, workspace: Workspace) returns (pass: Pass)
    requires workspace.Valid()
    modifies workspace
    ensures workspace.Valid() && (pass, workspace.State()) == Referred(catalog, parents, child, old(workspace.State()))
  {
    pass := Pass(0, 0);
    for i := 0 to |parents|
      invariant workspace.Valid()
      invariant (pass, workspace.State()) == Referred(catalog, parents[..i], child, old(workspace.State()))
    {
      assert parents[..i + 1][..i] == parents[..i];
      pass := ReferParent(catalog, parents[i], child, pass, workspace);
    }
    assert parents[..|parents|] == parents;
  }

  ghost predicate Sound(t: Table) {
    DistinctRows(t.rows) && forall r :: r in t.rows ==> r.id < t.nextId
  }

  lemma UpdateKeepsSound(t: Table, id: int, value: Value, sent: nat)
    requires Sound(t)
    ensures Sound(Table(WithValue(t.rows, id, value), t.nextId, sent))
  {
    var after := WithValue(t.rows, id, value);
    UpdateKeepsIds(t.rows, id, value);
    forall r | r in after
      ensures r.id < t.nextId
    {
      var i :| 0 <= i < |after| && after[i] == r;
      assert t.rows[i] in t.rows;
    }
  }

  lemma AppendKeepsSound(t: Table, row: ValueRow, sent: nat)
    requires Sound(t) && row.id == t.nextId
    ensures Sound(Table(t.rows + [row], t.nextId + 1, sent))
  {
    var after := t.rows + [row];
    forall i | 0 <= i < |t.rows|
      ensures after[i].id < row.id
    {
      assert t.rows[i] in t.rows;
    }
  }

  lemma PointedKeepsSound(t: Table, holder: Holder, field: Field, child: int)
    requires Sound(t)
    ensures Sound(Pointed(t, holder, field, child))
  {
    var existing, after := RowsOn(t.rows, holder, field), Pointed(t, holder, field, child);
    if PointingRows(t.rows, holder, field, child) == [] {
      if !field.multiple && existing != [] {
        UpdateKeepsSound(t, existing[0].id, One(child), after.sent);
      } else {
        AppendKeepsSound(t, NewRow(t.nextId, holder, field, child), after.sent);
      }
    }
  }

  /** A record once pointed at stays so while others are pointed at it. */
  lemma PointedKeepsTargets(t: Table, holder: Holder, field: Field, child: int, h: Holder, f: Field)
    requires Sound(t) && Targets(t.rows, h, f, child)
    ensures Targets(Pointed(t, holder, field, child).rows, h, f, child)
  {
    var r :| r in t.rows && Pointing(r, h, f, child);
    AssertAddsTheTarget(t.rows, t.nextId, holder, field, child, r);
    if Replaces(t.rows, holder, field, child, r) {
      ReplacesOnlyItsOwnRow(t.rows, holder, field, child, r);
    }
    assert r in Pointed(t, holder, field, child).rows;
  }

  /** Every parent that points by reference points at the child. */
  ghost predicate AllRefer(catalog: Catalog, parents: seq<Parent>, child: int, rows: seq<ValueRow>) {
    forall p :: p in parents && ByReference(catalog, p) ==>
      Targets(rows, ReferenceOf(catalog, p).value.0, ReferenceOf(catalog, p).value.1, child)
  }

  lemma {:induction false} ReferredRefers(catalog: Catalog, parents: seq<Parent>, child: int, t: Table)
    requires Sound(t)
    ensures Sound(Referred(catalog, parents, child, t).1)
    ensures AllRefer(catalog, parents, child, Referred(catalog, parents, child, t).1.rows)
  {
    if parents != [] {
      var front, last := parents[..|parents| - 1], parents[|parents| - 1];
      assert parents == front + [last];
      ReferredRefers(catalog, front, child, t);
      var before := Referred(catalog, front, child, t).1;
      var reference := ReferenceOf(catalog, last);
      if reference.Some? {
        var (holder, field) := reference.value;
        PointedKeepsSound(before, holder, field, child);
        AssertAddsTheTarget(before.rows, before.nextId, holder, field, child, NewRow(0, holder, field, child));
        forall p | p in front && ByReference(catalog, p)
          ensures Targets(Pointed(before, holder, field, child).rows, ReferenceOf(catalog, p).value.0, ReferenceOf(catalog, p).value.1, child)
        {
          PointedKeepsTargets(before, holder, field, child, ReferenceOf(catalog, p).value.0, ReferenceOf(catalog, p).value.1);
        }
      }
    }
  }

  lemma {:induction false} ReferringAgainIsNothing(catalog: Catalog, parents: seq<Parent>, child: int, t: Table)
    requires AllRefer(catalog, parents, child, t.rows)
    ensures Referred(catalog, parents, child, t).1 == t && Referred(catalog, parents, child, t).0.made == 0
  {
    if parents != [] {
      var front, last := parents[..|parents| - 1], parents[|parents| - 1];
      assert parents == front + [last];
      ReferringAgainIsNothing(catalog, front, child, t);
      if ByReference(catalog, last) {
        var (holder, field) := ReferenceOf(catalog, last).value;
        assert last in parents;
        PointsIff(t.rows, holder, field, child);
      }
    }
  }

  /** The pass makes a link if and only if some reference did not point at the
      child before it. */
  lemma {:induction false} ReferringMakesIff(catalog: Catalog, parents: seq<Parent>, child: int, t: Table)
    ensures Referred(catalog, parents, child, t).0.made > 0 <==> !AllRefer(catalog, parents, child, t.rows)
  {
    if AllRefer(catalog, parents, child, t.rows) {
      ReferringAgainIsNothing(catalog, parents, child, t);
    } else {
      var front, last := parents[..|parents| - 1], parents[|parents| - 1];
      assert parents == front + [last];
      ReferringMakesIff(catalog, front, child, t);
      if AllRefer(catalog, front, child, t.rows) {
        ReferringAgainIsNothing(catalog, front, child, t);
        var (holder, field) := ReferenceOf(catalog, last).value;
        PointsIff(t.rows, holder, field, child);
      }
    }
  }

  function Count(parents: seq<Parent>, covers: Parent -> bool): nat {
    if parents == [] then 0 else Count(parents[..|parents| - 1], covers) + if covers(parents[|parents| - 1]) then 1 else 0
  }

  function References(catalog: Catalog): Parent -> bool {
    (p: Parent) => ByReference(catalog, p)
  }

  function Employs(catalog: Catalog): Parent -> bool {
    (p: Parent) => ByEmployment(catalog, p, false)
  }

  lemma {:induction false} ReferredHandles(catalog: Catalog, parents: seq<Parent>, child: int, t: Table)
    ensures Referred(catalog, parents, child, t).0.handled == Count(parents, References(catalog))
  {
    if parents != [] {
      ReferredHandles(catalog, parents[..|parents| - 1], child, t);
    }
  }

  // ── The employer pass of an organization's write ───────────────────────

  /** The people of the workspace, each with their employers. */
  type People = map<int, Employers>

  /** None where a person is not there to be read. */
  function Joined(catalog: Catalog, parents: seq<Parent>, org: int, people: People): Option<(Pass, People)> {
    if parents == [] then Some((Pass(0, 0), people))
    else
      var before := Joined(catalog, parents[..|parents| - 1], org, people);
      var last := parents[|parents| - 1];
      if before.None? || !ByEmployment(catalog, last, false) then before
      else
        var (pass, now) := before.value;
        if last.id.value !in now then None
        else
          var (employers, sent) := Attached(now[last.id.value], org);
          Some((Pass(pass.handled + 1, pass.made + if sent.Some? then 1 else 0), now[last.id.value := employers]))
  }

  class Directory {
    var people: People
    constructor (people: People)
      ensures this.people == people
    {
      this.people := people;
    }

    /** Every person parent joins the organization; none where one cannot be read. */
    method LinkParentPeople(catalog: Catalog, parents: seq<Parent>, org: int) returns (pass: Option<Pass>)
      modifies this
      ensures var joined := Joined(catalog, parents, org, old(people));
        (pass.Some? <==> joined.Some?) && (pass.Some? ==> (pass.value, people) == joined.value)
    {
      var handled: nat, made: nat := 0, 0;
      for i := 0 to |parents|
        invariant Joined(catalog, parents[..i], org, old(people)) == Some((Pass(handled, made), people))
      {
        var parent := parents[i];
        assert parents[..i + 1][..i] == parents[..i];
        if ByEmployment(catalog, parent, false) {
          if parent.id.value !in people {
            NoneStaysNone(catalog, parents, org, old(people), i + 1);
            return None;
          }
          handled := handled + 1;
          var (employers, sent) := Attached(people[parent.id.value], org);
          people := people[parent.id.value := employers];
          if sent.Some? {
            made := made + 1;
          }
        }
      }
      assert parents[..|parents|] == parents;
      return Some(Pass(handled, made));
    }
  }

  lemma {:induction false} NoneStaysNone(catalog: Catalog, parents: seq<Parent>, org: int, people: People, n: nat)
    requires n <= |parents| && Joined(catalog, parents[..n], org, people).None?
    ensures Joined(catalog, parents, org, people).None?
    decreases |parents|
  {
    if n == |parents| {
      assert parents[..n] == parents;
    } else {
      assert parents[..|parents| - 1][..n] == parents[..n];
      NoneStaysNone(catalog, parents[..|parents| - 1], org, people, n);
    }
  }

  /** Every person parent works for the organization. */
  ghost predicate AllEmployed(catalog: Catalog, parents: seq<Parent>, org: int, people: People) {
    forall p :: p in parents && ByEmployment(catalog, p, false) ==> p.id.value in people && org in Ids(people[p.id.value])
  }

  lemma {:induction false} JoinedEmploys(catalog: Catalog, parents: seq<Parent>, org: int, people: People)
    requires Joined(catalog, parents, org, people).Some?
    ensures AllEmployed(catalog, parents, org, Joined(catalog, parents, org, people).value.1)
  {
    if parents != [] {
      var front, last := parents[..|parents| - 1], parents[|parents| - 1];
      assert parents == front + [last];
      JoinedEmploys(catalog, front, org, people);
      var now := Joined(catalog, front, org, people).value.1;
      if ByEmployment(catalog, last, false) {
        EmployerLinkLaws(now[last.id.value], org);
      }
    }
  }

  lemma {:induction false} JoiningAgainIsNothing(catalog: Catalog, parents: seq<Parent>, org: int, people: People)
    requires AllEmployed(catalog, parents, org, people)
    ensures Joined(catalog, parents, org, people) == Some((Pass(Count(parents, Employs(catalog)), 0), people))
  {
    if parents != [] {
      var front, last := parents[..|parents| - 1], parents[|parents| - 1];
      assert parents == front + [last];
      JoiningAgainIsNothing(catalog, front, org, people);
      if ByEmployment(catalog, last, false) {
        assert last in parents;
        var id := last.id.value;
        assert Attached(people[id], org) == (people[id], None);
        assert people[id := people[id]] == people;
      }
    }
  }

  /** The pass makes a link if and only if some person parent did not work there
      before it. */
  lemma {:induction false} JoiningMakesIff(catalog: Catalog, parents: seq<Parent>, org: int, people: People)
    requires Joined(catalog, parents, org, people).Some?
    ensures Joined(catalog, parents, org, people).value.0.made > 0 <==> !AllEmployed(catalog, parents, org, people)
  {
    if AllEmployed(catalog, parents, org, people) {
      JoiningAgainIsNothing(catalog, parents, org, people);
    } else {
      var front, last := parents[..|parents| - 1], parents[|parents| - 1];
      assert parents == front + [last];
      JoiningMakesIff(catalog, front, org, people);
      if AllEmployed(catalog, front, org, people) {
        JoiningAgainIsNothing(catalog, front, org, people);
      }
    }
  }

  lemma {:induction false} JoinedHandles(catalog: Catalog, parents: seq<Parent>, org: int, people: People)
    requires Joined(catalog, parents, org, people).Some?
    ensures Joined(catalog, parents, org, people).value.0.handled == Count(parents, Employs(catalog))
  {
    if parents != [] {
      JoinedHandles(catalog, parents[..|parents| - 1], org, people);
    }
  }

  // ── An organization's parents ──────────────────────────────────────────

  lemma {:induction false} CountsCover(parents: seq<Parent>, f: Parent -> bool, g: Parent -> bool)
    requires forall p :: p in parents ==> !(f(p) && g(p))
    ensures Count(parents, f) + Count(parents, g) <= |parents|
    ensures Count(parents, f) + Count(parents, g) == |parents| <==> forall p :: p in parents ==> f(p) || g(p)
  {
    if parents != [] {
      var front, last := parents[..|parents| - 1], parents[|parents| - 1];
      assert parents == front + [last] && last in parents;
      assert forall p :: p in parents <==> p in front || p == last;
      CountsCover(front, f, g);
    }
  }

  function OrganizationAssociation(catalog: Catalog, parents: seq<Parent>, org: int, people: People, t: Table): Association
    requires Joined(catalog, parents, org, people).Some?
  {
    CombineParentAssociation(|parents|, [Joined(catalog, parents, org, people).value.0, Referred(catalog, parents, org, t).0])
  }

  /** An organization's write is `unsupported` exactly when some parent is covered
      by neither pass. */
  lemma OrganizationUnsupportedIff(catalog: Catalog, parents: seq<Parent>, org: int, people: People, t: Table)
    requires Joined(catalog, parents, org, people).Some?
    ensures OrganizationAssociation(catalog, parents, org, people, t) == Unsupported
      <==> exists p :: p in parents && !ByEmployment(catalog, p, false) && !ByReference(catalog, p)
  {
    var f, g := Employs(catalog), References(catalog);
    var p, q := Joined(catalog, parents, org, people).value.0, Referred(catalog, parents, org, t).0;
    OfTwoPasses(|parents|, p, q);
    JoinedHandles(catalog, parents, org, people);
    ReferredHandles(catalog, parents, org, t);
    forall x | x in parents
      ensures !(f(x) && g(x))
    {
      PassesAreDisjoint(catalog, x, false);
    }
    CountsCover(parents, f, g);
    assert forall x :: x in parents ==> f(x) == ByEmployment(catalog, x, false) && g(x) == ByReference(catalog, x);
  }

  /** A parent that points at the child by reference, and did not before. */
  ghost predicate NotReferring(catalog: Catalog, p: Parent, child: int, rows: seq<ValueRow>) {
    ByReference(catalog, p) && !Targets(rows, ReferenceOf(catalog, p).value.0, ReferenceOf(catalog, p).value.1, child)
  }

  predicate NotEmployed(catalog: Catalog, p: Parent, org: int, people: People) {
    ByEmployment(catalog, p, false) && (p.id.value !in people || org !in Ids(people[p.id.value]))
  }

  ghost predicate SomeLinkIsNew(catalog: Catalog, parents: seq<Parent>, org: int, people: People, rows: seq<ValueRow>) {
    exists p :: p in parents && (NotEmployed(catalog, p, org, people) || NotReferring(catalog, p, org, rows))
  }

  /** An organization's write reports no parents exactly when it has none, a link
      made exactly when every parent is covered and some link was not there before
      it, and otherwise, with every parent covered, that all were. */
  lemma OrganizationMadeIff(catalog: Catalog, parents: seq<Parent>, org: int, people: People, t: Table)
    requires Joined(catalog, parents, org, people).Some?
    ensures var a := OrganizationAssociation(catalog, parents, org, people, t);
      && (a == NoParents <==> parents == [])
      && (a == Made <==> a != Unsupported && SomeLinkIsNew(catalog, parents, org, people, t.rows))
      && (a == Already <==> a != Unsupported && parents != [] && !SomeLinkIsNew(catalog, parents, org, people, t.rows))
  {
    OfTwoPasses(|parents|, Joined(catalog, parents, org, people).value.0, Referred(catalog, parents, org, t).0);
    JoiningMakesIff(catalog, parents, org, people);
    ReferringMakesIff(catalog, parents, org, t);
    SomeIsMissingIff(catalog, parents, org, people, t.rows);
  }

  lemma SomeIsMissingIff(catalog: Catalog, parents: seq<Parent>, org: int, people: People, rows: seq<ValueRow>)
    ensures SomeLinkIsNew(catalog, parents, org, people, rows)
      <==> !AllEmployed(catalog, parents, org, people) || !AllRefer(catalog, parents, org, rows)
  {
    if !AllEmployed(catalog, parents, org, people) {
      var p :| p in parents && NotEmployed(catalog, p, org, people);
    }
    if !AllRefer(catalog, parents, org, rows) {
      var p :| p in parents && NotReferring(catalog, p, org, rows);
    }
  }

  /** Writing an organization under the same parents again sends nothing, changes
      nothing, and reports no link made. */
  lemma OrganizationAgainMakesNothing(catalog: Catalog, parents: seq<Parent>, org: int, people: People, t: Table)
    requires Joined(catalog, parents, org, people).Some? && Sound(t)
    ensures var people1, t1 := Joined(catalog, parents, org, people).value.1, Referred(catalog, parents, org, t).1;
      && Joined(catalog, parents, org, people1).Some?
      && Joined(catalog, parents, org, people1).value.1 == people1 && Referred(catalog, parents, org, t1).1 == t1
      && OrganizationAssociation(catalog, parents, org, people1, t1) != Made
  {
    var people1, t1 := Joined(catalog, parents, org, people).value.1, Referred(catalog, parents, org, t).1;
    JoinedEmploys(catalog, parents, org, people);
    JoiningAgainIsNothing(catalog, parents, org, people1);
    ReferredRefers(catalog, parents, org, t);
    ReferringAgainIsNothing(catalog, parents, org, t1);
    OfTwoPasses(|parents|, Joined(catalog, parents, org, people1).value.0, Referred(catalog, parents, org, t1).0);
  }

  // ── A person's parents ─────────────────────────────────────────────────

  /** The place of the first company parent the person is to work for. */
  function EmployerAt(catalog: Catalog, parents: seq<Parent>): (k: nat)
    ensures k <= |parents|
    ensures k < |parents| ==> ByEmployment(catalog, parents[k], true)
    ensures forall i :: 0 <= i < k ==> !ByEmployment(catalog, parents[i], true)
  {
    if parents == [] then 0
    else if ByEmployment(catalog, parents[0], true) then 0
    else 1 + EmployerAt(catalog, parents[1..])
  }

  /** A person matched, or created in this write. */
  datatype Written = Matched(employers: Employers) | New

  /** The employers a person has once written, and whether a link was made. Id 0
      is taken for no company. */
  function Employed(catalog: Catalog, parents: seq<Parent>, written: Written): (Pass, Employers) {
    var k := EmployerAt(catalog, parents);
    if k == |parents| then (Pass(0, 0), if written.Matched? then written.employers else None)
    else
      var org := parents[k].id.value;
      if org == 0 then (Pass(1, 0), if written.Matched? then written.employers else None)
      else if written.New? then (Pass(1, 1), Some([org]))
      else
        var (employers, sent) := Attached(written.employers, org);
        (Pass(1, if sent.Some? then 1 else 0), employers)
  }

  function PersonAssociation(catalog: Catalog, parents: seq<Parent>, person: int, written: Written, t: Table): Association {
    CombineParentAssociation(|parents|, [Employed(catalog, parents, written).0, Referred(catalog, parents, person, t).0])
  }

  lemma {:induction false} CountAllBut(parents: seq<Parent>, f: Parent -> bool, k: nat)
    requires k < |parents| && !f(parents[k])
    ensures Count(parents, f) < |parents|
    ensures Count(parents, f) == |parents| - 1 <==> forall i :: 0 <= i < |parents| && i != k ==> f(parents[i])
  {
    var front, n := parents[..|parents| - 1], |parents| - 1;
    if k == n {
      CountAll(front, f);
      assert (forall i :: 0 <= i < n ==> f(front[i])) <==> forall i :: 0 <= i < n ==> f(parents[i]);
    } else {
      CountAllBut(front, f, k);
      assert (forall i :: 0 <= i < n && i != k ==> f(front[i])) <==> forall i :: 0 <= i < n && i != k ==> f(parents[i]);
    }
  }

  lemma {:induction false} CountAll(parents: seq<Parent>, f: Parent -> bool)
    ensures Count(parents, f) <= |parents|
    ensures Count(parents, f) == |parents| <==> forall i :: 0 <= i < |parents| ==> f(parents[i])
  {
    if parents != [] {
      var front, n := parents[..|parents| - 1], |parents| - 1;
      CountAll(front, f);
      assert (forall i :: 0 <= i < n ==> f(front[i])) <==> forall i :: 0 <= i < n ==> f(parents[i]);
    }
  }

  /** A person's write is `unsupported` exactly when some parent is covered by no
      reference and is not the one company the person is to work for: a second
      company along no reference field is. */
  lemma PersonUnsupportedIff(catalog: Catalog, parents: seq<Parent>, person: int, written: Written, t: Table)
    ensures PersonAssociation(catalog, parents, person, written, t) == Unsupported
      <==> exists i :: 0 <= i < |parents| && i != EmployerAt(catalog, parents) && !ByReference(catalog, parents[i])
  {
    var k, g := EmployerAt(catalog, parents), References(catalog);
    OfTwoPasses(|parents|, Employed(catalog, parents, written).0, Referred(catalog, parents, person, t).0);
    ReferredHandles(catalog, parents, person, t);
    assert forall i :: 0 <= i < |parents| ==> g(parents[i]) == ByReference(catalog, parents[i]);
    if k < |parents| {
      PassesAreDisjoint(catalog, parents[k], true);
      CountAllBut(parents, g, k);
    } else {
      CountAll(parents, g);
    }
  }

  /** The employer link the write makes was not there: the person is new, or was
      not with the company, and the company's id is not 0. */
  predicate EmployerIsNew(catalog: Catalog, parents: seq<Parent>, written: Written) {
    var k := EmployerAt(catalog, parents);
    && k < |parents| && parents[k].id.value != 0
    && (written.New? || parents[k].id.value !in Ids(written.employers))
  }

  ghost predicate PersonLinkIsNew(catalog: Catalog, parents: seq<Parent>, person: int, written: Written, rows: seq<ValueRow>) {
    EmployerIsNew(catalog, parents, written) || exists p :: p in parents && NotReferring(catalog, p, person, rows)
  }

  /** The same of a person's write. */
  lemma PersonMadeIff(catalog: Catalog, parents: seq<Parent>, person: int, written: Written, t: Table)
    ensures var a := PersonAssociation(catalog, parents, person, written, t);
      && (a == NoParents <==> parents == [])
      && (a == Made <==> a != Unsupported && PersonLinkIsNew(catalog, parents, person, written, t.rows))
      && (a == Already <==> a != Unsupported && parents != [] && !PersonLinkIsNew(catalog, parents, person, written, t.rows))
  {
    OfTwoPasses(|parents|, Employed(catalog, parents, written).0, Referred(catalog, parents, person, t).0);
    ReferringMakesIff(catalog, parents, person, t);
    if !AllRefer(catalog, parents, person, t.rows) {
      var p :| p in parents && NotReferring(catalog, p, person, t.rows);
    }
  }

  /** The one company parent a person is to work for; id 0 is none. */
  predicate IsEmployer(catalog: Catalog, parents: seq<Parent>, org: int) {
    EmployerAt(catalog, parents) < |parents| && parents[EmployerAt(catalog, parents)].id == Some(org) && org != 0
  }

  /** A person written keeps its employers and has the one company it is to work
      for, if that is not 0, and no other. */
  lemma PersonWorksThere(catalog: Catalog, parents: seq<Parent>, written: Written, x: int)
    ensures x in Ids(Employed(catalog, parents, written).1)
      <==> (written.Matched? && x in Ids(written.employers)) || IsEmployer(catalog, parents, x)
  {
    var k := EmployerAt(catalog, parents);
    if k < |parents| && written.Matched? {
      EmployerLinkLaws(written.employers, parents[k].id.value);
    }
  }

  /** Writing the person again, then matched, makes no link and sends none. */
  lemma PersonAgainMakesNothing(catalog: Catalog, parents: seq<Parent>, person: int, written: Written, t: Table)
    requires Sound(t)
    ensures var again, t1 := Matched(Employed(catalog, parents, written).1), Referred(catalog, parents, person, t).1;
      && Employed(catalog, parents, again).1 == again.employers && Referred(catalog, parents, person, t1).1 == t1
      && PersonAssociation(catalog, parents, person, again, t1) != Made
  {
    var again, t1 := Matched(Employed(catalog, parents, written).1), Referred(catalog, parents, person, t).1;
    ReferredRefers(catalog, parents, person, t);
    ReferringAgainIsNothing(catalog, parents, person, t1);
    OfTwoPasses(|parents|, Employed(catalog, parents, again).0, Referred(catalog, parents, person, t1).0);
    var k := EmployerAt(catalog, parents);
    if k < |parents| && written.Matched? {
      EmployerLinkLaws(written.employers, parents[k].id.value);
    }
  }

  // ── A standalone link ──────────────────────────────────────────────────

  const EMPLOYER_EDGES := {"People", "Organizations", "people", "organizations"}

  /** Which relationship a link is: a reference field's, the employer association's,
      or none, which is refused. */
  datatype Resolved = ToReference(holder: Holder, field: Field, target: int) | ToEmployer(person: int, org: int) | Refused

  function ResolveLink(catalog: Catalog, from: Parent, toKind: Kind, toId: Option<int>): Resolved {
    if toId.None? || (toKind != Organization && toKind != Person) then Refused
    else
      var reference := ReferenceOf(catalog, from);
      if reference.Some? then ToReference(reference.value.0, reference.value.1, toId.value)
      else if from.id.Some? && from.edge in EMPLOYER_EDGES && from.kind == Organization && toKind == Person then
        ToEmployer(toId.value, from.id.value)
      else if from.id.Some? && from.edge in EMPLOYER_EDGES && from.kind == Person && toKind == Organization then
        ToEmployer(from.id.value, toId.value)
      else Refused
  }

  /** A link and a write along an edge take one relationship for the reference
      field's in the same cases; and for the employer association's in the same
      cases where the edge is one that association is published under. Along any
      other edge the write still joins, and the link is refused. */
  lemma LinkAndWriteSplitAlike(catalog: Catalog, from: Parent, toKind: Kind, toId: int)
    requires toKind == Organization || toKind == Person
    ensures ResolveLink(catalog, from, toKind, Some(toId)).ToReference? <==> ByReference(catalog, from)
    ensures ResolveLink(catalog, from, toKind, Some(toId)).ToEmployer?
      <==> from.edge in EMPLOYER_EDGES && ByEmployment(catalog, from, toKind == Person)
  {
  }

  /** Whether the relationship is there. */
  ghost predicate Linked(link: Resolved, people: People, rows: seq<ValueRow>) {
    match link
    case ToReference(holder, field, target) => Targets(rows, holder, field, target)
    case ToEmployer(person, org) => person in people && org in Ids(people[person])
    case Refused => false
  }

  /** Links two records: it reports whether there was a link to make, and sends
      nothing where there was none. */
  method LinkRecords(link: Resolved, directory: Directory, workspace: Workspace) returns (created: bool)
    requires workspace.Valid() && !link.Refused? && (link.ToEmployer? ==> link.person in directory.people)
    modifies directory, workspace
    ensures workspace.Valid() && Linked(link, directory.people, workspace.rows)
    ensures created <==> !old(Linked(link, directory.people, workspace.rows))
    ensures !created ==> directory.people == old(directory.people) && workspace.State() == old(workspace.State())
    ensures link.ToEmployer? ==> workspace.State() == old(workspace.State())
    ensures link.ToEmployer? ==>
      directory.people == old(directory.people)[link.person := Attached(old(directory.people)[link.person], link.org).0]
    ensures link.ToReference? ==> directory.people == old(directory.people)
    ensures link.ToReference? ==> workspace.State() == Pointed(old(workspace.State()), link.holder, link.field, link.target)
  {
    match link {
      case ToReference(holder, field, target) =>
        PointsIff(workspace.rows, holder, field, target);
        AssertAddsTheTarget(workspace.rows, workspace.nextId, holder, field, target, NewRow(0, holder, field, target));
        created := workspace.AssertCustomReference(holder, field, target);
      case ToEmployer(person, org) =>
        EmployerLinkLaws(directory.people[person], org);
        var (employers, sent) := Attached(directory.people[person], org);
        created := sent.Some?;
        directory.people := directory.people[person := employers];
    }
  }

  /** Unmakes it, in the same way. */
  method UnlinkRecords(link: Resolved, directory: Directory, workspace: Workspace) returns (removed: bool)
    requires workspace.Valid() && !link.Refused? && (link.ToEmployer? ==> link.person in directory.people)
    modifies directory, workspace
    ensures workspace.Valid() && !Linked(link, directory.people, workspace.rows)
    ensures removed <==> old(Linked(link, directory.people, workspace.rows))
    ensures !removed ==> directory.people == old(directory.people) && workspace.State() == old(workspace.State())
    ensures link.ToEmployer? ==> workspace.State() == old(workspace.State())
    ensures link.ToEmployer? ==>
      directory.people == old(directory.people)[link.person := Detached(old(directory.people)[link.person], link.org).0]
    ensures link.ToReference? ==> directory.people == old(directory.people)
    ensures link.ToReference? ==> workspace.rows == Severed(old(workspace.rows), link.holder, link.field, link.target)
  {
    match link {
      case ToReference(holder, field, target) =>
        PointsIff(workspace.rows, holder, field, target);
        SeverDropsTheTarget(workspace.rows, holder, field, target);
        SeveredAre(workspace.rows, holder, field, target);
        removed := workspace.SeverCustomReference(holder, field, target);
      case ToEmployer(person, org) =>
        EmployerLinkLaws(directory.people[person], org);
        var (employers, sent) := Detached(directory.people[person], org);
        removed := sent.Some?;
        directory.people := directory.people[person := employers];
    }
  }
}
