/**
 Affinity's two relationships as the module makes and unmakes them: a person's
 employers, and a reference field's value rows.
 */
module Links {
  import opened Options

  // ── Employers ──────────────────────────────────────────────────────────

  /** A person's employer ids, or none where Affinity sends null. */
  type Employers = Option<seq<int>>

  function Ids(employers: Employers): seq<int> {
    if employers.Some? then employers.value else []
  }

  function Except(ids: seq<int>, id: int): seq<int> {
    if ids == [] then [] else (if ids[0] == id then [] else [ids[0]]) + Except(ids[1..], id)
  }

  /** Joins an organization: the employers as they then stand, and what was sent. */
  function Attached(employers: Employers, org: int): (Employers, Option<seq<int>>) {
    if org in Ids(employers) then (employers, None) else (Some(Ids(employers) + [org]), Some(Ids(employers) + [org]))
  }

  /** Leaves an organization. */
  function Detached(employers: Employers, org: int): (Employers, Option<seq<int>>) {
    if org !in Ids(employers) then (employers, None) else (Some(Except(Ids(employers), org)), Some(Except(Ids(employers), org)))
  }

  lemma {:induction false} ExceptKeepsTheRest(ids: seq<int>, id: int)
    ensures forall x :: x in Except(ids, id) <==> x in ids && x != id
    ensures id !in ids ==> Except(ids, id) == ids
  {
    if ids != [] {
      assert ids == [ids[0]] + ids[1..];
      ExceptKeepsTheRest(ids[1..], id);
    }
  }

  lemma {:induction false} ExceptTheLast(ids: seq<int>, id: int)
    requires id !in ids
    ensures Except(ids + [id], id) == ids
  {
    if ids == [] {
      assert ids + [id] == [id] && [id][1..] == [];
    } else {
      assert (ids + [id])[1..] == ids[1..] + [id];
      assert ids[0] in ids && forall x :: x in ids[1..] ==> x in ids;
      ExceptTheLast(ids[1..], id);
    }
  }

  /** Joining adds the one organization and leaving removes it, the others kept
      in order; each sends what then stands, and nothing the second time; and
      leaving a company just joined restores the list. */
  lemma EmployerLinkLaws(employers: Employers, org: int)
    ensures var joined := Attached(employers, org);
      && (forall x :: x in Ids(joined.0) <==> x in Ids(employers) || x == org)
      && Ids(employers) <= Ids(joined.0)
      && (joined.1.Some? <==> org !in Ids(employers)) && (joined.1.Some? ==> joined.0 == Some(joined.1.value))
      && Attached(joined.0, org) == (joined.0, None)
      && (org !in Ids(employers) ==> Ids(Detached(joined.0, org).0) == Ids(employers))
    ensures var left := Detached(employers, org);
      && (forall x :: x in Ids(left.0) <==> x in Ids(employers) && x != org)
      && (left.1.Some? <==> org in Ids(employers)) && (left.1.Some? ==> left.0 == Some(left.1.value))
      && Detached(left.0, org) == (left.0, None)
      && forall x :: x in Ids(Attached(left.0, org).0) <==> x in Ids(employers) || x == org
  {
    ExceptKeepsTheRest(Ids(employers), org);
    if org !in Ids(employers) {
      ExceptTheLast(Ids(employers), org);
    }
  }

  // ── Value rows ─────────────────────────────────────────────────────────

  /** A reference row's value: a record's id, several, or nothing. */
  datatype Value = Nothing | One(id: int) | Several(ids: seq<int>)

  /** Where a reference field sits: on an entity, or on a list entry, which stands
      for an entity. */
  datatype Holder = Entity(isOrg: bool, entityId: int) | ListEntry(entryId: int, isOrg: bool, entityId: int)

  /** A reference field: whether it may hold several rows. */
  datatype Field = Field(id: int, multiple: bool)

  datatype ValueRow = ValueRow(id: int, fieldId: int, isOrg: bool, entityId: int, entry: Option<int>, value: Value)

  predicate Includes(value: Value, id: int) {
    match value
    case Nothing => false
    case One(x) => x == id
    case Several(xs) => id in xs
  }

  /** A row of this field that is the holder's: for an entity, none of its entries'. */
  predicate On(row: ValueRow, holder: Holder, field: Field) {
    row.fieldId == field.id && match holder
    case Entity(isOrg, id) => row.isOrg == isOrg && row.entityId == id && row.entry.None?
    case ListEntry(entry, _, _) => row.entry == Some(entry)
  }

  predicate Pointing(row: ValueRow, holder: Holder, field: Field, target: int) {
    On(row, holder, field) && Includes(row.value, target)
  }

  function RowsOn(rows: seq<ValueRow>, holder: Holder, field: Field): seq<ValueRow> {
    if rows == [] then [] else (if On(rows[0], holder, field) then [rows[0]] else []) + RowsOn(rows[1..], holder, field)
  }

  function PointingRows(rows: seq<ValueRow>, holder: Holder, field: Field, target: int): seq<ValueRow> {
    if rows == [] then []
    else (if Pointing(rows[0], holder, field, target) then [rows[0]] else []) + PointingRows(rows[1..], holder, field, target)
  }

  /** The records a holder's field points at. */
  ghost predicate Targets(rows: seq<ValueRow>, holder: Holder, field: Field, id: int) {
    exists row :: row in rows && Pointing(row, holder, field, id)
  }

  /** Rows are named by their ids. */
  predicate DistinctRows(rows: seq<ValueRow>) {
    forall i, j :: 0 <= i < j < |rows| ==> rows[i].id != rows[j].id
  }

  lemma {:induction false} RowsOnAre(rows: seq<ValueRow>, holder: Holder, field: Field)
    ensures forall r :: r in RowsOn(rows, holder, field) <==> r in rows && On(r, holder, field)
  {
    if rows != [] {
      assert rows == [rows[0]] + rows[1..];
      RowsOnAre(rows[1..], holder, field);
    }
  }

  lemma {:induction false} PointingRowsAre(rows: seq<ValueRow>, holder: Holder, field: Field, target: int)
    ensures forall r :: r in PointingRows(rows, holder, field, target) <==> r in rows && Pointing(r, holder, field, target)
  {
    if rows != [] {
      assert rows == [rows[0]] + rows[1..];
      PointingRowsAre(rows[1..], holder, field, target);
    }
  }

  function WithoutId(rows: seq<ValueRow>, id: int): seq<ValueRow> {
    if rows == [] then [] else (if rows[0].id == id then [] else [rows[0]]) + WithoutId(rows[1..], id)
  }

  function WithValue(rows: seq<ValueRow>, id: int, value: Value): seq<ValueRow> {
    if rows == [] then []
    else [if rows[0].id == id then rows[0].(value := value) else rows[0]] + WithValue(rows[1..], id, value)
  }

  function NewRow(id: int, holder: Holder, field: Field, target: int): ValueRow {
    ValueRow(id, field.id, holder.isOrg, holder.entityId, if holder.ListEntry? then Some(holder.entryId) else None, One(target))
  }

  /** The rows after a field is pointed at a record. */
  function Asserted(rows: seq<ValueRow>, newId: int, holder: Holder, field: Field, target: int): seq<ValueRow> {
    var existing := RowsOn(rows, holder, field);
    if PointingRows(rows, holder, field, target) != [] then rows
    else if !field.multiple && existing != [] then WithValue(rows, existing[0].id, One(target))
    else rows + [NewRow(newId, holder, field, target)]
  }

  /** The rows, the id Affinity gives the next, and how many writes were sent. */
  datatype Table = Table(rows: seq<ValueRow>, nextId: int, sent: nat)

  predicate AddsARow(rows: seq<ValueRow>, holder: Holder, field: Field, target: int) {
    PointingRows(rows, holder, field, target) == [] && (field.multiple || RowsOn(rows, holder, field) == [])
  }

  function Pointed(t: Table, holder: Holder, field: Field, target: int): Table {
    Table(
      Asserted(t.rows, t.nextId, holder, field, target),
      if AddsARow(t.rows, holder, field, target) then t.nextId + 1 else t.nextId,
      if PointingRows(t.rows, holder, field, target) == [] then t.sent + 1 else t.sent)
  }

  /** The rows after a field stops pointing at a record. */
  function Severed(rows: seq<ValueRow>, holder: Holder, field: Field, target: int): seq<ValueRow> {
    if rows == [] then []
    else (if Pointing(rows[0], holder, field, target) then [] else [rows[0]]) + Severed(rows[1..], holder, field, target)
  }

  // ── The workspace's rows, changed in place ─────────────────────────────

  class Workspace {
    var rows: seq<ValueRow>
    var nextId: int
    /** How many writes have been sent. */
    var sent: nat

    /** Affinity gives each row an id of its own. */
    predicate Valid()
      reads this
    {
      DistinctRows(rows) && forall r :: r in rows ==> r.id < nextId
    }

    function State(): Table
      reads this
    {
      Table(rows, nextId, sent)
    }

    constructor ()
      ensures Valid() && rows == [] && sent == 0
    {
      rows, nextId, sent := [], 1, 0;
    }

    method CreateFieldValue(holder: Holder, field: Field, target: int)
      requires Valid()
      modifies this
      ensures Valid() && rows == old(rows) + [NewRow(old(nextId), holder, field, target)]
      ensures nextId == old(nextId) + 1 && sent == old(sent) + 1
    {
      rows := rows + [NewRow(nextId, holder, field, target)];
      nextId, sent := nextId + 1, sent + 1;
    }

    method UpdateFieldValue(id: int, value: Value)
      requires Valid()
      modifies this`rows, this`sent
      ensures Valid() && rows == WithValue(old(rows), id, value) && sent == old(sent) + 1
    {
      UpdateKeepsIds(rows, id, value);
      rows := WithValue(rows, id, value);
      sent := sent + 1;
    }

    method DeleteFieldValue(id: int)
      requires Valid()
      modifies this`rows, this`sent
      ensures Valid() && rows == WithoutId(old(rows), id) && sent == old(sent) + 1
    {
      DeleteKeepsDistinct(rows, id);
      rows := WithoutId(rows, id);
      sent := sent + 1;
    }

    /** Points a holder's field at a record; sends nothing where it points there. */
    method AssertCustomReference(holder: Holder, field: Field, target: int) returns (made: bool)
      requires Valid()
      modifies this
      ensures Valid() && State() == Pointed(old(State()), holder, field, target)
      ensures made <==> PointingRows(old(rows), holder, field, target) == []
    {
      var existing := RowsOn(rows, holder, field);
      if PointingRows(rows, holder, field, target) != [] {
        return false;
      }
      if !field.multiple && existing != [] {
        UpdateFieldValue(existing[0].id, One(target));
      } else {
        CreateFieldValue(holder, field, target);
      }
      return true;
    }

    /** Stops a holder's field pointing at a record: the rows naming it go. */
    method SeverCustomReference(holder: Holder, field: Field, target: int) returns (removed: bool)
      requires Valid()
      modifies this`rows, this`sent
      ensures Valid() && rows == Severed(old(rows), holder, field, target)
      ensures removed <==> PointingRows(old(rows), holder, field, target) != []
      ensures sent == old(sent) + |PointingRows(old(rows), holder, field, target)|
    {
      var pointing := PointingRows(rows, holder, field, target);
      DeletedAllIsSevered(rows, holder, field, target);
      DeleteEach(pointing);
      removed := pointing != [];
    }

    method DeleteEach(gone: seq<ValueRow>)
      requires Valid()
      modifies this`rows, this`sent
      ensures Valid() && rows == WithoutIds(old(rows), gone) && sent == old(sent) + |gone|
    {
      for i := 0 to |gone|
        invariant Valid() && rows == WithoutIds(old(rows), gone[..i]) && sent == old(sent) + i
      {
        assert gone[..i + 1][..i] == gone[..i];
        DeleteFieldValue(gone[i].id);
      }
      assert gone[..|gone|] == gone;
    }
  }

  function WithoutIds(rows: seq<ValueRow>, gone: seq<ValueRow>): seq<ValueRow> {
    if gone == [] then rows else WithoutId(WithoutIds(rows, gone[..|gone| - 1]), gone[|gone| - 1].id)
  }

  lemma {:induction false} UpdateKeepsIds(rows: seq<ValueRow>, id: int, value: Value)
    ensures |WithValue(rows, id, value)| == |rows|
    ensures forall i :: 0 <= i < |rows| ==>
      WithValue(rows, id, value)[i] == if rows[i].id == id then rows[i].(value := value) else rows[i]
  {
    if rows != [] {
      UpdateKeepsIds(rows[1..], id, value);
    }
  }

  lemma {:induction false} DeleteKeepsDistinct(rows: seq<ValueRow>, id: int)
    requires DistinctRows(rows)
    ensures DistinctRows(WithoutId(rows, id)) && forall r :: r in WithoutId(rows, id) <==> r in rows && r.id != id
  {
    if rows != [] {
      assert rows == [rows[0]] + rows[1..];
      DeleteKeepsDistinct(rows[1..], id);
      forall r | r in rows[1..]
        ensures r.id != rows[0].id
      {
        var i :| 0 <= i < |rows[1..]| && rows[1..][i] == r;
        assert rows[i + 1] == r;
      }
    }
  }

  /** Filtering by a set of ids, which deleting one id after another comes to. */
  function Outside(rows: seq<ValueRow>, ids: set<int>): seq<ValueRow> {
    if rows == [] then [] else (if rows[0].id in ids then [] else [rows[0]]) + Outside(rows[1..], ids)
  }

  function IdsOf(rows: seq<ValueRow>): set<int> {
    set r | r in rows :: r.id
  }

  lemma {:induction false} OneMoreOutside(rows: seq<ValueRow>, ids: set<int>, id: int)
    ensures WithoutId(Outside(rows, ids), id) == Outside(rows, ids + {id})
  {
    if rows != [] {
      var rest := Outside(rows[1..], ids);
      OneMoreOutside(rows[1..], ids, id);
      if rows[0].id in ids {
        assert Outside(rows, ids) == rest;
      } else {
        assert ([rows[0]] + rest)[1..] == rest;
      }
    }
  }

  lemma {:induction false} OutsideNothing(rows: seq<ValueRow>)
    ensures Outside(rows, {}) == rows
  {
    if rows != [] {
      OutsideNothing(rows[1..]);
    }
  }

  lemma {:induction false} DeletedIsOutside(rows: seq<ValueRow>, gone: seq<ValueRow>)
    ensures WithoutIds(rows, gone) == Outside(rows, IdsOf(gone))
  {
    if gone == [] {
      OutsideNothing(rows);
      assert IdsOf(gone) == {};
    } else {
      var front, last := gone[..|gone| - 1], gone[|gone| - 1];
      DeletedIsOutside(rows, front);
      OneMoreOutside(rows, IdsOf(front), last.id);
      assert gone == front + [last];
      assert IdsOf(gone) == IdsOf(front) + {last.id};
    }
  }

  lemma {:induction false} SeveredIsOutside(rows: seq<ValueRow>, holder: Holder, field: Field, target: int, ids: set<int>)
    requires forall r :: r in rows ==> (r.id in ids <==> Pointing(r, holder, field, target))
    ensures Outside(rows, ids) == Severed(rows, holder, field, target)
  {
    if rows != [] {
      assert rows[0] in rows && forall r :: r in rows[1..] ==> r in rows;
      SeveredIsOutside(rows[1..], holder, field, target, ids);
    }
  }

  lemma SameRow(rows: seq<ValueRow>, a: ValueRow, b: ValueRow)
    requires DistinctRows(rows) && a in rows && b in rows && a.id == b.id
    ensures a == b
  {
    var i :| 0 <= i < |rows| && rows[i] == a;
    var j :| 0 <= j < |rows| && rows[j] == b;
  }

  /** Deleting the pointing rows one by one leaves every other row as it was. */
  lemma DeletedAllIsSevered(rows: seq<ValueRow>, holder: Holder, field: Field, target: int)
    requires DistinctRows(rows)
    ensures WithoutIds(rows, PointingRows(rows, holder, field, target)) == Severed(rows, holder, field, target)
  {
    var gone := PointingRows(rows, holder, field, target);
    PointingRowsAre(rows, holder, field, target);
    DeletedIsOutside(rows, gone);
    forall r | r in rows
      ensures r.id in IdsOf(gone) <==> Pointing(r, holder, field, target)
    {
      if r.id in IdsOf(gone) {
        var g :| g in gone && g.id == r.id;
        SameRow(rows, g, r);
      }
    }
    SeveredIsOutside(rows, holder, field, target, IdsOf(gone));
  }

  // ── What a link and an unlink come to ──────────────────────────────────

  lemma {:induction false} SeveredAre(rows: seq<ValueRow>, holder: Holder, field: Field, target: int)
    ensures forall r :: r in Severed(rows, holder, field, target) <==> r in rows && !Pointing(r, holder, field, target)
    ensures PointingRows(rows, holder, field, target) == [] ==> Severed(rows, holder, field, target) == rows
  {
    if rows != [] {
      assert rows == [rows[0]] + rows[1..];
      SeveredAre(rows[1..], holder, field, target);
    }
  }

  lemma PointsIff(rows: seq<ValueRow>, holder: Holder, field: Field, target: int)
    ensures PointingRows(rows, holder, field, target) != [] <==> Targets(rows, holder, field, target)
  {
    var pointing := PointingRows(rows, holder, field, target);
    PointingRowsAre(rows, holder, field, target);
    assert pointing != [] ==> pointing[0] in pointing;
  }

  lemma {:induction false} WithValueAre(rows: seq<ValueRow>, held: ValueRow, value: Value)
    requires DistinctRows(rows) && held in rows
    ensures forall r :: r in WithValue(rows, held.id, value) <==> (r in rows && r != held) || r == held.(value := value)
  {
    var after := WithValue(rows, held.id, value);
    UpdateKeepsIds(rows, held.id, value);
    forall r | r in after
      ensures (r in rows && r != held) || r == held.(value := value)
    {
      var i :| 0 <= i < |after| && after[i] == r;
      if rows[i].id == held.id {
        SameRow(rows, rows[i], held);
      }
    }
    forall r | (r in rows && r != held) || r == held.(value := value)
      ensures r in after
    {
      var was := if r in rows && r != held then r else held;
      var i :| 0 <= i < |rows| && rows[i] == was;
      if was.id == held.id {
        SameRow(rows, was, held);
      }
      assert after[i] == r;
    }
  }

  /** The row a new target takes the place of, where the field holds one row. */
  predicate Replaces(rows: seq<ValueRow>, holder: Holder, field: Field, target: int, row: ValueRow) {
    && PointingRows(rows, holder, field, target) == [] && !field.multiple
    && RowsOn(rows, holder, field) != [] && row == RowsOn(rows, holder, field)[0]
  }

  /** Pointing a field at a record adds that one target. A field of several rows
      keeps its others, and so does every other holder and field; a field of one
      row gives up what its row held. */
  lemma AssertAddsTheTarget(rows: seq<ValueRow>, newId: int, holder: Holder, field: Field, target: int, r: ValueRow)
    requires DistinctRows(rows)
    ensures var after := Asserted(rows, newId, holder, field, target);
      && Targets(after, holder, field, target)
      && (r in rows && !Replaces(rows, holder, field, target, r) ==> r in after)
      && (r in after && r !in rows ==> On(r, holder, field) && r.value == One(target))
      && Asserted(after, newId + 1, holder, field, target) == after
  {
    var after := Asserted(rows, newId, holder, field, target);
    PointsIff(rows, holder, field, target);
    if Targets(rows, holder, field, target) {
    } else {
      var row := NewRow(newId, holder, field, target);
      if !field.multiple && RowsOn(rows, holder, field) != [] {
        var first := RowsOn(rows, holder, field)[0];
        RowsOnAre(rows, holder, field);
        assert first in RowsOn(rows, holder, field);
        WithValueAre(rows, first, One(target));
        row := first.(value := One(target));
      }
      assert row in after && Pointing(row, holder, field, target);
    }
    PointsIff(after, holder, field, target);
  }

  /** No row of a field of several rows is replaced, and none of another holder or field. */
  lemma ReplacesOnlyItsOwnRow(rows: seq<ValueRow>, holder: Holder, field: Field, target: int, r: ValueRow)
    requires Replaces(rows, holder, field, target, r)
    ensures !field.multiple && On(r, holder, field) && r in rows && !Includes(r.value, target)
  {
    RowsOnAre(rows, holder, field);
    assert r in RowsOn(rows, holder, field);
    PointingRowsAre(rows, holder, field, target);
    assert Pointing(r, holder, field, target) ==> r in PointingRows(rows, holder, field, target);
  }

  /** The rows naming a record are all that unlinking it drops; unlinking again
      drops nothing. */
  lemma SeverDropsTheTarget(rows: seq<ValueRow>, holder: Holder, field: Field, target: int)
    ensures var after := Severed(rows, holder, field, target);
      && !Targets(after, holder, field, target)
      && (forall r :: r in after <==> r in rows && !Pointing(r, holder, field, target))
      && Severed(after, holder, field, target) == after && PointingRows(after, holder, field, target) == []
  {
    var after := Severed(rows, holder, field, target);
    SeveredAre(rows, holder, field, target);
    PointsIff(after, holder, field, target);
    SeveredAre(after, holder, field, target);
  }

  /** Another record is still pointed at after an unlink if and only if some row
      that does not name the unlinked one names it: always, where each row holds
      one id. */
  lemma OtherTargetSurvivesIff(rows: seq<ValueRow>, holder: Holder, field: Field, target: int, other: int)
    requires Targets(rows, holder, field, other) && other != target
    ensures Targets(Severed(rows, holder, field, target), holder, field, other)
      <==> exists r :: r in rows && Pointing(r, holder, field, other) && !Includes(r.value, target)
    ensures (forall r :: r in rows && On(r, holder, field) ==> !r.value.Several?) ==>
      Targets(Severed(rows, holder, field, target), holder, field, other)
  {
    SeveredAre(rows, holder, field, target);
  }

  lemma {:induction false} SeveredAppend(rows: seq<ValueRow>, row: ValueRow, holder: Holder, field: Field, target: int)
    requires PointingRows(rows, holder, field, target) == [] && Pointing(row, holder, field, target)
    ensures Severed(rows + [row], holder, field, target) == rows
  {
    if rows == [] {
      assert rows + [row] == [row] && [row][1..] == [];
      assert Severed([row], holder, field, target) == Severed([], holder, field, target);
    } else {
      assert (rows + [row])[1..] == rows[1..] + [row];
      SeveredAppend(rows[1..], row, holder, field, target);
    }
  }

  /** One field of one holder: a record by its kind and id, an entry by its own. */
  predicate SamePlace(holder: Holder, field: Field, other: Holder, elsewhere: Field) {
    field.id == elsewhere.id && match holder
    case Entity(isOrg, id) => other.Entity? && other.isOrg == isOrg && other.entityId == id
    case ListEntry(entry, _, _) => other.ListEntry? && other.entryId == entry
  }

  /** A row is on one field of one holder, and a new row on the one it is for. */
  lemma OnOnePlace(row: ValueRow, holder: Holder, field: Field, other: Holder, elsewhere: Field)
    requires On(row, holder, field)
    ensures On(row, other, elsewhere) <==> SamePlace(holder, field, other, elsewhere)
  {
  }

  /** A link and an unlink move no target of any other field or holder. */
  lemma NothingElseMoves(rows: seq<ValueRow>, newId: int, holder: Holder, field: Field, target: int, other: Holder, elsewhere: Field, id: int)
    requires DistinctRows(rows) && !SamePlace(holder, field, other, elsewhere)
    ensures Targets(Asserted(rows, newId, holder, field, target), other, elsewhere, id) <==> Targets(rows, other, elsewhere, id)
    ensures Targets(Severed(rows, holder, field, target), other, elsewhere, id) <==> Targets(rows, other, elsewhere, id)
  {
    var asserted, severed := Asserted(rows, newId, holder, field, target), Severed(rows, holder, field, target);
    SeveredAre(rows, holder, field, target);
    forall r: ValueRow | Pointing(r, other, elsewhere, id)
      ensures !On(r, holder, field)
      ensures r in asserted <==> r in rows
    {
      NotOnOther(r, holder, field, other, elsewhere);
      StandsBeside(rows, newId, holder, field, target, r);
    }
  }

  lemma NotOnOther(row: ValueRow, holder: Holder, field: Field, other: Holder, elsewhere: Field)
    requires On(row, other, elsewhere) && !SamePlace(holder, field, other, elsewhere)
    ensures !On(row, holder, field)
  {
    if On(row, holder, field) {
      OnOnePlace(row, holder, field, other, elsewhere);
    }
  }

  /** A row of another place stands as it was. */
  lemma StandsBeside(rows: seq<ValueRow>, newId: int, holder: Holder, field: Field, target: int, r: ValueRow)
    requires DistinctRows(rows) && !On(r, holder, field)
    ensures r in Asserted(rows, newId, holder, field, target) <==> r in rows
  {
    var existing := RowsOn(rows, holder, field);
    RowsOnAre(rows, holder, field);
    OnItself(newId, holder, field, target);
    if PointingRows(rows, holder, field, target) == [] && !field.multiple && existing != [] {
      assert existing[0] in existing;
      WithValueAre(rows, existing[0], One(target));
    }
  }

  lemma OnItself(id: int, holder: Holder, field: Field, target: int)
    ensures On(NewRow(id, holder, field, target), holder, field)
  {
  }

  /** Unlinking what was just linked restores the rows, to the row, if and only if
      the link did not take the place of another. */
  lemma UnlinkUndoesLinkIff(rows: seq<ValueRow>, newId: int, holder: Holder, field: Field, target: int)
    requires DistinctRows(rows) && !Targets(rows, holder, field, target)
    ensures Severed(Asserted(rows, newId, holder, field, target), holder, field, target) == rows
      <==> field.multiple || RowsOn(rows, holder, field) == []
  {
    PointsIff(rows, holder, field, target);
    if field.multiple || RowsOn(rows, holder, field) == [] {
      SeveredAppend(rows, NewRow(newId, holder, field, target), holder, field, target);
    } else {
      var first := RowsOn(rows, holder, field)[0];
      ReplacesOnlyItsOwnRow(rows, holder, field, target, first);
      WithValueAre(rows, first, One(target));
      SeveredAre(WithValue(rows, first.id, One(target)), holder, field, target);
      assert first !in Severed(Asserted(rows, newId, holder, field, target), holder, field, target);
    }
  }

  lemma {:induction false} NoneOn(rows: seq<ValueRow>, holder: Holder, field: Field)
    requires forall r :: r in rows ==> !On(r, holder, field)
    ensures RowsOn(rows, holder, field) == []
  {
    if rows != [] {
      assert rows[0] in rows && forall r :: r in rows[1..] ==> r in rows;
      NoneOn(rows[1..], holder, field);
    }
  }

  /** Linking again what was unlinked restores the targets, where each row holds
      one id and, of a field of one row, there was no other. */
  lemma LinkUndoesUnlink(rows: seq<ValueRow>, newId: int, holder: Holder, field: Field, target: int, id: int)
    requires DistinctRows(rows) && Targets(rows, holder, field, target)
    requires forall r :: r in rows && On(r, holder, field) ==> !r.value.Several?
    requires field.multiple || forall r :: r in rows && On(r, holder, field) ==> Includes(r.value, target)
    ensures Targets(Asserted(Severed(rows, holder, field, target), newId, holder, field, target), holder, field, id)
      <==> Targets(rows, holder, field, id)
  {
    var left := Severed(rows, holder, field, target);
    SeverDropsTheTarget(rows, holder, field, target);
    if !field.multiple {
      NoneOn(left, holder, field);
    }
    var back := Asserted(left, newId, holder, field, target);
    var row := NewRow(newId, holder, field, target);
    assert back == left + [row];
    assert row in back && Pointing(row, holder, field, target);
    if id != target && Targets(rows, holder, field, id) {
      OtherTargetSurvivesIff(rows, holder, field, target, id);
      var r :| r in left && Pointing(r, holder, field, id);
      assert r in back;
    }
    if id != target && Targets(back, holder, field, id) {
      var r :| r in back && Pointing(r, holder, field, id);
      assert r in left;
    }
  }
}
