/**
 A changed row of Airtable's feed, rebuilt as it was and as it is from the diff
 an edit tells, and the names of what changed.
 */
module ChangeFeed {
  import opened Options
  import opened CellReading
  import opened JsObjects
  import opened RowNaming
  import opened Sequences
  import opened StableJsonText

  datatype Field = Field(id: string, name: string, kind: Option<string>)

  function FieldOf(fields: seq<Field>, id: string): Option<Field> {
    if fields == [] then None else if fields[0].id == id then Some(fields[0]) else FieldOf(fields[1..], id)
  }

  /** A cell goes by its field's name, or by the field's id where the field is unknown. */
  function NameOf(fields: seq<Field>, id: string): string {
    if FieldOf(fields, id).Some? then FieldOf(fields, id).value.name else id
  }

  function ReadAs(fields: seq<Field>, id: string, value: Json): Json {
    ReadCell(value, if FieldOf(fields, id).Some? then FieldOf(fields, id).value.kind else None)
  }

  function Names(fields: seq<Field>): Naming {
    (id: string) => NameOf(fields, id)
  }

  function Reads(fields: seq<Field>): Reader {
    (id: string, value: Json) => ReadAs(fields, id, value)
  }

  // ── Empty cells ────────────────────────────────────────────────────────

  const LIST_KINDS := {"multipleSelects", "multipleCollaborators", "multipleAttachments", "multipleLookupValues",
                       "lookup", "multipleRecordLinks"}

  /** The value an absent cell of this kind stands for, if it stands for one. */
  function EmptyCell(kind: Option<string>): Option<Json> {
    if kind == Some("checkbox") then Some(Bool(false))
    else if kind.Some? && kind.value in LIST_KINDS then Some(Array([]))
    else None
  }

  /** The row with each left-out cell put back, but one the object already finds
      under its name, its own or inherited. */
  function Filled(cells: Row, fields: seq<Field>): Row {
    if fields == [] then cells
    else
      var last, filled := fields[|fields| - 1], Filled(cells, fields[..|fields| - 1]);
      if EmptyCell(last.kind).Some? && last.name !in filled && last.name !in INHERITED
      then filled[last.name := EmptyCell(last.kind).value]
      else filled
  }

  method WithEmptyCells(cells: Row, fields: seq<Field>) returns (filled: Row)
    ensures filled == Filled(cells, fields)
  {
    filled := cells;
    for i := 0 to |fields|
      invariant filled == Filled(cells, fields[..i])
    {
      var empty := EmptyCell(fields[i].kind);
      assert fields[..i + 1][..i] == fields[..i];
      if empty.Some? && fields[i].name !in filled && fields[i].name !in INHERITED {
        filled := filled[fields[i].name := empty.value];
      }
    }
    assert fields[..|fields|] == fields;
  }

  // ── An edit ────────────────────────────────────────────────────────────

  /** A row's edit as a payload tells it: cells by field id. */
  datatype Edit = Edit(same: seq<Member>, current: seq<Member>, previous: seq<Member>)

  datatype Rows = Rows(current: Option<Row>, previous: Option<Row>, changed: seq<string>)

  /** The names of an update's cells, old and new, that the object of the
      unchanged cells does not find. */
  function Changed(edit: Edit, name: Naming, read: Reader): seq<string> {
    Outside(Union(Named(edit.current, name, read).keys, Named(edit.previous, name, read).keys), Named(edit.same, name, read))
  }

  function UpdatedRows(edit: Edit, fields: seq<Field>): Rows {
    var name, read := Names(fields), Reads(fields);
    var same := Named(edit.same, name, read).own;
    Rows(
      Some(Filled(same + Named(edit.current, name, read).own, fields)),
      Some(Filled(same + Named(edit.previous, name, read).own, fields)),
      Changed(edit, name, read))
  }

  function CreatedRows(cells: seq<Member>, fields: seq<Field>): Rows {
    var current := Named(cells, Names(fields), Reads(fields));
    Rows(Some(Filled(current.own, fields)), None, current.keys)
  }

  // ── What a row reads as ────────────────────────────────────────────────

  predicate DistinctIds(fields: seq<Field>) {
    forall i, j :: 0 <= i < j < |fields| ==> fields[i].id != fields[j].id
  }

  function FieldIds(fields: seq<Field>): set<string> {
    set f | f in fields :: f.id
  }

  /** The table's fields are as Airtable keeps them (one by each id), and no two
      of them, or of these cells' fields, go by one name. */
  ghost predicate Unambiguous(fields: seq<Field>, ids: set<string>) {
    DistinctIds(fields) && FieldIds(fields) <= ids && Injective(Names(fields), ids)
  }

  /** A field whose absent cell stands for a value. */
  predicate Restored(fields: seq<Field>, row: Cells, f: Field) {
    f in fields && f.id !in row && EmptyCell(f.kind).Some?
  }

  /** The row read by name, with empty cells restored, and nothing besides. */
  ghost predicate IsRead(data: Row, row: Cells, fields: seq<Field>) {
    && (forall id :: id in row ==> NameOf(fields, id) in data && data[NameOf(fields, id)] == ReadAs(fields, id, row[id]))
    && (forall f :: Restored(fields, row, f) ==> f.name in data && data[f.name] == EmptyCell(f.kind).value)
    && (forall n :: n in data ==> (exists id :: id in row && NameOf(fields, id) == n) || (exists f :: Restored(fields, row, f) && f.name == n))
  }

  lemma {:induction false} FieldOfMisses(fields: seq<Field>, id: string)
    requires forall f :: f in fields ==> f.id != id
    ensures FieldOf(fields, id).None?
  {
    if fields != [] {
      assert fields[0] in fields && forall f :: f in fields[1..] ==> f in fields;
      FieldOfMisses(fields[1..], id);
    }
  }

  /** In a row's reading each cell of a known field goes by the field's name and is
      read as of its kind, and one of an unknown field by its id, of no kind. */
  lemma CellsReadByTheirFields(data: Row, row: Cells, fields: seq<Field>, id: string)
    requires IsRead(data, row, fields) && DistinctIds(fields) && id in row
    ensures forall f :: f in fields && f.id == id ==> f.name in data && data[f.name] == ReadCell(row[id], f.kind)
    ensures (forall f :: f in fields ==> f.id != id) ==> id in data && data[id] == ReadCell(row[id], None)
  {
    assert NameOf(fields, id) in data && data[NameOf(fields, id)] == ReadAs(fields, id, row[id]);
    forall f | f in fields && f.id == id
      ensures f.name in data && data[f.name] == ReadCell(row[id], f.kind)
    {
      FieldOfFinds(fields, f);
    }
    if forall f :: f in fields ==> f.id != id {
      FieldOfMisses(fields, id);
    }
  }

  /** In a row's reading an unchecked box left out is false, and an empty list of
      each kind `[]`; a field of any other kind left out is not there. */
  lemma LeftOutCellsRead(data: Row, row: Cells, fields: seq<Field>, ids: set<string>, f: Field)
    requires IsRead(data, row, fields) && Unambiguous(fields, ids) && row.Keys <= ids
    requires f in fields && f.id !in row
    ensures f.kind == Some("checkbox") ==> f.name in data && data[f.name] == Bool(false)
    ensures f.kind in {Some("multipleSelects"), Some("multipleCollaborators"), Some("multipleAttachments"),
                       Some("multipleRecordLinks"), Some("multipleLookupValues"), Some("lookup")} ==>
      f.name in data && data[f.name] == Array([])
    ensures f.name in data ==> f.kind in {Some("checkbox"), Some("multipleSelects"), Some("multipleCollaborators"),
      Some("multipleAttachments"), Some("multipleRecordLinks"), Some("multipleLookupValues"), Some("lookup")}
  {
    if EmptyCell(f.kind).Some? {
      assert Restored(fields, row, f);
    } else if f.name in data {
      NamesOneField(row, fields, ids, f);
    }
  }

  /** A left-out field that stands for no value shares its name with none in the
      row and none put back. */
  lemma NamesOneField(row: Cells, fields: seq<Field>, ids: set<string>, f: Field)
    requires Unambiguous(fields, ids) && row.Keys <= ids && f in fields && f.id !in row
    ensures forall id :: id in row ==> NameOf(fields, id) != f.name
    ensures forall g :: Restored(fields, row, g) && g.name == f.name ==> g == f
  {
    OwnName(fields, f);
    forall id | id in row
      ensures NameOf(fields, id) != f.name
    {
      assert NamedApart(Names(fields), id, f.id);
    }
    forall g | Restored(fields, row, g) && g.name == f.name
      ensures g == f
    {
      OneByName(fields, ids, f, g);
    }
  }

  /** Only one data is a row's reading. */
  lemma ReadingIsUnique(a: Row, b: Row, row: Cells, fields: seq<Field>)
    requires IsRead(a, row, fields) && IsRead(b, row, fields)
    ensures a == b
  {
    ReadingWithin(a, b, row, fields);
    ReadingWithin(b, a, row, fields);
  }

  lemma ReadingWithin(a: Row, b: Row, row: Cells, fields: seq<Field>)
    requires IsRead(a, row, fields) && IsRead(b, row, fields)
    ensures forall n :: n in a ==> n in b && a[n] == b[n]
  {
    forall n | n in a
      ensures n in b && a[n] == b[n]
    {
      if id :| id in row && NameOf(fields, id) == n {
      } else {
        var f :| Restored(fields, row, f) && f.name == n;
      }
    }
  }

  function Kept(before: Cells, after: Cells): Cells {
    map id | id in before && id in after && before[id] == after[id] :: before[id]
  }

  /** An edit that tells exactly how two rows differ. */
  ghost predicate IsDiff(edit: Edit, before: Cells, after: Cells) {
    && Lists(edit.same, Kept(before, after))
    && Lists(edit.current, after - Kept(before, after).Keys)
    && Lists(edit.previous, before - Kept(before, after).Keys)
  }

  // ── Filling restores the empty cells ───────────────────────────────────

  lemma {:induction false} FilledHolds(cells: Row, fields: seq<Field>)
    ensures forall n :: n in cells ==> n in Filled(cells, fields) && Filled(cells, fields)[n] == cells[n]
    ensures forall f :: f in fields && EmptyCell(f.kind).Some? && f.name !in INHERITED ==> f.name in Filled(cells, fields)
    ensures forall n :: n in Filled(cells, fields) && n !in cells ==> n !in INHERITED
    ensures forall n :: n in Filled(cells, fields) && n !in cells ==>
      exists f :: f in fields && f.name == n && EmptyCell(f.kind) == Some(Filled(cells, fields)[n])
  {
    if fields != [] {
      assert fields == fields[..|fields| - 1] + [fields[|fields| - 1]];
      FilledHolds(cells, fields[..|fields| - 1]);
    }
  }

  lemma {:induction false} FieldOfFinds(fields: seq<Field>, f: Field)
    requires DistinctIds(fields) && f in fields
    ensures FieldOf(fields, f.id) == Some(f)
  {
    var i :| 0 <= i < |fields| && fields[i] == f;
    if i > 0 {
      assert fields[1..][i - 1] == f;
      FieldOfFinds(fields[1..], f);
    }
  }

  lemma OwnName(fields: seq<Field>, f: Field)
    requires DistinctIds(fields) && f in fields
    ensures Names(fields)(f.id) == f.name && f.id in FieldIds(fields)
  {
    FieldOfFinds(fields, f);
  }

  /** A cell the row leaves out is in no other field's place. */
  lemma LeftOutStaysOut(data: Row, row: Cells, fields: seq<Field>, ids: set<string>, f: Field)
    requires Unambiguous(fields, ids) && row.Keys <= ids && Holds(data, row, Names(fields), Reads(fields))
    requires f in fields
    ensures f.id in row && f.name != PROTO ==> f.name in data
    ensures f.id !in row ==> f.name !in data
  {
    OwnName(fields, f);
    forall id | id in row && id != f.id
      ensures Names(fields)(id) != f.name
    {
      assert NamedApart(Names(fields), id, f.id);
    }
  }

  lemma OneByName(fields: seq<Field>, ids: set<string>, f: Field, g: Field)
    requires Unambiguous(fields, ids) && f in fields && g in fields && f.name == g.name
    ensures f == g
  {
    OwnName(fields, f);
    OwnName(fields, g);
    assert f.id != g.id ==> NamedApart(Names(fields), f.id, g.id);
    FieldOfFinds(fields, f);
    FieldOfFinds(fields, g);
  }

  /** What a row must be for its names to come through: no cell goes by
      `__proto__`, and no left-out cell to be restored by an inherited name. */
  ghost predicate ComesThrough(row: Cells, fields: seq<Field>) {
    && (forall id :: id in row ==> NameOf(fields, id) != PROTO)
    && (forall f :: Restored(fields, row, f) ==> f.name !in INHERITED)
  }

  lemma FilledIsRead(data: Row, row: Cells, fields: seq<Field>, ids: set<string>)
    requires Unambiguous(fields, ids) && row.Keys <= ids && Holds(data, row, Names(fields), Reads(fields))
    requires ComesThrough(row, fields)
    ensures IsRead(Filled(data, fields), row, fields)
  {
    var filled := Filled(data, fields);
    FilledHolds(data, fields);
    forall id | id in row
      ensures NameOf(fields, id) in filled && filled[NameOf(fields, id)] == ReadAs(fields, id, row[id])
    {
      assert Names(fields)(id) == NameOf(fields, id) && Reads(fields)(id, row[id]) == ReadAs(fields, id, row[id]);
    }
    forall f | Restored(fields, row, f)
      ensures f.name in filled && filled[f.name] == EmptyCell(f.kind).value
    {
      LeftOutStaysOut(data, row, fields, ids, f);
      var g :| g in fields && g.name == f.name && EmptyCell(g.kind) == Some(filled[f.name]);
      OneByName(fields, ids, f, g);
    }
    forall n | n in filled
      ensures (exists id :: id in row && NameOf(fields, id) == n) || (exists f :: Restored(fields, row, f) && f.name == n)
    {
      if n !in data {
        var f :| f in fields && f.name == n && EmptyCell(f.kind) == Some(filled[n]);
        LeftOutStaysOut(data, row, fields, ids, f);
        assert PROTO in INHERITED;
        assert Restored(fields, row, f);
      } else {
        var id :| id in row && Names(fields)(id) == n;
        assert NameOf(fields, id) == n;
      }
    }
  }

  lemma FilledIsNotRead(data: Row, row: Cells, fields: seq<Field>, ids: set<string>)
    requires Unambiguous(fields, ids) && row.Keys <= ids && Holds(data, row, Names(fields), Reads(fields))
    requires !ComesThrough(row, fields)
    ensures !IsRead(Filled(data, fields), row, fields)
  {
    var filled := Filled(data, fields);
    FilledHolds(data, fields);
    if id :| id in row && NameOf(fields, id) == PROTO {
      assert PROTO in INHERITED && PROTO !in filled;
    } else {
      var f :| Restored(fields, row, f) && f.name in INHERITED;
      LeftOutStaysOut(data, row, fields, ids, f);
      assert f.name !in filled;
    }
  }

  /** Filling restores the row's reading if and only if the row's names come through. */
  lemma FilledIsReadIff(data: Row, row: Cells, fields: seq<Field>, ids: set<string>)
    requires Unambiguous(fields, ids) && row.Keys <= ids && Holds(data, row, Names(fields), Reads(fields))
    ensures IsRead(Filled(data, fields), row, fields) <==> ComesThrough(row, fields)
  {
    if ComesThrough(row, fields) {
      FilledIsRead(data, row, fields, ids);
    } else {
      FilledIsNotRead(data, row, fields, ids);
    }
  }

  // ── Both rows, and what changed ────────────────────────────────────────

  predicate Differs(before: Cells, after: Cells, id: string) {
    (id in before || id in after) && !(id in before && id in after && before[id] == after[id])
  }

  ghost predicate NamesADifference(before: Cells, after: Cells, name: Naming, n: string) {
    exists id :: Differs(before, after, id) && name(id) == n
  }

  lemma ChangedMembers(edit: Edit, name: Naming, read: Reader)
    ensures NoRepeats(Changed(edit, name, read))
    ensures forall n :: n in Changed(edit, name, read) <==>
      (n in Named(edit.current, name, read).own || n in Named(edit.previous, name, read).own) && !Finds(Named(edit.same, name, read), n)
  {
    var current, previous := Named(edit.current, name, read).keys, Named(edit.previous, name, read).keys;
    KeysAreTheOwnNames(edit.current, name, read);
    KeysAreTheOwnNames(edit.previous, name, read);
    UnionIsBoth(current, previous);
    OutsideIsTheRest(Union(current, previous), Named(edit.same, name, read));
  }

  /** The names the object of an edit's unchanged cells inherits: what every
      object does, unless one of those cells goes by `__proto__`. */
  function LentBySame(edit: Edit, name: Naming, read: Reader): set<string> {
    Lent(Named(edit.same, name, read).prototype)
  }

  /** Whatever the names, a field that differs, and is not named `__proto__`, is
      listed as changed if and only if its name is none the unchanged cells'
      object inherits and no field that was kept goes by it. */
  lemma DifferenceIsListedIff(edit: Edit, before: Cells, after: Cells, name: Naming, read: Reader, id: string)
    requires IsDiff(edit, before, after) && Differs(before, after, id) && name(id) != PROTO
    ensures name(id) in Changed(edit, name, read)
      <==> name(id) !in LentBySame(edit, name, read) && !exists other :: other in Kept(before, after) && name(other) == name(id)
    ensures (forall other :: other in Kept(before, after) ==> name(other) != PROTO) ==> LentBySame(edit, name, read) == INHERITED
  {
    var kept, n := Kept(before, after), name(id);
    ChangedMembers(edit, name, read);
    OwnNames(edit.current, after - kept.Keys, name, read, n);
    OwnNames(edit.previous, before - kept.Keys, name, read, n);
    OwnNames(edit.same, kept, name, read, n);
    assert id in after - kept.Keys || id in before - kept.Keys;
    if forall other :: other in kept ==> name(other) != PROTO {
      PrototypeStays(edit.same, name, read);
    }
  }

  /** A field named `__proto__`, the only one, is never listed. */
  lemma ProtoIsNeverListed(edit: Edit, before: Cells, after: Cells, name: Naming, read: Reader, ids: set<string>)
    requires Injective(name, ids) && before.Keys + after.Keys <= ids && IsDiff(edit, before, after)
    ensures PROTO !in Changed(edit, name, read)
  {
    ChangedMembers(edit, name, read);
    ProtoIsNoMember(edit.current, name, read, ids);
    ProtoIsNoMember(edit.previous, name, read, ids);
  }

  lemma ListedDiffers(edit: Edit, before: Cells, after: Cells, name: Naming, read: Reader, n: string)
    requires IsDiff(edit, before, after) && n != PROTO
    ensures n in Changed(edit, name, read) ==> NamesADifference(before, after, name, n)
  {
    var kept := Kept(before, after);
    ChangedMembers(edit, name, read);
    OwnNames(edit.current, after - kept.Keys, name, read, n);
    OwnNames(edit.previous, before - kept.Keys, name, read, n);
    if id :| id in after - kept.Keys && name(id) == n {
      assert Differs(before, after, id);
    } else if id :| id in before - kept.Keys && name(id) == n {
      assert Differs(before, after, id);
    }
  }

  /** Every difference goes by a name that is not inherited. */
  ghost predicate DifferencesShow(edit: Edit, before: Cells, after: Cells, name: Naming, read: Reader) {
    forall id :: Differs(before, after, id) ==> name(id) !in LentBySame(edit, name, read)
  }

  lemma ProtoIsLent(edit: Edit, before: Cells, after: Cells, name: Naming, read: Reader, ids: set<string>, id: string)
    requires Injective(name, ids) && before.Keys + after.Keys <= ids && IsDiff(edit, before, after)
    requires Differs(before, after, id) && name(id) == PROTO
    ensures name(id) in LentBySame(edit, name, read)
  {
    forall m | m in edit.same
      ensures name(m.key) != PROTO
    {
      assert NamedApart(name, m.key, id);
    }
    PrototypeStays(edit.same, name, read);
    assert PROTO in INHERITED;
  }

  /** Under an injective naming the names listed are exactly those of the fields
      that differ, if and only if no difference goes by an inherited name. */
  lemma ChangedIsExactIff(edit: Edit, before: Cells, after: Cells, name: Naming, read: Reader, ids: set<string>)
    requires Injective(name, ids) && before.Keys + after.Keys <= ids && IsDiff(edit, before, after)
    ensures (forall n :: n in Changed(edit, name, read) <==> NamesADifference(before, after, name, n))
      <==> DifferencesShow(edit, before, after, name, read)
  {
    forall n | n in Changed(edit, name, read)
      ensures NamesADifference(before, after, name, n)
    {
      ProtoIsNeverListed(edit, before, after, name, read, ids);
      ListedDiffers(edit, before, after, name, read, n);
    }
    forall id | Differs(before, after, id)
      ensures name(id) in Changed(edit, name, read) <==> name(id) !in LentBySame(edit, name, read)
    {
      DifferenceListedIffShown(edit, before, after, name, read, ids, id);
    }
    if forall n :: n in Changed(edit, name, read) <==> NamesADifference(before, after, name, n) {
      forall id | Differs(before, after, id)
        ensures name(id) !in LentBySame(edit, name, read)
      {
        assert NamesADifference(before, after, name, name(id));
      }
    }
  }

  lemma DifferenceListedIffShown(edit: Edit, before: Cells, after: Cells, name: Naming, read: Reader, ids: set<string>, id: string)
    requires Injective(name, ids) && before.Keys + after.Keys <= ids && IsDiff(edit, before, after)
    requires Differs(before, after, id)
    ensures name(id) in Changed(edit, name, read) <==> name(id) !in LentBySame(edit, name, read)
  {
    if name(id) == PROTO {
      ProtoIsNeverListed(edit, before, after, name, read, ids);
      ProtoIsLent(edit, before, after, name, read, ids, id);
    } else {
      DifferenceIsListedIff(edit, before, after, name, read, id);
      forall other | other in Kept(before, after)
        ensures name(other) != name(id)
      {
        assert NamedApart(name, other, id);
      }
    }
  }

  lemma PartsHold(same: seq<Member>, side: seq<Member>, kept: Cells, rest: Cells, name: Naming, read: Reader, ids: set<string>)
    requires Injective(name, ids) && kept.Keys + rest.Keys <= ids && kept.Keys !! rest.Keys
    requires Lists(same, kept) && Lists(side, rest)
    ensures Holds(Named(same, name, read).own + Named(side, name, read).own, kept + rest, name, read)
  {
    var p, q := Named(same, name, read).own, Named(side, name, read).own;
    assert Holds(p, kept, name, read) by {
      NamedHolds(same, kept, name, read, ids);
    }
    assert Holds(q, rest, name, read) by {
      NamedHolds(side, rest, name, read, ids);
    }
    HoldsTogether(p, q, kept, rest, name, read, ids);
  }

  lemma Recombined(kept: Cells, row: Cells)
    requires kept.Keys <= row.Keys && forall id :: id in kept ==> kept[id] == row[id]
    ensures row == kept + (row - kept.Keys) && kept.Keys !! (row - kept.Keys).Keys
  {
  }

  lemma SideIsReadIff(same: seq<Member>, side: seq<Member>, kept: Cells, row: Cells, fields: seq<Field>, ids: set<string>)
    requires Unambiguous(fields, ids) && row.Keys <= ids
    requires kept.Keys <= row.Keys && forall id :: id in kept ==> kept[id] == row[id]
    requires Lists(same, kept) && Lists(side, row - kept.Keys)
    ensures var named := Named(same, Names(fields), Reads(fields)).own + Named(side, Names(fields), Reads(fields)).own;
      IsRead(Filled(named, fields), row, fields) <==> ComesThrough(row, fields)
  {
    Recombined(kept, row);
    PartsHold(same, side, kept, row - kept.Keys, Names(fields), Reads(fields), ids);
    FilledIsReadIff(Named(same, Names(fields), Reads(fields)).own + Named(side, Names(fields), Reads(fields)).own, row, fields, ids);
  }

  /** An update's `Previous` and `Current` are the rows before and after the edit,
      read by name with empty cells restored, each if and only if that row's names
      come through. `Changed Fields` repeats no name, and names exactly the fields
      that differ if and only if no difference goes by an inherited name. */
  lemma UpdateRebuildsBothRowsIff(edit: Edit, before: Cells, after: Cells, fields: seq<Field>)
    requires IsDiff(edit, before, after)
    requires Unambiguous(fields, before.Keys + after.Keys + FieldIds(fields))
    ensures var rows := UpdatedRows(edit, fields);
      && rows.previous.Some? && (IsRead(rows.previous.value, before, fields) <==> ComesThrough(before, fields))
      && rows.current.Some? && (IsRead(rows.current.value, after, fields) <==> ComesThrough(after, fields))
      && NoRepeats(rows.changed)
      && ((forall n :: n in rows.changed <==> NamesADifference(before, after, Names(fields), n))
          <==> DifferencesShow(edit, before, after, Names(fields), Reads(fields)))
  {
    var ids, kept := before.Keys + after.Keys + FieldIds(fields), Kept(before, after);
    var name, read := Names(fields), Reads(fields);
    SideIsReadIff(edit.same, edit.previous, kept, before, fields, ids);
    SideIsReadIff(edit.same, edit.current, kept, after, fields, ids);
    ChangedMembers(edit, name, read);
    ChangedIsExactIff(edit, before, after, name, read, ids);
  }

  /** So all three hold wherever no field goes by an inherited name. */
  lemma UpdateRebuildsBothRows(edit: Edit, before: Cells, after: Cells, fields: seq<Field>)
    requires IsDiff(edit, before, after)
    requires Unambiguous(fields, before.Keys + after.Keys + FieldIds(fields))
    requires forall id :: id in before.Keys + after.Keys + FieldIds(fields) ==> NameOf(fields, id) !in INHERITED
    ensures var rows := UpdatedRows(edit, fields);
      && rows.previous.Some? && IsRead(rows.previous.value, before, fields)
      && rows.current.Some? && IsRead(rows.current.value, after, fields)
      && NoRepeats(rows.changed)
      && forall n :: n in rows.changed <==> NamesADifference(before, after, Names(fields), n)
  {
    var name, read := Names(fields), Reads(fields);
    UpdateRebuildsBothRowsIff(edit, before, after, fields);
    assert PROTO in INHERITED;
    forall f | f in fields
      ensures f.name !in INHERITED
    {
      OwnName(fields, f);
    }
    assert DifferencesShow(edit, before, after, name, read) by {
      forall m | m in edit.same
        ensures name(m.key) != PROTO
      {
        assert m.key in before.Keys;
      }
      PrototypeStays(edit.same, name, read);
    }
  }

  /** A created row's `Current` is the row if and only if its names come through,
      and its changed fields are those it was given, but for `__proto__`. */
  lemma CreationReadsTheRowIff(cells: seq<Member>, row: Cells, fields: seq<Field>)
    requires Lists(cells, row) && Unambiguous(fields, row.Keys + FieldIds(fields))
    ensures var rows := CreatedRows(cells, fields);
      && rows.previous.None? && rows.current.Some? && (IsRead(rows.current.value, row, fields) <==> ComesThrough(row, fields))
      && NoRepeats(rows.changed)
      && forall n :: n in rows.changed <==> n != PROTO && NamesADifference(map[], row, Names(fields), n)
  {
    var ids, name, read := row.Keys + FieldIds(fields), Names(fields), Reads(fields);
    NamedHolds(cells, row, name, read, ids);
    FilledIsReadIff(Named(cells, name, read).own, row, fields, ids);
    KeysAreTheOwnNames(cells, name, read);
    ProtoIsNoMember(cells, name, read, ids);
    assert forall id :: Differs(map[], row, id) <==> id in row;
    forall n: string | n != PROTO
      ensures n in Named(cells, name, read).keys <==> NamesADifference(map[], row, name, n)
    {
      OwnNames(cells, row, name, read, n);
    }
  }

  lemma OneCell(id: string, value: Json, name: Naming, read: Reader)
    requires name(id) != PROTO
    ensures Named([Member(id, value)], name, read) == Filling(map[name(id) := read(id, value)], [name(id)], Standard)
  {
    assert [Member(id, value)][..0] == [];
  }

  /** An edit of one field by an inherited name: no field is listed. */
  lemma InheritedNameIsNotListed(id: string, was: Json, now: Json, name: Naming, read: Reader)
    requires name(id) in INHERITED && name(id) != PROTO
    ensures Changed(Edit([], [Member(id, now)], [Member(id, was)]), name, read) == []
  {
    var n := name(id);
    OneCell(id, now, name, read);
    OneCell(id, was, name, read);
    assert [n][..0] == [] && Union([n], []) == [n] && Union([n], [n]) == Add(Union([n], []), n);
    assert Outside([n], EMPTY) == Outside([n][1..], EMPTY);
  }

  /** A left-out cell by an inherited name: nothing is put back. */
  lemma InheritedNameIsNotRestored(data: Row, f: Field)
    requires f.name in INHERITED
    ensures Filled(data, [f]) == data
  {
    assert [f][..0] == [];
  }

  /** The inputs that fail, as two of them: a text edited and a box unchecked, in
      fields an Airtable user gave names that every object inherits. */
  lemma InheritedNamesAreMissed(was: Json, now: Json, data: Row, name: Naming, read: Reader)
    requires name("fldText") == "constructor"
    ensures Changed(Edit([], [Member("fldText", now)], [Member("fldText", was)]), name, read) == []
    ensures Filled(data, [Field("fldBox", "valueOf", Some("checkbox"))]) == data
  {
    assert "constructor" in INHERITED && "valueOf" in INHERITED;
    InheritedNameIsNotListed("fldText", was, now, name, read);
    InheritedNameIsNotRestored(data, Field("fldBox", "valueOf", Some("checkbox")));
  }
}
