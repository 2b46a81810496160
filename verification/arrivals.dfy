/** What arrivals one payload of Airtable's change feed turns into. */
module Arrivals {
  import opened Options
  import opened StableJsonText
  import opened RowNaming
  import opened ChangeFeed
  import Decimals

  datatype RowCells = RowCells(recordId: string, cells: seq<Member>)
  datatype RowEdit = RowEdit(recordId: string, edit: Edit)

  /** A table's changes; its metadata's new name where that changed. */
  datatype TableChanges = TableChanges(
    tableId: string,
    created: seq<RowCells>,
    changed: seq<RowEdit>,
    destroyed: seq<string>,
    metadata: Option<Option<string>>)

  datatype NewTable = NewTable(tableId: string, name: Option<string>)

  datatype Payload = Payload(
    transaction: Option<nat>,
    timestamp: Option<string>,
    changedTables: seq<TableChanges>,
    createdTables: seq<NewTable>,
    destroyedTables: seq<string>)

  datatype Context = Context(
    baseId: string,
    fieldsByTable: map<string, seq<Field>>,
    tableNames: map<string, string>,
    positioned: bool)

  datatype Kind = Created | Updated | Deleted

  /** What an arrival is told apart by: its edge and its identity. */
  datatype Mark = MarkedBy(onTables: bool, identity: string)

  datatype Arrival =
    | Change(identity: string, kind: Kind, tableId: string, table: string, recordId: string, rows: Rows)
    | Table(identity: string, key: Option<string>, tableId: string, name: Option<string>)
  {
    function Marked(): Mark { MarkedBy(Table?, identity) }
  }

  function TransactionOf(payload: Payload): string {
    if payload.transaction.Some? then Decimals.Spell(payload.transaction.value)
    else if payload.timestamp.Some? then payload.timestamp.value
    else ""
  }

  function Identity(transaction: string, id: string): string {
    transaction + ":" + id
  }

  function FieldsOf(context: Context, tableId: string): seq<Field> {
    if tableId in context.fieldsByTable then context.fieldsByTable[tableId] else []
  }

  function NameOfTable(context: Context, tableId: string): Option<string> {
    if tableId in context.tableNames then Some(context.tableNames[tableId]) else None
  }

  function RowChange(context: Context, transaction: string, tableId: string, recordId: string, kind: Kind, rows: Rows): Arrival {
    var known := NameOfTable(context, tableId);
    Change(Identity(transaction, recordId), kind, tableId, if known.Some? then known.value else tableId, recordId, rows)
  }

  function TableArrival(context: Context, transaction: string, tableId: string, name: Option<string>): Arrival {
    Table(Identity(transaction, tableId), if context.positioned then None else Some(context.baseId), tableId, name)
  }

  // ── Part by part ───────────────────────────────────────────────────────

  function OneCreated(context: Context, transaction: string, tableId: string, created: RowCells): Arrival {
    RowChange(context, transaction, tableId, created.recordId, Created, CreatedRows(created.cells, FieldsOf(context, tableId)))
  }

  function OfCreated(context: Context, transaction: string, tableId: string, created: seq<RowCells>): (r: seq<Arrival>)
    ensures |r| == |created|
  {
    seq(|created|, i requires 0 <= i < |created| => OneCreated(context, transaction, tableId, created[i]))
  }

  function OneChanged(context: Context, transaction: string, tableId: string, changed: RowEdit): Arrival {
    RowChange(context, transaction, tableId, changed.recordId, Updated, UpdatedRows(changed.edit, FieldsOf(context, tableId)))
  }

  function OfChanged(context: Context, transaction: string, tableId: string, changed: seq<RowEdit>): (r: seq<Arrival>)
    ensures |r| == |changed|
  {
    seq(|changed|, i requires 0 <= i < |changed| => OneChanged(context, transaction, tableId, changed[i]))
  }

  function OfDestroyed(context: Context, transaction: string, tableId: string, destroyed: seq<string>): (r: seq<Arrival>)
    ensures |r| == |destroyed|
  {
    seq(|destroyed|, i requires 0 <= i < |destroyed| =>
      RowChange(context, transaction, tableId, destroyed[i], Deleted, Rows(None, None, [])))
  }

  function OfMetadata(context: Context, transaction: string, tableId: string, metadata: Option<Option<string>>): seq<Arrival> {
    if metadata.None? then []
    else [TableArrival(context, transaction, tableId, if metadata.value.Some? then metadata.value else NameOfTable(context, tableId))]
  }

  function OfTable(context: Context, transaction: string, changes: TableChanges): seq<Arrival> {
    OfCreated(context, transaction, changes.tableId, changes.created)
    + OfChanged(context, transaction, changes.tableId, changes.changed)
    + OfDestroyed(context, transaction, changes.tableId, changes.destroyed)
    + OfMetadata(context, transaction, changes.tableId, changes.metadata)
  }

  function OfTables(context: Context, transaction: string, tables: seq<TableChanges>): seq<Arrival> {
    if tables == [] then [] else OfTables(context, transaction, tables[..|tables| - 1]) + OfTable(context, transaction, tables[|tables| - 1])
  }

  function OfCreatedTables(context: Context, transaction: string, tables: seq<NewTable>): (r: seq<Arrival>)
    ensures |r| == |tables|
  {
    seq(|tables|, i requires 0 <= i < |tables| => TableArrival(context, transaction, tables[i].tableId, tables[i].name))
  }

  function OfDestroyedTables(context: Context, transaction: string, tables: seq<string>): (r: seq<Arrival>)
    ensures |r| == |tables|
  {
    seq(|tables|, i requires 0 <= i < |tables| => TableArrival(context, transaction, tables[i], None))
  }

  function Of(payload: Payload, context: Context): seq<Arrival> {
    var transaction := TransactionOf(payload);
    OfTables(context, transaction, payload.changedTables)
    + OfCreatedTables(context, transaction, payload.createdTables)
    + OfDestroyedTables(context, transaction, payload.destroyedTables)
  }

  // ── As the module pushes them ──────────────────────────────────────────

  method UpdateRows(edit: Edit, fields: seq<Field>) returns (rows: Rows)
    ensures rows == UpdatedRows(edit, fields)
  {
    var same := NameCells(edit.same, Names(fields), Reads(fields));
    var current := NameCells(edit.current, Names(fields), Reads(fields));
    var previous := NameCells(edit.previous, Names(fields), Reads(fields));
    var after := WithEmptyCells(same.own + current.own, fields);
    var before := WithEmptyCells(same.own + previous.own, fields);
    rows := Rows(Some(after), Some(before), Outside(Union(current.keys, previous.keys), same));
  }

  method CreateRows(cells: seq<Member>, fields: seq<Field>) returns (rows: Rows)
    ensures rows == CreatedRows(cells, fields)
  {
    var current := NameCells(cells, Names(fields), Reads(fields));
    var filled := WithEmptyCells(current.own, fields);
    rows := Rows(Some(filled), None, current.keys);
  }

  method RowCreated(context: Context, transaction: string, tableId: string, created: RowCells) returns (arrival: Arrival)
    ensures arrival == OneCreated(context, transaction, tableId, created)
  {
    var rows := CreateRows(created.cells, FieldsOf(context, tableId));
    arrival := RowChange(context, transaction, tableId, created.recordId, Created, rows);
  }

  method RowsCreated(context: Context, transaction: string, tableId: string, created: seq<RowCells>) returns (arrivals: seq<Arrival>)
    ensures arrivals == OfCreated(context, transaction, tableId, created)
  {
    arrivals := [];
    for i := 0 to |created|
      invariant arrivals == OfCreated(context, transaction, tableId, created)[..i]
    {
      var arrival := RowCreated(context, transaction, tableId, created[i]);
      arrivals := arrivals + [arrival];
    }
  }

  method RowChanged(context: Context, transaction: string, tableId: string, changed: RowEdit) returns (arrival: Arrival)
    ensures arrival == OneChanged(context, transaction, tableId, changed)
  {
    var rows := UpdateRows(changed.edit, FieldsOf(context, tableId));
    arrival := RowChange(context, transaction, tableId, changed.recordId, Updated, rows);
  }

  method RowsChanged(context: Context, transaction: string, tableId: string, changed: seq<RowEdit>) returns (arrivals: seq<Arrival>)
    ensures arrivals == OfChanged(context, transaction, tableId, changed)
  {
    arrivals := [];
    for i := 0 to |changed|
      invariant arrivals == OfChanged(context, transaction, tableId, changed)[..i]
    {
      var arrival := RowChanged(context, transaction, tableId, changed[i]);
      arrivals := arrivals + [arrival];
    }
  }

  method RowsDestroyed(context: Context, transaction: string, tableId: string, destroyed: seq<string>) returns (arrivals: seq<Arrival>)
    ensures arrivals == OfDestroyed(context, transaction, tableId, destroyed)
  {
    arrivals := [];
    for i := 0 to |destroyed|
      invariant arrivals == OfDestroyed(context, transaction, tableId, destroyed)[..i]
    {
      arrivals := arrivals + [RowChange(context, transaction, tableId, destroyed[i], Deleted, Rows(None, None, []))];
    }
  }

  method TableArrivals(context: Context, transaction: string, changes: TableChanges) returns (arrivals: seq<Arrival>)
    ensures arrivals == OfTable(context, transaction, changes)
  {
    var tableId := changes.tableId;
    var created := RowsCreated(context, transaction, tableId, changes.created);
    var changed := RowsChanged(context, transaction, tableId, changes.changed);
    var destroyed := RowsDestroyed(context, transaction, tableId, changes.destroyed);
    arrivals := created + changed + destroyed;
    if changes.metadata.Some? {
      var name := if changes.metadata.value.Some? then changes.metadata.value else NameOfTable(context, tableId);
      arrivals := arrivals + [TableArrival(context, transaction, tableId, name)];
    }
  }

  method TablesChanged(context: Context, transaction: string, tables: seq<TableChanges>) returns (arrivals: seq<Arrival>)
    ensures arrivals == OfTables(context, transaction, tables)
  {
    arrivals := [];
    for i := 0 to |tables|
      invariant arrivals == OfTables(context, transaction, tables[..i])
    {
      var more := TableArrivals(context, transaction, tables[i]);
      assert tables[..i + 1][..i] == tables[..i];
      arrivals := arrivals + more;
    }
    assert tables[..|tables|] == tables;
  }

  method TablesCreated(context: Context, transaction: string, tables: seq<NewTable>) returns (arrivals: seq<Arrival>)
    ensures arrivals == OfCreatedTables(context, transaction, tables)
  {
    arrivals := [];
    for i := 0 to |tables|
      invariant arrivals == OfCreatedTables(context, transaction, tables)[..i]
    {
      arrivals := arrivals + [TableArrival(context, transaction, tables[i].tableId, tables[i].name)];
    }
  }

  method TablesDestroyed(context: Context, transaction: string, tables: seq<string>) returns (arrivals: seq<Arrival>)
    ensures arrivals == OfDestroyedTables(context, transaction, tables)
  {
    arrivals := [];
    for i := 0 to |tables|
      invariant arrivals == OfDestroyedTables(context, transaction, tables)[..i]
    {
      arrivals := arrivals + [TableArrival(context, transaction, tables[i], None)];
    }
  }

  method ArrivalsFromPayload(payload: Payload, context: Context) returns (arrivals: seq<Arrival>)
    ensures arrivals == Of(payload, context)
  {
    var transaction := TransactionOf(payload);
    var changed := TablesChanged(context, transaction, payload.changedTables);
    var created := TablesCreated(context, transaction, payload.createdTables);
    var destroyed := TablesDestroyed(context, transaction, payload.destroyedTables);
    arrivals := changed + created + destroyed;
  }

  /** A table was made, removed or redescribed in this payload. */
  function ChangesTables(payload: Payload): bool {
    payload.createdTables != [] || payload.destroyedTables != []
    || exists t :: t in payload.changedTables && t.metadata.Some?
  }
}
