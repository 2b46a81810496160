/**
 What each arrival of a payload says: one for each row and each table the payload
 touched, in order, about that row or table, and told apart by it.
 */
module ArrivalLaws {
  import opened Options
  import opened Sequences
  import opened StableJsonText
  import opened RowNaming
  import opened ChangeFeed
  import opened Arrivals
  import Decimals

  /** A row or a table a payload touched. */
  datatype Touch = Touch(onTables: bool, id: string)

  /** One thing a payload tells of a row or a table. */
  datatype Event =
    | RowMade(tableId: string, recordId: string, cells: seq<Member>)
    | RowEdited(tableId: string, recordId: string, edit: Edit)
    | RowRemoved(tableId: string, recordId: string)
    | TableRedescribed(tableId: string, name: Option<string>)
    | TableMade(tableId: string, name: Option<string>)
    | TableRemoved(tableId: string)
  {
    function Touched(): Touch {
      if RowMade? || RowEdited? || RowRemoved? then Touch(false, recordId) else Touch(true, tableId)
    }
  }

  function RowsMade(changes: TableChanges): (events: seq<Event>)
    ensures |events| == |changes.created|
  {
    seq(|changes.created|, i requires 0 <= i < |changes.created| =>
      RowMade(changes.tableId, changes.created[i].recordId, changes.created[i].cells))
  }

  function RowsEdited(changes: TableChanges): (events: seq<Event>)
    ensures |events| == |changes.changed|
  {
    seq(|changes.changed|, i requires 0 <= i < |changes.changed| =>
      RowEdited(changes.tableId, changes.changed[i].recordId, changes.changed[i].edit))
  }

  function RowsRemoved(changes: TableChanges): (events: seq<Event>)
    ensures |events| == |changes.destroyed|
  {
    seq(|changes.destroyed|, i requires 0 <= i < |changes.destroyed| => RowRemoved(changes.tableId, changes.destroyed[i]))
  }

  function EventsOfTable(changes: TableChanges): seq<Event> {
    RowsMade(changes) + RowsEdited(changes) + RowsRemoved(changes)
    + if changes.metadata.Some? then [TableRedescribed(changes.tableId, changes.metadata.value)] else []
  }

  function EventsOfTables(tables: seq<TableChanges>): seq<Event> {
    if tables == [] then [] else EventsOfTables(tables[..|tables| - 1]) + EventsOfTable(tables[|tables| - 1])
  }

  function TablesMade(tables: seq<NewTable>): (events: seq<Event>)
    ensures |events| == |tables|
  {
    seq(|tables|, i requires 0 <= i < |tables| => TableMade(tables[i].tableId, tables[i].name))
  }

  function TablesRemoved(tables: seq<string>): (events: seq<Event>)
    ensures |events| == |tables|
  {
    seq(|tables|, i requires 0 <= i < |tables| => TableRemoved(tables[i]))
  }

  /** All a payload tells, in the order it is told. */
  function Events(payload: Payload): seq<Event> {
    EventsOfTables(payload.changedTables) + TablesMade(payload.createdTables) + TablesRemoved(payload.destroyedTables)
  }

  // ── What each arrival says ─────────────────────────────────────────────

  /** A change of this row: of its table, by the table's name or else its id. */
  predicate IsChange(a: Arrival, context: Context, transaction: string, kind: Kind, tableId: string, recordId: string) {
    && a.Change? && a.identity == transaction + ":" + recordId
    && a.kind == kind && a.tableId == tableId && a.recordId == recordId
    && a.table == if tableId in context.tableNames then context.tableNames[tableId] else tableId
  }

  /** A change of this table, keyed by the base unless the base is the position. */
  predicate IsTable(a: Arrival, context: Context, transaction: string, tableId: string, name: Option<string>) {
    && a.Table? && a.identity == transaction + ":" + tableId && a.tableId == tableId && a.name == name
    && a.key == if context.positioned then None else Some(context.baseId)
  }

  function TableFields(context: Context, tableId: string): seq<Field> {
    if tableId in context.fieldsByTable then context.fieldsByTable[tableId] else []
  }

  function HeldName(context: Context, tableId: string): Option<string> {
    if tableId in context.tableNames then Some(context.tableNames[tableId]) else None
  }

  predicate Tells(a: Arrival, e: Event, transaction: string, context: Context) {
    match e
    case RowMade(tableId, recordId, cells) =>
      IsChange(a, context, transaction, Created, tableId, recordId) && a.rows == CreatedRows(cells, TableFields(context, tableId))
    case RowEdited(tableId, recordId, edit) =>
      IsChange(a, context, transaction, Updated, tableId, recordId) && a.rows == UpdatedRows(edit, TableFields(context, tableId))
    case RowRemoved(tableId, recordId) =>
      IsChange(a, context, transaction, Deleted, tableId, recordId) && a.rows == Rows(None, None, [])
    case TableRedescribed(tableId, name) =>
      IsTable(a, context, transaction, tableId, if name.Some? then name else HeldName(context, tableId))
    case TableMade(tableId, name) => IsTable(a, context, transaction, tableId, name)
    case TableRemoved(tableId) => IsTable(a, context, transaction, tableId, None)
  }

  predicate TellsAll(arrivals: seq<Arrival>, events: seq<Event>, transaction: string, context: Context) {
    |arrivals| == |events| && forall i :: 0 <= i < |events| ==> Tells(arrivals[i], events[i], transaction, context)
  }

  lemma TellsBoth(a: seq<Arrival>, b: seq<Arrival>, x: seq<Event>, y: seq<Event>, transaction: string, context: Context)
    requires TellsAll(a, x, transaction, context) && TellsAll(b, y, transaction, context)
    ensures TellsAll(a + b, x + y, transaction, context)
  {
    forall i | 0 <= i < |x + y|
      ensures Tells((a + b)[i], (x + y)[i], transaction, context)
    {
      if i < |a| {
        assert (a + b)[i] == a[i] && (x + y)[i] == x[i];
      } else {
        assert (a + b)[i] == b[i - |a|] && (x + y)[i] == y[i - |a|];
      }
    }
  }

  lemma MadeAreTold(context: Context, transaction: string, changes: TableChanges)
    ensures TellsAll(OfCreated(context, transaction, changes.tableId, changes.created), RowsMade(changes), transaction, context)
  {
  }

  lemma EditedAreTold(context: Context, transaction: string, changes: TableChanges)
    ensures TellsAll(OfChanged(context, transaction, changes.tableId, changes.changed), RowsEdited(changes), transaction, context)
  {
  }

  lemma RemovedAreTold(context: Context, transaction: string, changes: TableChanges)
    ensures TellsAll(OfDestroyed(context, transaction, changes.tableId, changes.destroyed), RowsRemoved(changes), transaction, context)
  {
  }

  lemma TableIsTold(context: Context, transaction: string, changes: TableChanges)
    ensures TellsAll(OfTable(context, transaction, changes), EventsOfTable(changes), transaction, context)
  {
    var id := changes.tableId;
    var a, b, c := OfCreated(context, transaction, id, changes.created), OfChanged(context, transaction, id, changes.changed),
      OfDestroyed(context, transaction, id, changes.destroyed);
    var x, y, z := RowsMade(changes), RowsEdited(changes), RowsRemoved(changes);
    var w := if changes.metadata.Some? then [TableRedescribed(id, changes.metadata.value)] else [];
    MadeAreTold(context, transaction, changes);
    EditedAreTold(context, transaction, changes);
    RemovedAreTold(context, transaction, changes);
    TellsBoth(a, b, x, y, transaction, context);
    TellsBoth(a + b, c, x + y, z, transaction, context);
    TellsBoth(a + b + c, OfMetadata(context, transaction, id, changes.metadata), x + y + z, w, transaction, context);
  }

  lemma {:induction false} TablesAreTold(context: Context, transaction: string, tables: seq<TableChanges>)
    ensures TellsAll(OfTables(context, transaction, tables), EventsOfTables(tables), transaction, context)
  {
    if tables != [] {
      var front, last := tables[..|tables| - 1], tables[|tables| - 1];
      TablesAreTold(context, transaction, front);
      TableIsTold(context, transaction, last);
      TellsBoth(OfTables(context, transaction, front), OfTable(context, transaction, last),
        EventsOfTables(front), EventsOfTable(last), transaction, context);
    }
  }

  /** A payload makes one arrival for each thing it tells, in order, and each says
      that thing: its kind, its table, its record and its rows, or the table's key
      and name. */
  lemma EachArrivalTellsItsEvent(payload: Payload, context: Context)
    ensures TellsAll(Of(payload, context), Events(payload), TransactionOf(payload), context)
  {
    var transaction := TransactionOf(payload);
    var a, x := OfTables(context, transaction, payload.changedTables), EventsOfTables(payload.changedTables);
    var b, c := OfCreatedTables(context, transaction, payload.createdTables), OfDestroyedTables(context, transaction, payload.destroyedTables);
    TablesAreTold(context, transaction, payload.changedTables);
    TellsBoth(a, b, x, TablesMade(payload.createdTables), transaction, context);
    TellsBoth(a + b, c, x + TablesMade(payload.createdTables), TablesRemoved(payload.destroyedTables), transaction, context);
  }

  /** The arrival of an edited row carries the row after the edit as `Current` and
      the row before it as `Previous`, each if and only if its names come through,
      and lists exactly the differences, if and only if all of them show. */
  lemma EditedRowArrives(payload: Payload, context: Context, i: nat, before: Cells, after: Cells)
    requires i < |Events(payload)| && Events(payload)[i].RowEdited? && IsDiff(Events(payload)[i].edit, before, after)
    requires var fields := TableFields(context, Events(payload)[i].tableId);
      Unambiguous(fields, before.Keys + after.Keys + FieldIds(fields))
    ensures i < |Of(payload, context)|
    ensures var a, e := Of(payload, context)[i], Events(payload)[i];
      var fields := TableFields(context, e.tableId);
      && IsChange(a, context, TransactionOf(payload), Updated, e.tableId, e.recordId)
      && a.rows.current.Some? && (IsRead(a.rows.current.value, after, fields) <==> ComesThrough(after, fields))
      && a.rows.previous.Some? && (IsRead(a.rows.previous.value, before, fields) <==> ComesThrough(before, fields))
      && NoRepeats(a.rows.changed)
      && ((forall n :: n in a.rows.changed <==> NamesADifference(before, after, Names(fields), n))
          <==> DifferencesShow(e.edit, before, after, Names(fields), Reads(fields)))
  {
    EachArrivalTellsItsEvent(payload, context);
    var e := Events(payload)[i];
    assert Tells(Of(payload, context)[i], e, TransactionOf(payload), context);
    UpdateRebuildsBothRowsIff(e.edit, before, after, TableFields(context, e.tableId));
  }

  /** The arrival of a created row carries the row as `Current`, if and only if its
      names come through, no `Previous`, and the names of the cells it was given. */
  lemma MadeRowArrives(payload: Payload, context: Context, i: nat, row: Cells)
    requires i < |Events(payload)| && Events(payload)[i].RowMade? && Lists(Events(payload)[i].cells, row)
    requires var fields := TableFields(context, Events(payload)[i].tableId); Unambiguous(fields, row.Keys + FieldIds(fields))
    ensures i < |Of(payload, context)|
    ensures var a, e := Of(payload, context)[i], Events(payload)[i];
      var fields := TableFields(context, e.tableId);
      && IsChange(a, context, TransactionOf(payload), Created, e.tableId, e.recordId)
      && a.rows.previous.None?
      && a.rows.current.Some? && (IsRead(a.rows.current.value, row, fields) <==> ComesThrough(row, fields))
      && NoRepeats(a.rows.changed)
      && forall n :: n in a.rows.changed <==> n != "__proto__" && exists id :: id in row && NameOf(fields, id) == n
  {
    EachArrivalTellsItsEvent(payload, context);
    var e := Events(payload)[i];
    var fields := TableFields(context, e.tableId);
    assert Tells(Of(payload, context)[i], e, TransactionOf(payload), context);
    CreationReadsTheRowIff(e.cells, row, fields);
    CreatedNames(row, fields);
  }

  lemma CreatedNames(row: Cells, fields: seq<Field>)
    ensures forall n :: NamesADifference(map[], row, Names(fields), n) <==> exists id :: id in row && NameOf(fields, id) == n
  {
    assert forall id :: Differs(map[], row, id) <==> id in row;
    forall n
      ensures NamesADifference(map[], row, Names(fields), n) <==> exists id :: id in row && NameOf(fields, id) == n
    {
      if id :| id in row && NameOf(fields, id) == n {
        assert Differs(map[], row, id) && Names(fields)(id) == n;
      }
    }
  }

  // ── What the arrivals are told apart by ────────────────────────────────

  /** Every row and table a payload touched, in the order it is told. */
  function Touches(payload: Payload): (r: seq<Touch>)
    ensures |r| == |Events(payload)|
    ensures forall i :: 0 <= i < |r| ==> r[i] == Events(payload)[i].Touched()
  {
    seq(|Events(payload)|, i requires 0 <= i < |Events(payload)| => Events(payload)[i].Touched())
  }

  function MarkOf(transaction: string, touch: Touch): Mark {
    MarkedBy(touch.onTables, Identity(transaction, touch.id))
  }

  /** The marks of a payload's arrivals, whatever the context they are made in. */
  function Marks(payload: Payload): (r: seq<Mark>)
    ensures |r| == |Touches(payload)|
    ensures forall i :: 0 <= i < |r| ==> r[i] == MarkOf(TransactionOf(payload), Touches(payload)[i])
  {
    seq(|Touches(payload)|, i requires 0 <= i < |Touches(payload)| => MarkOf(TransactionOf(payload), Touches(payload)[i]))
  }

  function MarksIn(arrivals: seq<Arrival>): (r: seq<Mark>)
    ensures |r| == |arrivals|
    ensures forall i :: 0 <= i < |arrivals| ==> r[i] == arrivals[i].Marked()
  {
    seq(|arrivals|, i requires 0 <= i < |arrivals| => arrivals[i].Marked())
  }

  /** One arrival for each row and each table a payload touched, in order, and
      told apart alike whenever the payload is pulled. */
  lemma OneArrivalPerTouch(payload: Payload, context: Context)
    ensures MarksIn(Of(payload, context)) == Marks(payload)
  {
    EachArrivalTellsItsEvent(payload, context);
    forall i | 0 <= i < |Events(payload)|
      ensures MarksIn(Of(payload, context))[i] == Marks(payload)[i]
    {
      assert Tells(Of(payload, context)[i], Events(payload)[i], TransactionOf(payload), context);
    }
  }

  predicate OnTables(e: Event) {
    e.TableRedescribed? || e.TableMade? || e.TableRemoved?
  }

  lemma {:induction false} TablesTouched(tables: seq<TableChanges>)
    ensures (exists t :: t in tables && t.metadata.Some?) <==> exists e :: e in EventsOfTables(tables) && OnTables(e)
  {
    if tables != [] {
      var front, last := tables[..|tables| - 1], tables[|tables| - 1];
      assert tables == front + [last];
      TablesTouched(front);
      TableTouched(last);
      assert forall e :: e in EventsOfTables(tables) <==> e in EventsOfTables(front) || e in EventsOfTable(last);
      assert forall t :: t in tables <==> t in front || t == last;
    }
  }

  lemma TableTouched(changes: TableChanges)
    ensures changes.metadata.Some? <==> exists e :: e in EventsOfTable(changes) && OnTables(e)
  {
    if changes.metadata.Some? {
      var events := EventsOfTable(changes);
      assert OnTables(events[|events| - 1]);
    }
  }

  lemma TablesAreTouched(payload: Payload)
    ensures ChangesTables(payload) <==> exists e :: e in Events(payload) && OnTables(e)
  {
    TablesTouched(payload.changedTables);
    var x, y, z := EventsOfTables(payload.changedTables), TablesMade(payload.createdTables), TablesRemoved(payload.destroyedTables);
    assert forall e :: e in Events(payload) <==> e in x || e in y || e in z;
    assert y != [] ==> OnTables(y[0]) && y[0] in y;
    assert z != [] ==> OnTables(z[0]) && z[0] in z;
  }

  /** A payload changed the tables exactly when it makes an arrival on `Tables`. */
  lemma ChangesTablesIffOneArrives(payload: Payload, context: Context)
    ensures ChangesTables(payload) <==> exists a :: a in Of(payload, context) && a.Table?
  {
    var events, arrivals := Events(payload), Of(payload, context);
    EachArrivalTellsItsEvent(payload, context);
    TablesAreTouched(payload);
    forall i | 0 <= i < |events|
      ensures arrivals[i].Table? <==> OnTables(events[i])
    {
      assert Tells(arrivals[i], events[i], TransactionOf(payload), context);
    }
    if e :| e in events && OnTables(e) {
      var i :| 0 <= i < |events| && events[i] == e;
      assert arrivals[i] in arrivals;
    }
    if a :| a in arrivals && a.Table? {
      var i :| 0 <= i < |arrivals| && arrivals[i] == a;
      assert events[i] in events;
    }
  }

  /** A payload is named by its transaction, and one without by its time. */
  lemma TransactionsTell(p: Payload, q: Payload)
    ensures p.transaction.Some? && q.transaction.Some? ==> (TransactionOf(p) == TransactionOf(q) <==> p.transaction == q.transaction)
    ensures p.transaction.Some? ==> Decimals.Value(TransactionOf(p)) == p.transaction.value
    ensures p.transaction.None? && p.timestamp.Some? ==> TransactionOf(p) == p.timestamp.value
  {
    if p.transaction.Some? {
      Decimals.SpellingReadsBack(p.transaction.value);
    }
    if q.transaction.Some? {
      Decimals.SpellingReadsBack(q.transaction.value);
    }
  }

  // ── Identities do not clash ────────────────────────────────────────────

  /** Airtable's ids hold no colon. */
  predicate PlainId(id: string) {
    ':' !in id
  }

  lemma LastColon(s: string, a: string)
    requires PlainId(a)
    ensures |Identity(s, a)| == |s| + 1 + |a| && Identity(s, a)[|s|] == ':'
    ensures forall k :: |s| < k < |Identity(s, a)| ==> Identity(s, a)[k] != ':'
  {
    assert forall k :: |s| < k < |Identity(s, a)| ==> Identity(s, a)[k] == a[k - |s| - 1];
  }

  /** Two identities are equal only for one transaction and one id. */
  lemma IdentityTells(s: string, a: string, t: string, b: string)
    requires PlainId(a) && PlainId(b) && Identity(s, a) == Identity(t, b)
    ensures s == t && a == b
  {
    var x, y := Identity(s, a), Identity(t, b);
    LastColon(s, a);
    LastColon(t, b);
    assert |s| == |t|;
    assert x[..|s|] == s && y[..|t|] == t;
    assert x[|s| + 1..] == a && y[|t| + 1..] == b;
  }
}
