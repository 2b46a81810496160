/** Cells keyed by id, keyed again by name: what a renaming keeps. */
module RowNaming {
  import opened JsObjects
  import opened Sequences
  import opened StableJsonText

  /** What an id goes by, and what its cell reads as. */
  type Naming = string -> string
  type Reader = (string, Json) -> Json

  /** A row by field name. */
  type Row = map<string, Json>

  /** A row's cells by field id, its empty ones left out. */
  type Cells = map<string, Json>

  /** The object the cells fill, each assigned under its name. */
  function Named(cells: seq<Member>, name: Naming, read: Reader): Filling {
    if cells == [] then EMPTY
    else
      var last := cells[|cells| - 1];
      Assign(Named(cells[..|cells| - 1], name, read), name(last.key), read(last.key, last.value))
  }

  method NameCells(cells: seq<Member>, name: Naming, read: Reader) returns (data: Filling)
    ensures data == Named(cells, name, read)
  {
    data := EMPTY;
    for i := 0 to |cells|
      invariant data == Named(cells[..i], name, read)
    {
      assert cells[..i + 1][..i] == cells[..i];
      data := Assign(data, name(cells[i].key), read(cells[i].key, cells[i].value));
    }
    assert cells[..|cells|] == cells;
  }

  /** No two of these ids go by one name. */
  ghost predicate Injective(name: Naming, ids: set<string>) {
    forall i, j {:trigger NamedApart(name, i, j)} :: i in ids && j in ids && i != j ==> NamedApart(name, i, j)
  }

  predicate NamedApart(name: Naming, i: string, j: string) {
    name(i) != name(j)
  }

  /** The data holds the row's cells by name, all but one named `__proto__`, and
      nothing besides. */
  ghost predicate Holds(data: Row, row: Cells, name: Naming, read: Reader) {
    && (forall id :: id in row && name(id) != PROTO ==> name(id) in data && data[name(id)] == read(id, row[id]))
    && (forall n :: n in data ==> n != PROTO && exists id :: id in row && name(id) == n)
  }

  /** These cells are exactly the row's, in some order. */
  ghost predicate Lists(cells: seq<Member>, row: Cells) {
    && DistinctKeys(cells)
    && (forall m :: m in cells ==> m.key in row && row[m.key] == m.value)
    && forall id :: id in row ==> Member(id, row[id]) in cells
  }

  lemma LastIsApart(front: seq<Member>, last: Member, name: Naming, ids: set<string>)
    requires DistinctKeys(front + [last]) && Injective(name, ids) && forall m :: m in front + [last] ==> m.key in ids
    ensures forall m :: m in front ==> name(m.key) != name(last.key)
  {
    var cells := front + [last];
    forall m | m in front
      ensures name(m.key) != name(last.key)
    {
      var i :| 0 <= i < |front| && front[i] == m;
      assert cells[i] == m && cells[|front|] == last;
      assert m in cells && last in cells;
      assert NamedApart(name, m.key, last.key);
    }
  }

  /** Where no cell goes by `__proto__`, the object inherits what every object does. */
  lemma {:induction false} PrototypeStays(cells: seq<Member>, name: Naming, read: Reader)
    requires forall m :: m in cells ==> name(m.key) != PROTO
    ensures Named(cells, name, read).prototype == Standard
  {
    if cells != [] {
      assert cells[|cells| - 1] in cells;
      PrototypeStays(cells[..|cells| - 1], name, read);
    }
  }

  /** Where one cell at most goes by `__proto__`, that one is lost. */
  lemma {:induction false} ProtoIsNoMember(cells: seq<Member>, name: Naming, read: Reader, ids: set<string>)
    requires Injective(name, ids) && DistinctKeys(cells) && forall m :: m in cells ==> m.key in ids
    ensures PROTO !in Named(cells, name, read).own
  {
    if cells != [] {
      var front, last := cells[..|cells| - 1], cells[|cells| - 1];
      assert cells == front + [last] && last in cells;
      assert forall m :: m in front ==> m in cells;
      ProtoIsNoMember(front, name, read, ids);
      LastIsApart(front, last, name, ids);
      if name(last.key) == PROTO {
        PrototypeStays(front, name, read);
      }
    }
  }

  lemma {:induction false} NamedHoldsAll(cells: seq<Member>, name: Naming, read: Reader, ids: set<string>)
    requires Injective(name, ids) && DistinctKeys(cells) && forall m :: m in cells ==> m.key in ids
    ensures forall m :: m in cells && name(m.key) != PROTO ==>
      name(m.key) in Named(cells, name, read).own && Named(cells, name, read).own[name(m.key)] == read(m.key, m.value)
  {
    if cells != [] {
      var front, last := cells[..|cells| - 1], cells[|cells| - 1];
      assert cells == front + [last];
      assert forall m :: m in front ==> m in cells;
      NamedHoldsAll(front, name, read, ids);
      LastIsApart(front, last, name, ids);
      assert forall m :: m in cells <==> m in front || m == last;
    }
  }

  /** The object's own names are its cells', whatever the naming. */
  lemma {:induction false} NamedDomain(cells: seq<Member>, name: Naming, read: Reader, n: string)
    ensures n in Named(cells, name, read).own ==> exists m :: m in cells && name(m.key) == n
    ensures n != PROTO && (exists m :: m in cells && name(m.key) == n) ==> n in Named(cells, name, read).own
  {
    if cells != [] {
      var front, last := cells[..|cells| - 1], cells[|cells| - 1];
      assert cells == front + [last];
      NamedDomain(front, name, read, n);
      assert forall m :: m in cells <==> m in front || m == last;
    }
  }

  lemma {:induction false} KeysAreTheOwnNames(cells: seq<Member>, name: Naming, read: Reader)
    ensures NoRepeats(Named(cells, name, read).keys)
    ensures forall n :: n in Named(cells, name, read).keys <==> n in Named(cells, name, read).own
  {
    if cells != [] {
      KeysAreTheOwnNames(cells[..|cells| - 1], name, read);
    }
  }

  /** Under an injective naming no cell is lost but one named `__proto__`, and
      none is made. */
  lemma NamedHolds(cells: seq<Member>, row: Cells, name: Naming, read: Reader, ids: set<string>)
    requires Injective(name, ids) && Lists(cells, row) && row.Keys <= ids
    ensures Holds(Named(cells, name, read).own, row, name, read)
  {
    var data := Named(cells, name, read).own;
    NamedHoldsAll(cells, name, read, ids);
    ProtoIsNoMember(cells, name, read, ids);
    forall id | id in row && name(id) != PROTO
      ensures name(id) in data && data[name(id)] == read(id, row[id])
    {
      assert Member(id, row[id]) in cells;
    }
    forall n | n in data
      ensures exists id :: id in row && name(id) == n
    {
      NamedDomain(cells, name, read, n);
      var m :| m in cells && name(m.key) == n;
      assert m.key in row;
    }
  }

  /** Two parts of a row, named and put together, are the row named. */
  lemma HoldsTogether(p: Row, q: Row, a: Cells, b: Cells, name: Naming, read: Reader, ids: set<string>)
    requires Injective(name, ids) && a.Keys + b.Keys <= ids && a.Keys !! b.Keys
    requires Holds(p, a, name, read) && Holds(q, b, name, read)
    ensures Holds(p + q, a + b, name, read)
  {
    forall id | id in a && name(id) != PROTO
      ensures name(id) in p && name(id) !in q && p[name(id)] == read(id, a[id])
    {
      forall other | other in b
        ensures name(other) != name(id)
      {
        assert NamedApart(name, other, id);
      }
    }
    forall n | n in p + q
      ensures exists id :: id in a + b && name(id) == n
    {
      if n in q {
        var id :| id in b && name(id) == n;
        assert id in a + b;
      } else {
        var id :| id in a && name(id) == n;
        assert id in a + b;
      }
    }
  }

  // ── The names of what changed ──────────────────────────────────────────

  /** The object's own names are the row's, but for `__proto__`. */
  lemma OwnNames(cells: seq<Member>, row: Cells, name: Naming, read: Reader, n: string)
    requires Lists(cells, row) && n != PROTO
    ensures n in Named(cells, name, read).own <==> exists id :: id in row && name(id) == n
  {
    NamedDomain(cells, name, read, n);
    if m :| m in cells && name(m.key) == n {
      assert m.key in row;
    }
    if id :| id in row && name(id) == n {
      assert Member(id, row[id]) in cells;
    }
  }

  function Add(keys: seq<string>, key: string): seq<string> {
    if key in keys then keys else keys + [key]
  }

  function Union(a: seq<string>, b: seq<string>): seq<string> {
    if b == [] then a else Add(Union(a, b[..|b| - 1]), b[|b| - 1])
  }

  /** The names an object does not find by `in`. */
  function Outside(names: seq<string>, o: Filling): seq<string> {
    if names == [] then [] else (if Finds(o, names[0]) then [] else [names[0]]) + Outside(names[1..], o)
  }

  lemma {:induction false} UnionIsBoth(a: seq<string>, b: seq<string>)
    requires NoRepeats(a)
    ensures NoRepeats(Union(a, b)) && forall n :: n in Union(a, b) <==> n in a || n in b
  {
    if b != [] {
      assert b == b[..|b| - 1] + [b[|b| - 1]];
      UnionIsBoth(a, b[..|b| - 1]);
    }
  }

  lemma {:induction false} OutsideIsTheRest(names: seq<string>, o: Filling)
    requires NoRepeats(names)
    ensures NoRepeats(Outside(names, o)) && forall n :: n in Outside(names, o) <==> n in names && !Finds(o, n)
  {
    if names != [] {
      assert names == [names[0]] + names[1..];
      OutsideIsTheRest(names[1..], o);
      assert names[0] !in names[1..];
    }
  }
}
