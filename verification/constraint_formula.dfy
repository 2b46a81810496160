/**
 Uniqueness constraints compiled to the one formula Airtable is asked: OR-of-AND
 branches, multi-valued fields expanded by cross product, then spelled.
 */
module ConstraintFormula {
  import opened Options
  import opened FormulaText
  import opened Sequences

  /** A value of the asserted record, spelled as text; missing for null. */
  datatype Cell = Missing | Text(spelled: string)
  datatype Asserted = Single(cell: Cell) | Many(cells: seq<Cell>)

  type Record = map<string, Asserted>

  datatype Entry = Entry(field: string, fuzzy: bool)
  datatype ScalarEntry = ScalarEntry(fieldId: string, value: string, fuzzy: bool)
  type Branch = seq<ScalarEntry>

  /** The values a field can be matched on: null and empty text are not values. */
  function Usable(cells: seq<Cell>): seq<string> {
    if cells == [] then []
    else (if cells[0].Text? && cells[0].spelled != "" then [cells[0].spelled] else []) + Usable(cells[1..])
  }

  function Values(record: Record, field: string): seq<string> {
    if field !in record then []
    else Usable(if record[field].Single? then [record[field].cell] else record[field].cells)
  }

  /** The field is asserted to be this text, alone or as one of many. */
  predicate IsAsserted(record: Record, field: string, v: string) {
    field in record && v != ""
    && (record[field] == Single(Text(v)) || (record[field].Many? && Text(v) in record[field].cells))
  }

  lemma {:induction false} UsableAre(cells: seq<Cell>, v: string)
    ensures v in Usable(cells) <==> v != "" && Text(v) in cells
  {
    if cells != [] {
      UsableAre(cells[1..], v);
    }
  }

  /** A field is matched on each text it is asserted to be, and no other. */
  lemma ValuesAreAsserted(record: Record, field: string, v: string)
    ensures v in Values(record, field) <==> IsAsserted(record, field, v)
  {
    if field in record {
      UsableAre(if record[field].Single? then [record[field].cell] else record[field].cells, v);
    }
  }

  // ── The cross product ──────────────────────────────────────────────────

  /** Each partial branch followed by each value, in that order. */
  function Crossed(partials: seq<Branch>, entry: Entry, values: seq<string>): seq<Branch> {
    if partials == [] then [] else Followed(partials[0], entry, values) + Crossed(partials[1..], entry, values)
  }

  function Followed(partial: Branch, entry: Entry, values: seq<string>): seq<Branch> {
    seq(|values|, i requires 0 <= i < |values| => partial + [ScalarEntry(entry.field, values[i], entry.fuzzy)])
  }

  function Expanded(partials: seq<Branch>, entries: seq<Entry>, record: Record): seq<Branch>
    decreases |entries|
  {
    if entries == [] then partials
    else Expanded(Crossed(partials, entries[0], Values(record, entries[0].field)), entries[1..], record)
  }

  /** A constraint branch is usable when the record has a value for every entry. */
  predicate Complete(entries: seq<Entry>, record: Record) {
    forall e :: e in entries ==> Values(record, e.field) != []
  }

  function BranchesOf(entries: seq<Entry>, record: Record): seq<Branch> {
    if entries != [] && Complete(entries, record) then Expanded([[]], entries, record) else []
  }

  function Branches(constraints: seq<seq<Entry>>, record: Record): seq<Branch> {
    if constraints == [] then [] else BranchesOf(constraints[0], record) + Branches(constraints[1..], record)
  }

  lemma {:induction false} BranchesAppend(constraints: seq<seq<Entry>>, entries: seq<Entry>, record: Record)
    ensures Branches(constraints + [entries], record) == Branches(constraints, record) + BranchesOf(entries, record)
  {
    if constraints == [] {
      assert constraints + [entries] == [entries] && [entries][1..] == [];
      assert Branches([entries], record) == BranchesOf(entries, record) + Branches([], record);
    } else {
      assert (constraints + [entries])[1..] == constraints[1..] + [entries];
      BranchesAppend(constraints[1..], entries, record);
    }
  }

  /** The branches as the module builds them, entry by entry, value by value. */
  method BuildBranches(constraints: seq<seq<Entry>>, record: Record) returns (branches: seq<Branch>)
    ensures branches == Branches(constraints, record)
  {
    branches := [];
    for b := 0 to |constraints|
      invariant branches == Branches(constraints[..b], record)
    {
      var built := BuildBranch(constraints[b], record);
      assert constraints[..b + 1] == constraints[..b] + [constraints[b]];
      BranchesAppend(constraints[..b], constraints[b], record);
      branches := branches + built;
    }
    assert constraints[..|constraints|] == constraints;
  }

  method BuildBranch(entries: seq<Entry>, record: Record) returns (branches: seq<Branch>)
    ensures branches == BranchesOf(entries, record)
  {
    var expanded: seq<Branch> := [[]];
    for i := 0 to |entries|
      invariant Complete(entries[..i], record)
      invariant Expanded([[]], entries, record) == Expanded(expanded, entries[i..], record)
      invariant i == 0 ==> expanded == [[]]
    {
      var entry := entries[i];
      var values := Values(record, entry.field);
      if values == [] {
        assert entry in entries;
        return [];
      }
      assert entries[i..][1..] == entries[i + 1..];
      assert entries[..i + 1] == entries[..i] + [entry];
      expanded := Cross(expanded, entry, values);
    }
    assert entries[..|entries|] == entries;
    branches := if entries == [] then [] else expanded;
  }

  lemma {:induction false} CrossedAppend(partials: seq<Branch>, partial: Branch, entry: Entry, values: seq<string>)
    ensures Crossed(partials + [partial], entry, values) == Crossed(partials, entry, values) + Followed(partial, entry, values)
  {
    if partials == [] {
      assert partials + [partial] == [partial] && [partial][1..] == [];
    } else {
      assert (partials + [partial])[1..] == partials[1..] + [partial];
      CrossedAppend(partials[1..], partial, entry, values);
    }
  }

  method Cross(partials: seq<Branch>, entry: Entry, values: seq<string>) returns (next: seq<Branch>)
    ensures next == Crossed(partials, entry, values)
  {
    next := [];
    for p := 0 to |partials|
      invariant next == Crossed(partials[..p], entry, values)
    {
      ghost var done, followed := next, Followed(partials[p], entry, values);
      for v := 0 to |values|
        invariant next == done + followed[..v]
      {
        next := next + [partials[p] + [ScalarEntry(entry.field, values[v], entry.fuzzy)]];
      }
      assert followed[..|values|] == followed;
      assert partials[..p + 1] == partials[..p] + [partials[p]];
      CrossedAppend(partials[..p], partials[p], entry, values);
    }
    assert partials[..|partials|] == partials;
  }

  // ── From branches to one formula ───────────────────────────────────────

  type FieldNames = map<string, string>

  predicate Known(names: FieldNames, fieldId: string) {
    fieldId in names && names[fieldId] != ""
  }

  function Clauses(branch: Branch, names: FieldNames): seq<Formula>
    requires forall e :: e in branch ==> Known(names, e.fieldId)
  {
    if branch == [] then []
    else
      assert Known(names, branch[0].fieldId);
      [Eq(names[branch[0].fieldId], branch[0].value)] + Clauses(branch[1..], names)
  }

  /** A branch's formula, or none when it names a field that is not on the table. */
  function BranchFormula(branch: Branch, names: FieldNames): Option<Formula> {
    if branch == [] || !(forall e :: e in branch ==> Known(names, e.fieldId)) then None
    else if |branch| == 1 then Some(Clauses(branch, names)[0])
    else Some(And(Clauses(branch, names)))
  }

  /** A branch's formula as a list: of one, or of none. */
  function FormulaOf(branch: Branch, names: FieldNames): seq<Formula> {
    if BranchFormula(branch, names).Some? then [BranchFormula(branch, names).value] else []
  }

  function BranchFormulas(branches: seq<Branch>, names: FieldNames): seq<Formula> {
    if branches == [] then [] else FormulaOf(branches[0], names) + BranchFormulas(branches[1..], names)
  }

  /** The formula of a set of constraints, or none where nothing is asked. */
  function FilterFormula(constraints: seq<seq<Entry>>, record: Record, names: FieldNames): Option<Formula> {
    var fs := BranchFormulas(Branches(constraints, record), names);
    if fs == [] then None else if |fs| == 1 then Some(fs[0]) else Some(Or(fs))
  }

  method BuildBranchFormula(branch: Branch, names: FieldNames) returns (text: Option<string>)
    ensures text == if BranchFormula(branch, names).Some? then Some(Spell(BranchFormula(branch, names).value)) else None
  {
    var clauses: seq<string> := [];
    for i := 0 to |branch|
      invariant forall e :: e in branch[..i] ==> Known(names, e.fieldId)
      invariant clauses == SpellAll(Clauses(branch[..i], names))
    {
      var entry := branch[i];
      if entry.fieldId !in names || names[entry.fieldId] == "" {
        assert entry in branch;
        return None;
      }
      assert branch[..i + 1] == branch[..i] + [entry];
      ClausesAppend(branch[..i], entry, names);
      SpellAllAppend(Clauses(branch[..i], names), Eq(names[entry.fieldId], entry.value));
      clauses := clauses + ["{" + names[entry.fieldId] + "} = \"" + EscapeAirtableString(entry.value) + "\""];
    }
    assert branch[..|branch|] == branch;
    if clauses == [] { return None; }
    text := Some(if |clauses| == 1 then clauses[0] else "AND(" + Join(clauses) + ")");
  }

  method BuildFormulas(branches: seq<Branch>, names: FieldNames) returns (formulas: seq<string>)
    ensures formulas == SpellAll(BranchFormulas(branches, names))
  {
    formulas := [];
    for i := 0 to |branches|
      invariant formulas == SpellAll(BranchFormulas(branches[..i], names))
    {
      var f := BuildBranchFormula(branches[i], names);
      assert branches[..i + 1] == branches[..i] + [branches[i]];
      FormulasAppend(branches[..i], branches[i], names);
      if f.Some? {
        SpellAllAppend(BranchFormulas(branches[..i], names), BranchFormula(branches[i], names).value);
        formulas := formulas + [f.value];
      } else {
        assert BranchFormulas(branches[..i + 1], names) == BranchFormulas(branches[..i], names);
      }
    }
    assert branches[..|branches|] == branches;
  }

  /** The text sent to Airtable, or none where no query is made. */
  method FilterByFormula(constraints: seq<seq<Entry>>, record: Record, names: FieldNames) returns (text: Option<string>)
    ensures text == if FilterFormula(constraints, record, names).Some? then Some(Spell(FilterFormula(constraints, record, names).value)) else None
  {
    var branches := BuildBranches(constraints, record);
    var formulas := BuildFormulas(branches, names);
    if formulas == [] { return None; }
    text := Some(if |formulas| == 1 then formulas[0] else "OR(" + Join(formulas) + ")");
  }

  lemma {:induction false} ClausesAppend(branch: Branch, entry: ScalarEntry, names: FieldNames)
    requires (forall e :: e in branch ==> Known(names, e.fieldId)) && Known(names, entry.fieldId)
    ensures Clauses(branch + [entry], names) == Clauses(branch, names) + [Eq(names[entry.fieldId], entry.value)]
  {
    if branch != [] {
      assert (branch + [entry])[1..] == branch[1..] + [entry];
      ClausesAppend(branch[1..], entry, names);
    }
  }

  lemma {:induction false} SpellAllAppend(fs: seq<Formula>, f: Formula)
    ensures SpellAll(fs + [f]) == SpellAll(fs) + [Spell(f)]
  {
    if fs == [] {
      assert fs + [f] == [f] && [f][1..] == [];
    } else {
      assert (fs + [f])[1..] == fs[1..] + [f];
      SpellAllAppend(fs[1..], f);
    }
  }

  lemma {:induction false} FormulasAppend(branches: seq<Branch>, branch: Branch, names: FieldNames)
    ensures BranchFormulas(branches + [branch], names) == BranchFormulas(branches, names) + FormulaOf(branch, names)
  {
    var more := FormulaOf(branch, names);
    if branches == [] {
      assert branches + [branch] == [branch] && [branch][1..] == [];
      assert BranchFormulas([branch], names) == more + BranchFormulas([], names);
    } else {
      var head, rest := FormulaOf(branches[0], names), BranchFormulas(branches[1..], names);
      assert (branches + [branch])[0] == branches[0] && (branches + [branch])[1..] == branches[1..] + [branch];
      FormulasAppend(branches[1..], branch, names);
      Assoc(head, rest, more);
    }
  }

  // ── What the formula selects ───────────────────────────────────────────

  /** A test of a field and a value. */
  type Test = (string, string) -> bool

  /** Every entry of a branch meets a test. */
  predicate Meets(branch: Branch, test: Test) {
    forall e :: e in branch ==> test(e.fieldId, e.value)
  }

  predicate AnyMeets(branches: seq<Branch>, test: Test) {
    exists b :: b in branches && Meets(b, test)
  }

  predicate AnyValue(values: seq<string>, field: string, test: Test) {
    exists v :: v in values && test(field, v)
  }

  ghost predicate AnyAsserted(record: Record, field: string, test: Test) {
    exists v :: IsAsserted(record, field, v) && test(field, v)
  }

  /** Every constraint entry is met by one of its asserted values. */
  ghost predicate AllMet(entries: seq<Entry>, record: Record, test: Test) {
    forall e :: e in entries ==> AnyAsserted(record, e.field, test)
  }

  lemma AnyValueIsAsserted(record: Record, field: string, test: Test)
    ensures AnyValue(Values(record, field), field, test) <==> AnyAsserted(record, field, test)
  {
    forall v
      ensures v in Values(record, field) <==> IsAsserted(record, field, v)
    {
      ValuesAreAsserted(record, field, v);
    }
  }

  lemma AnyMeetsAppend(a: seq<Branch>, b: seq<Branch>, test: Test)
    ensures AnyMeets(a + b, test) <==> AnyMeets(a, test) || AnyMeets(b, test)
  {
    assert forall x :: x in a + b <==> x in a || x in b;
  }

  lemma AnyMeetsConses(branches: seq<Branch>, test: Test)
    requires branches != []
    ensures AnyMeets(branches, test) <==> Meets(branches[0], test) || AnyMeets(branches[1..], test)
  {
    assert branches == [branches[0]] + branches[1..];
    AnyMeetsAppend([branches[0]], branches[1..], test);
    assert branches[0] in [branches[0]];
  }

  lemma {:induction false} CrossedMeaning(partials: seq<Branch>, entry: Entry, values: seq<string>, test: Test)
    ensures AnyMeets(Crossed(partials, entry, values), test)
      <==> AnyMeets(partials, test) && AnyValue(values, entry.field, test)
  {
    if partials != [] {
      CrossedMeaning(partials[1..], entry, values, test);
      FollowedMeaning(partials[0], entry, values, test);
      AnyMeetsConses(partials, test);
      AnyMeetsAppend(Followed(partials[0], entry, values), Crossed(partials[1..], entry, values), test);
    }
  }

  lemma FollowedMeaning(partial: Branch, entry: Entry, values: seq<string>, test: Test)
    ensures AnyMeets(Followed(partial, entry, values), test) <==> Meets(partial, test) && AnyValue(values, entry.field, test)
  {
    var followed := Followed(partial, entry, values);
    forall i | 0 <= i < |values|
      ensures Meets(followed[i], test) <==> Meets(partial, test) && test(entry.field, values[i])
    {
      var last := ScalarEntry(entry.field, values[i], entry.fuzzy);
      assert followed[i] == partial + [last];
      assert forall e :: e in followed[i] <==> e in partial || e == last;
    }
    if Meets(partial, test) && AnyValue(values, entry.field, test) {
      var i :| 0 <= i < |values| && test(entry.field, values[i]);
      assert followed[i] in followed;
    }
  }

  /** The cross product means what the constraint branch says: some expansion is
      met exactly when every entry is met by one of its values. */
  lemma {:induction false} ExpansionKeepsMeaning(partials: seq<Branch>, entries: seq<Entry>, record: Record, test: Test)
    ensures AnyMeets(Expanded(partials, entries, record), test) <==> AnyMeets(partials, test) && AllMet(entries, record, test)
    decreases |entries|
  {
    if entries != [] {
      var values := Values(record, entries[0].field);
      ExpansionKeepsMeaning(Crossed(partials, entries[0], values), entries[1..], record, test);
      CrossedMeaning(partials, entries[0], values, test);
      AnyValueIsAsserted(record, entries[0].field, test);
      assert AllMet(entries, record, test) <==> AnyAsserted(record, entries[0].field, test) && AllMet(entries[1..], record, test) by {
        assert entries == [entries[0]] + entries[1..];
        assert forall e :: e in entries <==> e == entries[0] || e in entries[1..];
      }
    }
  }

  /** The branch, whole: what a row must hold to be a candidate because of it. */
  predicate Selects(entries: seq<Entry>, record: Record, names: FieldNames, row: Row) {
    entries != [] && forall e :: e in entries ==>
      Known(names, e.field) && names[e.field] in row && IsAsserted(record, e.field, row[names[e.field]])
  }

  predicate Matches(names: FieldNames, row: Row, fieldId: string, value: string) {
    Known(names, fieldId) && names[fieldId] in row && row[names[fieldId]] == value
  }

  function Matching(names: FieldNames, row: Row): Test {
    (f: string, v: string) => Matches(names, row, f, v)
  }

  predicate AnyHolds(fs: seq<Formula>, row: Row) {
    exists f :: f in fs && Holds(f, row)
  }

  lemma {:induction false} ClausesMeaning(branch: Branch, names: FieldNames, row: Row)
    requires forall e :: e in branch ==> Known(names, e.fieldId)
    ensures (forall f :: f in Clauses(branch, names) ==> Holds(f, row)) <==> Meets(branch, Matching(names, row))
  {
    if branch != [] {
      ClausesMeaning(branch[1..], names, row);
      assert branch[0] in branch;
      var head, tail := Eq(names[branch[0].fieldId], branch[0].value), Clauses(branch[1..], names);
      assert Holds(head, row) <==> Matching(names, row)(branch[0].fieldId, branch[0].value) by {
        assert Known(names, branch[0].fieldId);
      }
      assert forall e :: e in branch <==> e == branch[0] || e in branch[1..];
      assert Clauses(branch, names) == [head] + tail;
      assert forall f :: f in [head] + tail <==> f == head || f in tail;
    }
  }

  lemma BranchFormulaMeaning(branch: Branch, names: FieldNames, row: Row)
    requires branch != []
    ensures (BranchFormula(branch, names).Some? && Holds(BranchFormula(branch, names).value, row))
      <==> Meets(branch, Matching(names, row))
  {
    if forall e :: e in branch ==> Known(names, e.fieldId) {
      ClausesMeaning(branch, names, row);
      if |branch| == 1 {
        assert Clauses(branch, names) == [Clauses(branch, names)[0]];
      }
    }
  }

  lemma AnyHoldsAppend(a: seq<Formula>, b: seq<Formula>, row: Row)
    ensures AnyHolds(a + b, row) <==> AnyHolds(a, row) || AnyHolds(b, row)
  {
    assert forall f :: f in a + b <==> f in a || f in b;
  }

  lemma FormulaOfMeaning(branch: Branch, names: FieldNames, row: Row)
    requires branch != []
    ensures AnyHolds(FormulaOf(branch, names), row) <==> Meets(branch, Matching(names, row))
  {
    BranchFormulaMeaning(branch, names, row);
    assert BranchFormula(branch, names).Some? ==> BranchFormula(branch, names).value in FormulaOf(branch, names);
  }

  lemma {:induction false} BranchFormulasMeaning(branches: seq<Branch>, names: FieldNames, row: Row)
    requires forall b :: b in branches ==> b != []
    ensures AnyHolds(BranchFormulas(branches, names), row) <==> AnyMeets(branches, Matching(names, row))
  {
    if branches != [] {
      assert branches[0] in branches && forall b :: b in branches[1..] ==> b in branches;
      BranchFormulasMeaning(branches[1..], names, row);
      FormulaOfMeaning(branches[0], names, row);
      AnyMeetsConses(branches, Matching(names, row));
      AnyHoldsAppend(FormulaOf(branches[0], names), BranchFormulas(branches[1..], names), row);
    }
  }

  lemma {:induction false} CrossedLengths(partials: seq<Branch>, entry: Entry, values: seq<string>, n: nat)
    requires forall p :: p in partials ==> |p| == n
    ensures forall b :: b in Crossed(partials, entry, values) ==> |b| == n + 1
  {
    if partials != [] {
      CrossedLengths(partials[1..], entry, values, n);
    }
  }

  lemma {:induction false} ExpandedLengths(partials: seq<Branch>, entries: seq<Entry>, record: Record, n: nat)
    requires forall p :: p in partials ==> |p| == n
    ensures forall b :: b in Expanded(partials, entries, record) ==> |b| == n + |entries|
    decreases |entries|
  {
    if entries != [] {
      CrossedLengths(partials, entries[0], Values(record, entries[0].field), n);
      ExpandedLengths(Crossed(partials, entries[0], Values(record, entries[0].field)), entries[1..], record, n + 1);
    }
  }

  lemma EntryMeaning(e: Entry, record: Record, names: FieldNames, row: Row)
    ensures AnyAsserted(record, e.field, Matching(names, row)) <==>
      Known(names, e.field) && names[e.field] in row && IsAsserted(record, e.field, row[names[e.field]])
  {
    if Known(names, e.field) && names[e.field] in row {
      assert Matching(names, row)(e.field, row[names[e.field]]);
    }
  }

  lemma BranchesOfMeaning(entries: seq<Entry>, record: Record, names: FieldNames, row: Row)
    ensures AnyMeets(BranchesOf(entries, record), Matching(names, row)) <==> Selects(entries, record, names, row)
  {
    var test := Matching(names, row);
    var none: Branch := [];
    ExpansionKeepsMeaning([none], entries, record, test);
    assert none in [none] && Meets(none, test);
    forall e | e in entries
      ensures AnyAsserted(record, e.field, test) <==>
        Known(names, e.field) && names[e.field] in row && IsAsserted(record, e.field, row[names[e.field]])
      ensures AnyAsserted(record, e.field, test) ==> Values(record, e.field) != []
    {
      EntryMeaning(e, record, names, row);
      AnyValueIsAsserted(record, e.field, test);
    }
  }

  lemma BranchesOfNonEmpty(entries: seq<Entry>, record: Record)
    ensures forall b :: b in BranchesOf(entries, record) ==> b != []
  {
    ExpandedLengths([[]], entries, record, 0);
  }

  predicate AnySelects(constraints: seq<seq<Entry>>, record: Record, names: FieldNames, row: Row) {
    exists c :: c in constraints && Selects(c, record, names, row)
  }

  lemma {:induction false} BranchesMeaning(constraints: seq<seq<Entry>>, record: Record, names: FieldNames, row: Row)
    ensures AnyMeets(Branches(constraints, record), Matching(names, row)) <==> AnySelects(constraints, record, names, row)
    ensures forall b :: b in Branches(constraints, record) ==> b != []
  {
    if constraints != [] {
      BranchesMeaning(constraints[1..], record, names, row);
      BranchesOfMeaning(constraints[0], record, names, row);
      BranchesOfNonEmpty(constraints[0], record);
      AnyMeetsAppend(BranchesOf(constraints[0], record), Branches(constraints[1..], record), Matching(names, row));
      assert forall c :: c in constraints <==> c == constraints[0] || c in constraints[1..];
    }
  }

  /** A row is selected exactly when some constraint branch, complete in the
      asserted record and naming only known fields, has every field equal to one
      of its asserted values. */
  lemma FormulaSelectsExactly(constraints: seq<seq<Entry>>, record: Record, names: FieldNames, row: Row)
    ensures (FilterFormula(constraints, record, names).Some? && Holds(FilterFormula(constraints, record, names).value, row))
      <==> AnySelects(constraints, record, names, row)
  {
    var fs := BranchFormulas(Branches(constraints, record), names);
    BranchesMeaning(constraints, record, names, row);
    BranchFormulasMeaning(Branches(constraints, record), names, row);
    if |fs| == 1 {
      assert fs == [fs[0]];
    }
  }

  // ── What Airtable reads ────────────────────────────────────────────────

  lemma {:induction false} ClausesProper(branch: Branch, names: FieldNames)
    requires forall e :: e in branch ==> Known(names, e.fieldId)
    ensures forall f :: f in Clauses(branch, names) ==> f.Eq?
    ensures |Clauses(branch, names)| == |branch|
  {
    if branch != [] {
      ClausesProper(branch[1..], names);
    }
  }

  lemma BranchFormulaProper(branch: Branch, names: FieldNames)
    ensures BranchFormula(branch, names).Some? ==> Proper(BranchFormula(branch, names).value)
  {
    if BranchFormula(branch, names).Some? {
      ClausesProper(branch, names);
      var f := BranchFormula(branch, names).value;
      if |branch| > 1 {
        assert f == And(Clauses(branch, names));
        assert forall x :: x in f.operands ==> Proper(x);
      }
    }
  }

  lemma {:induction false} BranchFormulasProper(branches: seq<Branch>, names: FieldNames)
    ensures forall f :: f in BranchFormulas(branches, names) ==> Proper(f)
  {
    if branches != [] {
      BranchFormulasProper(branches[1..], names);
      BranchFormulaProper(branches[0], names);
    }
  }

  lemma FilterIsProper(constraints: seq<seq<Entry>>, record: Record, names: FieldNames)
    requires FilterFormula(constraints, record, names).Some?
    ensures Proper(FilterFormula(constraints, record, names).value)
  {
    var f, fs := FilterFormula(constraints, record, names).value, BranchFormulas(Branches(constraints, record), names);
    BranchFormulasProper(Branches(constraints, record), names);
    if |fs| == 1 {
      assert fs[0] in fs;
    } else {
      assert f == Or(fs);
      assert forall x :: x in f.operands ==> Proper(x);
    }
  }

  /** The text sent reads back as the formula built if and only if no field that
      formula names has a closing brace in its name; and then it selects exactly
      those rows. */
  lemma SentTextSelectsExactly(constraints: seq<seq<Entry>>, record: Record, names: FieldNames, row: Row)
    requires FilterFormula(constraints, record, names).Some?
    ensures var f := FilterFormula(constraints, record, names).value;
      && (Parse(Spell(f)) == Some((f, "")) <==> BraceFree(f))
      && (BraceFree(f) ==> (Holds(Parse(Spell(f)).value.0, row) <==> AnySelects(constraints, record, names, row)))
  {
    FilterIsProper(constraints, record, names);
    ReadsBackIffBraceFree(FilterFormula(constraints, record, names).value);
    FormulaSelectsExactly(constraints, record, names, row);
  }
}
