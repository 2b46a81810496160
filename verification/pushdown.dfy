/**
 The one conjunct of a WHERE a root read pushes down to Affinity as a search
 term, and why filtering what comes back answers the whole WHERE.
 */
module Pushdown {
  import opened Options
  import opened PagedSearch

  datatype CompareOp = Eq | OtherOp(code: int)

  datatype Operand =
    | Property(name: string)
    | EdgeProperty(name: string)
    | StaticText(text: string)
    | OtherOperand(code: int)

  /** A hop's predicate. `OtherExpression` is any form the pushdown does not read. */
  datatype Where =
    | And(operands: seq<Where>)
    | Or(operands: seq<Where>)
    | Not(operand: Where)
    | Compare(op: CompareOp, left: Operand, right: Operand)
    | OtherExpression(code: int)

  /** A record as the filter reads it: its fields by field id. */
  datatype Record = Record(id: int, global: bool, fields: map<string, string>)

  /** What is not the pushdown's to say: which field a name is, and what every
      comparison other than a field against a text means. */
  datatype Meaning = Meaning(
    fieldId: string -> Option<string>,
    compare: (CompareOp, Operand, Operand, Record) -> bool,
    other: (int, Record) -> bool)

  function FieldName(operand: Operand): Option<string> {
    if operand.Property? || operand.EdgeProperty? then Some(operand.name) else None
  }

  /** The field a comparison names and the text it equals, when it is one. */
  function FieldEquals(m: Meaning, w: Where): Option<(string, string)> {
    if w.Compare? && w.op == Eq && FieldName(w.left).Some? && w.right.StaticText? then
      var fieldId := m.fieldId(FieldName(w.left).value);
      if fieldId.Some? then Some((fieldId.value, w.right.text)) else None
    else None
  }

  predicate Holds(m: Meaning, w: Where, r: Record) {
    match w
    case And(ws) => forall x :: x in ws ==> Holds(m, x, r)
    case Or(ws) => exists x :: x in ws && Holds(m, x, r)
    case Not(x) => !Holds(m, x, r)
    case Compare(op, left, right) =>
      if FieldEquals(m, w).Some? then
        var (fieldId, text) := FieldEquals(m, w).value;
        fieldId in r.fields && r.fields[fieldId] == text
      else m.compare(op, left, right, r)
    case OtherExpression(code) => m.other(code, r)
  }

  /** What a WHERE conjoins: ANDs are opened to any depth, and nothing else is. */
  function FlattenAnd(w: Where): seq<Where>
    decreases w, 1
  {
    if w.And? then FlattenAll(w.operands) else [w]
  }

  function FlattenAll(ws: seq<Where>): seq<Where>
    decreases ws, 0
  {
    if ws == [] then [] else FlattenAnd(ws[0]) + FlattenAll(ws[1..])
  }

  /** The first conjunct that is a text equality on a field the term search reads. */
  function FirstPushable(m: Meaning, conjuncts: seq<Where>, searchable: set<string>): Option<(string, string)> {
    if conjuncts == [] then None
    else
      var eq := FieldEquals(m, conjuncts[0]);
      if eq.Some? && eq.value.0 in searchable then eq
      else FirstPushable(m, conjuncts[1..], searchable)
  }

  /** The term the read is narrowed by, found by walking the conjuncts in order. */
  method TermFromWhere(m: Meaning, where: Option<Where>, searchable: set<string>) returns (term: Option<string>)
    ensures term == Term(m, where, searchable)
  {
    if where.None? { return None; }
    var conjuncts := FlattenAnd(where.value);
    for i := 0 to |conjuncts|
      invariant FirstPushable(m, conjuncts, searchable) == FirstPushable(m, conjuncts[i..], searchable)
    {
      var conjunct := conjuncts[i];
      if !conjunct.Compare? || conjunct.op != Eq { continue; }
      var field := FieldName(conjunct.left);
      if field.None? || !conjunct.right.StaticText? { continue; }
      var fieldId := m.fieldId(field.value);
      if fieldId.Some? && fieldId.value in searchable {
        return Some(conjunct.right.text);
      }
    }
    return None;
  }

  function Term(m: Meaning, where: Option<Where>, searchable: set<string>): Option<string> {
    if where.None? then None
    else
      var pushed := FirstPushable(m, FlattenAnd(where.value), searchable);
      if pushed.Some? then Some(pushed.value.1) else None
  }

  predicate Contains(text: string, term: string) {
    exists i :: 0 <= i <= |text| - |term| && text[i..][..|term|] == term
  }

  /** Affinity's term search errs one way: it may bring more, but never leaves
      out a workspace record holding the term within a field it searches. */
  ghost predicate Searches(workspace: seq<Record>, hits: string -> seq<Record>, searchable: set<string>) {
    && (forall term, r :: r in hits(term) ==> r in workspace)
    && (forall term, r, f :: r in workspace && f in searchable && f in r.fields && Contains(r.fields[f], term) ==> r in hits(term))
  }

  /** Our own filter over what a term holds: Affinity's global dataset dropped. */
  function Private(records: seq<Record>): seq<Record> {
    if records == [] then []
    else (if records[0].global then [] else [records[0]]) + Private(records[1..])
  }

  lemma {:induction false} PrivateMembers(records: seq<Record>, r: Record)
    ensures r in Private(records) <==> r in records && !r.global
  {
    if records != [] {
      PrivateMembers(records[1..], r);
    }
  }

  /** The root read: every page of the narrowed search, or of the workspace. An
      empty term names no search, so it reads the workspace too. */
  method ListRoot(workspace: seq<Record>, hits: string -> seq<Record>, term: Option<string>) returns (records: seq<Record>)
    ensures records == Private(Narrowed(workspace, hits, term))
  {
    var sent := if term.Some? then term.value else "";
    var all := EveryMatch(sent, Narrowed(workspace, hits, term));
    records := Private(all);
  }

  function Narrowed(workspace: seq<Record>, hits: string -> seq<Record>, term: Option<string>): seq<Record> {
    if term.None? || term.value == "" then workspace else hits(term.value)
  }

  lemma {:induction false} ConjunctsAllHold(m: Meaning, w: Where, r: Record)
    requires Holds(m, w, r)
    ensures forall x :: x in FlattenAnd(w) ==> Holds(m, x, r)
    decreases w, 1
  {
    if w.And? {
      AllConjunctsHold(m, w.operands, r);
    }
  }

  lemma {:induction false} AllConjunctsHold(m: Meaning, ws: seq<Where>, r: Record)
    requires forall x :: x in ws ==> Holds(m, x, r)
    ensures forall x :: x in FlattenAll(ws) ==> Holds(m, x, r)
    decreases ws, 0
  {
    if ws != [] {
      ConjunctsAllHold(m, ws[0], r);
      AllConjunctsHold(m, ws[1..], r);
    }
  }

  lemma {:induction false} PushedIsAConjunct(m: Meaning, conjuncts: seq<Where>, searchable: set<string>)
    requires FirstPushable(m, conjuncts, searchable).Some?
    ensures var pushed := FirstPushable(m, conjuncts, searchable).value;
      pushed.0 in searchable && exists x :: x in conjuncts && FieldEquals(m, x) == Some(pushed)
  {
    var eq := FieldEquals(m, conjuncts[0]);
    if eq.Some? && eq.value.0 in searchable {
      assert conjuncts[0] in conjuncts;
    } else {
      PushedIsAConjunct(m, conjuncts[1..], searchable);
      var x :| x in conjuncts[1..] && FieldEquals(m, x) == FirstPushable(m, conjuncts, searchable);
      assert x in conjuncts;
    }
  }

  /** A conjunct that is a text equality on a field the search reads. */
  predicate IsPushable(m: Meaning, x: Where, searchable: set<string>, text: string) {
    && x.Compare? && x.op == Eq && x.right == StaticText(text)
    && (x.left.Property? || x.left.EdgeProperty?)
    && m.fieldId(x.left.name).Some? && m.fieldId(x.left.name).value in searchable
  }

  lemma {:induction false} FirstIsPushed(m: Meaning, conjuncts: seq<Where>, searchable: set<string>)
    ensures FirstPushable(m, conjuncts, searchable).None? ==>
      forall i, text :: 0 <= i < |conjuncts| ==> !IsPushable(m, conjuncts[i], searchable, text)
    ensures FirstPushable(m, conjuncts, searchable).Some? ==>
      IsFirstPushable(m, conjuncts, searchable, FirstPushable(m, conjuncts, searchable).value.1)
  {
    if conjuncts != [] {
      var eq := FieldEquals(m, conjuncts[0]);
      if eq.Some? && eq.value.0 in searchable {
        assert IsPushable(m, conjuncts[0], searchable, eq.value.1);
      } else {
        FirstIsPushed(m, conjuncts[1..], searchable);
        assert forall text :: !IsPushable(m, conjuncts[0], searchable, text);
        assert forall i :: 0 < i < |conjuncts| ==> conjuncts[i] == conjuncts[1..][i - 1];
        if FirstPushable(m, conjuncts[1..], searchable).Some? {
          var text := FirstPushable(m, conjuncts, searchable).value.1;
          var i :| 0 <= i < |conjuncts[1..]| && IsPushable(m, conjuncts[1..][i], searchable, text)
            && forall j, t :: 0 <= j < i ==> !IsPushable(m, conjuncts[1..][j], searchable, t);
          assert IsPushable(m, conjuncts[i + 1], searchable, text);
        }
      }
    }
  }

  ghost predicate IsFirstPushable(m: Meaning, conjuncts: seq<Where>, searchable: set<string>, text: string) {
    exists i :: 0 <= i < |conjuncts| && IsPushable(m, conjuncts[i], searchable, text)
      && forall j, t :: 0 <= j < i ==> !IsPushable(m, conjuncts[j], searchable, t)
  }

  /** A conjunct of a WHERE: the WHERE itself unless it is an AND, or a conjunct of
      one of that AND's operands. */
  ghost predicate IsConjunct(w: Where, x: Where) {
    if w.And? then exists i :: 0 <= i < |w.operands| && IsConjunct(w.operands[i], x) else x == w
  }

  lemma {:induction false} FlattenedAreConjuncts(w: Where, x: Where)
    ensures x in FlattenAnd(w) <==> IsConjunct(w, x)
    decreases w, 1
  {
    if w.And? {
      AllFlattenedAreConjuncts(w.operands, x);
    }
  }

  lemma {:induction false} AllFlattenedAreConjuncts(ws: seq<Where>, x: Where)
    ensures x in FlattenAll(ws) <==> exists i :: 0 <= i < |ws| && IsConjunct(ws[i], x)
    decreases ws, 0
  {
    if ws != [] {
      FlattenedAreConjuncts(ws[0], x);
      AllFlattenedAreConjuncts(ws[1..], x);
      if i :| 0 <= i < |ws| && IsConjunct(ws[i], x) {
        assert i > 0 ==> ws[1..][i - 1] == ws[i];
      }
      if i :| 0 <= i < |ws[1..]| && IsConjunct(ws[1..][i], x) {
        assert ws[i + 1] == ws[1..][i];
      }
    }
  }

  /** A text is pushed if and only if some conjunct is a text equality on a field
      the search reads; and what is pushed is the first such conjunct's text. */
  lemma TermIsTheFirstPushable(m: Meaning, where: Where, searchable: set<string>)
    ensures Term(m, Some(where), searchable).Some? <==> exists x, text :: IsConjunct(where, x) && IsPushable(m, x, searchable, text)
    ensures Term(m, Some(where), searchable).Some? ==>
      IsFirstPushable(m, FlattenAnd(where), searchable, Term(m, Some(where), searchable).value)
  {
    var conjuncts := FlattenAnd(where);
    FirstIsPushed(m, conjuncts, searchable);
    if Term(m, Some(where), searchable).Some? {
      var i :| 0 <= i < |conjuncts| && IsPushable(m, conjuncts[i], searchable, Term(m, Some(where), searchable).value);
      FlattenedAreConjuncts(where, conjuncts[i]);
    }
    if x, text :| IsConjunct(where, x) && IsPushable(m, x, searchable, text) {
      FlattenedAreConjuncts(where, x);
      var i :| 0 <= i < |conjuncts| && conjuncts[i] == x;
      assert IsPushable(m, conjuncts[i], searchable, text);
    }
  }

  /** Pushing one equality down is sound: for every WHERE, filtering the narrowed
      read by the whole of it gives the records that filtering the workspace gives. */
  lemma PushdownIsSound(m: Meaning, workspace: seq<Record>, hits: string -> seq<Record>, where: Where, searchable: set<string>)
    requires Searches(workspace, hits, searchable)
    ensures var term := Term(m, Some(where), searchable);
      (set r | r in Private(Narrowed(workspace, hits, term)) && Holds(m, where, r))
      == (set r | r in Private(workspace) && Holds(m, where, r))
  {
    var term := Term(m, Some(where), searchable);
    forall r | Holds(m, where, r)
      ensures r in Private(Narrowed(workspace, hits, term)) <==> r in Private(workspace)
    {
      PrivateMembers(Narrowed(workspace, hits, term), r);
      PrivateMembers(workspace, r);
      if term.Some? && r in workspace {
        MatchesItsTerm(m, where, searchable, r);
      }
    }
  }

  /** A record that meets the WHERE holds the pushed text in a field searched. */
  lemma MatchesItsTerm(m: Meaning, where: Where, searchable: set<string>, r: Record)
    requires Term(m, Some(where), searchable).Some? && Holds(m, where, r)
    ensures exists f :: f in searchable && f in r.fields && Contains(r.fields[f], Term(m, Some(where), searchable).value)
  {
    var (field, text) := FirstPushable(m, FlattenAnd(where), searchable).value;
    PushedIsAConjunct(m, FlattenAnd(where), searchable);
    ConjunctsAllHold(m, where, r);
    var x :| x in FlattenAnd(where) && FieldEquals(m, x) == Some((field, text));
    assert r.fields[field] == text;
    assert text[0..][..|text|] == text;
  }
}
