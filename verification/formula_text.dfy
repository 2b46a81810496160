/**
 The Airtable formulas the module sends, as a tree, as text, and read back.
 */
module FormulaText {
  import opened Options
  import opened Sequences

  /** `{field} = "value"`, and n-ary AND and OR. */
  datatype Formula = Eq(field: string, value: string) | And(operands: seq<Formula>) | Or(operands: seq<Formula>)

  type Row = map<string, string>

  predicate Holds(f: Formula, row: Row) {
    match f
    case Eq(field, value) => field in row && row[field] == value
    case And(fs) => forall x :: x in fs ==> Holds(x, row)
    case Or(fs) => exists x :: x in fs && Holds(x, row)
  }

  // ── Escaping ───────────────────────────────────────────────────────────

  function Replace(s: string, c: char, with: string): string {
    if s == "" then "" else (if s[0] == c then with else [s[0]]) + Replace(s[1..], c, with)
  }

  /** Backslashes are doubled, then quotes are backslashed. */
  function EscapeAirtableString(s: string): string {
    Replace(Replace(s, '\\', "\\\\"), '\"', "\\\"")
  }

  /** The same in one pass. */
  function Escaped(s: string): string {
    if s == "" then ""
    else (if s[0] == '\\' then "\\\\" else if s[0] == '\"' then "\\\"" else [s[0]]) + Escaped(s[1..])
  }

  lemma {:induction false} ReplaceAppend(a: string, b: string, c: char, with: string)
    ensures Replace(a + b, c, with) == Replace(a, c, with) + Replace(b, c, with)
  {
    if a == "" {
      assert a + b == b;
    } else {
      assert (a + b)[1..] == a[1..] + b;
      ReplaceAppend(a[1..], b, c, with);
    }
  }

  /** The order of the two replacements is right: they are the one-pass escape. */
  lemma {:induction false} TwoPassesAreOne(s: string)
    ensures EscapeAirtableString(s) == Escaped(s)
  {
    if s != "" {
      TwoPassesAreOne(s[1..]);
      var head := if s[0] == '\\' then "\\\\" else [s[0]];
      ReplaceAppend(head, Replace(s[1..], '\\', "\\\\"), '\"', "\\\"");
      assert Replace("\\\\", '\"', "\\\"") == "\\\\" by {
        assert "\\\\"[1..] == "\\";
      }
      assert [s[0]][1..] == "";
    }
  }

  // ── Text ───────────────────────────────────────────────────────────────

  function Join(parts: seq<string>): string {
    if parts == [] then "" else if |parts| == 1 then parts[0] else parts[0] + "," + Join(parts[1..])
  }

  function Spell(f: Formula): string
    decreases f, 1
  {
    match f
    case Eq(field, value) => "{" + field + "} = \"" + EscapeAirtableString(value) + "\""
    case And(fs) => "AND(" + Join(SpellAll(fs)) + ")"
    case Or(fs) => "OR(" + Join(SpellAll(fs)) + ")"
  }

  function SpellAll(fs: seq<Formula>): (parts: seq<string>)
    ensures |parts| == |fs|
    decreases fs, 0
  {
    if fs == [] then [] else [Spell(fs[0])] + SpellAll(fs[1..])
  }

  // ── Reading it back ────────────────────────────────────────────────────

  /** A quoted text's content from after its opening quote, and what follows its closing one. */
  function ReadText(s: string): Option<(string, string)> {
    if s == "" then None
    else if s[0] == '\"' then Some(("", s[1..]))
    else if s[0] == '\\' then
      if |s| == 1 then None
      else
        var rest := ReadText(s[2..]);
        if rest.None? then None else Some(([s[1]] + rest.value.0, rest.value.1))
    else
      var rest := ReadText(s[1..]);
      if rest.None? then None else Some(([s[0]] + rest.value.0, rest.value.1))
  }

  /** A field name, up to the first closing brace. */
  function ReadName(s: string): (r: Option<(string, string)>)
    ensures r.Some? ==> '}' !in r.value.0 && s == r.value.0 + "}" + r.value.1
  {
    if s == "" then None
    else if s[0] == '}' then Some(("", s[1..]))
    else
      var rest := ReadName(s[1..]);
      if rest.None? then None else Some(([s[0]] + rest.value.0, rest.value.1))
  }

  lemma {:induction false} ReadTextShrinks(s: string)
    ensures ReadText(s).Some? ==> |ReadText(s).value.1| < |s|
  {
    if s != "" && s[0] != '\"' {
      if s[0] == '\\' && |s| > 1 {
        ReadTextShrinks(s[2..]);
      } else if s[0] != '\\' {
        ReadTextShrinks(s[1..]);
      }
    }
  }

  function ReadEq(s: string): (r: Option<(Formula, string)>)
    ensures r.Some? ==> r.value.0.Eq? && '}' !in r.value.0.field && |r.value.1| < |s|
  {
    var name := ReadName(s);
    if name.None? || !(" = \"" <= name.value.1) then None
    else
      ReadTextShrinks(name.value.1[4..]);
      var text := ReadText(name.value.1[4..]);
      if text.None? then None else Some((Eq(name.value.0, text.value.0), text.value.1))
  }

  /** One formula off the front of a text, and the rest. */
  function Parse(s: string): (r: Option<(Formula, string)>)
    ensures r.Some? ==> |r.value.1| < |s|
    decreases |s|, 0
  {
    if "{" <= s then ReadEq(s[1..])
    else if "AND(" <= s then
      var fs := ParseList(s[4..]);
      if fs.None? then None else Some((And(fs.value.0), fs.value.1))
    else if "OR(" <= s then
      var fs := ParseList(s[3..]);
      if fs.None? then None else Some((Or(fs.value.0), fs.value.1))
    else None
  }

  /** Formulas parted by commas, to the closing parenthesis. */
  function ParseList(s: string): (r: Option<(seq<Formula>, string)>)
    ensures r.Some? ==> |r.value.1| < |s|
    decreases |s|, 1
  {
    var first := Parse(s);
    if first.None? then None
    else
      var rest := first.value.1;
      if ")" <= rest then Some(([first.value.0], rest[1..]))
      else if "," <= rest then
        var more := ParseList(rest[1..]);
        if more.None? then None else Some(([first.value.0] + more.value.0, more.value.1))
      else None
  }

  // ── The round trip ─────────────────────────────────────────────────────

  /** Every AND and OR has operands; the module sends no other. */
  predicate Proper(f: Formula) {
    f.Eq? || (f.operands != [] && forall x :: x in f.operands ==> Proper(x))
  }

  /** No field name holds a closing brace. */
  predicate BraceFree(f: Formula) {
    match f
    case Eq(field, _) => '}' !in field
    case And(fs) => forall x :: x in fs ==> BraceFree(x)
    case Or(fs) => forall x :: x in fs ==> BraceFree(x)
  }

  lemma {:induction false} TextReadsBack(value: string, rest: string)
    ensures ReadText(Escaped(value) + "\"" + rest) == Some((value, rest))
  {
    var s := Escaped(value) + "\"" + rest;
    if value == "" {
      assert s == "\"" + rest;
      assert s[1..] == rest;
    } else {
      TextReadsBack(value[1..], rest);
      var tail := Escaped(value[1..]) + "\"" + rest;
      if value[0] == '\\' || value[0] == '\"' {
        assert s == ['\\', value[0]] + tail;
        assert s[2..] == tail;
      } else {
        assert s == [value[0]] + tail;
        assert s[1..] == tail;
      }
      assert value == [value[0]] + value[1..];
    }
  }

  lemma {:induction false} NameReadsBack(field: string, rest: string)
    requires '}' !in field
    ensures ReadName(field + "}" + rest) == Some((field, rest))
  {
    var s := field + "}" + rest;
    if field == "" {
      assert s == "}" + rest;
      assert s[1..] == rest;
    } else {
      assert s[1..] == field[1..] + "}" + rest;
      NameReadsBack(field[1..], rest);
      assert s[0] == field[0] && field == [field[0]] + field[1..];
    }
  }

  lemma EqSpelled(field: string, value: string, rest: string)
    ensures Spell(Eq(field, value)) + rest == "{" + (field + "}" + (" = \"" + (Escaped(value) + "\"" + rest)))
  {
    TwoPassesAreOne(value);
    assert "} = \"" == "}" + " = \"";
  }

  lemma EqReadsBack(field: string, value: string, rest: string)
    requires '}' !in field
    ensures Parse(Spell(Eq(field, value)) + rest) == Some((Eq(field, value), rest))
  {
    var quoted := Escaped(value) + "\"" + rest;
    var valued := " = \"" + quoted;
    EqSpelled(field, value, rest);
    var s := "{" + (field + "}" + valued);
    assert s[0] == '{' && s[1..] == field + "}" + valued;
    NameReadsBack(field, valued);
    assert " = \"" <= valued && valued[4..] == quoted;
    TextReadsBack(value, rest);
  }

  /** A formula's text, whatever follows it, reads back as the formula. */
  lemma {:induction false} ReadsBack(f: Formula, rest: string)
    requires Proper(f) && BraceFree(f)
    ensures Parse(Spell(f) + rest) == Some((f, rest))
    decreases f, 1
  {
    match f
    case Eq(field, value) => EqReadsBack(field, value, rest);
    case And(fs) =>
      var inside := Join(SpellAll(fs)) + ")" + rest;
      var s := Spell(f) + rest;
      assert s == "AND(" + inside;
      assert s[0] == 'A' && s[4..] == inside;
      ListReadsBack(fs, rest);
    case Or(fs) =>
      var inside := Join(SpellAll(fs)) + ")" + rest;
      var s := Spell(f) + rest;
      assert s == "OR(" + inside;
      assert s[0] == 'O' && s[3..] == inside;
      ListReadsBack(fs, rest);
  }

  lemma ListEnds(s: string, f: Formula, rest: string)
    requires Parse(s) == Some((f, ")" + rest))
    ensures ParseList(s) == Some(([f], rest))
  {
    assert (")" + rest)[1..] == rest;
  }

  lemma ListGoesOn(s: string, f: Formula, tail: string, fs: seq<Formula>, rest: string)
    requires Parse(s) == Some((f, "," + tail)) && ParseList(tail) == Some((fs, rest))
    ensures ParseList(s) == Some(([f] + fs, rest))
  {
    assert ("," + tail)[1..] == tail && ("," + tail)[0] == ',';
  }

  lemma JoinConses(head: string, parts: seq<string>)
    requires parts != []
    ensures Join([head] + parts) == head + "," + Join(parts)
  {
    assert ([head] + parts)[1..] == parts;
  }

  lemma ListSpelled(fs: seq<Formula>, rest: string)
    requires fs != []
    ensures Join(SpellAll(fs)) + ")" + rest
      == Spell(fs[0]) + if |fs| == 1 then ")" + rest else "," + (Join(SpellAll(fs[1..])) + ")" + rest)
  {
    var head, parts := Spell(fs[0]), SpellAll(fs[1..]);
    if |fs| == 1 {
      Assoc(head, ")", rest);
    } else {
      JoinConses(head, parts);
      var j := Join(parts);
      Assoc(head, ",", j);
      Assoc(head, "," + j, ")");
      Assoc(head, "," + j + ")", rest);
      Assoc(",", j, ")");
      Assoc(",", j + ")", rest);
    }
  }

  lemma {:induction false} ListReadsBack(fs: seq<Formula>, rest: string)
    requires fs != [] && forall x :: x in fs ==> Proper(x) && BraceFree(x)
    ensures ParseList(Join(SpellAll(fs)) + ")" + rest) == Some((fs, rest))
    decreases fs, 0
  {
    var s := Join(SpellAll(fs)) + ")" + rest;
    ListSpelled(fs, rest);
    if |fs| == 1 {
      ReadsBack(fs[0], ")" + rest);
      ListEnds(s, fs[0], rest);
      assert fs == [fs[0]];
    } else {
      var tail := Join(SpellAll(fs[1..])) + ")" + rest;
      ReadsBack(fs[0], "," + tail);
      ListReadsBack(fs[1..], rest);
      ListGoesOn(s, fs[0], tail, fs[1..], rest);
      assert fs == [fs[0]] + fs[1..];
    }
  }

  lemma {:induction false} ParsedIsBraceFree(s: string)
    ensures Parse(s).Some? ==> BraceFree(Parse(s).value.0)
    ensures ParseList(s).Some? ==> forall x :: x in ParseList(s).value.0 ==> BraceFree(x)
    decreases |s|
  {
    if "AND(" <= s {
      ParsedIsBraceFree(s[4..]);
    } else if "OR(" <= s {
      ParsedIsBraceFree(s[3..]);
    }
    if Parse(s).Some? && "," <= Parse(s).value.1 {
      ParsedIsBraceFree(Parse(s).value.1[1..]);
    }
  }

  /** The text of a formula is read back as that formula if and only if none of
      its field names holds a closing brace. */
  lemma ReadsBackIffBraceFree(f: Formula)
    requires Proper(f)
    ensures Parse(Spell(f)) == Some((f, "")) <==> BraceFree(f)
  {
    if BraceFree(f) {
      ReadsBack(f, "");
      assert Spell(f) + "" == Spell(f);
    }
    ParsedIsBraceFree(Spell(f));
  }

  /** With a brace in a name, two formulas that mean different things spell alike:
      the braced name reads as the end of one equality and the start of the next. */
  lemma BracedNameSpellsAsAnother(a: string, b: string, x: string, y: string, last: Formula)
    requires a != b
    ensures var braced := And([Eq(a + "} = \"" + Escaped(x) + "\",{" + b, y), last]);
      var plain := And([Eq(a, x), Eq(b, y), last]);
      braced != plain && Spell(braced) == Spell(plain)
  {
    var e := Eq(a + "} = \"" + Escaped(x) + "\",{" + b, y);
    var braced, plain := And([e, last]), And([Eq(a, x), Eq(b, y), last]);
    assert |braced.operands| != |plain.operands|;
    BracedEqSpelled(a, b, x, y);
    assert [e, last][1..] == [last] && [last][1..] == [];
    assert plain.operands[1..] == [Eq(b, y), last] && [Eq(b, y), last][1..] == [last];
    assert SpellAll([last]) == [Spell(last)];
    assert SpellAll([Eq(b, y), last]) == [Spell(Eq(b, y))] + SpellAll([last]);
    assert SpellAll(plain.operands) == [Spell(Eq(a, x))] + SpellAll([Eq(b, y), last]);
    assert SpellAll(braced.operands) == [Spell(e)] + SpellAll([last]);
    JoinsAlike(Spell(e), Spell(Eq(a, x)), Spell(Eq(b, y)), Spell(last));
  }

  lemma BracedEqSpelled(a: string, b: string, x: string, y: string)
    ensures Spell(Eq(a + "} = \"" + Escaped(x) + "\",{" + b, y)) == Spell(Eq(a, x)) + "," + Spell(Eq(b, y))
  {
    var first := a + "} = \"" + Escaped(x);
    var name := first + "\",{" + b;
    EqSpelled(a, x, "");
    EqSpelled(b, y, "");
    EqSpelled(name, y, "");
    var left := "{" + first + "\"";
    var right := "{" + b + "} = \"" + Escaped(y) + "\"";
    assert Spell(Eq(a, x)) == left by {
      TwoPassesAreOne(x);
      Assoc("{", a + "} = \"", Escaped(x));
      Assoc("{", a, "} = \"");
    }
    TwoPassesAreOne(y);
    assert Spell(Eq(b, y)) == right;
    var close := "} = \"" + Escaped(y) + "\"";
    calc {
      Spell(Eq(name, y));
      "{" + name + "} = \"" + Escaped(y) + "\"";
      { Assoc("{" + name, "} = \"", Escaped(y)); Assoc("{" + name, "} = \"" + Escaped(y), "\""); }
      ("{" + name) + close;
      { Assoc(first, "\",{", b); Assoc("{", first, "\",{" + b); }
      (("{" + first) + ("\",{" + b)) + close;
      { Assoc("\"", ",{", b); assert "\"" + ",{" == "\",{"; Assoc("{" + first, "\"", ",{" + b); }
      (left + (",{" + b)) + close;
      { Assoc(",", "{", b); assert "," + "{" == ",{"; Assoc(left, ",", "{" + b); }
      ((left + ",") + ("{" + b)) + close;
      { Assoc(left + ",", "{" + b, close); }
      (left + ",") + (("{" + b) + close);
      { Assoc("{" + b, "} = \"", Escaped(y)); Assoc("{" + b, "} = \"" + Escaped(y), "\""); }
      (left + ",") + right;
    }
  }

  lemma JoinsAlike(both: string, p: string, q: string, last: string)
    requires both == p + "," + q
    ensures Join([both] + [last]) == Join([p] + ([q] + [last]))
  {
    assert ([both] + [last])[1..] == [last];
    assert ([p] + ([q] + [last]))[1..] == [q] + [last] && ([q] + [last])[1..] == [last];
    assert Join([last]) == last;
  }
}
