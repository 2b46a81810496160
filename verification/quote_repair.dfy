/**
 Escaping the quotes a model left bare inside JSON strings: one scan, which
 takes a quote for a string's end only before what may follow a string.
 */
module QuoteRepair {
  import opened JsText
  import opened Sequences

  /** What follows a quote that ends a string: nothing, or JSON structure. */
  predicate Closes(rest: string) {
    if rest == "" then true else if IsSpace(rest[0]) then Closes(rest[1..]) else rest[0] in {',', ':', '}', ']'}
  }

  /** The repaired text, from a place inside or outside a string. */
  function Repair(json: string, inString: bool): string {
    if json == "" then ""
    else if !inString then [json[0]] + Repair(json[1..], json[0] == '\"')
    else if json[0] == '\\' then
      if |json| == 1 then "\\" else ['\\', json[1]] + Repair(json[2..], true)
    else if json[0] == '\"' then
      if Closes(json[1..]) then ['\"'] + Repair(json[1..], false) else ['\\', '\"'] + Repair(json[1..], true)
    else [json[0]] + Repair(json[1..], true)
  }

  method EscapeInteriorQuotes(json: string) returns (result: string)
    ensures result == Repair(json, false)
  {
    result := "";
    var inString, i := false, 0;
    while i < |json|
      invariant 0 <= i <= |json|
      invariant result + Repair(json[i..], inString) == Repair(json, false)
    {
      var ch, before, rest := json[i], result, json[i..];
      if !inString {
        result := result + [ch];
        inString := ch == '\"';
        i := i + 1;
        Assoc(before, [ch], Repair(json[i..], inString));
      } else if ch == '\\' {
        if i + 1 < |json| {
          result := result + ['\\', json[i + 1]];
          i := i + 2;
          Assoc(before, ['\\', json[i - 1]], Repair(json[i..], true));
        } else {
          result := result + "\\";
          i := i + 1;
        }
      } else if ch == '\"' {
        inString := !Closes(json[i + 1..]);
        result := result + if inString then ['\\', '\"'] else ['\"'];
        i := i + 1;
        Assoc(before, if inString then ['\\', '\"'] else ['\"'], Repair(json[i..], inString));
      } else {
        result := result + [ch];
        i := i + 1;
        Assoc(before, [ch], Repair(json[i..], true));
      }
      assert rest[1..] == json[|json| - |rest| + 1..];
      assert |rest| >= 2 ==> rest[2..] == json[|json| - |rest| + 2..];
    }
  }

  // ── Only backslashes before quotes ─────────────────────────────────────

  /** Which characters of the repaired text the repair put there. */
  ghost function Inserted(json: string, inString: bool): (marks: seq<bool>)
    ensures |marks| == |Repair(json, inString)|
  {
    if json == "" then []
    else if !inString then [false] + Inserted(json[1..], json[0] == '\"')
    else if json[0] == '\\' then
      if |json| == 1 then [false] else [false, false] + Inserted(json[2..], true)
    else if json[0] == '\"' then
      if Closes(json[1..]) then [false] + Inserted(json[1..], false) else [true, false] + Inserted(json[1..], true)
    else [false] + Inserted(json[1..], true)
  }

  function Without(text: string, marks: seq<bool>): string
    requires |text| == |marks|
  {
    if text == "" then "" else (if marks[0] then "" else [text[0]]) + Without(text[1..], marks[1..])
  }

  predicate MarksEscapes(text: string, marks: seq<bool>)
    requires |text| == |marks|
  {
    forall i :: 0 <= i < |text| && marks[i] ==> text[i] == '\\' && i + 1 < |text| && text[i + 1] == '\"'
  }

  lemma OneMarked(c: char, mark: bool, text: string, marks: seq<bool>)
    requires |text| == |marks|
    ensures Without([c] + text, [mark] + marks) == (if mark then "" else [c]) + Without(text, marks)
  {
    assert ([c] + text)[1..] == text && ([mark] + marks)[1..] == marks;
  }

  lemma TwoMarked(c: char, d: char, mark: bool, text: string, marks: seq<bool>)
    requires |text| == |marks|
    ensures Without([c, d] + text, [mark, false] + marks) == (if mark then "" else [c]) + ([d] + Without(text, marks))
  {
    assert [c, d] + text == [c] + ([d] + text) && [mark, false] + marks == [mark] + ([false] + marks);
    OneMarked(c, mark, [d] + text, [false] + marks);
    OneMarked(d, false, text, marks);
  }

  /** What the repair leaves when its insertions are taken out again. */
  lemma {:induction false} WithoutInsertions(json: string, inString: bool)
    ensures Without(Repair(json, inString), Inserted(json, inString)) == json
  {
    if json != "" {
      if inString && json[0] == '\\' && |json| > 1 {
        WithoutInsertions(json[2..], true);
        TwoMarked('\\', json[1], false, Repair(json[2..], true), Inserted(json[2..], true));
        assert json == ['\\'] + ([json[1]] + json[2..]);
      } else if inString && json[0] == '\"' && !Closes(json[1..]) {
        WithoutInsertions(json[1..], true);
        TwoMarked('\\', '\"', true, Repair(json[1..], true), Inserted(json[1..], true));
        assert json == ['\"'] + json[1..];
      } else {
        var next := if inString then json[0] != '\"' else json[0] == '\"';
        WithoutInsertions(json[1..], next);
        OneMarked(json[0], false, Repair(json[1..], next), Inserted(json[1..], next));
        assert json == [json[0]] + json[1..];
      }
    }
  }

  lemma MarksPrefixed(head: string, headMarks: seq<bool>, text: string, marks: seq<bool>)
    requires |head| == |headMarks| && |text| == |marks|
    requires MarksEscapes(head, headMarks) && MarksEscapes(text, marks)
    ensures MarksEscapes(head + text, headMarks + marks)
  {
    var t, m := head + text, headMarks + marks;
    forall i | 0 <= i < |t| && m[i]
      ensures t[i] == '\\' && i + 1 < |t| && t[i + 1] == '\"'
    {
      if i >= |head| {
        assert m[i] == marks[i - |head|] && t[i] == text[i - |head|];
      }
    }
  }

  lemma {:induction false} InsertionsAreEscapes(json: string, inString: bool)
    ensures MarksEscapes(Repair(json, inString), Inserted(json, inString))
  {
    if json != "" {
      if inString && json[0] == '\\' && |json| > 1 {
        InsertionsAreEscapes(json[2..], true);
        MarksPrefixed(['\\', json[1]], [false, false], Repair(json[2..], true), Inserted(json[2..], true));
      } else if inString && json[0] == '\"' && !Closes(json[1..]) {
        InsertionsAreEscapes(json[1..], true);
        MarksPrefixed(['\\', '\"'], [true, false], Repair(json[1..], true), Inserted(json[1..], true));
      } else {
        var next := if inString then json[0] != '\"' else json[0] == '\"';
        InsertionsAreEscapes(json[1..], next);
        MarksPrefixed([json[0]], [false], Repair(json[1..], next), Inserted(json[1..], next));
      }
    }
  }

  /** The repair inserts backslashes before quotes and does nothing else: without
      them, the text is the one it was given. */
  lemma OnlyEscapesAreInserted(json: string)
    ensures MarksEscapes(Repair(json, false), Inserted(json, false))
    ensures Without(Repair(json, false), Inserted(json, false)) == json
  {
    InsertionsAreEscapes(json, false);
    WithoutInsertions(json, false);
  }

  // ── Once is enough ─────────────────────────────────────────────────────

  lemma {:induction false} RepairKeepsCloses(rest: string)
    ensures Closes(Repair(rest, false)) <==> Closes(rest)
  {
    if rest != "" {
      var text := Repair(rest, false);
      assert text[0] == rest[0] && text[1..] == Repair(rest[1..], rest[0] == '\"');
      if IsSpace(rest[0]) {
        RepairKeepsCloses(rest[1..]);
      }
    }
  }

  /** A repaired text needs no repair, whatever it was. */
  lemma {:induction false} RepairIsIdempotent(json: string, inString: bool)
    ensures Repair(Repair(json, inString), inString) == Repair(json, inString)
  {
    if json != "" {
      var text := Repair(json, inString);
      if inString && json[0] == '\\' {
        if |json| > 1 {
          RepairIsIdempotent(json[2..], true);
          assert text[2..] == Repair(json[2..], true);
        }
      } else if inString && json[0] == '\"' && !Closes(json[1..]) {
        RepairIsIdempotent(json[1..], true);
        assert text[2..] == Repair(json[1..], true);
      } else {
        var next := if inString then json[0] != '\"' else json[0] == '\"';
        RepairIsIdempotent(json[1..], next);
        RepairKeepsCloses(json[1..]);
        assert text[0] == json[0] && text[1..] == Repair(json[1..], next);
      }
    }
  }

  // ── JSON texts, some with bare quotes ──────────────────────────────────

  /** A piece of a string (section 7 of RFC 8259); or a quote left bare in it. */
  datatype Piece = Plain(c: char) | Short(escape: char) | Unicode(a: char, b: char, c3: char, d: char) | Bare

  /** A value (section 3) as it is written, its white space with it. A word is a
      literal name or a number. */
  datatype Value =
    | Word(spelled: string)
    | Quoted(pieces: seq<Piece>)
    | Array(blank: string, items: seq<Item>)
    | Object(blank: string, members: seq<Member>)
  datatype Item = Item(before: string, value: Value, after: string)
  datatype Member = Member(before: string, key: seq<Piece>, gap: string, item: Item)

  /** A JSON text (section 2): a value between white space. */
  type Text = Item

  predicate HexDigit(c: char) {
    '0' <= c <= '9' || 'a' <= c <= 'f' || 'A' <= c <= 'F'
  }

  predicate PieceOk(p: Piece) {
    match p
    case Plain(c) => c >= ' ' && c != '\"' && c != '\\'
    case Short(c) => c in {'\"', '\\', '/', 'b', 'f', 'n', 'r', 't'}
    case Unicode(a, b, c, d) => HexDigit(a) && HexDigit(b) && HexDigit(c) && HexDigit(d)
    case Bare => true
  }

  predicate WhiteSpace(s: string) {
    forall c :: c in s ==> c in {' ', '\t', '\n', '\r'}
  }

  /** At least the literal names and the numbers of sections 3 and 6. */
  predicate WordOk(s: string) {
    forall c :: c in s ==> 'a' <= c <= 'z' || '0' <= c <= '9' || c in {'-', '+', '.', 'E'}
  }

  // Each text is written in front of what follows it.

  function Write(p: Piece, rest: string): string {
    match p
    case Plain(c) => [c] + rest
    case Short(c) => ['\\', c] + rest
    case Unicode(a, b, c, d) => ['\\', 'u'] + ([a] + ([b] + ([c] + ([d] + rest))))
    case Bare => ['\"'] + rest
  }

  function WritePieces(pieces: seq<Piece>, rest: string): string {
    if pieces == [] then rest else Write(pieces[0], WritePieces(pieces[1..], rest))
  }

  function WriteQuoted(pieces: seq<Piece>, rest: string): string {
    ['\"'] + WritePieces(pieces, ['\"'] + rest)
  }

  function WriteValue(v: Value, rest: string): string
    decreases v, 1
  {
    match v
    case Word(s) => s + rest
    case Quoted(pieces) => WriteQuoted(pieces, rest)
    case Array(blank, items) => ['['] + (if items == [] then blank + ([']'] + rest) else WriteItems(items, [']'] + rest))
    case Object(blank, members) => ['{'] + (if members == [] then blank + (['}'] + rest) else WriteMembers(members, ['}'] + rest))
  }

  function WriteItem(item: Item, rest: string): string
    decreases item, 2
  {
    item.before + WriteValue(item.value, item.after + rest)
  }

  function WriteItems(items: seq<Item>, rest: string): string
    decreases items, 0
  {
    if items == [] then rest
    else WriteItem(items[0], if |items| == 1 then rest else [','] + WriteItems(items[1..], rest))
  }

  function WriteMember(m: Member, rest: string): string
    decreases m, 3
  {
    m.before + WriteQuoted(m.key, m.gap + ([':'] + WriteItem(m.item, rest)))
  }

  function WriteMembers(members: seq<Member>, rest: string): string
    decreases members, 0
  {
    if members == [] then rest
    else WriteMember(members[0], if |members| == 1 then rest else [','] + WriteMembers(members[1..], rest))
  }

  // A text can be told apart from its bare quotes when none of them stands
  // before what may follow a string.

  predicate PiecesTell(pieces: seq<Piece>, rest: string) {
    pieces == [] || (
      && PieceOk(pieces[0])
      && (pieces[0].Bare? ==> !Closes(WritePieces(pieces[1..], rest)))
      && PiecesTell(pieces[1..], rest))
  }

  predicate ValueTells(v: Value, rest: string)
    decreases v, 1
  {
    match v
    case Word(s) => WordOk(s)
    case Quoted(pieces) => PiecesTell(pieces, ['\"'] + rest)
    case Array(blank, items) => WhiteSpace(blank) && ItemsTell(items, [']'] + rest)
    case Object(blank, members) => WhiteSpace(blank) && MembersTell(members, ['}'] + rest)
  }

  predicate ItemTells(item: Item, rest: string)
    decreases item, 2
  {
    WhiteSpace(item.before) && WhiteSpace(item.after) && ValueTells(item.value, item.after + rest)
  }

  predicate ItemsTell(items: seq<Item>, rest: string)
    decreases items, 0
  {
    items == [] || (
      && ItemTells(items[0], if |items| == 1 then rest else [','] + WriteItems(items[1..], rest))
      && ItemsTell(items[1..], rest))
  }

  predicate MemberTells(m: Member, rest: string)
    decreases m, 3
  {
    && WhiteSpace(m.before) && WhiteSpace(m.gap)
    && PiecesTell(m.key, ['\"'] + (m.gap + ([':'] + WriteItem(m.item, rest))))
    && ItemTells(m.item, rest)
  }

  predicate MembersTell(members: seq<Member>, rest: string)
    decreases members, 0
  {
    members == [] || (
      && MemberTells(members[0], if |members| == 1 then rest else [','] + WriteMembers(members[1..], rest))
      && MembersTell(members[1..], rest))
  }

  // The text meant: each bare quote escaped.

  function Meant(pieces: seq<Piece>): seq<Piece> {
    if pieces == [] then [] else [if pieces[0].Bare? then Short('\"') else pieces[0]] + Meant(pieces[1..])
  }

  function MeantValue(v: Value): Value
    decreases v, 1
  {
    match v
    case Word(_) => v
    case Quoted(pieces) => Quoted(Meant(pieces))
    case Array(blank, items) => Array(blank, MeantItems(items))
    case Object(blank, members) => Object(blank, MeantMembers(members))
  }

  function MeantItem(item: Item): Item
    decreases item, 2
  {
    Item(item.before, MeantValue(item.value), item.after)
  }

  function MeantItems(items: seq<Item>): (r: seq<Item>)
    ensures |r| == |items|
    decreases items, 0
  {
    if items == [] then [] else [MeantItem(items[0])] + MeantItems(items[1..])
  }

  function MeantMembers(members: seq<Member>): (r: seq<Member>)
    ensures |r| == |members|
    decreases members, 0
  {
    if members == [] then []
    else
      var m := members[0];
      [Member(m.before, Meant(m.key), m.gap, MeantItem(m.item))] + MeantMembers(members[1..])
  }

  // ── What the repair makes of them ──────────────────────────────────────

  lemma OneOutside(c: char, rest: string)
    requires c != '\"'
    ensures Repair([c] + rest, false) == [c] + Repair(rest, false)
  {
    assert ([c] + rest)[1..] == rest;
  }

  lemma OneInside(c: char, rest: string)
    requires c != '\"' && c != '\\'
    ensures Repair([c] + rest, true) == [c] + Repair(rest, true)
  {
    assert ([c] + rest)[1..] == rest;
  }

  lemma {:induction false} RunOutside(s: string, rest: string)
    requires forall c :: c in s ==> c != '\"'
    ensures Repair(s + rest, false) == s + Repair(rest, false)
  {
    if s == "" {
      assert s + rest == rest;
    } else {
      assert s + rest == [s[0]] + (s[1..] + rest) && s[0] in s;
      OneOutside(s[0], s[1..] + rest);
      assert forall c :: c in s[1..] ==> c in s;
      RunOutside(s[1..], rest);
      assert s == [s[0]] + s[1..];
    }
  }

  lemma {:induction false} BlankCloses(s: string, rest: string)
    requires WhiteSpace(s) && Closes(rest)
    ensures Closes(s + rest)
  {
    if s == "" {
      assert s + rest == rest;
    } else {
      assert (s + rest)[1..] == s[1..] + rest && s[0] in s;
      assert forall c :: c in s[1..] ==> c in s;
      BlankCloses(s[1..], rest);
    }
  }

  lemma ClosesBefore(c: char, rest: string)
    requires c in {',', ':', '}', ']'}
    ensures Closes([c] + rest)
  {
  }

  lemma PieceRepaired(p: Piece, rest: string)
    requires PieceOk(p) && (p.Bare? ==> !Closes(rest))
    ensures Repair(Write(p, rest), true) == Write(if p.Bare? then Short('\"') else p, Repair(rest, true))
  {
    match p
    case Plain(c) => OneInside(c, rest);
    case Short(c) => assert (['\\', c] + rest)[2..] == rest;
    case Unicode(a, b, c, d) =>
      var digits := [a] + ([b] + ([c] + ([d] + rest)));
      assert (['\\', 'u'] + digits)[2..] == digits;
      OneInside(a, [b] + ([c] + ([d] + rest)));
      OneInside(b, [c] + ([d] + rest));
      OneInside(c, [d] + rest);
      OneInside(d, rest);
    case Bare => assert (['\"'] + rest)[1..] == rest;
  }

  lemma {:induction false} PiecesRepaired(pieces: seq<Piece>, rest: string)
    requires PiecesTell(pieces, rest)
    ensures Repair(WritePieces(pieces, rest), true) == WritePieces(Meant(pieces), Repair(rest, true))
  {
    if pieces != [] {
      PieceRepaired(pieces[0], WritePieces(pieces[1..], rest));
      PiecesRepaired(pieces[1..], rest);
      assert Meant(pieces)[1..] == Meant(pieces[1..]);
    }
  }

  lemma QuotedRepaired(pieces: seq<Piece>, rest: string)
    requires PiecesTell(pieces, ['\"'] + rest) && Closes(rest)
    ensures Repair(WriteQuoted(pieces, rest), false) == WriteQuoted(Meant(pieces), Repair(rest, false))
  {
    var inside := WritePieces(pieces, ['\"'] + rest);
    assert (['\"'] + inside)[1..] == inside;
    PiecesRepaired(pieces, ['\"'] + rest);
    assert (['\"'] + rest)[1..] == rest;
  }

  lemma {:induction false} ValueRepaired(v: Value, rest: string)
    requires ValueTells(v, rest) && Closes(rest)
    ensures Repair(WriteValue(v, rest), false) == WriteValue(MeantValue(v), Repair(rest, false))
    decreases v, 1
  {
    match v
    case Word(s) => RunOutside(s, rest);
    case Quoted(pieces) => QuotedRepaired(pieces, rest);
    case Array(blank, items) =>
      OneOutside(']', rest);
      ClosesBefore(']', rest);
      if items == [] {
        RunOutside(blank, [']'] + rest);
        OneOutside('[', blank + ([']'] + rest));
      } else {
        ItemsRepaired(items, [']'] + rest);
        OneOutside('[', WriteItems(items, [']'] + rest));
      }
    case Object(blank, members) =>
      OneOutside('}', rest);
      ClosesBefore('}', rest);
      if members == [] {
        RunOutside(blank, ['}'] + rest);
        OneOutside('{', blank + (['}'] + rest));
      } else {
        MembersRepaired(members, ['}'] + rest);
        OneOutside('{', WriteMembers(members, ['}'] + rest));
      }
  }

  lemma {:induction false} ItemRepaired(item: Item, rest: string)
    requires ItemTells(item, rest) && Closes(rest)
    ensures Repair(WriteItem(item, rest), false) == WriteItem(MeantItem(item), Repair(rest, false))
    decreases item, 2
  {
    BlankCloses(item.after, rest);
    ValueRepaired(item.value, item.after + rest);
    RunOutside(item.after, rest);
    RunOutside(item.before, WriteValue(item.value, item.after + rest));
  }

  lemma {:induction false} ItemsRepaired(items: seq<Item>, rest: string)
    requires ItemsTell(items, rest) && Closes(rest)
    ensures Repair(WriteItems(items, rest), false) == WriteItems(MeantItems(items), Repair(rest, false))
    decreases items, 0
  {
    if items != [] {
      var more := WriteItems(items[1..], rest);
      ItemsRepaired(items[1..], rest);
      assert MeantItems(items)[1..] == MeantItems(items[1..]);
      ClosesBefore(',', more);
      OneOutside(',', more);
      ItemRepaired(items[0], if |items| == 1 then rest else [','] + more);
    }
  }

  lemma {:induction false} MemberRepaired(m: Member, rest: string)
    requires MemberTells(m, rest) && Closes(rest)
    ensures Repair(WriteMember(m, rest), false)
         == WriteMember(Member(m.before, Meant(m.key), m.gap, MeantItem(m.item)), Repair(rest, false))
    decreases m, 3
  {
    var value := WriteItem(m.item, rest);
    ItemRepaired(m.item, rest);
    OneOutside(':', value);
    ClosesBefore(':', value);
    BlankCloses(m.gap, [':'] + value);
    RunOutside(m.gap, [':'] + value);
    QuotedRepaired(m.key, m.gap + ([':'] + value));
    RunOutside(m.before, WriteQuoted(m.key, m.gap + ([':'] + value)));
  }

  lemma {:induction false} MembersRepaired(members: seq<Member>, rest: string)
    requires MembersTell(members, rest) && Closes(rest)
    ensures Repair(WriteMembers(members, rest), false) == WriteMembers(MeantMembers(members), Repair(rest, false))
    decreases members, 0
  {
    if members != [] {
      var more := WriteMembers(members[1..], rest);
      MembersRepaired(members[1..], rest);
      assert MeantMembers(members)[1..] == MeantMembers(members[1..]);
      ClosesBefore(',', more);
      OneOutside(',', more);
      MemberRepaired(members[0], if |members| == 1 then rest else [','] + more);
    }
  }

  // ── Where the repair goes wrong ────────────────────────────────────────

  // A text is what it is written as, then what follows it; so two writings of
  // one text agree only in front of the same.

  lemma {:induction false} PiecesWrittenFirst(pieces: seq<Piece>, x: string, y: string)
    ensures WritePieces(pieces, x) == WritePieces(pieces, y) ==> x == y
  {
    if pieces != [] {
      var p, a, b := pieces[0], WritePieces(pieces[1..], x), WritePieces(pieces[1..], y);
      PiecesWrittenFirst(pieces[1..], x, y);
      if Write(p, a) == Write(p, b) {
        PieceWrittenFirst(p, a, b);
      }
    }
  }

  lemma PieceWrittenFirst(p: Piece, x: string, y: string)
    requires Write(p, x) == Write(p, y)
    ensures x == y
  {
    match p
    case Plain(c) => SameAfter([c], x, y);
    case Short(c) => SameAfter(['\\', c], x, y);
    case Unicode(a, b, c, d) =>
      SameAfter(['\\', 'u'], [a] + ([b] + ([c] + ([d] + x))), [a] + ([b] + ([c] + ([d] + y))));
      SameAfter([a], [b] + ([c] + ([d] + x)), [b] + ([c] + ([d] + y)));
      SameAfter([b], [c] + ([d] + x), [c] + ([d] + y));
      SameAfter([c], [d] + x, [d] + y);
      SameAfter([d], x, y);
    case Bare => SameAfter(['\"'], x, y);
  }

  lemma QuotedWrittenFirst(pieces: seq<Piece>, x: string, y: string)
    requires WriteQuoted(pieces, x) == WriteQuoted(pieces, y)
    ensures x == y
  {
    SameAfter(['\"'], WritePieces(pieces, ['\"'] + x), WritePieces(pieces, ['\"'] + y));
    PiecesWrittenFirst(pieces, ['\"'] + x, ['\"'] + y);
    SameAfter(['\"'], x, y);
  }

  lemma {:induction false} ValueWrittenFirst(v: Value, x: string, y: string)
    requires WriteValue(v, x) == WriteValue(v, y)
    ensures x == y
    decreases v, 1
  {
    match v
    case Word(s) => SameAfter(s, x, y);
    case Quoted(pieces) => QuotedWrittenFirst(pieces, x, y);
    case Array(blank, items) =>
      if items == [] {
        SameAfter(['['], blank + ([']'] + x), blank + ([']'] + y));
        SameAfter(blank, [']'] + x, [']'] + y);
      } else {
        SameAfter(['['], WriteItems(items, [']'] + x), WriteItems(items, [']'] + y));
        ItemsWrittenFirst(items, [']'] + x, [']'] + y);
      }
      SameAfter([']'], x, y);
    case Object(blank, members) =>
      if members == [] {
        SameAfter(['{'], blank + (['}'] + x), blank + (['}'] + y));
        SameAfter(blank, ['}'] + x, ['}'] + y);
      } else {
        SameAfter(['{'], WriteMembers(members, ['}'] + x), WriteMembers(members, ['}'] + y));
        MembersWrittenFirst(members, ['}'] + x, ['}'] + y);
      }
      SameAfter(['}'], x, y);
  }

  lemma {:induction false} ItemWrittenFirst(item: Item, x: string, y: string)
    requires WriteItem(item, x) == WriteItem(item, y)
    ensures x == y
    decreases item, 2
  {
    SameAfter(item.before, WriteValue(item.value, item.after + x), WriteValue(item.value, item.after + y));
    ValueWrittenFirst(item.value, item.after + x, item.after + y);
    SameAfter(item.after, x, y);
  }

  /** What follows the first of a list's items. */
  function AfterItem(items: seq<Item>, rest: string): string
    requires items != []
  {
    if |items| == 1 then rest else [','] + WriteItems(items[1..], rest)
  }

  function AfterMember(members: seq<Member>, rest: string): string
    requires members != []
  {
    if |members| == 1 then rest else [','] + WriteMembers(members[1..], rest)
  }

  lemma {:induction false} ItemsWrittenFirst(items: seq<Item>, x: string, y: string)
    requires WriteItems(items, x) == WriteItems(items, y)
    ensures x == y
    decreases items, 0
  {
    if items != [] {
      ItemWrittenFirst(items[0], AfterItem(items, x), AfterItem(items, y));
      if |items| > 1 {
        SameAfter([','], WriteItems(items[1..], x), WriteItems(items[1..], y));
        ItemsWrittenFirst(items[1..], x, y);
      }
    }
  }

  lemma {:induction false} MemberWrittenFirst(m: Member, x: string, y: string)
    requires WriteMember(m, x) == WriteMember(m, y)
    ensures x == y
    decreases m, 3
  {
    var a, b := m.gap + ([':'] + WriteItem(m.item, x)), m.gap + ([':'] + WriteItem(m.item, y));
    SameAfter(m.before, WriteQuoted(m.key, a), WriteQuoted(m.key, b));
    QuotedWrittenFirst(m.key, a, b);
    SameAfter(m.gap, [':'] + WriteItem(m.item, x), [':'] + WriteItem(m.item, y));
    SameAfter([':'], WriteItem(m.item, x), WriteItem(m.item, y));
    ItemWrittenFirst(m.item, x, y);
  }

  lemma {:induction false} MembersWrittenFirst(members: seq<Member>, x: string, y: string)
    requires WriteMembers(members, x) == WriteMembers(members, y)
    ensures x == y
    decreases members, 0
  {
    if members != [] {
      MemberWrittenFirst(members[0], AfterMember(members, x), AfterMember(members, y));
      if |members| > 1 {
        SameAfter([','], WriteMembers(members[1..], x), WriteMembers(members[1..], y));
        MembersWrittenFirst(members[1..], x, y);
      }
    }
  }

  // A text of the grammar, its strings with any quotes left bare.

  predicate PiecesWellFormed(pieces: seq<Piece>) {
    forall p :: p in pieces ==> PieceOk(p)
  }

  predicate ValueWellFormed(v: Value) {
    match v
    case Word(s) => WordOk(s)
    case Quoted(pieces) => PiecesWellFormed(pieces)
    case Array(blank, items) => WhiteSpace(blank) && forall i :: i in items ==> ItemWellFormed(i)
    case Object(blank, members) => WhiteSpace(blank) && forall m :: m in members ==> MemberWellFormed(m)
  }

  predicate ItemWellFormed(item: Item) {
    WhiteSpace(item.before) && WhiteSpace(item.after) && ValueWellFormed(item.value)
  }

  predicate MemberWellFormed(m: Member) {
    WhiteSpace(m.before) && PiecesWellFormed(m.key) && WhiteSpace(m.gap) && ItemWellFormed(m.item)
  }

  // Where some bare quote stands before what may follow a string, the repair
  // ends the string there, and parts from the text meant: whatever comes after.

  lemma {:induction false} PiecesPart(pieces: seq<Piece>, rest: string, z: string)
    requires PiecesWellFormed(pieces) && !PiecesTell(pieces, rest)
    ensures Repair(WritePieces(pieces, rest), true) != WritePieces(Meant(pieces), z)
  {
    var p, tail := pieces[0], WritePieces(pieces[1..], rest);
    assert p in pieces && forall x :: x in pieces[1..] ==> x in pieces;
    assert Meant(pieces)[1..] == Meant(pieces[1..]);
    var meant, after := if p.Bare? then Short('\"') else p, WritePieces(Meant(pieces[1..]), z);
    assert WritePieces(Meant(pieces), z) == Write(meant, after);
    if p.Bare? && Closes(tail) {
      assert (['\"'] + tail)[1..] == tail;
      assert Repair(Write(p, tail), true)[0] == '\"' && Write(meant, after)[0] == '\\';
    } else {
      PiecesPart(pieces[1..], rest, z);
      PieceRepaired(p, tail);
      if Write(meant, Repair(tail, true)) == Write(meant, after) {
        PieceWrittenFirst(meant, Repair(tail, true), after);
      }
    }
  }

  lemma QuotedParts(pieces: seq<Piece>, rest: string, z: string)
    requires PiecesWellFormed(pieces) && !PiecesTell(pieces, ['\"'] + rest)
    ensures Repair(WriteQuoted(pieces, rest), false) != WriteQuoted(Meant(pieces), z)
  {
    var inside := WritePieces(pieces, ['\"'] + rest);
    assert (['\"'] + inside)[1..] == inside;
    PiecesPart(pieces, ['\"'] + rest, ['\"'] + z);
    if ['\"'] + Repair(inside, true) == ['\"'] + WritePieces(Meant(pieces), ['\"'] + z) {
      SameAfter(['\"'], Repair(inside, true), WritePieces(Meant(pieces), ['\"'] + z));
    }
  }

  lemma {:induction false} ValueParts(v: Value, rest: string, z: string)
    requires ValueWellFormed(v) && Closes(rest) && !ValueTells(v, rest)
    ensures Repair(WriteValue(v, rest), false) != WriteValue(MeantValue(v), z)
    decreases v, 1
  {
    match v
    case Quoted(pieces) => QuotedParts(pieces, rest, z);
    case Array(_, items) =>
      ClosesBefore(']', rest);
      ItemsPart(items, [']'] + rest, [']'] + z);
      OneOutside('[', WriteItems(items, [']'] + rest));
      if WriteValue(MeantValue(v), z) == ['['] + Repair(WriteItems(items, [']'] + rest), false) {
        SameAfter(['['], WriteItems(MeantItems(items), [']'] + z), Repair(WriteItems(items, [']'] + rest), false));
      }
    case Object(_, members) =>
      ClosesBefore('}', rest);
      MembersPart(members, ['}'] + rest, ['}'] + z);
      OneOutside('{', WriteMembers(members, ['}'] + rest));
      if WriteValue(MeantValue(v), z) == ['{'] + Repair(WriteMembers(members, ['}'] + rest), false) {
        SameAfter(['{'], WriteMembers(MeantMembers(members), ['}'] + z), Repair(WriteMembers(members, ['}'] + rest), false));
      }
    case _ =>
  }

  lemma {:induction false} ItemParts(item: Item, rest: string, z: string)
    requires ItemWellFormed(item) && Closes(rest) && !ItemTells(item, rest)
    ensures Repair(WriteItem(item, rest), false) != WriteItem(MeantItem(item), z)
    decreases item, 2
  {
    var value := WriteValue(item.value, item.after + rest);
    BlankCloses(item.after, rest);
    ValueParts(item.value, item.after + rest, item.after + z);
    RunOutside(item.before, value);
    if item.before + Repair(value, false) == WriteItem(MeantItem(item), z) {
      SameAfter(item.before, Repair(value, false), WriteValue(MeantValue(item.value), item.after + z));
    }
  }

  lemma {:induction false} ItemsPart(items: seq<Item>, rest: string, z: string)
    requires (forall i :: i in items ==> ItemWellFormed(i)) && Closes(rest) && !ItemsTell(items, rest)
    ensures Repair(WriteItems(items, rest), false) != WriteItems(MeantItems(items), z)
    decreases items, 0
  {
    var item, after := items[0], AfterItem(items, rest);
    assert item in items && forall i :: i in items[1..] ==> i in items;
    assert MeantItems(items)[1..] == MeantItems(items[1..]);
    var afterMeant := AfterItem(MeantItems(items), z);
    assert Closes(after) by {
      ClosesBefore(',', WriteItems(items[1..], rest));
    }
    if !ItemTells(item, after) {
      ItemParts(item, after, afterMeant);
    } else {
      ItemRepaired(item, after);
      ItemsPart(items[1..], rest, z);
      OneOutside(',', WriteItems(items[1..], rest));
      if WriteItem(MeantItem(item), Repair(after, false)) == WriteItem(MeantItem(item), afterMeant) {
        ItemWrittenFirst(MeantItem(item), Repair(after, false), afterMeant);
        SameAfter([','], Repair(WriteItems(items[1..], rest), false), WriteItems(MeantItems(items[1..]), z));
      }
    }
  }

  /** A member as it is meant. */
  function MeantMember(m: Member): Member {
    Member(m.before, Meant(m.key), m.gap, MeantItem(m.item))
  }

  lemma {:induction false} MemberParts(m: Member, rest: string, z: string)
    requires MemberWellFormed(m) && Closes(rest) && !MemberTells(m, rest)
    ensures Repair(WriteMember(m, rest), false) != WriteMember(MeantMember(m), z)
    decreases m, 3
  {
    var value := WriteItem(m.item, rest);
    var after := m.gap + ([':'] + value);
    var meant := WriteItem(MeantItem(m.item), z);
    var afterMeant := m.gap + ([':'] + meant);
    RunOutside(m.before, WriteQuoted(m.key, after));
    if m.before + Repair(WriteQuoted(m.key, after), false) == WriteMember(MeantMember(m), z) {
      SameAfter(m.before, Repair(WriteQuoted(m.key, after), false), WriteQuoted(Meant(m.key), afterMeant));
      if !PiecesTell(m.key, ['\"'] + after) {
        QuotedParts(m.key, after, afterMeant);
      } else {
        ClosesBefore(':', value);
        BlankCloses(m.gap, [':'] + value);
        QuotedRepaired(m.key, after);
        QuotedWrittenFirst(Meant(m.key), Repair(after, false), afterMeant);
        RunOutside(m.gap, [':'] + value);
        OneOutside(':', value);
        SameAfter(m.gap, [':'] + Repair(value, false), [':'] + meant);
        SameAfter([':'], Repair(value, false), meant);
        ItemParts(m.item, rest, z);
      }
    }
  }

  lemma {:induction false} MembersPart(members: seq<Member>, rest: string, z: string)
    requires (forall m :: m in members ==> MemberWellFormed(m)) && Closes(rest) && !MembersTell(members, rest)
    ensures Repair(WriteMembers(members, rest), false) != WriteMembers(MeantMembers(members), z)
    decreases members, 0
  {
    var m, after := members[0], AfterMember(members, rest);
    assert m in members && forall x :: x in members[1..] ==> x in members;
    assert MeantMembers(members)[1..] == MeantMembers(members[1..]);
    var afterMeant := AfterMember(MeantMembers(members), z);
    assert Closes(after) by {
      ClosesBefore(',', WriteMembers(members[1..], rest));
    }
    if !MemberTells(m, after) {
      MemberParts(m, after, afterMeant);
    } else {
      MemberRepaired(m, after);
      MembersPart(members[1..], rest, z);
      OneOutside(',', WriteMembers(members[1..], rest));
      if WriteMember(MeantMember(m), Repair(after, false)) == WriteMember(MeantMember(m), afterMeant) {
        MemberWrittenFirst(MeantMember(m), Repair(after, false), afterMeant);
        SameAfter([','], Repair(WriteMembers(members[1..], rest), false), WriteMembers(MeantMembers(members[1..]), z));
      }
    }
  }

  /** A JSON text with quotes left bare in its strings is repaired to the text that
      was meant if and only if none of them stands before what may follow a string. */
  lemma BareQuotesAreEscapedIff(text: Text)
    requires ItemWellFormed(text)
    ensures Repair(WriteItem(text, ""), false) == WriteItem(MeantItem(text), "") <==> ItemTells(text, "")
  {
    if ItemTells(text, "") {
      ItemRepaired(text, "");
    } else {
      ItemParts(text, "", "");
    }
  }

  // ── Valid texts ────────────────────────────────────────────────────────

  /** A string as section 7 has it: no bare quote. */
  predicate PiecesValid(pieces: seq<Piece>) {
    forall p :: p in pieces ==> PieceOk(p) && !p.Bare?
  }

  predicate ValueValid(v: Value) {
    match v
    case Word(s) => WordOk(s)
    case Quoted(pieces) => PiecesValid(pieces)
    case Array(blank, items) => WhiteSpace(blank) && forall i :: i in items ==> ItemValid(i)
    case Object(blank, members) =>
      WhiteSpace(blank) && forall m :: m in members ==> WhiteSpace(m.before) && PiecesValid(m.key) && WhiteSpace(m.gap) && ItemValid(m.item)
  }

  predicate ItemValid(item: Item) {
    WhiteSpace(item.before) && WhiteSpace(item.after) && ValueValid(item.value)
  }

  lemma {:induction false} ValidPiecesTell(pieces: seq<Piece>, rest: string)
    requires PiecesValid(pieces)
    ensures PiecesTell(pieces, rest) && Meant(pieces) == pieces
  {
    if pieces != [] {
      assert pieces[0] in pieces && pieces == [pieces[0]] + pieces[1..];
      ValidPiecesTell(pieces[1..], rest);
    }
  }

  lemma {:induction false} ValidItemTells(item: Item, rest: string)
    requires ItemValid(item)
    ensures ItemTells(item, rest) && MeantItem(item) == item
    decreases item, 2
  {
    var after := item.after + rest;
    match item.value
    case Word(_) =>
    case Quoted(pieces) => ValidPiecesTell(pieces, ['\"'] + after);
    case Array(_, items) => ValidItemsTell(items, [']'] + after);
    case Object(_, members) => ValidMembersTell(members, ['}'] + after);
  }

  lemma {:induction false} ValidItemsTell(items: seq<Item>, rest: string)
    requires forall i :: i in items ==> ItemValid(i)
    ensures ItemsTell(items, rest) && MeantItems(items) == items
    decreases items, 0
  {
    if items != [] {
      ValidItemsTell(items[1..], rest);
      ValidItemTells(items[0], if |items| == 1 then rest else [','] + WriteItems(items[1..], rest));
      assert items == [items[0]] + items[1..];
    }
  }

  lemma {:induction false} ValidMembersTell(members: seq<Member>, rest: string)
    requires forall m :: m in members ==> WhiteSpace(m.before) && PiecesValid(m.key) && WhiteSpace(m.gap) && ItemValid(m.item)
    ensures MembersTell(members, rest) && MeantMembers(members) == members
    decreases members, 0
  {
    if members != [] {
      var m, after := members[0], if |members| == 1 then rest else [','] + WriteMembers(members[1..], rest);
      assert m in members;
      ValidMembersTell(members[1..], rest);
      ValidItemTells(m.item, after);
      ValidPiecesTell(m.key, ['\"'] + (m.gap + ([':'] + WriteItem(m.item, after))));
      assert members == [m] + members[1..];
    }
  }

  /** Every valid JSON text is left as it is. */
  lemma ValidTextIsUnchanged(text: Text)
    requires ItemValid(text)
    ensures Repair(WriteItem(text, ""), false) == WriteItem(text, "")
  {
    ValidItemTells(text, "");
    ItemRepaired(text, "");
  }
}
