/**
 A canonical spelling of JSON: two values have one text exactly when they are
 equal, objects taken as unordered (section 4 of RFC 8259).
 */
module StableJsonText {
  import opened Options
  import opened Sequences

  /** A JSON value; a number is the spelling JavaScript gives it, an object its
      members in the order they were put there. */
  datatype Json = Null | Bool(flag: bool) | Number(spelled: string) | Text(text: string)
                | Array(items: seq<Json>) | Object(members: seq<Member>)
  datatype Member = Member(key: string, value: Json)

  /** A member spelled: its key, and its value's text. */
  datatype Entry = Entry(key: string, text: string)

  predicate NumberChar(c: char) {
    '0' <= c <= '9' || c in {'-', '+', '.', 'e', 'E'}
  }

  predicate NumberText(s: string) {
    s != "" && (forall c :: c in s ==> NumberChar(c)) && (s[0] == '-' || '0' <= s[0] <= '9')
  }

  predicate DistinctKeys(members: seq<Member>) {
    forall i, j :: 0 <= i < j < |members| ==> members[i].key != members[j].key
  }

  /** Numbers are spelled as numbers, and no object has a key twice. */
  predicate Proper(j: Json) {
    match j
    case Number(s) => NumberText(s)
    case Array(items) => forall x :: x in items ==> Proper(x)
    case Object(members) => DistinctKeys(members) && forall m :: m in members ==> Proper(m.value)
    case _ => true
  }

  function Keys(members: seq<Member>): set<string> {
    set m | m in members :: m.key
  }

  /** Equal up to the order of object keys, at every depth. */
  predicate Same(a: Json, b: Json) {
    match (a, b)
    case (Array(xs), Array(ys)) => |xs| == |ys| && forall i :: 0 <= i < |xs| ==> Same(xs[i], ys[i])
    case (Object(ms), Object(ns)) =>
      Keys(ms) == Keys(ns) && forall m, n :: m in ms && n in ns && m.key == n.key ==> Same(m.value, n.value)
    case _ => a == b
  }

  // ── Keys in order ──────────────────────────────────────────────────────

  predicate Less(a: string, b: string) {
    b != "" && (a == "" || a[0] < b[0] || (a[0] == b[0] && Less(a[1..], b[1..])))
  }

  lemma {:induction false} LessIsTotal(a: string, b: string)
    ensures a == b || Less(a, b) || Less(b, a)
  {
    if a != "" && b != "" && a[0] == b[0] {
      LessIsTotal(a[1..], b[1..]);
      assert a == [a[0]] + a[1..] && b == [b[0]] + b[1..];
    }
  }

  lemma {:induction false} LessIsStrict(a: string, b: string)
    ensures !(Less(a, b) && Less(b, a))
  {
    if a != "" && b != "" {
      LessIsStrict(a[1..], b[1..]);
    }
  }

  lemma {:induction false} LessIsTransitive(a: string, b: string, c: string)
    requires Less(a, b) && Less(b, c)
    ensures Less(a, c)
  {
    if a != "" && a[0] == b[0] == c[0] {
      LessIsTransitive(a[1..], b[1..], c[1..]);
    }
  }

  function Insert(e: Entry, sorted: seq<Entry>): seq<Entry> {
    if sorted == [] then [e]
    else if Less(sorted[0].key, e.key) then [sorted[0]] + Insert(e, sorted[1..])
    else [e] + sorted
  }

  function Sort(entries: seq<Entry>): seq<Entry> {
    if entries == [] then [] else Insert(entries[0], Sort(entries[1..]))
  }

  // ── The text ───────────────────────────────────────────────────────────

  function Hex(n: nat): char
    requires n < 16
  {
    if n < 10 then ('0' as int + n) as char else ('a' as int + n - 10) as char
  }

  /** The letter a character's short escape has, or a space where it has none. */
  function Letter(c: char): char {
    if c == '\"' || c == '\\' then c
    else if c == '\U{08}' then 'b' else if c == '\t' then 't' else if c == '\n' then 'n'
    else if c == '\U{0C}' then 'f' else if c == '\r' then 'r' else ' '
  }

  function Escape(c: char): string {
    if Letter(c) != ' ' then ['\\', Letter(c)]
    else if c < ' ' then ['\\', 'u', '0', '0', Hex(c as int / 16), Hex(c as int % 16)]
    else [c]
  }

  function EscapeAll(s: string): string {
    if s == "" then "" else Escape(s[0]) + EscapeAll(s[1..])
  }

  function Quote(s: string): string {
    "\"" + EscapeAll(s) + "\""
  }

  function Joined(parts: seq<string>, close: string): string {
    if parts == [] then close
    else if |parts| == 1 then parts[0] + close
    else parts[0] + ("," + Joined(parts[1..], close))
  }

  function Texts(items: seq<Json>): (texts: seq<string>)
    ensures |texts| == |items|
  {
    if items == [] then [] else [StableJson(items[0])] + Texts(items[1..])
  }

  function Spelled(members: seq<Member>): seq<Entry> {
    if members == [] then [] else [Entry(members[0].key, StableJson(members[0].value))] + Spelled(members[1..])
  }

  function Colons(entries: seq<Entry>): (parts: seq<string>)
    ensures |parts| == |entries|
  {
    if entries == [] then [] else [Quote(entries[0].key) + (":" + entries[0].text)] + Colons(entries[1..])
  }

  function StableJson(j: Json): string {
    match j
    case Null => "null"
    case Bool(b) => if b then "true" else "false"
    case Number(s) => s
    case Text(s) => Quote(s)
    case Array(items) => "[" + Joined(Texts(items), "]")
    case Object(members) => "{" + Joined(Colons(Sort(Spelled(members))), "}")
  }

  // ── Sorting forgets the order ──────────────────────────────────────────

  predicate Increasing(entries: seq<Entry>) {
    forall i, j :: 0 <= i < j < |entries| ==> Less(entries[i].key, entries[j].key)
  }

  predicate KeysApart(entries: seq<Entry>) {
    forall i, j :: 0 <= i < j < |entries| ==> entries[i].key != entries[j].key
  }

  ghost predicate SameMembership(a: seq<Entry>, b: seq<Entry>) {
    forall e :: e in a <==> e in b
  }

  lemma {:induction false} InsertKeepsOrder(e: Entry, sorted: seq<Entry>)
    requires Increasing(sorted) && forall x :: x in sorted ==> x.key != e.key
    ensures Increasing(Insert(e, sorted)) && forall x :: x in Insert(e, sorted) <==> x == e || x in sorted
  {
    if sorted != [] {
      var head := sorted[0];
      LessIsTotal(head.key, e.key);
      if Less(head.key, e.key) {
        InsertKeepsOrder(e, sorted[1..]);
        assert forall x :: x in sorted[1..] ==> Less(head.key, x.key);
        assert sorted == [head] + sorted[1..];
      } else {
        forall x | x in sorted
          ensures Less(e.key, x.key)
        {
          if x != head {
            LessIsTransitive(e.key, head.key, x.key);
          }
        }
      }
    }
  }

  lemma {:induction false} SortOrders(entries: seq<Entry>)
    requires KeysApart(entries)
    ensures Increasing(Sort(entries)) && SameMembership(Sort(entries), entries)
  {
    if entries != [] {
      SortOrders(entries[1..]);
      assert entries == [entries[0]] + entries[1..];
      InsertKeepsOrder(entries[0], Sort(entries[1..]));
    }
  }

  lemma IncreasingHead(a: seq<Entry>, b: seq<Entry>)
    requires Increasing(a) && Increasing(b) && SameMembership(a, b) && a != [] && b != []
    ensures a[0] == b[0] && SameMembership(a[1..], b[1..])
  {
    assert a[0] in b && b[0] in a;
    if a[0] != b[0] {
      assert Less(b[0].key, a[0].key) && Less(a[0].key, b[0].key);
      LessIsStrict(a[0].key, b[0].key);
    }
    forall x: Entry
      ensures x in a[1..] <==> x in a && x != a[0]
      ensures x in b[1..] <==> x in b && x != b[0]
    {
      LessIsStrict(x.key, x.key);
      assert a == [a[0]] + a[1..] && b == [b[0]] + b[1..];
    }
  }

  lemma EmptyTogether(a: seq<Entry>, b: seq<Entry>)
    requires SameMembership(a, b)
    ensures a == [] <==> b == []
  {
    assert a == [] || a[0] in a;
    assert b == [] || b[0] in b;
  }

  lemma {:induction false} IncreasingIsUnique(a: seq<Entry>, b: seq<Entry>)
    requires Increasing(a) && Increasing(b) && SameMembership(a, b)
    ensures a == b
  {
    EmptyTogether(a, b);
    if a != [] {
      IncreasingHead(a, b);
      IncreasingIsUnique(a[1..], b[1..]);
      assert a == [a[0]] + a[1..] && b == [b[0]] + b[1..];
    }
  }

  lemma {:induction false} SpelledAt(members: seq<Member>)
    ensures |Spelled(members)| == |members|
    ensures forall i :: 0 <= i < |members| ==> Spelled(members)[i] == Entry(members[i].key, StableJson(members[i].value))
  {
    if members != [] {
      SpelledAt(members[1..]);
    }
  }

  lemma {:induction false} TextsAt(items: seq<Json>)
    ensures forall i :: 0 <= i < |items| ==> Texts(items)[i] == StableJson(items[i])
  {
    if items != [] {
      TextsAt(items[1..]);
    }
  }

  /** Where the same keys hold values that spell alike, the members spell alike. */
  lemma MembersSpellAlike(ms: seq<Member>, ns: seq<Member>)
    requires DistinctKeys(ms) && DistinctKeys(ns) && Keys(ms) == Keys(ns)
    requires forall m, n :: m in ms && n in ns && m.key == n.key ==> StableJson(m.value) == StableJson(n.value)
    ensures Sort(Spelled(ms)) == Sort(Spelled(ns))
  {
    SpelledAt(ms);
    SpelledAt(ns);
    SpelledWithin(ms, ns);
    SpelledWithin(ns, ms);
    SortOrders(Spelled(ms));
    SortOrders(Spelled(ns));
    IncreasingIsUnique(Sort(Spelled(ms)), Sort(Spelled(ns)));
  }

  lemma SpelledWithin(ms: seq<Member>, ns: seq<Member>)
    requires Keys(ms) == Keys(ns)
    requires forall m, n :: m in ms && n in ns && m.key == n.key ==> StableJson(m.value) == StableJson(n.value)
    ensures forall e :: e in Spelled(ms) ==> e in Spelled(ns)
  {
    SpelledAt(ms);
    SpelledAt(ns);
    forall e | e in Spelled(ms)
      ensures e in Spelled(ns)
    {
      var i :| 0 <= i < |ms| && Spelled(ms)[i] == e;
      assert ms[i] in ms && ms[i].key in Keys(ns);
      var n :| n in ns && n.key == ms[i].key;
      var j :| 0 <= j < |ns| && ns[j] == n;
      assert Spelled(ns)[j] == e;
    }
  }

  /** Equal values spell alike, whatever order their keys were put in. */
  lemma {:induction false} EqualSpellsAlike(a: Json, b: Json)
    requires Proper(a) && Proper(b) && Same(a, b)
    ensures StableJson(a) == StableJson(b)
  {
    match (a, b)
    case (Array(xs), Array(ys)) =>
      forall i | 0 <= i < |xs|
        ensures StableJson(xs[i]) == StableJson(ys[i])
      {
        assert xs[i] in xs && ys[i] in ys;
        EqualSpellsAlike(xs[i], ys[i]);
      }
      TextsAt(xs);
      TextsAt(ys);
      assert Texts(xs) == Texts(ys);
    case (Object(ms), Object(ns)) =>
      forall m, n | m in ms && n in ns && m.key == n.key
        ensures StableJson(m.value) == StableJson(n.value)
      {
        EqualSpellsAlike(m.value, n.value);
      }
      MembersSpellAlike(ms, ns);
    case _ =>
  }

  // ── One reading ────────────────────────────────────────────────────────

  /** What may follow a value's text. */
  predicate Delimited(rest: string) {
    rest == "" || rest[0] in {',', ']', '}'}
  }

  function HexValue(c: char): Option<nat> {
    if '0' <= c <= '9' then Some(c as int - '0' as int)
    else if 'a' <= c <= 'f' then Some(c as int - 'a' as int + 10)
    else if 'A' <= c <= 'F' then Some(c as int - 'A' as int + 10)
    else None
  }

  /** The code unit four hexadecimal digits name, below the surrogates. */
  function HexRead(s: string): Option<char>
    requires |s| >= 4
  {
    var a, b, c, d := HexValue(s[0]), HexValue(s[1]), HexValue(s[2]), HexValue(s[3]);
    if a.None? || b.None? || c.None? || d.None? then None
    else
      var n := ((a.value * 16 + b.value) * 16 + c.value) * 16 + d.value;
      if n < 0xD800 then Some(n as char) else None
  }

  /** A character off the front of a string's text, as section 7 of RFC 8259
      reads it, and what follows. */
  function Unescape(s: string): Option<(char, string)> {
    if s == "" || s[0] == '\"' || s[0] < ' ' then None
    else if s[0] != '\\' then Some((s[0], s[1..]))
    else if |s| < 2 then None
    else if s[1] in {'\"', '\\', '/'} then Some((s[1], s[2..]))
    else if s[1] == 'b' then Some(('\U{08}', s[2..]))
    else if s[1] == 'f' then Some(('\U{0C}', s[2..]))
    else if s[1] == 'n' then Some(('\n', s[2..]))
    else if s[1] == 'r' then Some(('\r', s[2..]))
    else if s[1] == 't' then Some(('\t', s[2..]))
    else if s[1] != 'u' || |s| < 6 then None
    else
      var c := HexRead(s[2..]);
      if c.None? then None else Some((c.value, s[6..]))
  }

  lemma HexReadsBack(n: nat)
    requires n < 16
    ensures HexValue(Hex(n)) == Some(n)
  {
  }

  /** Each character's spelling is one JSON reads as that character. */
  lemma EscapeReadsBack(c: char, rest: string)
    ensures Unescape(Escape(c) + rest) == Some((c, rest))
  {
    var s := Escape(c) + rest;
    assert s[0] == Escape(c)[0];
    assert s[|Escape(c)|..] == rest;
    if s[0] == '\\' {
      assert s[1] == Escape(c)[1];
      if Letter(c) == ' ' {
        assert s[2] == '0' && s[3] == '0' && s[4] == Escape(c)[4] && s[5] == Escape(c)[5];
        HexReadsBack(c as int / 16);
        HexReadsBack(c as int % 16);
      }
    }
  }

  lemma EscapeReads(c: char, d: char, x: string, y: string)
    requires Escape(c) + x == Escape(d) + y
    ensures c == d && x == y
  {
    EscapeReadsBack(c, x);
    EscapeReadsBack(d, y);
  }

  lemma EscapeIsNoQuote(c: char)
    ensures Escape(c)[0] != '\"'
  {
  }

  lemma {:induction false} EscapedReads(s: string, t: string, x: string, y: string)
    requires EscapeAll(s) + ("\"" + x) == EscapeAll(t) + ("\"" + y)
    ensures s == t && x == y
  {
    var l, r := EscapeAll(s) + ("\"" + x), EscapeAll(t) + ("\"" + y);
    if s != "" {
      EscapeIsNoQuote(s[0]);
      assert l[0] == Escape(s[0])[0];
    } else {
      assert l[0] == '\"' && x == l[1..];
    }
    if t != "" {
      EscapeIsNoQuote(t[0]);
      assert r[0] == Escape(t[0])[0];
    } else {
      assert r[0] == '\"' && y == r[1..];
    }
    if s != "" && t != "" {
      Assoc(Escape(s[0]), EscapeAll(s[1..]), "\"" + x);
      Assoc(Escape(t[0]), EscapeAll(t[1..]), "\"" + y);
      EscapeReads(s[0], t[0], EscapeAll(s[1..]) + ("\"" + x), EscapeAll(t[1..]) + ("\"" + y));
      EscapedReads(s[1..], t[1..], x, y);
      assert s == [s[0]] + s[1..] && t == [t[0]] + t[1..];
    }
  }

  lemma QuoteReads(s: string, t: string, x: string, y: string)
    requires Quote(s) + x == Quote(t) + y
    ensures s == t && x == y
  {
    QuoteSplits(s, x);
    QuoteSplits(t, y);
    SameAfter(['\"'], EscapeAll(s) + ("\"" + x), EscapeAll(t) + ("\"" + y));
    EscapedReads(s, t, x, y);
  }

  lemma QuoteSplits(s: string, x: string)
    ensures Quote(s) + x == ['\"'] + (EscapeAll(s) + ("\"" + x))
  {
    Assoc("\"", EscapeAll(s), "\"");
    Assoc("\"", EscapeAll(s) + "\"", x);
    Assoc(EscapeAll(s), "\"", x);
  }

  lemma NumberGoesOn(s: string, x: string)
    requires (forall c :: c in s ==> NumberChar(c)) && Delimited(x)
    ensures s != "" <==> s + x != "" && NumberChar((s + x)[0])
    ensures s != "" ==> (s + x)[0] == s[0] && (s + x)[1..] == s[1..] + x
    ensures s == "" ==> s + x == x
  {
    assert s == "" || ((s + x)[0] == s[0] && s[0] in s);
  }

  lemma {:induction false} NumberReads(s: string, t: string, x: string, y: string)
    requires forall c :: c in s ==> NumberChar(c)
    requires forall c :: c in t ==> NumberChar(c)
    requires Delimited(x) && Delimited(y) && s + x == t + y
    ensures s == t && x == y
  {
    NumberGoesOn(s, x);
    NumberGoesOn(t, y);
    if s != "" {
      NumberReads(s[1..], t[1..], x, y);
      assert s == [s[0]] + s[1..] && t == [t[0]] + t[1..];
    }
  }

  /** The first character tells what kind of value a text is. */
  predicate Starts(j: Json, c: char) {
    match j
    case Null => c == 'n'
    case Bool(b) => c == if b then 't' else 'f'
    case Number(_) => c == '-' || '0' <= c <= '9'
    case Text(_) => c == '\"'
    case Array(_) => c == '['
    case Object(_) => c == '{'
  }

  lemma StartsAs(j: Json, x: string)
    requires Proper(j)
    ensures StableJson(j) != "" && Starts(j, (StableJson(j) + x)[0])
  {
    if j.Text? {
      QuoteSplits(j.text, "");
      assert Quote(j.text) + "" == Quote(j.text);
    }
    assert StableJson(j) != "" ==> (StableJson(j) + x)[0] == StableJson(j)[0];
  }

  /** Two values read the same from wherever their texts stand. */
  ghost predicate Agree(a: Json, b: Json) {
    forall x, y {:trigger StableJson(a) + x, StableJson(b) + y} ::
      Delimited(x) && Delimited(y) && StableJson(a) + x == StableJson(b) + y ==> Same(a, b) && x == y
  }

  /** Two entry texts that are equal wherever they are followed alike. */
  ghost predicate Apart(s: string, t: string) {
    forall x, y {:trigger s + x, t + y} :: Delimited(x) && Delimited(y) && s + x == t + y ==> s == t && x == y
  }

  lemma AgreeingAreApart(a: Json, b: Json)
    requires Proper(a) && Proper(b) && Agree(a, b)
    ensures Apart(StableJson(a), StableJson(b))
  {
    forall x, y | Delimited(x) && Delimited(y) && StableJson(a) + x == StableJson(b) + y
      ensures StableJson(a) == StableJson(b)
    {
      EqualSpellsAlike(a, b);
    }
  }

  lemma JoinedSplits(parts: seq<string>, close: string, x: string)
    requires parts != [] && |close| == 1
    ensures Joined(parts, close) + x
      == parts[0] + if |parts| == 1 then close + x else "," + (Joined(parts[1..], close) + x)
  {
    if |parts| == 1 {
      Assoc(parts[0], close, x);
    } else {
      Assoc(parts[0], "," + Joined(parts[1..], close), x);
      Assoc(",", Joined(parts[1..], close), x);
    }
  }

  function After(parts: seq<string>, close: string, x: string): string
    requires parts != []
  {
    if |parts| == 1 then close + x else "," + (Joined(parts[1..], close) + x)
  }

  lemma AfterSame(ps: seq<string>, qs: seq<string>, close: string, x: string, y: string)
    requires ps != [] && qs != [] && close in {"]", "}"}
    requires After(ps, close, x) == After(qs, close, y)
    ensures |ps| == 1 <==> |qs| == 1
    ensures |ps| == 1 ==> x == y
    ensures |ps| > 1 ==> Joined(ps[1..], close) + x == Joined(qs[1..], close) + y
  {
    var p, q := After(ps, close, x), After(qs, close, y);
    assert p[0] == if |ps| == 1 then close[0] else ',';
    assert q[0] == if |qs| == 1 then close[0] else ',';
    assert p[1..] == if |ps| == 1 then x else Joined(ps[1..], close) + x;
    assert q[1..] == if |qs| == 1 then y else Joined(qs[1..], close) + y;
  }

  lemma ItemsStart(xs: seq<Json>, x: string)
    requires xs != [] ==> Proper(xs[0])
    ensures Joined(Texts(xs), "]") + x != ""
    ensures (Joined(Texts(xs), "]") + x)[0] == ']' <==> xs == []
  {
    if xs != [] {
      JoinedSplits(Texts(xs), "]", x);
      StartsAs(xs[0], After(Texts(xs), "]", x));
    }
  }

  lemma {:induction false} ItemsRead(xs: seq<Json>, ys: seq<Json>, x: string, y: string)
    requires forall v :: v in xs + ys ==> Proper(v)
    requires Joined(Texts(xs), "]") + x == Joined(Texts(ys), "]") + y
    ensures Same(Array(xs), Array(ys)) && x == y
    decreases xs, 0
  {
    assert xs == [] || xs[0] in xs + ys;
    assert ys == [] || ys[0] in xs + ys;
    ItemsStart(xs, x);
    ItemsStart(ys, y);
    if xs == [] {
      SameAfter([']'], x, y);
    } else {
      var ps, qs := Texts(xs), Texts(ys);
      JoinedSplits(ps, "]", x);
      JoinedSplits(qs, "]", y);
      ValuesRead(xs[0], ys[0], After(ps, "]", x), After(qs, "]", y));
      AfterSame(ps, qs, "]", x, y);
      if |xs| > 1 {
        assert forall v :: v in xs[1..] + ys[1..] ==> v in xs + ys;
        assert ps[1..] == Texts(xs[1..]) && qs[1..] == Texts(ys[1..]);
        ItemsRead(xs[1..], ys[1..], x, y);
        ItemsSame(xs, ys);
      }
    }
  }

  lemma ItemsSame(xs: seq<Json>, ys: seq<Json>)
    requires xs != [] && ys != [] && Same(xs[0], ys[0]) && Same(Array(xs[1..]), Array(ys[1..]))
    ensures Same(Array(xs), Array(ys))
  {
    var l, r := xs[1..], ys[1..];
    forall i | 0 <= i < |xs|
      ensures Same(xs[i], ys[i])
    {
      if i > 0 {
        assert Same(l[i - 1], r[i - 1]);
      }
    }
  }

  ghost predicate AllApart(es: seq<Entry>, fs: seq<Entry>) {
    forall e, f :: e in es && f in fs ==> Apart(e.text, f.text)
  }

  lemma ColonSplits(e: Entry, x: string)
    ensures (Quote(e.key) + (":" + e.text)) + x == Quote(e.key) + ([':'] + (e.text + x))
  {
    Assoc(Quote(e.key), ":" + e.text, x);
    Assoc(":", e.text, x);
  }

  lemma EntryReads(e: Entry, f: Entry, x: string, y: string)
    requires Apart(e.text, f.text) && Delimited(x) && Delimited(y)
    requires (Quote(e.key) + (":" + e.text)) + x == (Quote(f.key) + (":" + f.text)) + y
    ensures e == f && x == y
  {
    ColonSplits(e, x);
    ColonSplits(f, y);
    QuoteReads(e.key, f.key, [':'] + (e.text + x), [':'] + (f.text + y));
    SameAfter([':'], e.text + x, f.text + y);
  }

  lemma EntriesStart(es: seq<Entry>, x: string)
    ensures Joined(Colons(es), "}") + x != ""
    ensures (Joined(Colons(es), "}") + x)[0] == if es == [] then '}' else '\"'
  {
    if es != [] {
      JoinedSplits(Colons(es), "}", x);
      var after := After(Colons(es), "}", x);
      ColonSplits(es[0], after);
      QuoteSplits(es[0].key, [':'] + (es[0].text + after));
    }
  }

  lemma {:induction false} EntriesRead(es: seq<Entry>, fs: seq<Entry>, x: string, y: string)
    requires AllApart(es, fs)
    requires Joined(Colons(es), "}") + x == Joined(Colons(fs), "}") + y
    ensures es == fs && x == y
  {
    EntriesStart(es, x);
    EntriesStart(fs, y);
    if es == [] {
      SameAfter(['}'], x, y);
    } else {
      var ps, qs := Colons(es), Colons(fs);
      JoinedSplits(ps, "}", x);
      JoinedSplits(qs, "}", y);
      assert es[0] in es && fs[0] in fs;
      EntryReads(es[0], fs[0], After(ps, "}", x), After(qs, "}", y));
      AfterSame(ps, qs, "}", x, y);
      if |es| > 1 {
        assert ps[1..] == Colons(es[1..]) && qs[1..] == Colons(fs[1..]);
        EntriesRead(es[1..], fs[1..], x, y);
      }
      assert es == [es[0]] + es[1..] && fs == [fs[0]] + fs[1..];
    }
  }

  lemma SpelledOrigin(members: seq<Member>, e: Entry)
    requires DistinctKeys(members) && e in Sort(Spelled(members))
    ensures exists m :: m in members && e == Entry(m.key, StableJson(m.value))
  {
    SpelledAt(members);
    SortOrders(Spelled(members));
    var i :| 0 <= i < |members| && Spelled(members)[i] == e;
    assert members[i] in members;
  }

  lemma SpelledIn(members: seq<Member>, m: Member)
    requires DistinctKeys(members) && m in members
    ensures Entry(m.key, StableJson(m.value)) in Sort(Spelled(members))
  {
    SpelledAt(members);
    SortOrders(Spelled(members));
    var i :| 0 <= i < |members| && members[i] == m;
    assert Spelled(members)[i] in Spelled(members);
  }

  lemma MembersApart(ms: seq<Member>, ns: seq<Member>)
    requires Proper(Object(ms)) && Proper(Object(ns))
    requires forall m, n :: m in ms && n in ns ==> Agree(m.value, n.value)
    ensures AllApart(Sort(Spelled(ms)), Sort(Spelled(ns)))
  {
    forall e, f | e in Sort(Spelled(ms)) && f in Sort(Spelled(ns))
      ensures Apart(e.text, f.text)
    {
      SpelledOrigin(ms, e);
      SpelledOrigin(ns, f);
      var m :| m in ms && e == Entry(m.key, StableJson(m.value));
      var n :| n in ns && f == Entry(n.key, StableJson(n.value));
      AgreeingAreApart(m.value, n.value);
    }
  }

  lemma KeysWithin(ms: seq<Member>, ns: seq<Member>)
    requires DistinctKeys(ms) && DistinctKeys(ns) && Sort(Spelled(ms)) == Sort(Spelled(ns))
    ensures Keys(ms) <= Keys(ns)
  {
    forall m | m in ms
      ensures m.key in Keys(ns)
    {
      SpelledIn(ms, m);
      SpelledOrigin(ns, Entry(m.key, StableJson(m.value)));
    }
  }

  lemma ValueUnderKey(members: seq<Member>, m: Member, e: Entry)
    requires DistinctKeys(members) && m in members && e in Sort(Spelled(members)) && e.key == m.key
    ensures e.text == StableJson(m.value)
  {
    SpelledOrigin(members, e);
  }

  lemma AgreeingTextsAreSame(a: Json, b: Json)
    requires Agree(a, b) && StableJson(a) == StableJson(b)
    ensures Same(a, b)
  {
    assert StableJson(a) + "" == StableJson(b) + "";
  }

  lemma MembersSame(ms: seq<Member>, ns: seq<Member>)
    requires Proper(Object(ms)) && Proper(Object(ns))
    requires forall m, n :: m in ms && n in ns ==> Agree(m.value, n.value)
    requires Sort(Spelled(ms)) == Sort(Spelled(ns))
    ensures Same(Object(ms), Object(ns))
  {
    KeysWithin(ms, ns);
    KeysWithin(ns, ms);
    forall m, n | m in ms && n in ns && m.key == n.key
      ensures Same(m.value, n.value)
    {
      SpelledIn(ms, m);
      ValueUnderKey(ns, n, Entry(m.key, StableJson(m.value)));
      AgreeingTextsAreSame(m.value, n.value);
    }
  }

  lemma MembersRead(ms: seq<Member>, ns: seq<Member>, x: string, y: string)
    requires Proper(Object(ms)) && Proper(Object(ns))
    requires forall m, n :: m in ms && n in ns ==> Agree(m.value, n.value)
    requires Joined(Colons(Sort(Spelled(ms))), "}") + x == Joined(Colons(Sort(Spelled(ns))), "}") + y
    ensures Same(Object(ms), Object(ns)) && x == y
  {
    MembersApart(ms, ns);
    EntriesRead(Sort(Spelled(ms)), Sort(Spelled(ns)), x, y);
    MembersSame(ms, ns);
  }

  /** A text is read one way, wherever it stands: two values' texts followed by
      delimiters are equal only when the values and what follows them are. */
  lemma {:induction false} ValuesRead(a: Json, b: Json, x: string, y: string)
    requires Proper(a) && Proper(b) && Delimited(x) && Delimited(y)
    requires StableJson(a) + x == StableJson(b) + y
    ensures Same(a, b) && x == y
    decreases a, 1
  {
    StartsAs(a, x);
    StartsAs(b, y);
    match (a, b)
    case (Number(s), Number(t)) => NumberReads(s, t, x, y);
    case (Text(s), Text(t)) => QuoteReads(s, t, x, y);
    case (Array(xs), Array(ys)) =>
      Assoc("[", Joined(Texts(xs), "]"), x);
      Assoc("[", Joined(Texts(ys), "]"), y);
      SameAfter(['['], Joined(Texts(xs), "]") + x, Joined(Texts(ys), "]") + y);
      ItemsRead(xs, ys, x, y);
    case (Object(ms), Object(ns)) =>
      forall m, n | m in ms && n in ns
        ensures Agree(m.value, n.value)
      {
        forall p, q | Delimited(p) && Delimited(q) && StableJson(m.value) + p == StableJson(n.value) + q
          ensures Same(m.value, n.value) && p == q
        {
          ValuesRead(m.value, n.value, p, q);
        }
      }
      Assoc("{", Joined(Colons(Sort(Spelled(ms))), "}"), x);
      Assoc("{", Joined(Colons(Sort(Spelled(ns))), "}"), y);
      SameAfter(['{'], Joined(Colons(Sort(Spelled(ms))), "}") + x, Joined(Colons(Sort(Spelled(ns))), "}") + y);
      MembersRead(ms, ns, x, y);
    case _ =>
      if a == b {
        SameAfter(StableJson(a), x, y);
      }
  }

  /** Two values spell the same if and only if they are equal up to the order of
      object keys, at every depth. */
  lemma SpellsAlikeIffEqual(a: Json, b: Json)
    requires Proper(a) && Proper(b)
    ensures StableJson(a) == StableJson(b) <==> Same(a, b)
  {
    if StableJson(a) == StableJson(b) {
      ValuesRead(a, b, "", "");
    }
    if Same(a, b) {
      EqualSpellsAlike(a, b);
    }
  }
}
