/**
 What the canonical spelling is: the JSON text (RFC 8259) of the same value with
 every object's keys in increasing order, and no white space.
 */
module StableJsonForm {
  import opened Sequences
  import opened StableJsonText
  import Q = QuoteRepair

  // ── The value with its keys in order ───────────────────────────────────

  function InsertMember(m: Member, sorted: seq<Member>): seq<Member> {
    if sorted == [] then [m]
    else if Less(sorted[0].key, m.key) then [sorted[0]] + InsertMember(m, sorted[1..])
    else [m] + sorted
  }

  function SortMembers(members: seq<Member>): seq<Member> {
    if members == [] then [] else InsertMember(members[0], SortMembers(members[1..]))
  }

  /** The value with the keys of every object in it in order. */
  function Sorted(j: Json): Json {
    match j
    case Array(items) => Array(SortedItems(items))
    case Object(members) => Object(SortMembers(SortedMembers(members)))
    case _ => j
  }

  function SortedItems(items: seq<Json>): seq<Json> {
    if items == [] then [] else [Sorted(items[0])] + SortedItems(items[1..])
  }

  function SortedMembers(members: seq<Member>): seq<Member> {
    if members == [] then [] else [Member(members[0].key, Sorted(members[0].value))] + SortedMembers(members[1..])
  }

  predicate Rises(members: seq<Member>) {
    forall i, k :: 0 <= i < k < |members| ==> Less(members[i].key, members[k].key)
  }

  /** Every object's keys stand in increasing order, at every depth. */
  predicate KeysRise(j: Json) {
    match j
    case Array(items) => forall x :: x in items ==> KeysRise(x)
    case Object(members) =>
      Rises(members) && forall m :: m in members ==> KeysRise(m.value)
    case _ => true
  }

  lemma {:induction false} InsertIsOneMore(m: Member, sorted: seq<Member>)
    ensures forall x :: x in InsertMember(m, sorted) <==> x == m || x in sorted
  {
    if sorted != [] && Less(sorted[0].key, m.key) {
      InsertIsOneMore(m, sorted[1..]);
      assert sorted == [sorted[0]] + sorted[1..];
    }
  }

  lemma {:induction false} SortKeepsMembers(members: seq<Member>)
    ensures forall x :: x in SortMembers(members) <==> x in members
  {
    if members != [] {
      SortKeepsMembers(members[1..]);
      InsertIsOneMore(members[0], SortMembers(members[1..]));
      assert members == [members[0]] + members[1..];
    }
  }

  lemma {:induction false} SortedMembersAre(members: seq<Member>)
    ensures |SortedMembers(members)| == |members|
    ensures forall i :: 0 <= i < |members| ==> SortedMembers(members)[i] == Member(members[i].key, Sorted(members[i].value))
  {
    if members != [] {
      SortedMembersAre(members[1..]);
    }
  }

  lemma {:induction false} SortedItemsAre(items: seq<Json>)
    ensures |SortedItems(items)| == |items|
    ensures forall i :: 0 <= i < |items| ==> SortedItems(items)[i] == Sorted(items[i])
  {
    if items != [] {
      SortedItemsAre(items[1..]);
    }
  }

  /** Members sort as the entries they are spelled as. */
  lemma {:induction false} InsertSpelled(m: Member, sorted: seq<Member>)
    ensures Spelled(InsertMember(m, sorted)) == Insert(Entry(m.key, StableJson(m.value)), Spelled(sorted))
  {
    if sorted != [] {
      InsertSpelled(m, sorted[1..]);
      assert ([sorted[0]] + InsertMember(m, sorted[1..]))[1..] == InsertMember(m, sorted[1..]);
      assert ([m] + sorted)[1..] == sorted;
      assert Spelled(sorted)[1..] == Spelled(sorted[1..]);
    } else {
      assert [m][1..] == [] && Spelled([m]) == [Entry(m.key, StableJson(m.value))] + Spelled([]);
    }
  }

  lemma {:induction false} SortSpelled(members: seq<Member>)
    ensures Spelled(SortMembers(members)) == Sort(Spelled(members))
  {
    if members != [] {
      SortSpelled(members[1..]);
      InsertSpelled(members[0], SortMembers(members[1..]));
      assert Spelled(members)[1..] == Spelled(members[1..]);
    }
  }

  /** Sorting the values within moves no member. */
  lemma {:induction false} InsertSorted(m: Member, sorted: seq<Member>)
    ensures SortedMembers(InsertMember(m, sorted)) == InsertMember(Member(m.key, Sorted(m.value)), SortedMembers(sorted))
  {
    if sorted != [] {
      InsertSorted(m, sorted[1..]);
      assert ([sorted[0]] + InsertMember(m, sorted[1..]))[1..] == InsertMember(m, sorted[1..]);
      assert ([m] + sorted)[1..] == sorted;
      assert SortedMembers(sorted)[1..] == SortedMembers(sorted[1..]);
    } else {
      assert [m][1..] == [] && SortedMembers([m]) == [Member(m.key, Sorted(m.value))] + SortedMembers([]);
    }
  }

  lemma {:induction false} SortSorted(members: seq<Member>)
    ensures SortedMembers(SortMembers(members)) == SortMembers(SortedMembers(members))
  {
    if members != [] {
      SortSorted(members[1..]);
      InsertSorted(members[0], SortMembers(members[1..]));
      assert SortedMembers(members)[1..] == SortedMembers(members[1..]);
    }
  }

  // ── Its text ───────────────────────────────────────────────────────────

  function PieceOf(c: char): Q.Piece {
    if Letter(c) != ' ' then Q.Short(Letter(c))
    else if c < ' ' then Q.Unicode('0', '0', Hex(c as int / 16), Hex(c as int % 16))
    else Q.Plain(c)
  }

  function PiecesOf(s: string): seq<Q.Piece> {
    if s == "" then [] else [PieceOf(s[0])] + PiecesOf(s[1..])
  }

  /** A value as a JSON text, its members in the order they are in. */
  function ValueOf(j: Json): Q.Value {
    match j
    case Null => Q.Word("null")
    case Bool(b) => Q.Word(if b then "true" else "false")
    case Number(s) => Q.Word(s)
    case Text(s) => Q.Quoted(PiecesOf(s))
    case Array(items) => Q.Array("", ItemsOf(items))
    case Object(members) => Q.Object("", MembersOf(members))
  }

  function ItemsOf(items: seq<Json>): seq<Q.Item> {
    if items == [] then [] else [Q.Item("", ValueOf(items[0]), "")] + ItemsOf(items[1..])
  }

  function MembersOf(members: seq<Member>): seq<Q.Member> {
    if members == [] then []
    else [Q.Member("", PiecesOf(members[0].key), "", Q.Item("", ValueOf(members[0].value), ""))] + MembersOf(members[1..])
  }

  function TextOf(j: Json): Q.Text {
    Q.Item("", ValueOf(j), "")
  }

  lemma OnePiece(c: char, rest: string)
    ensures Q.Write(PieceOf(c), rest) == Escape(c) + rest
    ensures Q.PieceOk(PieceOf(c)) && !PieceOf(c).Bare?
  {
  }

  lemma {:induction false} PiecesWrite(s: string, rest: string)
    ensures Q.WritePieces(PiecesOf(s), rest) == EscapeAll(s) + rest
  {
    if s != "" {
      PiecesWrite(s[1..], rest);
      OnePiece(s[0], EscapeAll(s[1..]) + rest);
      assert PiecesOf(s)[1..] == PiecesOf(s[1..]);
      Assoc(Escape(s[0]), EscapeAll(s[1..]), rest);
    }
  }

  lemma QuotesWrite(s: string, rest: string)
    ensures Q.WriteQuoted(PiecesOf(s), rest) == Quote(s) + rest
  {
    PiecesWrite(s, ['\"'] + rest);
    assert ['\"'] + (EscapeAll(s) + (['\"'] + rest)) == ("\"" + EscapeAll(s) + "\"") + rest;
  }

  /** The spelling of a value is the text of it sorted, whatever follows. */
  ghost predicate SpellsAsSorted(j: Json) {
    forall rest :: Q.WriteItem(TextOf(Sorted(j)), rest) == StableJson(j) + rest
  }

  lemma {:induction false} ItemsWrite(items: seq<Json>, rest: string)
    requires items != [] && forall x :: x in items ==> SpellsAsSorted(x)
    ensures Q.WriteItems(ItemsOf(SortedItems(items)), "]" + rest) == Joined(Texts(items), "]") + rest
  {
    var written := ItemsOf(SortedItems(items));
    assert SortedItems(items)[1..] == SortedItems(items[1..]) && written[1..] == ItemsOf(SortedItems(items[1..]));
    assert written[0] == TextOf(Sorted(items[0])) && |written| == |items| by {
      ItemsAre(SortedItems(items));
      SortedItemsAre(items);
    }
    assert items[0] in items && SpellsAsSorted(items[0]) && Texts(items)[1..] == Texts(items[1..]);
    if |items| > 1 {
      ItemsWrite(items[1..], rest);
      Assoc(StableJson(items[0]), "," + Joined(Texts(items[1..]), "]"), rest);
      Assoc(",", Joined(Texts(items[1..]), "]"), rest);
    } else {
      Assoc(StableJson(items[0]), "]", rest);
    }
  }

  lemma {:induction false} ItemsAre(items: seq<Json>)
    ensures |ItemsOf(items)| == |items|
    ensures forall i :: 0 <= i < |items| ==> ItemsOf(items)[i] == TextOf(items[i])
  {
    if items != [] {
      ItemsAre(items[1..]);
    }
  }

  lemma {:induction false} MembersAre(members: seq<Member>)
    ensures |MembersOf(members)| == |members|
    ensures forall i :: 0 <= i < |members| ==> MembersOf(members)[i] == Q.Member("", PiecesOf(members[i].key), "", TextOf(members[i].value))
  {
    if members != [] {
      MembersAre(members[1..]);
    }
  }

  lemma MemberWrites(m: Member, rest: string)
    requires SpellsAsSorted(m.value)
    ensures Q.WriteMember(Q.Member("", PiecesOf(m.key), "", TextOf(Sorted(m.value))), rest)
      == (Quote(m.key) + (":" + StableJson(m.value))) + rest
  {
    var text := StableJson(m.value);
    QuotesWrite(m.key, ":" + (text + rest));
    assert "" + (":" + (text + rest)) == ":" + (text + rest);
    Assoc(":", text, rest);
    Assoc(Quote(m.key), ":" + text, rest);
  }

  lemma {:induction false} MembersWrite(members: seq<Member>, rest: string)
    requires members != [] && forall m :: m in members ==> SpellsAsSorted(m.value)
    ensures Q.WriteMembers(MembersOf(SortedMembers(members)), "}" + rest) == Joined(Colons(Spelled(members)), "}") + rest
  {
    var written, first := MembersOf(SortedMembers(members)), members[0];
    assert SortedMembers(members)[1..] == SortedMembers(members[1..]) && written[1..] == MembersOf(SortedMembers(members[1..]));
    assert written[0] == Q.Member("", PiecesOf(first.key), "", TextOf(Sorted(first.value))) && |written| == |members| by {
      MembersAre(SortedMembers(members));
      SortedMembersAre(members);
    }
    var head, tail := Quote(first.key) + (":" + StableJson(first.value)), Joined(Colons(Spelled(members[1..])), "}");
    assert Spelled(members)[1..] == Spelled(members[1..]) && Colons(Spelled(members))[1..] == Colons(Spelled(members[1..]));
    assert first in members && Colons(Spelled(members))[0] == head;
    SpelledAt(members);
    if |members| > 1 {
      MembersWrite(members[1..], rest);
      MemberWrites(first, "," + (tail + rest));
      Assoc(head, "," + tail, rest);
      Assoc(",", tail, rest);
    } else {
      MemberWrites(first, "}" + rest);
      Assoc(head, "}", rest);
    }
  }

  lemma BareItem(v: Q.Value, rest: string)
    ensures Q.WriteItem(Q.Item("", v, ""), rest) == Q.WriteValue(v, rest)
  {
    assert "" + rest == rest && "" + Q.WriteValue(v, rest) == Q.WriteValue(v, rest);
  }

  lemma BareArray(items: seq<Q.Item>, rest: string)
    ensures Q.WriteValue(Q.Array("", items), rest) == "[" + if items == [] then "]" + rest else Q.WriteItems(items, "]" + rest)
  {
    assert "" + ("]" + rest) == "]" + rest;
  }

  lemma BareObject(members: seq<Q.Member>, rest: string)
    ensures Q.WriteValue(Q.Object("", members), rest) == "{" + if members == [] then "}" + rest else Q.WriteMembers(members, "}" + rest)
  {
    assert "" + ("}" + rest) == "}" + rest;
  }

  lemma InOrderSpell(inOrder: seq<Member>, rest: string)
    requires forall m :: m in inOrder ==> SpellsAsSorted(m.value)
    ensures Q.WriteValue(Q.Object("", MembersOf(SortedMembers(inOrder))), rest) == ("{" + Joined(Colons(Spelled(inOrder)), "}")) + rest
  {
    SortedMembersAre(inOrder);
    MembersAre(SortedMembers(inOrder));
    BareObject(MembersOf(SortedMembers(inOrder)), rest);
    Assoc("{", Joined(Colons(Spelled(inOrder)), "}"), rest);
    if inOrder != [] {
      MembersWrite(inOrder, rest);
    }
  }

  lemma ObjectSpells(members: seq<Member>, rest: string)
    requires forall m :: m in members ==> SpellsAsSorted(m.value)
    ensures Q.WriteItem(TextOf(Sorted(Object(members))), rest) == StableJson(Object(members)) + rest
  {
    SortKeepsMembers(members);
    SortSorted(members);
    SortSpelled(members);
    BareItem(ValueOf(Sorted(Object(members))), rest);
    InOrderSpell(SortMembers(members), rest);
  }

  lemma ArraySpells(items: seq<Json>, rest: string)
    requires forall x :: x in items ==> SpellsAsSorted(x)
    ensures Q.WriteItem(TextOf(Sorted(Array(items))), rest) == StableJson(Array(items)) + rest
  {
    SortedItemsAre(items);
    ItemsAre(SortedItems(items));
    BareItem(ValueOf(Sorted(Array(items))), rest);
    BareArray(ItemsOf(SortedItems(items)), rest);
    Assoc("[", Joined(Texts(items), "]"), rest);
    if items != [] {
      ItemsWrite(items, rest);
    }
  }

  lemma {:induction false} SpellsSorted(j: Json)
    ensures SpellsAsSorted(j)
  {
    match j
    case Array(items) =>
      forall x | x in items
        ensures SpellsAsSorted(x)
      {
        SpellsSorted(x);
      }
      forall rest
        ensures Q.WriteItem(TextOf(Sorted(j)), rest) == StableJson(j) + rest
      {
        ArraySpells(items, rest);
      }
    case Object(members) =>
      forall m | m in members
        ensures SpellsAsSorted(m.value)
      {
        SpellsSorted(m.value);
      }
      forall rest
        ensures Q.WriteItem(TextOf(Sorted(j)), rest) == StableJson(j) + rest
      {
        ObjectSpells(members, rest);
      }
    case Text(s) =>
      forall rest
        ensures Q.WriteItem(TextOf(Sorted(j)), rest) == StableJson(j) + rest
      {
        QuotesWrite(s, rest);
        BareItem(ValueOf(j), rest);
      }
    case _ =>
      forall rest
        ensures Q.WriteItem(TextOf(Sorted(j)), rest) == StableJson(j) + rest
      {
        BareItem(ValueOf(j), rest);
      }
  }

  // ── What is sorted ─────────────────────────────────────────────────────

  lemma {:induction false} PiecesAreValid(s: string)
    ensures Q.PiecesValid(PiecesOf(s))
  {
    if s != "" {
      PiecesAreValid(s[1..]);
      OnePiece(s[0], "");
    }
  }

  lemma {:induction false} TextIsValid(j: Json)
    requires Proper(j)
    ensures Q.ItemValid(TextOf(j))
  {
    match j
    case Text(s) => PiecesAreValid(s);
    case Array(items) =>
      ItemsAre(items);
      forall i | 0 <= i < |items|
        ensures Q.ItemValid(ItemsOf(items)[i])
      {
        assert items[i] in items;
        TextIsValid(items[i]);
      }
    case Object(members) =>
      MembersAre(members);
      forall i | 0 <= i < |members|
        ensures Q.PiecesValid(MembersOf(members)[i].key) && Q.ItemValid(MembersOf(members)[i].item)
      {
        assert members[i] in members;
        PiecesAreValid(members[i].key);
        TextIsValid(members[i].value);
      }
    case _ =>
  }

  lemma {:induction false} InsertKeepsRise(m: Member, sorted: seq<Member>)
    requires Rises(sorted)
    requires forall x :: x in sorted ==> x.key != m.key
    ensures Rises(InsertMember(m, sorted))
  {
    if sorted != [] {
      var head, rest := sorted[0], sorted[1..];
      assert sorted == [head] + rest;
      LessIsTotal(head.key, m.key);
      if Less(head.key, m.key) {
        InsertKeepsRise(m, rest);
        InsertIsOneMore(m, rest);
        assert forall x :: x in rest ==> Less(head.key, x.key);
      } else {
        forall x | x in sorted
          ensures Less(m.key, x.key)
        {
          if x != head {
            LessIsTransitive(m.key, head.key, x.key);
          }
        }
      }
    }
  }

  lemma {:induction false} SortRises(members: seq<Member>)
    requires DistinctKeys(members)
    ensures Rises(SortMembers(members))
  {
    if members != [] {
      var first, rest := members[0], members[1..];
      assert members == [first] + rest;
      SortRises(rest);
      SortKeepsMembers(rest);
      forall x | x in rest
        ensures x.key != first.key
      {
        var i :| 0 <= i < |rest| && rest[i] == x;
        assert members[i + 1] == x;
      }
      InsertKeepsRise(first, SortMembers(rest));
    }
  }

  lemma RisingAreDistinct(members: seq<Member>)
    requires Rises(members)
    ensures DistinctKeys(members)
  {
    forall i, k | 0 <= i < k < |members|
      ensures members[i].key != members[k].key
    {
      LessIsStrict(members[i].key, members[k].key);
    }
  }

  lemma ObjectIsSame(members: seq<Member>)
    requires DistinctKeys(members)
    requires forall m :: m in members ==> Proper(m.value) && Same(m.value, Sorted(m.value)) && Proper(Sorted(m.value)) && KeysRise(Sorted(m.value))
    ensures var j := Sorted(Object(members)); Proper(j) && KeysRise(j) && Same(Object(members), j)
  {
    var within := SortedMembers(members);
    var all := SortMembers(within);
    SortedMembersAre(members);
    SortKeepsMembers(within);
    SortRises(within);
    RisingAreDistinct(all);
    forall x | x in all
      ensures exists m :: m in members && x == Member(m.key, Sorted(m.value))
    {
      var i :| 0 <= i < |within| && within[i] == x;
      assert members[i] in members;
    }
    forall m | m in members
      ensures Member(m.key, Sorted(m.value)) in all
    {
      var i :| 0 <= i < |members| && members[i] == m;
      assert within[i] in within;
    }
    KeysAreKept(members, all);
    forall m, n | m in members && n in all && m.key == n.key
      ensures Same(m.value, n.value)
    {
      var k :| k in members && n == Member(k.key, Sorted(k.value));
      OneByKey(members, m, k);
    }
  }

  lemma KeysAreKept(members: seq<Member>, all: seq<Member>)
    requires forall x :: x in all ==> exists m :: m in members && x == Member(m.key, Sorted(m.value))
    requires forall m :: m in members ==> Member(m.key, Sorted(m.value)) in all
    ensures Keys(members) == Keys(all)
  {
    forall m | m in members
      ensures m.key in Keys(all)
    {
      assert Member(m.key, Sorted(m.value)) in all;
    }
  }

  lemma OneByKey(members: seq<Member>, m: Member, n: Member)
    requires DistinctKeys(members) && m in members && n in members && m.key == n.key
    ensures m == n
  {
    var i :| 0 <= i < |members| && members[i] == m;
    var k :| 0 <= k < |members| && members[k] == n;
  }

  lemma {:induction false} SortedIsSame(j: Json)
    requires Proper(j)
    ensures Proper(Sorted(j)) && KeysRise(Sorted(j)) && Same(j, Sorted(j))
  {
    match j
    case Array(items) =>
      SortedItemsAre(items);
      forall i | 0 <= i < |items|
        ensures Proper(Sorted(items[i])) && KeysRise(Sorted(items[i])) && Same(items[i], Sorted(items[i]))
      {
        assert items[i] in items;
        SortedIsSame(items[i]);
      }
    case Object(members) =>
      forall m | m in members
        ensures Proper(Sorted(m.value)) && KeysRise(Sorted(m.value)) && Same(m.value, Sorted(m.value))
      {
        SortedIsSame(m.value);
      }
      ObjectIsSame(members);
    case _ =>
  }

  /** The canonical spelling is a valid JSON text with no white space: that of the
      same value with every object's keys in increasing order. */
  lemma SpellsTheSortedValue(j: Json)
    requires Proper(j)
    ensures StableJson(j) == Q.WriteItem(TextOf(Sorted(j)), "") && Q.ItemValid(TextOf(Sorted(j)))
    ensures Same(j, Sorted(j)) && KeysRise(Sorted(j))
  {
    SpellsSorted(j);
    SortedIsSame(j);
    TextIsValid(Sorted(j));
    assert SpellsAsSorted(j) && StableJson(j) + "" == StableJson(j);
  }
}
