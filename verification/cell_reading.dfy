/**
 What an Airtable cell comes to once read: a plain value, or a list of plain
 values, whatever object was sent.
 */
module CellReading {
  import opened KeyedParts
  import opened Options
  import opened Sequences
  import opened StableJsonText

  function Get(members: seq<Member>, key: string): Option<Json> {
    if members == [] then None else if members[0].key == key then Some(members[0].value) else Get(members[1..], key)
  }

  function Prop(j: Json, key: string): Option<Json> {
    if j.Object? then Get(j.members, key) else None
  }

  predicate IsText(j: Option<Json>) {
    j.Some? && j.value.Text?
  }

  /** The first of the keys under which the object holds text. */
  function FirstText(j: Json, keys: seq<string>): Option<Json> {
    if keys == [] then None else if IsText(Prop(j, keys[0])) then Prop(j, keys[0]) else FirstText(j, keys[1..])
  }

  /** A value with no parts. */
  predicate Plain(j: Json) {
    !j.Array? && !j.Object?
  }

  const NAMING := ["email", "name", "text"]
  const LABELLING := ["label", "id"]

  function ScalarOf(cell: Json): (r: Json)
    ensures Plain(r)
    decreases cell, 0
  {
    if Plain(cell) then cell
    else if cell.Array? then Text(StableJson(Array(ScalarsOf(cell.items))))
    else if FirstText(cell, NAMING).Some? then NamedBy(cell, NAMING)
    else if Prop(cell, "value").Some? && Prop(cell, "state").Some? then
      if Prop(cell, "value").value.Text? then Prop(cell, "value").value else Null
    else if FirstText(cell, LABELLING).Some? then NamedBy(cell, LABELLING)
    else Text(StableJson(cell))
  }

  function NamedBy(j: Json, keys: seq<string>): (r: Json)
    requires FirstText(j, keys).Some?
    ensures Plain(r)
  {
    if IsText(Prop(j, keys[0])) then Prop(j, keys[0]).value else NamedBy(j, keys[1..])
  }

  function ScalarsOf(items: seq<Json>): (r: seq<Json>)
    ensures |r| == |items| && forall x :: x in r ==> Plain(x)
    decreases items, 1
  {
    if items == [] then [] else [ScalarOf(items[0])] + ScalarsOf(items[1..])
  }

  /** A linked record by its id. */
  function IdOf(link: Json): (r: Json)
    ensures Plain(r)
  {
    if IsText(Prop(link, "id")) then Prop(link, "id").value else ScalarOf(link)
  }

  function IdsOf(links: seq<Json>): (r: seq<Json>)
    ensures forall x :: x in r ==> Plain(x)
  {
    if links == [] then [] else [IdOf(links[0])] + IdsOf(links[1..])
  }

  function TextsIn(items: seq<Json>): seq<string> {
    if items == [] then [] else (if items[0].Text? then [items[0].text] else []) + TextsIn(items[1..])
  }

  function KeysOf(members: seq<Member>): seq<string> {
    if members == [] then [] else [members[0].key] + KeysOf(members[1..])
  }

  /** In which order a lookup's records are read: the order it states, or, where it
      states none, that of the keys. */
  function LookupOrder(value: Json, byRecord: Json): seq<string>
    requires byRecord.Object?
  {
    var order := Prop(value, "linkedRecordIds");
    if order.Some? && order.value.Array? then TextsIn(order.value.items) else KeysOf(byRecord.members)
  }

  function ValuesUnder(byRecord: Json, ids: seq<string>): (r: seq<Json>)
    ensures forall x :: x in r ==> Plain(x)
  {
    if ids == [] then []
    else
      var held := Prop(byRecord, ids[0]);
      (if held.None? then [] else if held.value.Array? then ScalarsOf(held.value.items) else [ScalarOf(held.value)])
      + ValuesUnder(byRecord, ids[1..])
  }

  function LookupValues(value: Json): Json {
    if value.Array? then Array(ScalarsOf(value.items))
    else if Plain(value) then value
    else
      var byRecord := Prop(value, "valuesByLinkedRecordId");
      if byRecord.None? || !byRecord.value.Object? then ScalarOf(value)
      else Array(ValuesUnder(byRecord.value, LookupOrder(value, byRecord.value)))
  }

  function ReadCell(value: Json, kind: Option<string>): Json {
    if value.Null? || kind == Some("multipleAttachments") then value
    else if kind == Some("multipleRecordLinks") then (if value.Array? then Array(IdsOf(value.items)) else value)
    else if kind in {Some("multipleLookupValues"), Some("lookup")} then LookupValues(value)
    else if value.Array? then Array(ScalarsOf(value.items))
    else ScalarOf(value)
  }

  // ── What a movement can compare ────────────────────────────────────────

  /** A plain value, or a list of plain values. */
  predicate ListOfPlain(j: Json) {
    Plain(j) || (j.Array? && forall x :: x in j.items ==> Plain(x))
  }

  /** Files stay as they are sent, and so does a link that is no list. */
  predicate StaysAsSent(value: Json, kind: Option<string>) {
    kind == Some("multipleAttachments") || (kind == Some("multipleRecordLinks") && !value.Array?)
  }

  /** Every other cell reads as plain values, never as the object Airtable sent. */
  lemma ReadsAsPlainValues(value: Json, kind: Option<string>)
    ensures ListOfPlain(ReadCell(value, kind)) <==> !StaysAsSent(value, kind) || ListOfPlain(value)
  {
  }

  // ── Equal cells read equal ─────────────────────────────────────────────

  lemma {:induction false} GetFinds(members: seq<Member>, key: string)
    ensures Get(members, key).Some? <==> key in Keys(members)
    ensures Get(members, key).Some? ==> Member(key, Get(members, key).value) in members
  {
    if members != [] {
      GetFinds(members[1..], key);
      assert members == [members[0]] + members[1..];
    }
  }

  ghost predicate SameOption(a: Option<Json>, b: Option<Json>) {
    (a.Some? <==> b.Some?) && (a.Some? ==> Proper(a.value) && Proper(b.value) && Same(a.value, b.value))
  }

  lemma SameProps(a: Json, b: Json, key: string)
    requires Proper(a) && Proper(b) && Same(a, b)
    ensures SameOption(Prop(a, key), Prop(b, key))
  {
    if a.Object? {
      GetFinds(a.members, key);
      GetFinds(b.members, key);
    }
  }

  lemma {:induction false} SameFirstText(a: Json, b: Json, keys: seq<string>)
    requires Proper(a) && Proper(b) && Same(a, b)
    ensures FirstText(a, keys) == FirstText(b, keys)
    ensures FirstText(a, keys).Some? ==> NamedBy(a, keys) == NamedBy(b, keys)
  {
    if keys != [] {
      SameProps(a, b, keys[0]);
      SameFirstText(a, b, keys[1..]);
    }
  }

  /** Two cells equal up to key order, at every depth, read equal. */
  lemma {:induction false} EqualScalars(a: Json, b: Json)
    requires Proper(a) && Proper(b) && Same(a, b)
    ensures ScalarOf(a) == ScalarOf(b)
    decreases a, 0
  {
    if a.Array? {
      assert forall i :: 0 <= i < |a.items| ==> a.items[i] in a.items && b.items[i] in b.items;
      EqualLists(a.items, b.items);
    } else if a.Object? {
      SameFirstText(a, b, NAMING);
      SameFirstText(a, b, LABELLING);
      SameProps(a, b, "value");
      SameProps(a, b, "state");
      EqualSpellsAlike(a, b);
    }
  }

  ghost predicate SameItems(xs: seq<Json>, ys: seq<Json>) {
    |xs| == |ys| && forall i :: 0 <= i < |xs| ==> Proper(xs[i]) && Proper(ys[i]) && Same(xs[i], ys[i])
  }

  lemma {:induction false} EqualLists(xs: seq<Json>, ys: seq<Json>)
    requires SameItems(xs, ys)
    ensures ScalarsOf(xs) == ScalarsOf(ys)
    decreases xs, 1
  {
    if xs != [] {
      EqualScalars(xs[0], ys[0]);
      EqualLists(xs[1..], ys[1..]);
    }
  }

  lemma SameArrays(a: Json, b: Json)
    requires Proper(a) && Proper(b) && Same(a, b) && a.Array?
    ensures b.Array? && SameItems(a.items, b.items)
  {
    assert forall i :: 0 <= i < |a.items| ==> a.items[i] in a.items && b.items[i] in b.items;
  }

  lemma {:induction false} EqualIds(xs: seq<Json>, ys: seq<Json>)
    requires SameItems(xs, ys)
    ensures IdsOf(xs) == IdsOf(ys)
  {
    if xs != [] {
      SameProps(xs[0], ys[0], "id");
      EqualScalars(xs[0], ys[0]);
      EqualIds(xs[1..], ys[1..]);
    }
  }

  lemma {:induction false} EqualTexts(xs: seq<Json>, ys: seq<Json>)
    requires SameItems(xs, ys)
    ensures TextsIn(xs) == TextsIn(ys)
  {
    if xs != [] {
      EqualTexts(xs[1..], ys[1..]);
    }
  }

  lemma {:induction false} EqualUnder(a: Json, b: Json, ids: seq<string>)
    requires Proper(a) && Proper(b) && Same(a, b)
    ensures ValuesUnder(a, ids) == ValuesUnder(b, ids)
  {
    if ids != [] {
      SameProps(a, b, ids[0]);
      EqualUnder(a, b, ids[1..]);
      var x, y := Prop(a, ids[0]), Prop(b, ids[0]);
      if x.Some? {
        EqualScalars(x.value, y.value);
        if x.value.Array? {
          SameArrays(x.value, y.value);
          EqualLists(x.value.items, y.value.items);
        }
      }
    }
  }

  /** A lookup with values by record and no list to order them by. */
  predicate OrderedByKeys(value: Json) {
    var byRecord, order := Prop(value, "valuesByLinkedRecordId"), Prop(value, "linkedRecordIds");
    byRecord.Some? && byRecord.value.Object? && (order.None? || !order.value.Array?)
  }

  lemma EqualLookups(a: Json, b: Json)
    requires Proper(a) && Proper(b) && Same(a, b) && !OrderedByKeys(a)
    ensures LookupValues(a) == LookupValues(b)
  {
    if a.Array? {
      SameArrays(a, b);
      EqualLists(a.items, b.items);
    } else if a.Object? {
      SameProps(a, b, "valuesByLinkedRecordId");
      SameProps(a, b, "linkedRecordIds");
      EqualScalars(a, b);
      var x, y := Prop(a, "valuesByLinkedRecordId"), Prop(b, "valuesByLinkedRecordId");
      if x.Some? && x.value.Object? {
        var p, q := Prop(a, "linkedRecordIds").value, Prop(b, "linkedRecordIds").value;
        SameArrays(p, q);
        EqualTexts(p.items, q.items);
        EqualUnder(x.value, y.value, TextsIn(p.items));
      }
    }
  }

  predicate IsLookup(kind: Option<string>) {
    kind in {Some("multipleLookupValues"), Some("lookup")}
  }

  /** Two cells equal up to key order read equal, but for a file (as it was sent)
      and a lookup in the order of its keys. */
  lemma EqualCellsReadEqual(a: Json, b: Json, kind: Option<string>)
    requires Proper(a) && Proper(b) && Same(a, b)
    requires !StaysAsSent(a, kind) && !(IsLookup(kind) && OrderedByKeys(a))
    ensures ReadCell(a, kind) == ReadCell(b, kind)
  {
    if IsLookup(kind) {
      EqualLookups(a, b);
    } else if a.Array? {
      SameArrays(a, b);
      EqualIds(a.items, b.items);
      EqualLists(a.items, b.items);
    } else {
      EqualScalars(a, b);
    }
  }

  // ── A lookup in the order of its keys ──────────────────────────────────

  /** What one record's value adds to a lookup: a list's members, or the one value. */
  function Part(value: Json): seq<Json> {
    if value.Array? then ScalarsOf(value.items) else [ScalarOf(value)]
  }

  /** The records' parts, under their keys in order. */
  function Parts(members: seq<Member>): (parts: seq<Keyed<Json>>)
    ensures |parts| == |members|
    ensures forall i :: 0 <= i < |members| ==> parts[i] == Keyed(members[i].key, Part(members[i].value))
  {
    seq(|members|, i requires 0 <= i < |members| => Keyed(members[i].key, Part(members[i].value)))
  }

  lemma {:induction false} GetIsThe(members: seq<Member>, m: Member)
    requires DistinctKeys(members) && m in members
    ensures Get(members, m.key) == Some(m.value)
  {
    GetFinds(members, m.key);
    var found := Member(m.key, Get(members, m.key).value);
    var i :| 0 <= i < |members| && members[i] == m;
    var j :| 0 <= j < |members| && members[j] == found;
  }

  lemma {:induction false} ReadInKeyOrder(all: seq<Member>, some: seq<Member>)
    requires DistinctKeys(all) && forall m :: m in some ==> m in all
    ensures ValuesUnder(Object(all), KeysOf(some)) == Flat(Parts(some))
  {
    if some != [] {
      assert some[0] in some && forall m :: m in some[1..] ==> m in some;
      ReadInKeyOrder(all, some[1..]);
      GetIsThe(all, some[0]);
      assert KeysOf(some)[1..] == KeysOf(some[1..]);
      assert Parts(some)[1..] == Parts(some[1..]);
    }
  }

  lemma PartsApart(members: seq<Member>)
    requires DistinctKeys(members)
    ensures NoRepeats(Parts(members))
  {
  }

  lemma PartsWithin(ms: seq<Member>, ns: seq<Member>)
    requires Keys(ms) <= Keys(ns)
    requires forall m, n :: m in ms && n in ns && m.key == n.key ==> Part(m.value) == Part(n.value)
    ensures forall p :: p in Parts(ms) ==> p in Parts(ns)
  {
    forall p | p in Parts(ms)
      ensures p in Parts(ns)
    {
      var i :| 0 <= i < |ms| && Parts(ms)[i] == p;
      assert ms[i] in ms && ms[i].key in Keys(ns);
      var n :| n in ns && n.key == ms[i].key;
      var j :| 0 <= j < |ns| && ns[j] == n;
      assert Parts(ns)[j] == p;
    }
  }

  lemma {:induction false} SameAsItself(j: Json)
    requires Proper(j)
    ensures Same(j, j)
  {
    match j
    case Array(items) =>
      forall i | 0 <= i < |items|
        ensures Same(items[i], items[i])
      {
        assert items[i] in items;
        SameAsItself(items[i]);
      }
    case Object(members) =>
      forall m, n | m in members && n in members && m.key == n.key
        ensures Same(m.value, n.value)
      {
        GetIsThe(members, m);
        GetIsThe(members, n);
        SameAsItself(m.value);
      }
    case _ =>
  }

  function Foremost(members: seq<Member>, k: nat): seq<Member>
    requires k < |members|
  {
    [members[k]] + (members[..k] + members[k + 1..])
  }

  lemma AroundMember(front: seq<Member>, m: Member, back: seq<Member>)
    requires DistinctKeys(front + ([m] + back))
    ensures DistinctKeys([m] + (front + back))
  {
    var s, t, k := front + ([m] + back), [m] + (front + back), |front|;
    assert forall i :: 0 <= i < |t| ==> t[i] == s[if i == 0 then k else if i - 1 < k then i - 1 else i];
  }

  lemma SameAroundMember(front: seq<Member>, m: Member, back: seq<Member>)
    ensures SameMembers(front + ([m] + back), [m] + (front + back))
  {
  }

  lemma ForemostKeeps(members: seq<Member>, k: nat)
    requires k < |members| && DistinctKeys(members)
    ensures DistinctKeys(Foremost(members, k)) && SameMembers(members, Foremost(members, k))
  {
    var front, m, back := members[..k], members[k], members[k + 1..];
    assert members == front + ([m] + back);
    AroundMember(front, m, back);
    SameAroundMember(front, m, back);
  }

  /** The same members in another order are the same object. */
  lemma ReorderedIsSame(ms: seq<Member>, ns: seq<Member>)
    requires Proper(Object(ms)) && DistinctKeys(ns) && SameMembers(ms, ns)
    ensures Proper(Object(ns)) && Same(Object(ms), Object(ns))
  {
    forall m, n | m in ms && n in ns && m.key == n.key
      ensures Same(m.value, n.value)
    {
      GetIsThe(ms, m);
      GetIsThe(ms, n);
      SameAsItself(m.value);
    }
    assert forall m :: m in ms ==> m in ns && m.key in Keys(ns);
    assert forall n :: n in ns ==> n in ms && n.key in Keys(ms);
  }

  /** Two members brought to the front, the later one second. */
  function Forward(members: seq<Member>, i: nat, j: nat): seq<Member>
    requires i < j < |members|
  {
    Foremost(Foremost(members, j), i + 1)
  }

  /** The same, the later one first. */
  function Crossed(members: seq<Member>, i: nat, j: nat): seq<Member>
    requires i < j < |members|
  {
    Foremost(Foremost(members, i), j)
  }

  lemma ForwardAndCrossed(members: seq<Member>, i: nat, j: nat)
    requires i < j < |members|
    ensures var rest := members[..i] + members[i + 1..j] + members[j + 1..];
      Forward(members, i, j) == [members[i], members[j]] + rest && Crossed(members, i, j) == [members[j], members[i]] + rest
  {
  }

  lemma ForwardIsSame(members: seq<Member>, i: nat, j: nat)
    requires i < j < |members| && Proper(Object(members))
    ensures Proper(Object(Forward(members, i, j))) && Same(Object(members), Object(Forward(members, i, j)))
    ensures Proper(Object(Crossed(members, i, j))) && Same(Object(members), Object(Crossed(members, i, j)))
  {
    ForemostKeeps(members, j);
    ForemostKeeps(Foremost(members, j), i + 1);
    ReorderedIsSame(members, Forward(members, i, j));
    ForemostKeeps(members, i);
    ForemostKeeps(Foremost(members, i), j);
    ReorderedIsSame(members, Crossed(members, i, j));
  }

  /** The object with another value under a key it has. */
  function Replaced(members: seq<Member>, key: string, value: Json): seq<Member> {
    if members == [] then []
    else [if members[0].key == key then Member(key, value) else members[0]] + Replaced(members[1..], key, value)
  }

  lemma {:induction false} ReplacedAt(members: seq<Member>, key: string, value: Json)
    ensures |Replaced(members, key, value)| == |members|
    ensures forall i :: 0 <= i < |members| ==>
      Replaced(members, key, value)[i] == if members[i].key == key then Member(key, value) else members[i]
    ensures forall k :: k != key ==> Get(Replaced(members, key, value), k) == Get(members, k)
    ensures Get(members, key).Some? ==> Get(Replaced(members, key, value), key) == Some(value)
  {
    if members != [] {
      ReplacedAt(members[1..], key, value);
      var after := Replaced(members, key, value);
      assert after[1..] == Replaced(members[1..], key, value);
    }
  }

  lemma SameKeyList(ms: seq<Member>, ns: seq<Member>)
    requires DistinctKeys(ms) && |ms| == |ns| && forall i :: 0 <= i < |ms| ==> ns[i].key == ms[i].key
    ensures DistinctKeys(ns) && Keys(ns) == Keys(ms)
  {
    forall k
      ensures k in Keys(ns) <==> k in Keys(ms)
    {
      if m :| m in ms && m.key == k {
        var i :| 0 <= i < |ms| && ms[i] == m;
        assert ns[i] in ns;
      }
      if n :| n in ns && n.key == k {
        var i :| 0 <= i < |ns| && ns[i] == n;
        assert ms[i] in ms;
      }
    }
  }

  lemma ReplacedKeys(members: seq<Member>, key: string, value: Json)
    requires DistinctKeys(members)
    ensures DistinctKeys(Replaced(members, key, value)) && Keys(Replaced(members, key, value)) == Keys(members)
  {
    ReplacedAt(members, key, value);
    SameKeyList(members, Replaced(members, key, value));
  }

  lemma ReplacedMember(members: seq<Member>, key: string, value: Json, n: Member)
    requires n in Replaced(members, key, value)
    ensures n == Member(key, value) || (n in members && n.key != key)
  {
    ReplacedAt(members, key, value);
    var i :| 0 <= i < |members| && Replaced(members, key, value)[i] == n;
    assert members[i] in members;
  }

  lemma ReplacedIsSame(members: seq<Member>, key: string, value: Json)
    requires Proper(Object(members)) && Proper(value)
    requires Get(members, key).Some? && Same(Get(members, key).value, value)
    ensures Proper(Object(Replaced(members, key, value))) && Same(Object(members), Object(Replaced(members, key, value)))
  {
    var after := Replaced(members, key, value);
    ReplacedKeys(members, key, value);
    forall n | n in after
      ensures Proper(n.value)
    {
      ReplacedMember(members, key, value, n);
    }
    forall m, n | m in members && n in after && m.key == n.key
      ensures Same(m.value, n.value)
    {
      ReplacedMember(members, key, value, n);
      GetIsThe(members, m);
      if n in members {
        GetIsThe(members, n);
        SameAsItself(m.value);
      }
    }
  }

  const BY_RECORD := "valuesByLinkedRecordId"

  /** The records' values of a lookup that says no order. */
  function ByRecord(value: Json): seq<Member>
    requires OrderedByKeys(value)
  {
    Prop(value, BY_RECORD).value.members
  }

  lemma LookupInKeyOrder(value: Json)
    requires value.Object? && OrderedByKeys(value)
    ensures LookupValues(value) == Array(ValuesUnder(Object(ByRecord(value)), KeysOf(ByRecord(value))))
  {
  }

  lemma CellInKeyOrder(value: Json, kind: Option<string>)
    requires IsLookup(kind) && OrderedByKeys(value)
    ensures ReadCell(value, kind) == Array(ValuesUnder(Object(ByRecord(value)), KeysOf(ByRecord(value))))
  {
    LookupInKeyOrder(value);
    assert ReadCell(value, kind) == LookupValues(value);
  }

  lemma KeyOrderedReads(value: Json, kind: Option<string>)
    requires Proper(value) && IsLookup(kind) && OrderedByKeys(value)
    ensures ReadCell(value, kind) == Array(Flat(Parts(ByRecord(value))))
  {
    var ms := ByRecord(value);
    assert DistinctKeys(ms) by {
      GetFinds(value.members, BY_RECORD);
    }
    ReadInKeyOrder(ms, ms);
    CellInKeyOrder(value, kind);
  }

  lemma SameIsOrderedAlike(a: Json, b: Json)
    requires Proper(a) && Proper(b) && Same(a, b) && OrderedByKeys(a)
    ensures OrderedByKeys(b) && Same(Object(ByRecord(a)), Object(ByRecord(b)))
    ensures Proper(Object(ByRecord(a))) && Proper(Object(ByRecord(b)))
  {
    SameProps(a, b, BY_RECORD);
    SameProps(a, b, "linkedRecordIds");
  }

  lemma SameValuesReadAlike(v: Json, w: Json)
    requires Proper(v) && Proper(w) && Same(v, w)
    ensures Part(v) == Part(w)
  {
    EqualScalars(v, w);
    if v.Array? {
      SameArrays(v, w);
      EqualLists(v.items, w.items);
    }
  }

  lemma SameObjectsSameParts(ms: seq<Member>, ns: seq<Member>)
    requires Proper(Object(ms)) && Proper(Object(ns)) && Same(Object(ms), Object(ns))
    ensures NoRepeats(Parts(ms)) && NoRepeats(Parts(ns)) && SameMembers(Parts(ms), Parts(ns))
  {
    forall m, n | m in ms && n in ns && m.key == n.key
      ensures Part(m.value) == Part(n.value)
    {
      SameValuesReadAlike(m.value, n.value);
    }
    PartsApart(ms);
    PartsApart(ns);
    PartsWithin(ms, ns);
    PartsWithin(ns, ms);
  }

  /** Every cell equal to this one up to key order reads as it does. */
  ghost predicate ReadsAlikeHoweverKeyed(a: Json, kind: Option<string>) {
    forall b :: Proper(b) && Same(a, b) ==> ReadCell(b, kind) == ReadCell(a, kind)
  }

  lemma ReplacedByRecord(a: Json, moved: seq<Member>)
    requires OrderedByKeys(a)
    ensures var b := Object(Replaced(a.members, BY_RECORD, Object(moved)));
      OrderedByKeys(b) && ByRecord(b) == moved
  {
    var b := Object(Replaced(a.members, BY_RECORD, Object(moved)));
    ReplacedAt(a.members, BY_RECORD, Object(moved));
    assert Prop(b, BY_RECORD) == Some(Object(moved));
    assert Prop(b, "linkedRecordIds") == Prop(a, "linkedRecordIds") by {
      assert |"linkedRecordIds"| != |BY_RECORD|;
    }
  }

  lemma WithByRecord(a: Json, moved: seq<Member>)
    requires Proper(a) && OrderedByKeys(a)
    requires Proper(Object(moved)) && Same(Object(ByRecord(a)), Object(moved))
    ensures var b := Object(Replaced(a.members, BY_RECORD, Object(moved)));
      Proper(b) && Same(a, b) && OrderedByKeys(b) && ByRecord(b) == moved
  {
    var value := Object(ByRecord(a));
    assert Get(a.members, BY_RECORD) == Some(value);
    ReplacedIsSame(a.members, BY_RECORD, Object(moved));
    ReplacedByRecord(a, moved);
    assert a == Object(a.members);
  }

  lemma ReadsAsMoved(a: Json, kind: Option<string>, moved: seq<Member>)
    requires Proper(a) && IsLookup(kind) && OrderedByKeys(a) && ReadsAlikeHoweverKeyed(a, kind)
    requires Proper(Object(moved)) && Same(Object(ByRecord(a)), Object(moved))
    ensures Array(Flat(Parts(moved))) == ReadCell(a, kind)
  {
    var b := Object(Replaced(a.members, BY_RECORD, Object(moved)));
    WithByRecord(a, moved);
    KeyOrderedReads(b, kind);
  }

  lemma PairParts(p: Member, q: Member, rest: seq<Member>)
    ensures Parts([p, q] + rest) == [Keyed(p.key, Part(p.value)), Keyed(q.key, Part(q.value))] + Parts(rest)
  {
  }

  lemma PartsForwardAndCrossed(ms: seq<Member>, i: nat, j: nat)
    requires i < j < |ms|
    ensures var rest := Parts(ms[..i] + ms[i + 1..j] + ms[j + 1..]);
      && Parts(Forward(ms, i, j)) == [Parts(ms)[i], Parts(ms)[j]] + rest
      && Parts(Crossed(ms, i, j)) == [Parts(ms)[j], Parts(ms)[i]] + rest
  {
    var rest := ms[..i] + ms[i + 1..j] + ms[j + 1..];
    ForwardAndCrossed(ms, i, j);
    PairParts(ms[i], ms[j], rest);
    PairParts(ms[j], ms[i], rest);
  }

  lemma AlikeCommute(a: Json, kind: Option<string>, i: nat, j: nat)
    requires Proper(a) && IsLookup(kind) && OrderedByKeys(a) && ReadsAlikeHoweverKeyed(a, kind)
    requires Proper(Object(ByRecord(a))) && i < j < |ByRecord(a)|
    ensures Commute(Parts(ByRecord(a))[i].part, Parts(ByRecord(a))[j].part)
  {
    var ms := ByRecord(a);
    assert Flat(Parts(Forward(ms, i, j))) == Flat(Parts(Crossed(ms, i, j))) by {
      ForwardIsSame(ms, i, j);
      ReadsAsMoved(a, kind, Forward(ms, i, j));
      ReadsAsMoved(a, kind, Crossed(ms, i, j));
    }
    PartsForwardAndCrossed(ms, i, j);
    SwappedTells(Parts(ms)[i], Parts(ms)[j], Parts(ms[..i] + ms[i + 1..j] + ms[j + 1..]));
  }

  lemma CommutingIsAlike(a: Json, b: Json, kind: Option<string>)
    requires Proper(a) && Proper(b) && Same(a, b) && IsLookup(kind) && OrderedByKeys(a)
    requires AllCommute(Parts(ByRecord(a)))
    ensures ReadCell(b, kind) == ReadCell(a, kind)
  {
    SameIsOrderedAlike(a, b);
    SameObjectsSameParts(ByRecord(a), ByRecord(b));
    CommutingReadAlike(Parts(ByRecord(a)), Parts(ByRecord(b)));
    KeyOrderedReads(a, kind);
    KeyOrderedReads(b, kind);
  }

  lemma AllAlikeCommute(a: Json, kind: Option<string>)
    requires Proper(a) && IsLookup(kind) && OrderedByKeys(a) && ReadsAlikeHoweverKeyed(a, kind)
    ensures AllCommute(Parts(ByRecord(a)))
  {
    var ps := Parts(ByRecord(a));
    SameAsItself(a);
    SameIsOrderedAlike(a, a);
    forall p, q | p in ps && q in ps
      ensures Commute(p.part, q.part)
    {
      var i :| 0 <= i < |ps| && ps[i] == p;
      var j :| 0 <= j < |ps| && ps[j] == q;
      if i < j {
        AlikeCommute(a, kind, i, j);
      } else if j < i {
        AlikeCommute(a, kind, j, i);
      }
    }
  }

  /** A lookup that says no order reads the same however the keys of it, or of
      anything in it, are ordered, if and only if every two of its records'
      values read the same in either order. */
  lemma KeyOrderedLookupReadsAlikeIff(a: Json, kind: Option<string>)
    requires Proper(a) && IsLookup(kind) && OrderedByKeys(a)
    ensures ReadsAlikeHoweverKeyed(a, kind) <==> AllCommute(Parts(ByRecord(a)))
  {
    if AllCommute(Parts(ByRecord(a))) {
      forall b | Proper(b) && Same(a, b)
        ensures ReadCell(b, kind) == ReadCell(a, kind)
      {
        CommutingIsAlike(a, b, kind);
      }
    }
    if ReadsAlikeHoweverKeyed(a, kind) {
      AllAlikeCommute(a, kind);
    }
  }

  /** Two such lookups with their records in one order read equal. */
  lemma OneKeyOrderReadsEqual(a: Json, b: Json, kind: Option<string>)
    requires Proper(a) && Proper(b) && Same(a, b) && IsLookup(kind) && OrderedByKeys(a) && OrderedByKeys(b)
    requires KeysOf(ByRecord(a)) == KeysOf(ByRecord(b))
    ensures ReadCell(a, kind) == ReadCell(b, kind)
  {
    SameIsOrderedAlike(a, b);
    EqualUnder(Object(ByRecord(a)), Object(ByRecord(b)), KeysOf(ByRecord(a)));
    CellInKeyOrder(a, kind);
    CellInKeyOrder(b, kind);
  }
}
