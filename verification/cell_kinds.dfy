/**
 What each kind of Airtable cell reads as: the member that names the object, a
 link's id, and a lookup's values record by record.
 */
module CellKinds {
  import opened Options
  import opened Sequences
  import opened StableJsonText
  import opened CellReading

  /** The object holds this text under this key. */
  predicate HasText(cell: Json, key: string, text: string) {
    cell.Object? && Member(key, Text(text)) in cell.members
  }

  ghost predicate HasNoText(cell: Json, key: string) {
    forall text :: !HasText(cell, key, text)
  }

  ghost predicate Has(cell: Json, key: string) {
    cell.Object? && exists m :: m in cell.members && m.key == key
  }

  lemma TextFound(cell: Json, key: string, text: string)
    requires Proper(cell)
    ensures Prop(cell, key) == Some(Text(text)) <==> HasText(cell, key, text)
    ensures HasNoText(cell, key) ==> !IsText(Prop(cell, key))
  {
    if cell.Object? {
      GetFinds(cell.members, key);
      if HasText(cell, key, text) {
        GetIsThe(cell.members, Member(key, Text(text)));
      }
      if IsText(Prop(cell, key)) {
        assert HasText(cell, key, Prop(cell, key).value.text);
      }
    }
  }

  lemma MemberFound(cell: Json, key: string)
    ensures Prop(cell, key).Some? <==> Has(cell, key)
  {
    if cell.Object? {
      GetFinds(cell.members, key);
    }
  }

  /** The object holds none of the texts that name one. */
  ghost predicate Unnamed(cell: Json) {
    HasNoText(cell, "email") && HasNoText(cell, "name") && HasNoText(cell, "text")
  }

  /** The first key that holds text names the object. */
  lemma {:induction false} FirstTextIs(cell: Json, keys: seq<string>, k: nat, text: string)
    requires Proper(cell) && k < |keys| && HasText(cell, keys[k], text)
    requires forall i :: 0 <= i < k ==> HasNoText(cell, keys[i])
    ensures FirstText(cell, keys).Some? && NamedBy(cell, keys) == Text(text)
  {
    if k == 0 {
      TextFound(cell, keys[0], text);
    } else {
      TextFound(cell, keys[0], "");
      FirstTextIs(cell, keys[1..], k - 1, text);
    }
  }

  lemma {:induction false} NoTextIsFirst(cell: Json, keys: seq<string>)
    requires Proper(cell) && forall i :: 0 <= i < |keys| ==> HasNoText(cell, keys[i])
    ensures FirstText(cell, keys).None?
  {
    if keys != [] {
      TextFound(cell, keys[0], "");
      NoTextIsFirst(cell, keys[1..]);
    }
  }

  /** A collaborator reads as its email, a select as its name, a barcode as its text. */
  lemma NamedCellsRead(cell: Json, text: string)
    requires Proper(cell)
    ensures HasText(cell, "email", text) ==> ScalarOf(cell) == Text(text)
    ensures HasNoText(cell, "email") && HasText(cell, "name", text) ==> ScalarOf(cell) == Text(text)
    ensures HasNoText(cell, "email") && HasNoText(cell, "name") && HasText(cell, "text", text) ==> ScalarOf(cell) == Text(text)
  {
    if HasText(cell, "email", text) {
      FirstTextIs(cell, NAMING, 0, text);
    }
    if HasNoText(cell, "email") && HasText(cell, "name", text) {
      FirstTextIs(cell, NAMING, 1, text);
    }
    if HasNoText(cell, "email") && HasNoText(cell, "name") && HasText(cell, "text", text) {
      FirstTextIs(cell, NAMING, 2, text);
    }
  }

  /** An AI text reads as its value, or null until it has one; a button as its
      label; any other object by its id, and without one as its JSON. */
  lemma UnnamedCellsRead(cell: Json, text: string)
    requires Proper(cell) && cell.Object? && Unnamed(cell)
    ensures Has(cell, "value") && Has(cell, "state") ==>
      (HasText(cell, "value", text) ==> ScalarOf(cell) == Text(text)) && (HasNoText(cell, "value") ==> ScalarOf(cell) == Null)
    ensures !(Has(cell, "value") && Has(cell, "state")) ==>
      && (HasText(cell, "label", text) ==> ScalarOf(cell) == Text(text))
      && (HasNoText(cell, "label") && HasText(cell, "id", text) ==> ScalarOf(cell) == Text(text))
      && (HasNoText(cell, "label") && HasNoText(cell, "id") ==> ScalarOf(cell) == Text(StableJson(cell)))
  {
    NoTextIsFirst(cell, NAMING);
    MemberFound(cell, "value");
    MemberFound(cell, "state");
    TextFound(cell, "value", text);
    if HasText(cell, "label", text) {
      FirstTextIs(cell, LABELLING, 0, text);
    }
    if HasNoText(cell, "label") && HasText(cell, "id", text) {
      FirstTextIs(cell, LABELLING, 1, text);
    }
    if HasNoText(cell, "label") && HasNoText(cell, "id") {
      NoTextIsFirst(cell, LABELLING);
    }
  }

  /** Files read as sent; each link of a list as its id, and one without an id as
      any other object; any other list item by item. */
  lemma ListsRead(value: Json, kind: Option<string>, i: nat)
    requires Proper(value) && value.Array? && i < |value.items|
    ensures kind == Some("multipleAttachments") ==> ReadCell(value, kind) == value
    ensures kind != Some("multipleAttachments") ==> ReadCell(value, kind).Array? && |ReadCell(value, kind).items| == |value.items|
    ensures kind == Some("multipleRecordLinks") ==>
      && (forall id :: HasText(value.items[i], "id", id) ==> ReadCell(value, kind).items[i] == Text(id))
      && (HasNoText(value.items[i], "id") ==> ReadCell(value, kind).items[i] == ScalarOf(value.items[i]))
    ensures kind != Some("multipleAttachments") && kind != Some("multipleRecordLinks") ==>
      ReadCell(value, kind).items[i] == ScalarOf(value.items[i])
  {
    IdsInPlace(value.items, i);
    ScalarsInPlace(value.items, i);
    assert value.items[i] in value.items;
    forall id
      ensures Prop(value.items[i], "id") == Some(Text(id)) <==> HasText(value.items[i], "id", id)
    {
      TextFound(value.items[i], "id", id);
    }
    TextFound(value.items[i], "id", "");
  }

  /** A value with no parts reads as itself, whatever its kind, and an object of a
      kind that is no list's as its reading alone. */
  lemma OthersRead(value: Json, kind: Option<string>)
    ensures Plain(value) ==> ReadCell(value, kind) == value
    ensures value.Object? && kind !in {Some("multipleAttachments"), Some("multipleRecordLinks"), Some("multipleLookupValues"), Some("lookup")} ==>
      ReadCell(value, kind) == ScalarOf(value)
    ensures !value.Array? && kind in {Some("multipleAttachments"), Some("multipleRecordLinks")} ==> ReadCell(value, kind) == value
  {
  }

  lemma {:induction false} IdsInPlace(links: seq<Json>, i: nat)
    requires i < |links|
    ensures |IdsOf(links)| == |links| && IdsOf(links)[i] == IdOf(links[i])
  {
    if i > 0 {
      IdsInPlace(links[1..], i - 1);
    } else {
      IdsAreAsMany(links);
    }
  }

  lemma {:induction false} IdsAreAsMany(links: seq<Json>)
    ensures |IdsOf(links)| == |links|
  {
    if links != [] {
      IdsAreAsMany(links[1..]);
    }
  }

  lemma {:induction false} ScalarsInPlace(items: seq<Json>, i: nat)
    requires i < |items|
    ensures ScalarsOf(items)[i] == ScalarOf(items[i])
  {
    if i > 0 {
      ScalarsInPlace(items[1..], i - 1);
    }
  }

  // ── Lookups ────────────────────────────────────────────────────────────

  /** What a lookup holds of one record: nothing, a list read item by item, or one
      value read. */
  predicate OfRecord(byRecord: Json, id: string, read: seq<Json>) {
    match Prop(byRecord, id)
    case None => read == []
    case Some(Array(items)) => |read| == |items| && forall i :: 0 <= i < |items| ==> read[i] == ScalarOf(items[i])
    case Some(value) => read == [ScalarOf(value)]
  }

  /** The readings of these records, end to end. */
  ghost predicate OfRecords(byRecord: Json, ids: seq<string>, all: seq<Json>)
    decreases |ids|
  {
    if ids == [] then all == []
    else
      exists k :: 0 <= k <= |all| && OfRecord(byRecord, ids[|ids| - 1], all[k..]) && OfRecords(byRecord, ids[..|ids| - 1], all[..k])
  }

  lemma OneRecord(byRecord: Json, id: string)
    ensures OfRecord(byRecord, id, ValuesUnder(byRecord, [id]))
  {
    assert [id][1..] == [];
    var held := Prop(byRecord, id);
    if held.Some? && held.value.Array? {
      forall i | 0 <= i < |held.value.items|
        ensures ScalarsOf(held.value.items)[i] == ScalarOf(held.value.items[i])
      {
        ScalarsInPlace(held.value.items, i);
      }
    }
  }

  lemma OneMore(byRecord: Json, ids: seq<string>)
    requires ids != []
    ensures ValuesUnder(byRecord, ids) == ValuesUnder(byRecord, [ids[0]]) + ValuesUnder(byRecord, ids[1..])
  {
    assert [ids[0]][1..] == [];
  }

  lemma {:induction false} UnderAppend(byRecord: Json, ids: seq<string>, id: string)
    ensures ValuesUnder(byRecord, ids + [id]) == ValuesUnder(byRecord, ids) + ValuesUnder(byRecord, [id])
  {
    if ids == [] {
      assert ids + [id] == [id];
    } else {
      assert (ids + [id])[0] == ids[0] && (ids + [id])[1..] == ids[1..] + [id];
      UnderAppend(byRecord, ids[1..], id);
      OneMore(byRecord, ids);
      OneMore(byRecord, ids + [id]);
      Assoc(ValuesUnder(byRecord, [ids[0]]), ValuesUnder(byRecord, ids[1..]), ValuesUnder(byRecord, [id]));
    }
  }

  lemma {:induction false} UnderAreTheRecords(byRecord: Json, ids: seq<string>)
    ensures OfRecords(byRecord, ids, ValuesUnder(byRecord, ids))
  {
    if ids != [] {
      var front, last := ids[..|ids| - 1], ids[|ids| - 1];
      assert ids == front + [last];
      UnderAreTheRecords(byRecord, front);
      UnderAppend(byRecord, front, last);
      OneRecord(byRecord, last);
      var all, k := ValuesUnder(byRecord, ids), |ValuesUnder(byRecord, front)|;
      assert all[..k] == ValuesUnder(byRecord, front) && all[k..] == ValuesUnder(byRecord, [last]);
    }
  }

  /** The texts of a list, each with its place. */
  predicate AreTexts(items: seq<Json>, texts: seq<string>) {
    |items| == |texts| && forall i :: 0 <= i < |items| ==> items[i] == Text(texts[i])
  }

  lemma {:induction false} TextsAre(items: seq<Json>, texts: seq<string>)
    requires AreTexts(items, texts)
    ensures TextsIn(items) == texts
  {
    if items != [] {
      TextsAre(items[1..], texts[1..]);
    }
  }

  /** A lookup that lists its records reads as their values in that order. */
  lemma LookupsReadInLinkOrder(value: Json, kind: Option<string>, byRecord: Json, ids: seq<Json>, order: seq<string>)
    requires Proper(value) && value.Object? && IsLookup(kind) && byRecord.Object? && AreTexts(ids, order)
    requires Member("valuesByLinkedRecordId", byRecord) in value.members && Member("linkedRecordIds", Array(ids)) in value.members
    ensures ReadCell(value, kind).Array? && OfRecords(byRecord, order, ReadCell(value, kind).items)
  {
    GetIsThe(value.members, Member("valuesByLinkedRecordId", byRecord));
    GetIsThe(value.members, Member("linkedRecordIds", Array(ids)));
    TextsAre(ids, order);
    UnderAreTheRecords(byRecord, order);
    assert ReadCell(value, kind) == LookupValues(value);
  }
}
