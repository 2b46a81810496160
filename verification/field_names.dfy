/** The names a list's own fields are published under. */
module FieldNames {
  import opened Options

  datatype Field = Field(id: int, name: string, listId: Option<int>)

  function Scoped(catalog: seq<Field>, listId: int): (r: seq<Field>)
    ensures forall f :: f in r <==> f in catalog && f.listId == Some(listId)
  {
    if catalog == [] then []
    else
      assert catalog == [catalog[0]] + catalog[1..];
      (if catalog[0].listId == Some(listId) then [catalog[0]] else []) + Scoped(catalog[1..], listId)
  }

  function Prefix(listName: string): string {
    "[" + listName + "] "
  }

  /** What is left of a prefixed name without its prefix, unless nothing is. */
  function BareName(name: string, prefix: string): Option<string> {
    if prefix <= name && |name| > |prefix| then Some(name[|prefix|..]) else None
  }

  /** How many of the fields have this name when the prefix is off. */
  function Claims(fields: seq<Field>, prefix: string, bare: string): nat {
    if fields == [] then 0
    else Claims(fields[..|fields| - 1], prefix, bare) + if BareName(fields[|fields| - 1].name, prefix) == Some(bare) then 1 else 0
  }

  predicate Verbatim(catalog: seq<Field>, name: string) {
    exists f :: f in catalog && f.name == name
  }

  /** A field that keeps its prefix: its bare name is none, or not its alone. */
  predicate Contested(catalog: seq<Field>, listId: int, prefix: string, f: Field) {
    var bare := BareName(f.name, prefix);
    bare.None? || Claims(Scoped(catalog, listId), prefix, bare.value) > 1 || Verbatim(catalog, bare.value)
  }

  function Published(catalog: seq<Field>, listId: int, prefix: string, f: Field): string {
    if Contested(catalog, listId, prefix, f) then f.name else BareName(f.name, prefix).value
  }

  /** Every field of the catalog is there once. */
  predicate DistinctIds(fields: seq<Field>) {
    forall i, j :: 0 <= i < j < |fields| ==> fields[i].id != fields[j].id
  }

  lemma {:induction false} ScopedDistinct(catalog: seq<Field>, listId: int)
    requires DistinctIds(catalog)
    ensures DistinctIds(Scoped(catalog, listId))
  {
    if catalog != [] {
      ScopedDistinct(catalog[1..], listId);
      forall f | f in catalog[1..]
        ensures f.id != catalog[0].id
      {
        var i :| 0 <= i < |catalog[1..]| && catalog[1..][i] == f;
        assert catalog[i + 1] == f;
      }
    }
  }

  // ── As the module fills its maps ───────────────────────────────────────

  function BareNames(fields: seq<Field>, prefix: string): map<int, string> {
    if fields == [] then map[]
    else
      var last, rest := fields[|fields| - 1], BareNames(fields[..|fields| - 1], prefix);
      var bare := BareName(last.name, prefix);
      if bare.None? then rest else rest[last.id := bare.value]
  }

  function ClaimCounts(fields: seq<Field>, prefix: string): map<string, nat> {
    if fields == [] then map[]
    else
      var last, rest := fields[|fields| - 1], ClaimCounts(fields[..|fields| - 1], prefix);
      var bare := BareName(last.name, prefix);
      if bare.None? then rest else rest[bare.value := (if bare.value in rest then rest[bare.value] else 0) + 1]
  }

  /** The name the second loop gives a field. */
  function NameGiven(f: Field, bareById: map<int, string>, claims: map<string, nat>, verbatim: set<string>): string {
    if f.id !in bareById then f.name
    else
      var bare := bareById[f.id];
      if (bare in claims && claims[bare] > 1) || bare in verbatim then f.name else bare
  }

  function NamesGiven(fields: seq<Field>, bareById: map<int, string>, claims: map<string, nat>, verbatim: set<string>): map<int, string> {
    if fields == [] then map[]
    else
      var last := fields[|fields| - 1];
      NamesGiven(fields[..|fields| - 1], bareById, claims, verbatim)[last.id := NameGiven(last, bareById, claims, verbatim)]
  }

  function NamesOf(catalog: seq<Field>): set<string> {
    set f | f in catalog :: f.name
  }

  function DisplayNames(catalog: seq<Field>, listId: int, prefix: string): map<int, string> {
    var scoped := Scoped(catalog, listId);
    NamesGiven(scoped, BareNames(scoped, prefix), ClaimCounts(scoped, prefix), NamesOf(catalog))
  }

  method ClaimBareNames(fields: seq<Field>, prefix: string) returns (bareById: map<int, string>, claims: map<string, nat>)
    ensures bareById == BareNames(fields, prefix) && claims == ClaimCounts(fields, prefix)
  {
    bareById, claims := map[], map[];
    for i := 0 to |fields|
      invariant bareById == BareNames(fields[..i], prefix) && claims == ClaimCounts(fields[..i], prefix)
    {
      var field := fields[i];
      assert fields[..i + 1][..i] == fields[..i];
      if prefix <= field.name {
        var bare := field.name[|prefix|..];
        if bare != "" {
          bareById := bareById[field.id := bare];
          claims := claims[bare := (if bare in claims then claims[bare] else 0) + 1];
        }
      }
    }
    assert fields[..|fields|] == fields;
  }

  method GiveNames(fields: seq<Field>, bareById: map<int, string>, claims: map<string, nat>, verbatim: set<string>)
    returns (names: map<int, string>)
    ensures names == NamesGiven(fields, bareById, claims, verbatim)
  {
    names := map[];
    for i := 0 to |fields|
      invariant names == NamesGiven(fields[..i], bareById, claims, verbatim)
    {
      assert fields[..i + 1][..i] == fields[..i];
      names := names[fields[i].id := NameGiven(fields[i], bareById, claims, verbatim)];
    }
    assert fields[..|fields|] == fields;
  }

  /** Each of the list's fields by the name it is published under. */
  method ListScopedFieldDisplayNames(catalog: seq<Field>, listId: int, listName: string) returns (names: map<int, string>)
    ensures names == DisplayNames(catalog, listId, Prefix(listName))
  {
    var scoped := Scoped(catalog, listId);
    var bareById, claims := ClaimBareNames(scoped, Prefix(listName));
    names := GiveNames(scoped, bareById, claims, NamesOf(catalog));
  }

  lemma LastIsApart(front: seq<Field>, last: Field)
    requires DistinctIds(front + [last])
    ensures DistinctIds(front) && forall g :: g in front ==> g.id != last.id
  {
    var all := front + [last];
    assert forall i :: 0 <= i < |front| ==> all[i] == front[i];
    assert all[|front|] == last;
  }

  lemma {:induction false} BareNameKept(fields: seq<Field>, prefix: string, f: Field)
    requires DistinctIds(fields) && f in fields
    ensures (f.id in BareNames(fields, prefix)) == BareName(f.name, prefix).Some?
    ensures f.id in BareNames(fields, prefix) ==> BareNames(fields, prefix)[f.id] == BareName(f.name, prefix).value
  {
    var front, last := fields[..|fields| - 1], fields[|fields| - 1];
    assert fields == front + [last];
    LastIsApart(front, last);
    if f in front {
      BareNameKept(front, prefix, f);
    } else {
      NoBareName(front, prefix, f.id);
    }
  }

  lemma {:induction false} NoBareName(fields: seq<Field>, prefix: string, id: int)
    requires forall f :: f in fields ==> f.id != id
    ensures id !in BareNames(fields, prefix)
  {
    if fields != [] {
      NoBareName(fields[..|fields| - 1], prefix, id);
      assert fields[|fields| - 1] in fields;
    }
  }

  lemma {:induction false} CountIsClaims(fields: seq<Field>, prefix: string, bare: string)
    ensures Claims(fields, prefix, bare) == if bare in ClaimCounts(fields, prefix) then ClaimCounts(fields, prefix)[bare] else 0
  {
    if fields != [] {
      CountIsClaims(fields[..|fields| - 1], prefix, bare);
    }
  }

  lemma {:induction false} GivenName(fields: seq<Field>, bareById: map<int, string>, claims: map<string, nat>, verbatim: set<string>, f: Field)
    requires DistinctIds(fields) && f in fields
    ensures f.id in NamesGiven(fields, bareById, claims, verbatim)
    ensures NamesGiven(fields, bareById, claims, verbatim)[f.id] == NameGiven(f, bareById, claims, verbatim)
  {
    var front, last := fields[..|fields| - 1], fields[|fields| - 1];
    assert fields == front + [last];
    LastIsApart(front, last);
    if f in front {
      GivenName(front, bareById, claims, verbatim, f);
    }
  }

  /** A list's field is published by its bare name, unless that is contested. */
  lemma DisplayNameIsPublished(catalog: seq<Field>, listId: int, prefix: string, f: Field)
    requires DistinctIds(catalog) && f in Scoped(catalog, listId)
    ensures f.id in DisplayNames(catalog, listId, prefix)
    ensures DisplayNames(catalog, listId, prefix)[f.id] == Published(catalog, listId, prefix, f)
  {
    var scoped := Scoped(catalog, listId);
    ScopedDistinct(catalog, listId);
    GivenName(scoped, BareNames(scoped, prefix), ClaimCounts(scoped, prefix), NamesOf(catalog), f);
    BareNameKept(scoped, prefix, f);
    var bare := BareName(f.name, prefix);
    if bare.Some? {
      CountIsClaims(scoped, prefix, bare.value);
      assert bare.value in NamesOf(catalog) <==> Verbatim(catalog, bare.value);
    }
  }

  lemma {:induction false} ClaimIsCounted(fields: seq<Field>, prefix: string, f: Field)
    requires f in fields && BareName(f.name, prefix).Some?
    ensures Claims(fields, prefix, BareName(f.name, prefix).value) >= 1
  {
    var front, last := fields[..|fields| - 1], fields[|fields| - 1];
    assert fields == front + [last];
    if f != last {
      ClaimIsCounted(front, prefix, f);
    }
  }

  lemma {:induction false} TwoClaim(fields: seq<Field>, prefix: string, f: Field, g: Field)
    requires f in fields && g in fields && f.id != g.id
    requires BareName(f.name, prefix).Some? && BareName(f.name, prefix) == BareName(g.name, prefix)
    ensures Claims(fields, prefix, BareName(f.name, prefix).value) > 1
  {
    var front, last := fields[..|fields| - 1], fields[|fields| - 1];
    assert fields == front + [last];
    if f == last {
      ClaimIsCounted(front, prefix, g);
    } else if g == last {
      ClaimIsCounted(front, prefix, f);
    } else {
      TwoClaim(front, prefix, f, g);
    }
  }

  lemma {:induction false} NoClaims(fields: seq<Field>, prefix: string, bare: string)
    requires forall g :: g in fields ==> BareName(g.name, prefix) != Some(bare)
    ensures Claims(fields, prefix, bare) == 0
  {
    if fields != [] {
      assert fields[|fields| - 1] in fields;
      NoClaims(fields[..|fields| - 1], prefix, bare);
    }
  }

  lemma {:induction false} ClaimedAlone(fields: seq<Field>, prefix: string, bare: string, id: int)
    requires DistinctIds(fields) && forall g :: g in fields && g.id != id ==> BareName(g.name, prefix) != Some(bare)
    ensures Claims(fields, prefix, bare) <= 1
  {
    if fields != [] {
      var front, last := fields[..|fields| - 1], fields[|fields| - 1];
      assert fields == front + [last];
      LastIsApart(front, last);
      if last.id == id {
        NoClaims(front, prefix, bare);
      } else {
        ClaimedAlone(front, prefix, bare, id);
      }
    }
  }

  lemma BareNameIs(name: string, prefix: string, bare: string)
    ensures BareName(name, prefix) == Some(bare) <==> bare != "" && name == prefix + bare
  {
    if name == prefix + bare {
      assert name[..|prefix|] == prefix && name[|prefix|..] == bare;
    }
    if BareName(name, prefix) == Some(bare) {
      assert name == name[..|prefix|] + name[|prefix|..];
    }
  }

  /** Another field of the list has the same name, or some field the bare one. */
  predicate IsShared(catalog: seq<Field>, listId: int, f: Field, bare: string) {
    || (exists g :: g in catalog && g.id != f.id && g.listId == Some(listId) && g.name == f.name)
    || (exists g :: g in catalog && g.name == bare)
  }

  lemma ContestedIffShared(catalog: seq<Field>, listId: int, prefix: string, f: Field, bare: string)
    requires DistinctIds(catalog) && f in Scoped(catalog, listId) && bare != "" && f.name == prefix + bare
    ensures Contested(catalog, listId, prefix, f) <==> IsShared(catalog, listId, f, bare)
    ensures BareName(f.name, prefix) == Some(bare)
  {
    BareNameIs(f.name, prefix, bare);
    ScopedDistinct(catalog, listId);
    forall g | g in Scoped(catalog, listId)
      ensures BareName(g.name, prefix) == Some(bare) <==> g.name == f.name
    {
      BareNameIs(g.name, prefix, bare);
    }
    if g :| g in catalog && g.id != f.id && g.listId == Some(listId) && g.name == f.name {
      TwoClaim(Scoped(catalog, listId), prefix, f, g);
    } else {
      ClaimedAlone(Scoped(catalog, listId), prefix, bare, f.id);
    }
  }

  /** A list's field named `[list] bare` is published as `bare`, or as it is where
      another field shares either name; and one named otherwise as it is. */
  lemma PublishedByItsName(catalog: seq<Field>, listId: int, listName: string, f: Field)
    requires DistinctIds(catalog) && f in catalog && f.listId == Some(listId)
    ensures f.id in DisplayNames(catalog, listId, Prefix(listName))
    ensures forall bare :: bare != "" && f.name == "[" + listName + "] " + bare ==>
      DisplayNames(catalog, listId, Prefix(listName))[f.id] == if IsShared(catalog, listId, f, bare) then f.name else bare
    ensures (forall bare :: bare != "" ==> f.name != "[" + listName + "] " + bare) ==>
      DisplayNames(catalog, listId, Prefix(listName))[f.id] == f.name
  {
    var prefix := Prefix(listName);
    DisplayNameIsPublished(catalog, listId, prefix, f);
    forall bare | bare != "" && f.name == "[" + listName + "] " + bare
      ensures Published(catalog, listId, prefix, f) == if IsShared(catalog, listId, f, bare) then f.name else bare
    {
      ContestedIffShared(catalog, listId, prefix, f, bare);
    }
    if BareName(f.name, prefix).Some? {
      BareNameIs(f.name, prefix, BareName(f.name, prefix).value);
    }
  }

  // ── A name means one field ─────────────────────────────────────────────

  /** A published name is no other published field's, and no other field's own. */
  ghost predicate NamesOneField(names: map<int, string>, catalog: seq<Field>) {
    forall f, g :: f in catalog && g in catalog && f.id in names && f.id != g.id ==>
      names[f.id] != g.name && (g.id in names ==> names[f.id] != names[g.id])
  }

  /** No field of the list that keeps its prefix has another's own name. */
  ghost predicate KeptNamesAreSingle(catalog: seq<Field>, listId: int, prefix: string) {
    forall f, g :: f in Scoped(catalog, listId) && g in catalog && f.id != g.id && f.name == g.name ==> !Contested(catalog, listId, prefix, f)
  }

  lemma PublishedApart(catalog: seq<Field>, listId: int, prefix: string, f: Field, g: Field)
    requires f in Scoped(catalog, listId) && g in Scoped(catalog, listId) && f.id != g.id
    requires KeptNamesAreSingle(catalog, listId, prefix)
    ensures Published(catalog, listId, prefix, f) != Published(catalog, listId, prefix, g)
  {
    var p, q := BareName(f.name, prefix), BareName(g.name, prefix);
    assert Verbatim(catalog, f.name) && Verbatim(catalog, g.name);
    if p.Some? && p == q {
      TwoClaim(Scoped(catalog, listId), prefix, f, g);
    }
  }

  lemma {:induction false} OnlyScopedAreNamed(fields: seq<Field>, bareById: map<int, string>, claims: map<string, nat>, verbatim: set<string>, id: int)
    requires id in NamesGiven(fields, bareById, claims, verbatim)
    ensures exists f :: f in fields && f.id == id
  {
    var front, last := fields[..|fields| - 1], fields[|fields| - 1];
    assert fields == front + [last];
    if id != last.id {
      OnlyScopedAreNamed(front, bareById, claims, verbatim, id);
    }
  }

  lemma OneById(fields: seq<Field>, f: Field, g: Field)
    requires DistinctIds(fields) && f in fields && g in fields && f.id == g.id
    ensures f == g
  {
    var i :| 0 <= i < |fields| && fields[i] == f;
    var j :| 0 <= j < |fields| && fields[j] == g;
  }

  /** A field is published exactly when it is the list's own. */
  lemma NamedIffScoped(catalog: seq<Field>, listId: int, prefix: string, f: Field)
    requires DistinctIds(catalog) && f in catalog
    ensures f.id in DisplayNames(catalog, listId, prefix) <==> f.listId == Some(listId)
  {
    var scoped := Scoped(catalog, listId);
    if f.id in DisplayNames(catalog, listId, prefix) {
      OnlyScopedAreNamed(scoped, BareNames(scoped, prefix), ClaimCounts(scoped, prefix), NamesOf(catalog), f.id);
      var g :| g in scoped && g.id == f.id;
      OneById(catalog, f, g);
    }
    if f.listId == Some(listId) {
      DisplayNameIsPublished(catalog, listId, prefix, f);
    }
  }

  lemma SingleNamesDo(catalog: seq<Field>, listId: int, prefix: string)
    requires DistinctIds(catalog) && KeptNamesAreSingle(catalog, listId, prefix)
    ensures NamesOneField(DisplayNames(catalog, listId, prefix), catalog)
  {
    var names := DisplayNames(catalog, listId, prefix);
    forall f, g | f in catalog && g in catalog && f.id in names && f.id != g.id
      ensures names[f.id] != g.name && (g.id in names ==> names[f.id] != names[g.id])
    {
      NamedIffScoped(catalog, listId, prefix, f);
      NamedIffScoped(catalog, listId, prefix, g);
      DisplayNameIsPublished(catalog, listId, prefix, f);
      assert Verbatim(catalog, g.name);
      if g.id in names {
        DisplayNameIsPublished(catalog, listId, prefix, g);
        PublishedApart(catalog, listId, prefix, f, g);
      }
    }
  }

  /** A published name identifies one field if and only if no field of the list
      that keeps its prefix has the own name of another. */
  lemma NamesOneFieldIff(catalog: seq<Field>, listId: int, prefix: string)
    requires DistinctIds(catalog)
    ensures NamesOneField(DisplayNames(catalog, listId, prefix), catalog) <==> KeptNamesAreSingle(catalog, listId, prefix)
  {
    if KeptNamesAreSingle(catalog, listId, prefix) {
      SingleNamesDo(catalog, listId, prefix);
    }
    if NamesOneField(DisplayNames(catalog, listId, prefix), catalog) {
      forall f, g | f in Scoped(catalog, listId) && g in catalog && f.id != g.id && f.name == g.name
        ensures !Contested(catalog, listId, prefix, f)
      {
        DisplayNameIsPublished(catalog, listId, prefix, f);
      }
    }
  }

  /** So it does wherever the catalog's own names are distinct. */
  lemma DistinctNamesAreEnough(catalog: seq<Field>, listId: int, prefix: string)
    requires DistinctIds(catalog)
    requires forall f, g :: f in catalog && g in catalog && f.id != g.id ==> f.name != g.name
    ensures NamesOneField(DisplayNames(catalog, listId, prefix), catalog)
  {
    SingleNamesDo(catalog, listId, prefix);
  }
}
