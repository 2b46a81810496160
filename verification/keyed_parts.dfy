/** Lists held under keys, put end to end: when the order of the keys tells. */
module KeyedParts {
  import opened Sequences

  datatype Keyed<T> = Keyed(key: string, part: seq<T>)

  function Flat<T>(parts: seq<Keyed<T>>): seq<T> {
    if parts == [] then [] else parts[0].part + Flat(parts[1..])
  }

  /** Two lists that read the same in either order. */
  predicate Commute<T(==)>(a: seq<T>, b: seq<T>) {
    a + b == b + a
  }

  predicate AllCommute<T(==)>(parts: seq<Keyed<T>>) {
    forall p, q :: p in parts && q in parts ==> Commute(p.part, q.part)
  }

  predicate SameMembers<T(==)>(s: seq<T>, t: seq<T>) {
    (forall x :: x in s ==> x in t) && (forall x :: x in t ==> x in s)
  }

  lemma {:induction false} FlatSplits<T>(a: seq<Keyed<T>>, b: seq<Keyed<T>>)
    ensures Flat(a + b) == Flat(a) + Flat(b)
  {
    if a == [] {
      assert a + b == b;
    } else {
      assert (a + b)[1..] == a[1..] + b;
      FlatSplits(a[1..], b);
      Assoc(a[0].part, Flat(a[1..]), Flat(b));
    }
  }

  lemma {:induction false} PassesOver<T>(p: seq<T>, front: seq<Keyed<T>>)
    requires forall x :: x in front ==> Commute(p, x.part)
    ensures Flat(front) + p == p + Flat(front)
  {
    if front == [] {
      assert [] + p == p + [];
    } else {
      var q, r := front[0].part, Flat(front[1..]);
      assert front[0] in front && forall x :: x in front[1..] ==> x in front;
      PassesOver(p, front[1..]);
      Assoc(q, r, p);
      Assoc(q, p, r);
      Assoc(p, q, r);
    }
  }

  /** A part that commutes with those before it may as well come first. */
  lemma MovesToTheFront<T>(front: seq<Keyed<T>>, p: Keyed<T>, back: seq<Keyed<T>>)
    requires PassesAll(p.part, front)
    ensures Flat(front + ([p] + back)) == p.part + Flat(front + back)
  {
    FlatSplits(front, [p] + back);
    FlatSplits(front, back);
    assert ([p] + back)[1..] == back;
    PassesOver(p.part, front);
    Assoc(Flat(front), p.part, Flat(back));
    Assoc(p.part, Flat(front), Flat(back));
  }

  predicate PassesAll<T(==)>(p: seq<T>, front: seq<Keyed<T>>) {
    forall x :: x in front ==> Commute(p, x.part)
  }

  lemma Found<T>(t: seq<T>, x: T) returns (front: seq<T>, back: seq<T>)
    requires x in t
    ensures t == front + ([x] + back)
  {
    var k :| 0 <= k < |t| && t[k] == x;
    front, back := t[..k], t[k + 1..];
  }

  lemma AroundOne<T>(front: seq<T>, x: T, back: seq<T>)
    requires NoRepeats(front + ([x] + back))
    ensures NoRepeats(front + back) && x !in front + back
  {
    var t, rest, k := front + ([x] + back), front + back, |front|;
    assert forall i :: 0 <= i < |rest| ==> rest[i] == t[if i < k then i else i + 1];
    assert t[k] == x;
  }

  lemma SameAround<T>(s: seq<T>, front: seq<T>, back: seq<T>)
    requires s != [] && NoRepeats(s) && NoRepeats(front + ([s[0]] + back)) && SameMembers(s, front + ([s[0]] + back))
    ensures NoRepeats(s[1..]) && NoRepeats(front + back) && SameMembers(s[1..], front + back)
  {
    var x, rest := s[0], s[1..];
    assert s == [] + ([x] + rest) && [] + rest == rest;
    AroundOne([], x, rest);
    AroundOne(front, x, back);
    assert forall y :: y in s <==> y == x || y in rest;
    assert forall y :: y in front + ([x] + back) <==> y == x || y in front + back;
  }

  lemma FrontPasses<T>(ps: seq<Keyed<T>>, qs: seq<Keyed<T>>, front: seq<Keyed<T>>, back: seq<Keyed<T>>)
    requires SameMembers(ps, qs) && AllCommute(ps) && ps != [] && qs == front + ([ps[0]] + back)
    ensures PassesAll(ps[0].part, front)
  {
    assert ps[0] in ps;
    forall x | x in front
      ensures Commute(ps[0].part, x.part)
    {
      assert x in qs;
    }
  }

  /** Where all the parts commute, the order of the keys does not tell. */
  lemma {:induction false} CommutingReadAlike<T>(ps: seq<Keyed<T>>, qs: seq<Keyed<T>>)
    requires NoRepeats(ps) && NoRepeats(qs) && SameMembers(ps, qs) && AllCommute(ps)
    ensures Flat(qs) == Flat(ps)
  {
    assert (ps == [] || ps[0] in ps) && (qs == [] || qs[0] in qs);
    if ps != [] {
      var front, back := Found(qs, ps[0]);
      SameAround(ps, front, back);
      FrontPasses(ps, qs, front, back);
      MovesToTheFront(front, ps[0], back);
      assert forall p :: p in ps[1..] ==> p in ps;
      CommutingReadAlike(ps[1..], front + back);
    }
  }

  /** Two parts that read alike in either order, before the rest, commute. */
  lemma SwappedTells<T>(p: Keyed<T>, q: Keyed<T>, rest: seq<Keyed<T>>)
    requires Flat([p, q] + rest) == Flat([q, p] + rest)
    ensures Commute(p.part, q.part)
  {
    PairFlat(p, q, rest);
    PairFlat(q, p, rest);
    var a, b, r := p.part + q.part, q.part + p.part, Flat(rest);
    assert a == (a + r)[..|a|] && b == (b + r)[..|b|];
  }

  lemma PairFlat<T>(p: Keyed<T>, q: Keyed<T>, rest: seq<Keyed<T>>)
    ensures Flat([p, q] + rest) == (p.part + q.part) + Flat(rest)
  {
    assert ([p, q] + rest)[1..] == [q] + rest && ([q] + rest)[1..] == rest;
    Assoc(p.part, q.part, Flat(rest));
  }
}
