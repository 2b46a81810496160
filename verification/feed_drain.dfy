/**
 Reading a payload feed page by page from a kept cursor, and what a host ends up
 with over many deliveries when it may fail before it keeps the next one.
 */
module FeedDrain {
  import opened Options
  import opened Arrivals
  import opened ArrivalLaws
  import opened Sequences

  const MAX_PAGES := 1000

  /** How Airtable answers one page request: how many payloads it gives of those
      left, and whether it says there might be more. */
  datatype Answer = Answer(count: nat, more: bool)

  /** Airtable's side of a drain: its answer to each page request. */
  type Vendor = nat -> Answer

  /** How many payloads an answer gives from a cursor (payload 1 is the feed's
      first), of a feed of so many. */
  function Given(length: nat, cursor: nat, answer: Answer): (n: nat)
    requires 1 <= cursor <= length + 1
    ensures cursor + n <= length + 1
  {
    if answer.count <= length + 1 - cursor then answer.count else length + 1 - cursor
  }

  /** The cursor after the page requests numbered from `page` on, and their number. */
  function Drained(length: nat, vendor: Vendor, cursor: nat, page: nat): (r: (nat, nat))
    requires 1 <= cursor <= length + 1 && page <= MAX_PAGES
    ensures cursor <= r.0 <= length + 1 && page <= r.1 <= MAX_PAGES
    decreases MAX_PAGES - page, length
  {
    if page == MAX_PAGES then (cursor, page)
    else
      var next := cursor + Given(length, cursor, vendor(page));
      if vendor(page).more then Drained(length, vendor, next, page + 1) else (next, page + 1)
  }

  /** The payloads from one cursor to another. */
  function Slice<P>(feed: seq<P>, from: nat, to: nat): seq<P>
    requires 1 <= from <= to <= |feed| + 1
  {
    feed[from - 1..to - 1]
  }

  lemma SlicesJoin<P>(feed: seq<P>, from: nat, mid: nat, to: nat)
    requires 1 <= from <= mid <= to <= |feed| + 1
    ensures Slice(feed, from, mid) + Slice(feed, mid, to) == Slice(feed, from, to)
  {
  }

  function Start(checkpoint: Option<nat>): nat {
    if checkpoint.Some? then checkpoint.value else 1
  }

  lemma DrainedUnfolds(length: nat, vendor: Vendor, cursor: nat, page: nat)
    requires 1 <= cursor <= length + 1 && page < MAX_PAGES
    ensures var next := cursor + Given(length, cursor, vendor(page));
      Drained(length, vendor, cursor, page) == if vendor(page).more then Drained(length, vendor, next, page + 1) else (next, page + 1)
  {
  }

  /** What a drain has taken after some requests, all but the last saying more. */
  ghost predicate Taking<P>(feed: seq<P>, vendor: Vendor, start: nat, payloads: seq<P>, cursor: nat, requests: nat) {
    && 1 <= start <= cursor <= |feed| + 1
    && payloads == Slice(feed, start, cursor)
    && forall p :: 0 <= p < requests ==> vendor(p).more
  }

  method TakePage<P>(feed: seq<P>, vendor: Vendor, ghost start: nat, payloads: seq<P>, cursor: nat, requests: nat)
    returns (more: seq<P>, next: nat)
    requires Taking(feed, vendor, start, payloads, cursor, requests)
    ensures next == cursor + Given(|feed|, cursor, vendor(requests))
    ensures start <= next <= |feed| + 1 && more == Slice(feed, start, next)
  {
    next := cursor + Given(|feed|, cursor, vendor(requests));
    SlicesJoin(feed, start, cursor, next);
    more := payloads + Slice(feed, cursor, next);
  }

  /** The drain gives exactly the feed's payloads from the checkpoint to the
      cursor it returns, in at most a thousand requests; where it stopped short
      of that many, Airtable had said there was no more. */
  method Drain<P>(feed: seq<P>, vendor: Vendor, checkpoint: Option<nat>) returns (payloads: seq<P>, cursor: nat, requests: nat)
    requires 1 <= Start(checkpoint) <= |feed| + 1
    ensures (cursor, requests) == Drained(|feed|, vendor, Start(checkpoint), 0)
    ensures payloads == Slice(feed, Start(checkpoint), cursor)
    ensures 1 <= requests <= MAX_PAGES && (requests < MAX_PAGES ==> !vendor(requests - 1).more)
    ensures forall p :: 0 <= p < requests - 1 ==> vendor(p).more
  {
    cursor, payloads, requests := Start(checkpoint), [], 0;
    while requests < MAX_PAGES
      invariant requests <= MAX_PAGES && Taking(feed, vendor, Start(checkpoint), payloads, cursor, requests)
      invariant Drained(|feed|, vendor, Start(checkpoint), 0) == Drained(|feed|, vendor, cursor, requests)
      decreases MAX_PAGES - requests
    {
      DrainedUnfolds(|feed|, vendor, cursor, requests);
      payloads, cursor := TakePage(feed, vendor, Start(checkpoint), payloads, cursor, requests);
      requests := requests + 1;
      if !vendor(requests - 1).more {
        return;
      }
    }
  }

  // ── A run of deliveries ────────────────────────────────────────────────

  /** A payload, as the marks of the arrivals it makes. */
  type Marked = seq<Mark>

  /** What the host holds: the marks it has kept, in order, and the cursor. */
  datatype Host = Host(kept: seq<Mark>, checkpoint: nat)

  const FRESH := Host([], 1)

  /** A delivery: the payloads the feed has gained since the last, Airtable's
      answers, and how many of the arrivals the host keeps before it fails, if
      it does. */
  datatype Delivery = Delivery(gained: seq<Marked>, vendor: Vendor, failsAfter: Option<nat>)

  function All(payloads: seq<Marked>): seq<Mark> {
    if payloads == [] then [] else All(payloads[..|payloads| - 1]) + payloads[|payloads| - 1]
  }

  /** An arrival is kept once: one kept before is passed over. */
  function Keep(kept: seq<Mark>, marks: seq<Mark>): seq<Mark> {
    if marks == [] then kept
    else
      var sofar := Keep(kept, marks[..|marks| - 1]);
      if marks[|marks| - 1] in sofar then sofar else sofar + [marks[|marks| - 1]]
  }

  /** What of a delivery's arrivals the host keeps. */
  function Taken(marks: seq<Mark>, failsAfter: Option<nat>): seq<Mark> {
    if failsAfter.Some? && failsAfter.value < |marks| then marks[..failsAfter.value] else marks
  }

  /** The host keeps the cursor only once every arrival is kept. */
  function Deliver(feed: seq<Marked>, host: Host, vendor: Vendor, failsAfter: Option<nat>): Host
    requires 1 <= host.checkpoint <= |feed| + 1
  {
    var cursor := Drained(|feed|, vendor, host.checkpoint, 0).0;
    var marks := All(Slice(feed, host.checkpoint, cursor));
    Host(Keep(host.kept, Taken(marks, failsAfter)), if failsAfter.Some? then host.checkpoint else cursor)
  }

  function FeedAfter(deliveries: seq<Delivery>): seq<Marked> {
    if deliveries == [] then [] else FeedAfter(deliveries[..|deliveries| - 1]) + deliveries[|deliveries| - 1].gained
  }

  function Run(deliveries: seq<Delivery>): (host: Host)
    ensures 1 <= host.checkpoint <= |FeedAfter(deliveries)| + 1
  {
    if deliveries == [] then FRESH
    else
      var last := deliveries[|deliveries| - 1];
      Deliver(FeedAfter(deliveries), Run(deliveries[..|deliveries| - 1]), last.vendor, last.failsAfter)
  }

  lemma {:induction false} KeepKeeps(kept: seq<Mark>, marks: seq<Mark>)
    requires NoRepeats(kept)
    ensures NoRepeats(Keep(kept, marks)) && kept <= Keep(kept, marks)
    ensures forall m :: m in Keep(kept, marks) <==> m in kept || m in marks
  {
    if marks != [] {
      assert marks == marks[..|marks| - 1] + [marks[|marks| - 1]];
      KeepKeeps(kept, marks[..|marks| - 1]);
    }
  }

  lemma {:induction false} AllOfBoth(a: seq<Marked>, b: seq<Marked>)
    ensures All(a + b) == All(a) + All(b)
  {
    if b == [] {
      assert a + b == a;
    } else {
      var front, last := b[..|b| - 1], b[|b| - 1];
      assert (a + b)[..|a + b| - 1] == a + front && (a + b)[|a + b| - 1] == last;
      AllOfBoth(a, front);
    }
  }

  /** Nothing kept twice, nothing passed by, and nothing kept that the feed does
      not tell. */
  ghost predicate Sound(host: Host, feed: seq<Marked>) {
    && 1 <= host.checkpoint <= |feed| + 1
    && NoRepeats(host.kept)
    && (forall m :: m in All(feed[..host.checkpoint - 1]) ==> m in host.kept)
    && (forall m :: m in host.kept ==> m in All(feed))
  }

  lemma GainingKeepsSound(host: Host, feed: seq<Marked>, gained: seq<Marked>)
    requires Sound(host, feed)
    ensures Sound(host, feed + gained)
  {
    AllOfBoth(feed, gained);
    assert (feed + gained)[..host.checkpoint - 1] == feed[..host.checkpoint - 1];
  }

  lemma SliceExtends(feed: seq<Marked>, from: nat, to: nat)
    requires 1 <= from <= to <= |feed| + 1
    ensures All(feed[..to - 1]) == All(feed[..from - 1]) + All(Slice(feed, from, to))
  {
    assert feed[..to - 1] == feed[..from - 1] + Slice(feed, from, to);
    AllOfBoth(feed[..from - 1], Slice(feed, from, to));
  }

  lemma PrefixWithin(feed: seq<Marked>, to: nat)
    requires 1 <= to <= |feed| + 1
    ensures forall m :: m in All(feed[..to - 1]) ==> m in All(feed)
  {
    assert feed == feed[..to - 1] + feed[to - 1..];
    AllOfBoth(feed[..to - 1], feed[to - 1..]);
  }

  lemma KeepingKeepsSound(feed: seq<Marked>, host: Host, cursor: nat, failsAfter: Option<nat>)
    requires Sound(host, feed) && host.checkpoint <= cursor <= |feed| + 1
    ensures var marks := All(Slice(feed, host.checkpoint, cursor));
      Sound(Host(Keep(host.kept, Taken(marks, failsAfter)), if failsAfter.Some? then host.checkpoint else cursor), feed)
  {
    var marks := All(Slice(feed, host.checkpoint, cursor));
    SliceExtends(feed, host.checkpoint, cursor);
    PrefixWithin(feed, cursor);
    KeepKeeps(host.kept, Taken(marks, failsAfter));
    assert forall m :: m in Taken(marks, failsAfter) ==> m in marks;
  }

  lemma {:induction false} RunIsSound(deliveries: seq<Delivery>)
    ensures Sound(Run(deliveries), FeedAfter(deliveries))
  {
    if deliveries != [] {
      var front, last := deliveries[..|deliveries| - 1], deliveries[|deliveries| - 1];
      var feed, host := FeedAfter(deliveries), Run(front);
      RunIsSound(front);
      GainingKeepsSound(host, FeedAfter(front), last.gained);
      KeepingKeepsSound(feed, host, Drained(|feed|, last.vendor, host.checkpoint, 0).0, last.failsAfter);
    }
  }

  /** The cursor goes by whole payloads, never back, and never over one whose
      arrivals the host has not kept. */
  lemma CheckpointOnlyGoesForward(deliveries: seq<Delivery>, last: Delivery)
    ensures Run(deliveries).checkpoint <= Run(deliveries + [last]).checkpoint
    ensures last.failsAfter.Some? ==> Run(deliveries).checkpoint == Run(deliveries + [last]).checkpoint
  {
    assert (deliveries + [last])[..|deliveries|] == deliveries;
  }

  // ── Each change exactly once ───────────────────────────────────────────

  /** Airtable's ids hold no colon, a payload touches a row or a table once, and
      no two payloads of a base are one transaction. */
  ghost predicate Distinct(payloads: seq<Payload>) {
    && (forall p, t :: p in payloads && t in Touches(p) ==> PlainId(t.id))
    && (forall p :: p in payloads ==> NoRepeats(Touches(p)))
    && (forall i, j :: 0 <= i < j < |payloads| ==> TransactionOf(payloads[i]) != TransactionOf(payloads[j]))
  }

  /** The feed as the marks its payloads' arrivals have. */
  function Told(payloads: seq<Payload>): (feed: seq<Marked>)
    ensures |feed| == |payloads|
  {
    seq(|payloads|, i requires 0 <= i < |payloads| => Marks(payloads[i]))
  }

  /** A payload's place in a feed and an arrival's place in the payload. */
  predicate At(feed: seq<Marked>, p: int, t: int) {
    0 <= p < |feed| && 0 <= t < |feed[p]|
  }

  /** An arrival of the feed has this mark. */
  ghost predicate Tells(feed: seq<Marked>, m: Mark) {
    exists p, t :: At(feed, p, t) && feed[p][t] == m
  }

  lemma PayloadsAreToldApart(s: string, x: Touch, t: string, y: Touch)
    requires PlainId(x.id) && PlainId(y.id) && MarkOf(s, x) == MarkOf(t, y)
    ensures s == t && x == y
  {
    IdentityTells(s, x.id, t, y.id);
  }

  /** Different changes make arrivals that are told apart. */
  lemma ChangesAreToldApart(payloads: seq<Payload>, p: int, t: int, q: int, u: int)
    requires Distinct(payloads) && At(Told(payloads), p, t) && At(Told(payloads), q, u)
    ensures Told(payloads)[p][t] == Told(payloads)[q][u] ==> p == q && t == u
  {
    var a, b := payloads[p], payloads[q];
    var x, y := Touches(a)[t], Touches(b)[u];
    assert a in payloads && b in payloads && x in Touches(a) && y in Touches(b);
    if Told(payloads)[p][t] == Told(payloads)[q][u] {
      PayloadsAreToldApart(TransactionOf(a), x, TransactionOf(b), y);
      assert p == q;
      assert NoRepeats(Touches(a));
    }
  }

  lemma {:induction false} AllIsEveryMark(feed: seq<Marked>, m: Mark)
    ensures m in All(feed) <==> Tells(feed, m)
  {
    if feed != [] {
      var front, n := feed[..|feed| - 1], |feed| - 1;
      AllIsEveryMark(front, m);
      if p, t :| At(front, p, t) && front[p][t] == m {
        assert At(feed, p, t);
      }
      if t :| 0 <= t < |feed[n]| && feed[n][t] == m {
        assert At(feed, n, t);
      }
      if p, t :| At(feed, p, t) && feed[p][t] == m {
        assert p < n ==> At(front, p, t) && front[p][t] == m;
        assert p == n ==> m in feed[n];
      }
    }
  }

  ghost predicate KeptOnce(kept: seq<Mark>, m: Mark) {
    exists k :: 0 <= k < |kept| && kept[k] == m && forall j :: 0 <= j < |kept| && kept[j] == m ==> j == k
  }

  lemma InOnce(kept: seq<Mark>, m: Mark)
    requires NoRepeats(kept) && m in kept
    ensures KeptOnce(kept, m)
  {
    var k :| 0 <= k < |kept| && kept[k] == m;
    assert forall j :: 0 <= j < |kept| && kept[j] == m ==> j == k;
  }

  /** After any run of deliveries, whatever Airtable answered and wherever the
      host failed: every change before the checkpoint is kept, exactly once, and
      nothing is kept but changes of the feed. */
  lemma EveryChangeIsKeptOnce(deliveries: seq<Delivery>)
    ensures var feed, host := FeedAfter(deliveries), Run(deliveries);
      && (forall p, t :: At(feed, p, t) && p < host.checkpoint - 1 ==> KeptOnce(host.kept, feed[p][t]))
      && (forall m :: m in host.kept ==> KeptOnce(host.kept, m) && Tells(feed, m))
  {
    var feed, host := FeedAfter(deliveries), Run(deliveries);
    RunIsSound(deliveries);
    forall p, t | At(feed, p, t) && p < host.checkpoint - 1
      ensures KeptOnce(host.kept, feed[p][t])
    {
      var before := feed[..host.checkpoint - 1];
      assert At(before, p, t) && before[p][t] == feed[p][t];
      AllIsEveryMark(before, feed[p][t]);
      InOnce(host.kept, feed[p][t]);
    }
    forall m | m in host.kept
      ensures KeptOnce(host.kept, m) && Tells(feed, m)
    {
      AllIsEveryMark(feed, m);
      InOnce(host.kept, m);
    }
  }

  /** The same of the payloads Airtable tells: once a feed has been drained to its
      end, each row and each table change of it has been kept by exactly one
      arrival, its own. */
  lemma EachChangeHasItsOwnArrival(deliveries: seq<Delivery>, payloads: seq<Payload>)
    requires Distinct(payloads) && FeedAfter(deliveries) == Told(payloads)
    requires Run(deliveries).checkpoint == |payloads| + 1
    ensures var feed, kept := Told(payloads), Run(deliveries).kept;
      && (forall p, t :: At(feed, p, t) ==> KeptOnce(kept, feed[p][t]))
      && (forall m :: m in kept ==> Tells(feed, m))
      && (forall p, t, q, u :: At(feed, p, t) && At(feed, q, u) && feed[p][t] == feed[q][u] ==> p == q && t == u)
  {
    EveryChangeIsKeptOnce(deliveries);
    AllToldApart(payloads);
  }

  lemma AllToldApart(payloads: seq<Payload>)
    requires Distinct(payloads)
    ensures var feed := Told(payloads);
      forall p, t, q, u :: At(feed, p, t) && At(feed, q, u) && feed[p][t] == feed[q][u] ==> p == q && t == u
  {
    var feed := Told(payloads);
    forall p, t, q, u | At(feed, p, t) && At(feed, q, u) && feed[p][t] == feed[q][u]
      ensures p == q && t == u
    {
      ChangesAreToldApart(payloads, p, t, q, u);
    }
  }
}
