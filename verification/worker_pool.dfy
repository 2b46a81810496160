/**
 A few workers sharing one cursor over a list of items, and the page reads and
 searches the web chat answers through them.

 A worker's move is what it does between two awaits: store the result that came
 back, if it was waiting for one, and take the next index off the cursor. Which
 worker moves next is the world's choice, so a run is any sequence of moves.
 */
module WorkerPool {
  import opened Options

  const MAX_CONCURRENT_CLIENT_TOOLS := 3

  datatype Worker = Idle | Running(item: nat) | Done

  /** `calls` is the items handed to `fn`, in the order they were. `log` is what
      each call came back with, in the order they did. */
  datatype Pool<R> = Pool(cursor: nat, workers: seq<Worker>, results: seq<Option<R>>, calls: seq<nat>, log: seq<(nat, R)>)

  /** A move: which worker, and what its call came back with if it was waiting. */
  datatype Move<R> = Move(worker: nat, outcome: R)

  function Opened<R>(n: nat): Pool<R> {
    var size := if n < MAX_CONCURRENT_CLIENT_TOOLS then n else MAX_CONCURRENT_CLIENT_TOOLS;
    Pool(0, seq(size, _ => Idle), seq(n, _ => None), [], [])
  }

  predicate Enabled<R>(p: Pool<R>, w: nat) {
    w < |p.workers| && !p.workers[w].Done?
  }

  predicate AllDone<R>(p: Pool<R>) {
    forall w :: 0 <= w < |p.workers| ==> p.workers[w].Done?
  }

  function Step<R>(p: Pool<R>, m: Move<R>): Pool<R>
    requires Enabled(p, m.worker)
    requires p.workers[m.worker].Running? ==> p.workers[m.worker].item < |p.results|
  {
    var stored :=
      match p.workers[m.worker]
      case Running(i) => p.(results := p.results[i := Some(m.outcome)], log := p.log + [(i, m.outcome)])
      case _ => p;
    var taken := stored.cursor;
    var next := stored.(cursor := taken + 1);
    if taken < |p.results|
    then next.(workers := p.workers[m.worker := Running(taken)], calls := p.calls + [taken])
    else next.(workers := p.workers[m.worker := Done])
  }

  // ── The invariant ──────────────────────────────────────────────────────

  /** Items off the cursor so far. */
  function Taken<R>(p: Pool<R>): nat {
    if p.cursor < |p.results| then p.cursor else |p.results|
  }

  predicate InFlight<R>(p: Pool<R>, i: nat) {
    exists w :: 0 <= w < |p.workers| && p.workers[w] == Running(i)
  }

  /** A taken item is in the hands of one worker or has its result, never both;
      a worker stops only at the end of the list. */
  ghost predicate Shared<R>(p: Pool<R>) {
    && |p.workers| <= MAX_CONCURRENT_CLIENT_TOOLS
    && (p.results == [] <==> p.workers == [])
    && (forall w :: 0 <= w < |p.workers| && p.workers[w].Running? ==> p.workers[w].item < Taken(p))
    && (forall v, w :: 0 <= v < w < |p.workers| && p.workers[v].Running? ==> p.workers[v] != p.workers[w])
    && (forall i :: 0 <= i < |p.results| ==> (p.results[i].Some? <==> i < Taken(p) && !InFlight(p, i)))
    && (forall w :: 0 <= w < |p.workers| && p.workers[w].Done? ==> Taken(p) == |p.results|)
  }

  /** Each result is what its one call came back with. */
  ghost predicate Logged<R>(p: Pool<R>) {
    && (forall k :: 0 <= k < |p.log| ==> p.log[k].0 < |p.results| && p.results[p.log[k].0] == Some(p.log[k].1))
    && (forall j, k :: 0 <= j < k < |p.log| ==> p.log[j].0 != p.log[k].0)
    && (forall i :: 0 <= i < |p.results| && p.results[i].Some? ==> (i, p.results[i].value) in p.log)
  }

  /** Calls are made in index order, each item's once. */
  ghost predicate Sound<R>(p: Pool<R>) {
    Shared(p) && Logged(p) && p.calls == seq(Taken(p), i => i)
  }

  lemma OpenedSound<R>(n: nat)
    ensures Sound(Opened<R>(n)) && |Opened<R>(n).results| == n
  {
  }

  /** A move takes its worker's item out of flight and puts the next one in. */
  lemma FlightsAfter<R>(p: Pool<R>, m: Move<R>)
    requires Shared(p) && Enabled(p, m.worker)
    ensures forall i :: 0 <= i < |p.results| && i < Taken(p) ==>
      (InFlight(Step(p, m), i) <==> InFlight(p, i) && p.workers[m.worker] != Running(i))
    ensures p.cursor < |p.results| ==> InFlight(Step(p, m), p.cursor)
  {
    var p', w := Step(p, m), m.worker;
    forall i | 0 <= i < |p.results| && i < Taken(p)
      ensures InFlight(p', i) <==> InFlight(p, i) && p.workers[w] != Running(i)
    {
      if v :| 0 <= v < |p.workers| && v != w && p.workers[v] == Running(i) {
        assert p'.workers[v] == Running(i);
      }
    }
    if p.cursor < |p.results| {
      assert p'.workers[w] == Running(p.cursor);
    }
  }

  lemma StepKeepsShared<R>(p: Pool<R>, m: Move<R>)
    requires Shared(p) && Enabled(p, m.worker)
    ensures Shared(Step(p, m))
  {
    var p' := Step(p, m);
    FlightsAfter(p, m);
    forall i | 0 <= i < |p'.results|
      ensures p'.results[i].Some? <==> i < Taken(p') && !InFlight(p', i)
    {
      if i < Taken(p) {
        assert p.workers[m.worker] == Running(i) ==> InFlight(p, i);
      } else {
        assert InFlight(p', i) ==> i < Taken(p');
      }
    }
  }

  lemma LogGrows<R>(p: Pool<R>, i: nat, outcome: R)
    requires Logged(p) && i < |p.results| && p.results[i].None?
    ensures Logged(p.(results := p.results[i := Some(outcome)], log := p.log + [(i, outcome)]))
  {
    var log := p.log + [(i, outcome)];
    assert log[|p.log|] == (i, outcome) && forall x :: x in p.log ==> x in log;
  }

  lemma StepKeepsLogged<R>(p: Pool<R>, m: Move<R>)
    requires Shared(p) && Logged(p) && Enabled(p, m.worker)
    ensures Logged(Step(p, m))
  {
    var w := p.workers[m.worker];
    if w.Running? {
      assert InFlight(p, w.item);
      LogGrows(p, w.item, m.outcome);
    }
  }

  lemma StepKeepsSound<R>(p: Pool<R>, m: Move<R>)
    requires Sound(p) && Enabled(p, m.worker)
    ensures Sound(Step(p, m)) && |Step(p, m).results| == |p.results| && |Step(p, m).workers| == |p.workers|
  {
    StepKeepsShared(p, m);
    StepKeepsLogged(p, m);
  }

  // ── Over every interleaving ────────────────────────────────────────────

  /** The workers still at work. */
  function AtWork(workers: seq<Worker>): nat {
    if workers == [] then 0 else (if workers[0].Done? then 0 else 1) + AtWork(workers[1..])
  }

  lemma {:induction false} AtWorkUpdated(workers: seq<Worker>, w: nat, to: Worker)
    requires w < |workers| && !workers[w].Done?
    ensures AtWork(workers[w := to]) == AtWork(workers) - (if to.Done? then 1 else 0)
  {
    var updated := workers[w := to];
    if w > 0 {
      assert updated[1..] == workers[1..][w - 1 := to];
      AtWorkUpdated(workers[1..], w - 1, to);
    } else {
      assert updated[1..] == workers[1..];
    }
  }

  lemma {:induction false} NoneAtWork(workers: seq<Worker>)
    ensures AtWork(workers) == 0 <==> forall w :: 0 <= w < |workers| ==> workers[w].Done?
    ensures AtWork(workers) <= |workers|
  {
    if workers != [] {
      NoneAtWork(workers[1..]);
      assert workers == [workers[0]] + workers[1..];
    }
  }

  /** What is left to do: a move takes an item or ends a worker, one or the other. */
  function Remaining<R>(p: Pool<R>): nat {
    |p.results| - Taken(p) + AtWork(p.workers)
  }

  /** A worker has an item out only while it is at work; one at the list's end
      with none out has stopped. */
  lemma StepUsesOneMove<R>(p: Pool<R>, m: Move<R>)
    requires Sound(p) && Enabled(p, m.worker)
    ensures Remaining(Step(p, m)) == Remaining(p) - 1
  {
    AtWorkUpdated(p.workers, m.worker, Step(p, m).workers[m.worker]);
  }

  /** A schedule the workers can make from here. */
  predicate Possible<R>(p: Pool<R>, moves: seq<Move<R>>)
    requires Sound(p)
    decreases |moves|
  {
    moves == [] || (Enabled(p, moves[0].worker) && (StepKeepsSound(p, moves[0]); Possible(Step(p, moves[0]), moves[1..])))
  }

  function Run<R>(p: Pool<R>, moves: seq<Move<R>>): (end: Pool<R>)
    requires Sound(p) && Possible(p, moves)
    ensures Sound(end) && |end.results| == |p.results| && |end.workers| == |p.workers|
    ensures Remaining(end) == Remaining(p) - |moves|
    decreases |moves|
  {
    if moves == [] then p
    else
      StepKeepsSound(p, moves[0]);
      StepUsesOneMove(p, moves[0]);
      Run(Step(p, moves[0]), moves[1..])
  }

  /** Every interleaving ends, after one move an item and one a worker, with
      every item's one call made in index order, never more than three out at
      once, and `results[i]` what item i's call came back with. */
  lemma EveryInterleavingRunsEveryItemOnce<R>(n: nat, moves: seq<Move<R>>)
    requires Sound(Opened<R>(n)) && Possible(Opened<R>(n), moves)
    ensures var end := Run(Opened<R>(n), moves);
      && |end.workers| <= MAX_CONCURRENT_CLIENT_TOOLS
      && (AllDone(end) <==> |moves| == n + |end.workers|)
      && (AllDone(end) ==> end.calls == seq(n, i => i) && |end.log| == n)
      && (AllDone(end) ==> forall i :: 0 <= i < n ==> end.results[i].Some? && (i, end.results[i].value) in end.log)
  {
    OpenedSound<R>(n);
    var start, end := Opened<R>(n), Run(Opened<R>(n), moves);
    AllIdle(start.workers);
    NoneAtWork(end.workers);
    assert Remaining(start) == n + |start.workers|;
    if AllDone(end) {
      assert Remaining(end) == |end.results| - Taken(end);
      assert end.workers != [] ==> end.workers[0].Done?;
      forall i | 0 <= i < n ensures end.results[i].Some? {
        assert !InFlight(end, i);
      }
      LogIsComplete(end);
    }
    if |moves| == n + |end.workers| {
      assert Remaining(end) == 0;
    }
  }

  lemma {:induction false} AllIdle(workers: seq<Worker>)
    requires forall w :: 0 <= w < |workers| ==> workers[w] == Idle
    ensures AtWork(workers) == |workers|
  {
    if workers != [] {
      AllIdle(workers[1..]);
    }
  }

  /** With every result in, the log has one line an item. */
  lemma LogIsComplete<R>(p: Pool<R>)
    requires Logged(p) && forall i :: 0 <= i < |p.results| ==> p.results[i].Some?
    ensures |p.log| == |p.results|
  {
    var items := seq(|p.log|, k requires 0 <= k < |p.log| => p.log[k].0);
    forall i | 0 <= i < |p.results| ensures i in items {
      var k :| 0 <= k < |p.log| && p.log[k] == (i, p.results[i].value);
      assert items[k] == i;
    }
    DistinctAndComplete(items, |p.results|);
  }

  /** A list without repeats that holds exactly the numbers below n has n of them. */
  lemma {:induction false} DistinctAndComplete(items: seq<nat>, n: nat)
    requires forall j, k :: 0 <= j < k < |items| ==> items[j] != items[k]
    requires forall k :: 0 <= k < |items| ==> items[k] < n
    requires forall i :: 0 <= i < n ==> i in items
    ensures |items| == n
  {
    if n > 0 {
      assert n - 1 in items;
      var k :| 0 <= k < |items| && items[k] == n - 1;
      var rest := items[..k] + items[k + 1..];
      forall i | 0 <= i < n - 1 ensures i in rest {
        assert i in items;
        var j :| 0 <= j < |items| && items[j] == i;
        assert rest[if j < k then j else j - 1] == i;
      }
      DistinctAndComplete(rest, n - 1);
    }
  }

  /** Runs the pool to its end under any schedule at all: the worker that moves next
      is picked arbitrarily. */
  method MapFewAtATime<T, R>(items: seq<T>, fn: T -> R) returns (results: seq<R>, ghost calls: seq<nat>)
    ensures |results| == |items|
    ensures forall i :: 0 <= i < |items| ==> results[i] == fn(items[i])
    ensures calls == seq(|items|, i => i)
  {
    var p := Opened<R>(|items|);
    OpenedSound<R>(|items|);
    while !AllDone(p)
      invariant Sound(p) && |p.results| == |items|
      invariant forall i :: 0 <= i < |items| && p.results[i].Some? ==> p.results[i].value == fn(items[i])
      decreases Remaining(p)
    {
      var w: nat :| w < |p.workers| && !p.workers[w].Done?;
      var item := if p.workers[w].Running? then p.workers[w].item else 0;
      var m := Move(w, fn(items[item]));
      StepKeepsSound(p, m);
      StepUsesOneMove(p, m);
      p := Step(p, m);
    }
    assert p.workers != [] ==> p.workers[0].Done?;
    forall i | 0 <= i < |items| ensures p.results[i].Some? {
      assert !InFlight(p, i);
    }
    results := seq(|items|, i requires 0 <= i < |items| => p.results[i].value);
    calls := p.calls;
  }
}
