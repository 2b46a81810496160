/**
 The Affinity client's cache of a workspace's shape: flights in the air, kept for
 five minutes by key. Time, settling and failing are events of the world, so a
 run is any interleaving of them with the client's asks and invalidations.
 */
module SchemaCache {
  /** Five minutes, in milliseconds. */
  const SCHEMA_TTL := 5 * 60 * 1000

  datatype Outcome = Pending | Answered(value: string) | Failed

  /** One load of one key, by when it was requested. Its id is its place in `flights`. */
  datatype Flight = Flight(key: string, at: nat, outcome: Outcome)
  datatype Slot = Slot(at: nat, flight: nat)
  datatype State = State(now: nat, flights: seq<Flight>, held: map<string, Slot>)

  datatype Event = Tick(ms: nat) | Ask(key: string) | Settle(flight: nat, value: string) | Fail(flight: nat) | Invalidate

  predicate Fresh(s: State, key: string) {
    key in s.held && s.now - s.held[key].at < SCHEMA_TTL
  }

  /** The flight an ask of this key is handed. */
  function Served(s: State, key: string): nat {
    if Fresh(s, key) then s.held[key].flight else |s.flights|
  }

  function Step(s: State, e: Event): State {
    match e
    case Tick(ms) => s.(now := s.now + ms)
    case Ask(key) =>
      if Fresh(s, key) then s
      else s.(flights := s.flights + [Flight(key, s.now, Pending)], held := s.held[key := Slot(s.now, |s.flights|)])
    case Settle(f, value) =>
      if f < |s.flights| && s.flights[f].outcome == Pending
      then s.(flights := s.flights[f := s.flights[f].(outcome := Answered(value))]) else s
    case Fail(f) =>
      if f < |s.flights| && s.flights[f].outcome == Pending then
        var key := s.flights[f].key;
        s.(flights := s.flights[f := s.flights[f].(outcome := Failed)],
           held := if key in s.held && s.held[key].flight == f then s.held - {key} else s.held)
      else s
    case Invalidate => s.(held := map[])
  }

  function Run(s: State, events: seq<Event>): State
    decreases |events|
  {
    if events == [] then s else Run(Step(s, events[0]), events[1..])
  }

  /** What is held is a flight of that key that has not failed, dated when it left. */
  ghost predicate Sound(s: State) {
    forall key :: key in s.held ==>
      var slot := s.held[key];
      && slot.flight < |s.flights|
      && s.flights[slot.flight].key == key
      && s.flights[slot.flight].outcome != Failed
      && s.flights[slot.flight].at == slot.at <= s.now
  }

  lemma StepKeepsSound(s: State, e: Event)
    requires Sound(s)
    ensures Sound(Step(s, e))
  {
  }

  lemma {:induction false} RunKeepsSound(s: State, events: seq<Event>)
    requires Sound(s)
    ensures Sound(Run(s, events))
    decreases |events|
  {
    if events != [] {
      StepKeepsSound(s, events[0]);
      RunKeepsSound(Step(s, events[0]), events[1..]);
    }
  }

  function Opened(now: nat): State {
    State(now, [], map[])
  }

  /** Whatever has happened, an ask is handed a flight of its own key that has
      not failed and was requested less than five minutes ago. */
  lemma AnswersAreRecentAndNotFailures(now: nat, events: seq<Event>, key: string)
    ensures var before := Run(Opened(now), events);
      var after := Step(before, Ask(key));
      var f := Served(before, key);
      && f < |after.flights|
      && after.flights[f].key == key
      && after.flights[f].outcome != Failed
      && after.now - after.flights[f].at < 300_000
  {
    RunKeepsSound(Opened(now), events);
  }

  /** A flight fails out of the cache only its own slot: a newer flight of the
      same key, and every other key, stays. */
  lemma FailureEvictsOnlyItself(s: State, f: nat, key: string)
    requires Sound(s) && key in s.held
    ensures key in Step(s, Fail(f)).held <==> !(s.held[key].flight == f && s.flights[f].outcome == Pending)
    ensures key in Step(s, Fail(f)).held ==> Step(s, Fail(f)).held[key] == s.held[key]
  {
  }

  /** Nothing but this flight's own failure, an invalidation, or time ends its slot. */
  predicate Undisturbed(f: nat, events: seq<Event>) {
    forall e :: e in events ==> e != Fail(f) && e != Invalidate
  }

  lemma {:induction false} SlotOutlivesOthersEvents(s: State, key: string, events: seq<Event>)
    requires Sound(s) && key in s.held && Undisturbed(s.held[key].flight, events)
    requires Run(s, events).now - s.held[key].at < SCHEMA_TTL
    ensures key in Run(s, events).held && Run(s, events).held[key] == s.held[key]
    decreases |events|
  {
    if events != [] {
      var e, next := events[0], Step(s, events[0]);
      assert e in events && forall x :: x in events[1..] ==> x in events;
      TimeOnlyPasses(next, events[1..]);
      StepKeepsSound(s, e);
      assert key in next.held && next.held[key] == s.held[key];
      SlotOutlivesOthersEvents(next, key, events[1..]);
    }
  }

  lemma {:induction false} TimeOnlyPasses(s: State, events: seq<Event>)
    ensures s.now <= Run(s, events).now
    decreases |events|
  {
    if events != [] {
      TimeOnlyPasses(Step(s, events[0]), events[1..]);
    }
  }

  /** Asks of one key inside the window share one flight, and the later ask sends
      nothing, whatever is asked, settled or failed in between. */
  lemma AsksInsideTheWindowShare(s: State, key: string, between: seq<Event>)
    requires Sound(s)
    requires Undisturbed(Served(s, key), between)
    requires var first := Step(s, Ask(key));
      Run(first, between).now - first.held[key].at < 300_000
    ensures var first := Step(s, Ask(key));
      var later := Run(first, between);
      Served(later, key) == Served(s, key) && Step(later, Ask(key)) == later
  {
    var first := Step(s, Ask(key));
    StepKeepsSound(s, Ask(key));
    SlotOutlivesOthersEvents(first, key, between);
  }

  /** A failure is not an answer: once the flight an ask was handed has failed,
      the next ask loads anew. */
  lemma FailedIsAskedAnew(s: State, key: string)
    requires Sound(s)
    ensures var f := Served(s, key);
      var failed := Step(Step(s, Ask(key)), Fail(f));
      Step(s, Ask(key)).flights[f].outcome == Pending ==>
        Served(failed, key) == |failed.flights| && Served(failed, key) > f
  {
    StepKeepsSound(s, Ask(key));
  }

  /** The cache as the client holds it, changed in place. */
  class SchemaClient {
    var now: nat
    var flights: seq<Flight>
    var schemaCache: map<string, Slot>

    constructor (now: nat)
      ensures View() == Opened(now)
    {
      this.now, flights, schemaCache := now, [], map[];
    }

    ghost function View(): State
      reads this
    {
      State(now, flights, schemaCache)
    }

    method CachedSchema(key: string) returns (flight: nat)
      modifies this
      ensures View() == Step(old(View()), Ask(key))
      ensures flight == Served(old(View()), key)
    {
      if key in schemaCache && now - schemaCache[key].at < SCHEMA_TTL {
        return schemaCache[key].flight;
      }
      flight := |flights|;
      flights := flights + [Flight(key, now, Pending)];
      schemaCache := schemaCache[key := Slot(now, flight)];
    }

    /** A load that failed takes itself out of the cache, if it is still there. */
    method LoadFailed(flight: nat)
      requires flight < |flights| && flights[flight].outcome == Pending
      modifies this
      ensures View() == Step(old(View()), Fail(flight))
    {
      var key := flights[flight].key;
      flights := flights[flight := flights[flight].(outcome := Failed)];
      if key in schemaCache && schemaCache[key].flight == flight {
        schemaCache := schemaCache - {key};
      }
    }

    method InvalidateSchemaCache()
      modifies this`schemaCache
      ensures View() == Step(old(View()), Invalidate)
    {
      schemaCache := map[];
    }
  }
}
