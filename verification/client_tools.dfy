/**
 Page reads and searches the web chat runs for itself: the calls of a turn, those
 of them the budget covers, and a result for each. Both kinds are treated alike.
 */
module ClientTools {
  import opened Options
  import opened WorkerPool

  /** One call asked for. `ask` is its address or query, none when it sent none. */
  datatype Request = Request(id: string, ask: Option<string>)

  /** A handler's outcome: text, or a reason it failed, which the model is told too. */
  datatype Handled = Text(text: string) | Failure(reason: string)

  datatype Outcome = Outcome(id: string, told: string, isError: bool)

  /** How a result is worded: how much of a text is told, how a failure reads,
      and the code for a call that named nothing. */
  datatype Wording = Wording(ceiling: nat, failure: string -> string, missing: string)

  const FETCH_BUDGET_SPENT := "max_uses_exceeded"

  /** A request with what it will run, if anything, and whether the budget refused it. */
  datatype Planned = Planned(request: Request, run: Option<string>, spent: bool)

  predicate Names(r: Request) {
    r.ask.Some? && r.ask.value != ""
  }

  /** How many of the requests name something to fetch. */
  function Named(requests: seq<Request>): nat {
    if requests == [] then 0
    else Named(requests[..|requests| - 1]) + (if Names(requests[|requests| - 1]) then 1 else 0)
  }

  /** Request k runs: it names something, and fewer than `remaining` before it do. */
  predicate Runs(requests: seq<Request>, remaining: nat, k: nat)
    requires k < |requests|
  {
    Names(requests[k]) && Named(requests[..k]) < remaining
  }

  function Min(a: nat, b: nat): nat {
    if a < b then a else b
  }

  /** What the budget lets run, in the order asked. */
  function Ran(requests: seq<Request>, remaining: nat): (asks: seq<string>)
    ensures |asks| == Min(remaining, Named(requests))
  {
    if requests == [] then []
    else
      var k := |requests| - 1;
      Ran(requests[..k], remaining) + (if Runs(requests, remaining, k) then [requests[k].ask.value] else [])
  }

  /** Deals the budget out to the calls in turn, ahead of running any. */
  method PlanRequests(requests: seq<Request>, remaining: nat) returns (planned: seq<Planned>)
    ensures |planned| == |requests|
    ensures forall k :: 0 <= k < |requests| ==>
      && planned[k].request == requests[k]
      && planned[k].run == (if Runs(requests, remaining, k) then requests[k].ask else None)
      && (planned[k].spent <==> Names(requests[k]) && !Runs(requests, remaining, k))
  {
    planned := [];
    var budget := remaining;
    for i := 0 to |requests|
      invariant |planned| == i
      invariant budget == remaining - Min(remaining, Named(requests[..i]))
      invariant forall k :: 0 <= k < i ==>
        && planned[k].request == requests[k]
        && planned[k].run == (if Runs(requests, remaining, k) then requests[k].ask else None)
        && (planned[k].spent <==> Names(requests[k]) && !Runs(requests, remaining, k))
    {
      var request := requests[i];
      assert requests[..i + 1][..i] == requests[..i];
      if !Names(request) {
        planned := planned + [Planned(request, None, false)];
      } else if budget == 0 {
        planned := planned + [Planned(request, None, true)];
      } else {
        budget := budget - 1;
        planned := planned + [Planned(request, request.ask, false)];
      }
    }
    assert requests[..|requests|] == requests;
  }

  function Told(w: Wording, id: string, handled: Handled): (o: Outcome)
    ensures o.id == id
  {
    match handled
    case Text(text) => Outcome(id, text[..Min(w.ceiling, |text|)], false)
    case Failure(reason) => Outcome(id, w.failure(reason), true)
  }

  function Answered(w: Wording, handler: string -> Handled, p: Planned): Outcome {
    Told(w, p.request.id,
      if p.run.Some? then handler(p.run.value)
      else Failure(if p.spent then FETCH_BUDGET_SPENT else w.missing))
  }

  /** The handler's calls of a list of planned steps, taken in the order given. */
  function Sent(planned: seq<Planned>): seq<string> {
    if planned == [] then []
    else
      var last := planned[|planned| - 1];
      Sent(planned[..|planned| - 1]) + (if last.run.Some? then [last.run.value] else [])
  }

  /** A result for each call, in order, with a few handlers out at a time. What runs
      depends on the order of the calls alone, not on which handler is quickest. */
  method AnswerRequests(requests: seq<Request>, handler: string -> Handled, remaining: nat, w: Wording)
    returns (results: seq<Outcome>, ran: nat, ghost sent: seq<string>)
    ensures |results| == |requests|
    ensures forall k :: 0 <= k < |requests| ==>
      results[k] == Told(w, requests[k].id,
        if Runs(requests, remaining, k) then handler(requests[k].ask.value)
        else Failure(if Names(requests[k]) then FETCH_BUDGET_SPENT else w.missing))
    ensures sent == Ran(requests, remaining) && ran == |sent| == Min(remaining, Named(requests))
  {
    var planned := PlanRequests(requests, remaining);
    ghost var calls;
    results, calls := MapFewAtATime(planned, p => Answered(w, handler, p));
    ghost var called := seq(|calls|, k requires 0 <= k < |calls| => planned[calls[k]]);
    assert called == planned;
    SentIsRan(requests, remaining, planned);
    sent := Sent(called);
    ran := CountRuns(planned);
  }

  function CountRuns(planned: seq<Planned>): (n: nat)
    ensures n == |Sent(planned)|
  {
    if planned == [] then 0
    else CountRuns(planned[..|planned| - 1]) + (if planned[|planned| - 1].run.Some? then 1 else 0)
  }

  lemma {:induction false} SentIsRan(requests: seq<Request>, remaining: nat, planned: seq<Planned>)
    requires |planned| == |requests|
    requires forall k :: 0 <= k < |requests| ==> planned[k].run == if Runs(requests, remaining, k) then requests[k].ask else None
    ensures Sent(planned) == Ran(requests, remaining)
  {
    if requests != [] {
      var k := |requests| - 1;
      forall i | 0 <= i < k ensures Runs(requests[..k], remaining, i) == Runs(requests, remaining, i) {
        assert requests[..k][..i] == requests[..i];
      }
      SentIsRan(requests[..k], remaining, planned[..k]);
    }
  }
}
