/** What every run of the web chat keeps, whatever the vendor answers. */
module WebChatLaws {
  import opened Options
  import opened Sequences
  import opened JsText
  import opened Conversation
  import opened ClientTools
  import opened WebChat

  // ── Budgets ────────────────────────────────────────────────────────────

  function AtLeastOne(n: nat): nat {
    if n == 0 then 1 else n
  }

  ghost predicate Within(cfg: Config, c: Chat) {
    && |c.sent| <= AtLeastOne(cfg.maxTurns)
    && (c.end.None? ==> |c.sent| < AtLeastOne(cfg.maxTurns))
    && c.resumes <= cfg.maxResumes
    && c.readsRun <= cfg.maxFetches && c.readsRun <= c.fetches
    && c.searchesRun <= cfg.maxSearches && c.searchesRun <= c.searches
  }

  lemma TurnKeepsWithin(cfg: Config, h: Handlers, c: Chat, r: Response)
    requires Within(cfg, c) && c.end.None?
    ensures Within(cfg, Turn(cfg, h, c, r))
  {
  }

  lemma {:induction false} FinishKeepsWithin(cfg: Config, h: Handlers, vendor: nat -> Response, c: Chat)
    requires Within(cfg, c)
    ensures Within(cfg, Finish(cfg, h, vendor, c)) && Finish(cfg, h, vendor, c).end.Some?
    decreases TurnsLeft(cfg, c)
  {
    if c.end.None? {
      var r := vendor(|c.sent|);
      TurnKeepsWithin(cfg, h, c, r);
      FinishKeepsWithin(cfg, h, vendor, Turn(cfg, h, c, r));
    }
  }

  /** For every sequence of responses the chat ends within max(1, maxTurns)
      requests, within its resumes, and within both budgets of its own handlers. */
  lemma EveryChatKeepsItsBudgets(cfg: Config, h: Handlers, vendor: nat -> Response, userMessage: string)
    ensures var c := Finish(cfg, h, vendor, Opened(userMessage));
      && c.end.Some?
      && |c.sent| <= AtLeastOne(cfg.maxTurns)
      && c.resumes <= cfg.maxResumes
      && c.readsRun <= cfg.maxFetches
      && c.searchesRun <= cfg.maxSearches
  {
    FinishKeepsWithin(cfg, h, vendor, Opened(userMessage));
  }

  // ── What each request says ─────────────────────────────────────────────

  function Ids(requests: seq<Request>): seq<string> {
    if requests == [] then [] else [requests[0].id] + Ids(requests[1..])
  }

  /** The conversation after a response that did not end the chat. */
  ghost predicate Follows(cfg: Config, r: Response, before: seq<Message>, after: seq<Message>) {
    && |before| < |after| && after[..|before|] == before
    && after[|before|] == Message(Assistant, Blocks(r.blocks))
    && match NextStep(cfg, r)
       case Finished => false
       case Resume => |after| == |before| + 1
       case AnswerCalls(pages, searches) =>
         |after| == |before| + 2 && after[|before| + 1].role == User
         && ResultIds(BlocksOf(after[|before| + 1])) == Ids(searches) + Ids(pages)
         && Unmarked([after[|before| + 1]])
  }

  function TextOf(vendor: nat -> Response, n: nat): string {
    if n == 0 then "" else TextOf(vendor, n - 1) + AnswerText(vendor(n - 1).blocks)
  }

  /** The chat so far, told by the vendor's responses alone. */
  ghost predicate Told(cfg: Config, vendor: nat -> Response, userMessage: string, c: Chat) {
    var n := |c.sent|;
    && c.text == TextOf(vendor, n)
    && (n == 0 ==> c.messages == [Message(User, Plain(userMessage))])
    && (n > 0 ==> c.sent[0] == [Message(User, Plain(userMessage))])
    && (forall k :: 0 <= k < n - 1 ==> Follows(cfg, vendor(k), c.sent[k], c.sent[k + 1]))
    && (n > 0 && c.end.None? ==> Follows(cfg, vendor(n - 1), c.sent[n - 1], c.messages))
  }

  lemma {:induction false} ResultIdsOf(requests: seq<Request>, handler: string -> Handled, remaining: nat, w: Wording, n: nat)
    requires n <= |requests|
    ensures ResultIds(ResultBlocks(requests, handler, remaining, w)[|requests| - n..]) == Ids(requests[|requests| - n..])
  {
    if n > 0 {
      var blocks := ResultBlocks(requests, handler, remaining, w);
      var k := |requests| - n;
      assert blocks[k..][1..] == blocks[k + 1..] && requests[k..][1..] == requests[k + 1..];
      ResultIdsOf(requests, handler, remaining, w, n - 1);
      assert blocks[k..][0] == blocks[k] && blocks[k].ToolResult? && blocks[k].id == requests[k].id;
      assert requests[k..][0] == requests[k];
    }
  }

  lemma {:induction false} ResultIdsAppend(a: seq<Block>, b: seq<Block>)
    ensures ResultIds(a + b) == ResultIds(a) + ResultIds(b)
  {
    if a == [] {
      assert a + b == b;
    } else {
      assert (a + b)[1..] == a[1..] + b;
      ResultIdsAppend(a[1..], b);
    }
  }

  lemma TurnResultIds(h: Handlers, next: Next, searchesLeft: nat, readsLeft: nat)
    requires next.AnswerCalls?
    ensures ResultIds(TurnResults(h, next, searchesLeft, readsLeft)) == Ids(next.searches) + Ids(next.pages)
  {
    var s := ResultBlocks(next.searches, h.searchWeb, searchesLeft, h.searchWording);
    var p := ResultBlocks(next.pages, h.fetchPage, readsLeft, h.pageWording);
    ResultIdsAppend(s, p);
    ResultIdsOf(next.searches, h.searchWeb, searchesLeft, h.searchWording, |next.searches|);
    ResultIdsOf(next.pages, h.fetchPage, readsLeft, h.pageWording, |next.pages|);
    assert s[0..] == s && p[0..] == p && next.searches[0..] == next.searches && next.pages[0..] == next.pages;
  }

  lemma CallsAnsweredFollows(cfg: Config, h: Handlers, heard: Chat, r: Response)
    requires NextStep(cfg, r).AnswerCalls?
    ensures Follows(cfg, r, heard.messages, CallsAnswered(cfg, h, heard, r, NextStep(cfg, r)).messages)
  {
    var next := NextStep(cfg, r);
    var searchesLeft, readsLeft := Left(cfg.maxSearches, heard.searches), Left(cfg.maxFetches, heard.fetches);
    var results := TurnResults(h, next, searchesLeft, readsLeft);
    var after := heard.messages + [Message(Assistant, Blocks(r.blocks)), Message(User, Blocks(results))];
    TurnResultIds(h, next, searchesLeft, readsLeft);
    assert after[..|heard.messages|] == heard.messages;
    assert Unmarked([after[|heard.messages| + 1]]) by {
      assert forall b :: b in results ==> !Marked(b);
    }
  }

  lemma TurnFollows(cfg: Config, h: Handlers, c: Chat, r: Response)
    requires c.end.None? && Turn(cfg, h, c, r).end.None?
    ensures Follows(cfg, r, c.messages, Turn(cfg, h, c, r).messages)
  {
    if NextStep(cfg, r).AnswerCalls? {
      CallsAnsweredFollows(cfg, h, Heard(c, r), r);
    } else {
      assert Turn(cfg, h, c, r).messages[..|c.messages|] == c.messages;
    }
  }

  /** What a turn does to a chat: nothing where its request cannot be viewed, else
      the request made, its text added, and the conversation gone on with. */
  ghost predicate Advances(cfg: Config, r: Response, c: Chat, t: Chat) {
    if t.end == Some(Threw) then t == c.(end := Some(Threw))
    else
      && t.sent == c.sent + [c.messages]
      && t.text == c.text + AnswerText(r.blocks)
      && (t.end.None? ==> Follows(cfg, r, c.messages, t.messages))
  }

  lemma TurnSends(cfg: Config, h: Handlers, c: Chat, r: Response)
    requires c.end.None?
    ensures var t := Turn(cfg, h, c, r);
      if t.end == Some(Threw) then t == c.(end := Some(Threw))
      else t.sent == c.sent + [c.messages] && t.text == c.text + AnswerText(r.blocks)
  {
  }

  lemma TurnAdvances(cfg: Config, h: Handlers, c: Chat, r: Response)
    requires c.end.None?
    ensures Advances(cfg, r, c, Turn(cfg, h, c, r))
  {
    TurnSends(cfg, h, c, r);
    if Turn(cfg, h, c, r).end.None? {
      TurnFollows(cfg, h, c, r);
    }
  }

  lemma AdvancingKeepsTold(cfg: Config, vendor: nat -> Response, userMessage: string, c: Chat, t: Chat)
    requires Told(cfg, vendor, userMessage, c) && c.end.None? && Advances(cfg, vendor(|c.sent|), c, t)
    ensures Told(cfg, vendor, userMessage, t)
  {
    var n := |c.sent|;
    if t.end != Some(Threw) {
      forall k | 0 <= k < n
        ensures Follows(cfg, vendor(k), t.sent[k], t.sent[k + 1])
      {
        if k == n - 1 {
          assert t.sent[n] == c.messages;
        }
      }
    }
  }

  /** One turn of the loop, and what is left of it. */
  lemma TakesATurn(cfg: Config, h: Handlers, vendor: nat -> Response, c: Chat) returns (t: Chat)
    requires c.end.None?
    ensures Advances(cfg, vendor(|c.sent|), c, t)
    ensures Finish(cfg, h, vendor, c) == Finish(cfg, h, vendor, t) && TurnsLeft(cfg, t) < TurnsLeft(cfg, c)
  {
    t := Turn(cfg, h, c, vendor(|c.sent|));
    TurnAdvances(cfg, h, c, vendor(|c.sent|));
  }

  lemma {:induction false} FinishKeepsTold(cfg: Config, h: Handlers, vendor: nat -> Response, userMessage: string, c: Chat)
    requires Told(cfg, vendor, userMessage, c)
    ensures Told(cfg, vendor, userMessage, Finish(cfg, h, vendor, c))
    decreases TurnsLeft(cfg, c)
  {
    if c.end.None? {
      var t := TakesATurn(cfg, h, vendor, c);
      AdvancingKeepsTold(cfg, vendor, userMessage, c, t);
      FinishKeepsTold(cfg, h, vendor, userMessage, t);
    }
  }

  /** The reply's text is every turn's text in order, and each request is the one
      before it with the response and, where it called our tools, their results. */
  lemma EveryChatIsToldInOrder(cfg: Config, h: Handlers, vendor: nat -> Response, userMessage: string)
    ensures var c := Finish(cfg, h, vendor, Opened(userMessage));
      && c.text == TextOf(vendor, |c.sent|)
      && forall k :: 0 <= k < |c.sent| - 1 ==> Follows(cfg, vendor(k), c.sent[k], c.sent[k + 1])
  {
    FinishKeepsTold(cfg, h, vendor, userMessage, Opened(userMessage));
  }

  // ── Pairing ────────────────────────────────────────────────────────────

  /** A response the loop can answer whole: a paused one calls none of our tools,
      and a tool turn's calls of them have ids, each its own. */
  predicate Answerable(cfg: Config, r: Response) {
    var calls := CallIds(r.blocks, Declared(cfg));
    match NextStep(cfg, r)
    case Finished => true
    case Resume => calls == []
    case AnswerCalls(_, _) => NoRepeats(calls) && forall id :: id in calls ==> !Blank(id)
  }

  lemma CountCallsOf(blocks: seq<Block>, names: set<string>, id: string)
    requires blocks != []
    ensures Count(CallIds(blocks, names), id) == Count(CallIds(blocks[1..], names), id)
      + if blocks[0].ToolUse? && blocks[0].name in names && blocks[0].id == id then 1 else 0
  {
    var rest := CallIds(blocks[1..], names);
    if blocks[0].ToolUse? && blocks[0].name in names {
      assert CallIds(blocks, names) == [blocks[0].id] + rest;
      assert CallIds(blocks, names)[1..] == rest;
    } else {
      assert CallIds(blocks, names) == rest;
    }
  }

  lemma {:induction false} RequestCounts(blocks: seq<Block>, name: string, id: string)
    ensures Count(Ids(ReadRequests(blocks, name)), id) == if Blank(id) then 0 else Count(CallIds(blocks, {name}), id)
  {
    if blocks != [] {
      RequestCounts(blocks[1..], name, id);
      CountCallsOf(blocks, {name}, id);
      var b, rest := blocks[0], ReadRequests(blocks[1..], name);
      if b.ToolUse? && b.name == name && !Blank(b.id) {
        var request := Request(b.id, if b.ask.Some? && !Blank(b.ask.value) then b.ask else None);
        assert ReadRequests(blocks, name) == [request] + rest;
        assert ReadRequests(blocks, name)[1..] == rest;
        assert Ids(ReadRequests(blocks, name)) == [b.id] + Ids(rest);
        assert Ids(ReadRequests(blocks, name))[1..] == Ids(rest);
      } else {
        assert ReadRequests(blocks, name) == rest;
      }
    }
  }

  lemma {:induction false} CallsOfBoth(blocks: seq<Block>, id: string)
    ensures Count(CallIds(blocks, {WEB_FETCH_TOOL_NAME, WEB_SEARCH_TOOL_NAME}), id)
         == Count(CallIds(blocks, {WEB_FETCH_TOOL_NAME}), id) + Count(CallIds(blocks, {WEB_SEARCH_TOOL_NAME}), id)
  {
    if blocks != [] {
      CallsOfBoth(blocks[1..], id);
      CountCallsOf(blocks, {WEB_FETCH_TOOL_NAME, WEB_SEARCH_TOOL_NAME}, id);
      CountCallsOf(blocks, {WEB_FETCH_TOOL_NAME}, id);
      CountCallsOf(blocks, {WEB_SEARCH_TOOL_NAME}, id);
      assert WEB_FETCH_TOOL_NAME[4] != WEB_SEARCH_TOOL_NAME[4];
    }
  }

  /** The results of a tool turn hold each call's id as often as it was called,
      less the calls with no id. */
  lemma ResultsMatchCalls(cfg: Config, r: Response, id: string)
    requires NextStep(cfg, r).AnswerCalls?
    ensures var next := NextStep(cfg, r);
      Count(Ids(next.searches) + Ids(next.pages), id) == if Blank(id) then 0 else Count(CallIds(r.blocks, Declared(cfg)), id)
  {
    var next := NextStep(cfg, r);
    CountAppend(Ids(next.searches), Ids(next.pages), id);
    RequestCounts(r.blocks, WEB_FETCH_TOOL_NAME, id);
    RequestCounts(r.blocks, WEB_SEARCH_TOOL_NAME, id);
    CallsOfBoth(r.blocks, id);
    assert cfg.ownPages && cfg.ownSearch ==> Declared(cfg) == {WEB_FETCH_TOOL_NAME, WEB_SEARCH_TOOL_NAME};
    assert cfg.ownPages && !cfg.ownSearch ==> Declared(cfg) == {WEB_FETCH_TOOL_NAME};
    assert !cfg.ownPages && cfg.ownSearch ==> Declared(cfg) == {WEB_SEARCH_TOOL_NAME};
  }

  lemma TurnPairedIff(cfg: Config, r: Response, before: seq<Message>, after: seq<Message>)
    requires Follows(cfg, r, before, after)
    ensures Paired(after[|before|..], Declared(cfg)) <==> Answerable(cfg, r)
    ensures Answerable(cfg, r) ==> Calls(after[|after| - 1], Declared(cfg)) == []
  {
    var more, declared := after[|before|..], Declared(cfg);
    var calls := CallIds(r.blocks, declared);
    assert more[0] == after[|before|] && Calls(more[0], declared) == calls;
    if NextStep(cfg, r).Resume? {
      assert Paired(more, declared) <==> PairedAt(more, declared, 0);
      assert calls != [] ==> calls[0] in calls;
    } else {
      assert more[1] == after[|before| + 1] && Calls(more[1], declared) == [];
      assert Paired(more, declared) <==> PairedAt(more, declared, 0);
      forall id ensures Answers(more[1], id) == if Blank(id) then 0 else Count(calls, id) {
        ResultsMatchCalls(cfg, r, id);
      }
      NoRepeatsCounts(calls);
    }
  }

  ghost predicate EndsWithoutCalls(messages: seq<Message>, declared: set<string>) {
    messages != [] && Calls(messages[|messages| - 1], declared) == []
  }

  lemma GrownPairedIff(cfg: Config, r: Response, before: seq<Message>, after: seq<Message>)
    requires Follows(cfg, r, before, after) && EndsWithoutCalls(before, Declared(cfg))
    ensures Paired(after, Declared(cfg)) <==> Paired(before, Declared(cfg)) && Answerable(cfg, r)
    ensures Answerable(cfg, r) ==> EndsWithoutCalls(after, Declared(cfg))
  {
    TurnPairedIff(cfg, r, before, after);
    PairedGrows(before, after[|before|..], Declared(cfg));
    assert before + after[|before|..] == after;
  }

  /** The first n responses can all be answered whole. */
  predicate AllAnswerable(cfg: Config, vendor: nat -> Response, n: nat): (all: bool)
    ensures all <==> forall k :: 0 <= k < n ==> Answerable(cfg, vendor(k))
  {
    n == 0 || (AllAnswerable(cfg, vendor, n - 1) && Answerable(cfg, vendor(n - 1)))
  }

  /** The first n requests are all paired. */
  ghost predicate AllPaired(cfg: Config, sent: seq<seq<Message>>, n: nat): (all: bool)
    requires n <= |sent|
    ensures all <==> forall k :: 0 <= k < n ==> Paired(sent[k], Declared(cfg))
  {
    n == 0 || (AllPaired(cfg, sent, n - 1) && Paired(sent[n - 1], Declared(cfg)))
  }

  lemma {:induction false} SentPairedIff(cfg: Config, vendor: nat -> Response, userMessage: string, c: Chat, n: nat)
    requires Told(cfg, vendor, userMessage, c) && 0 < n <= |c.sent|
    ensures AllPaired(cfg, c.sent, n) <==> AllAnswerable(cfg, vendor, n - 1)
    ensures AllAnswerable(cfg, vendor, n - 1) ==> EndsWithoutCalls(c.sent[n - 1], Declared(cfg))
  {
    if n == 1 {
      FirstIsPaired(cfg, userMessage);
    } else {
      SentPairedIff(cfg, vendor, userMessage, c, n - 1);
      assert Follows(cfg, vendor(n - 2), c.sent[n - 2], c.sent[n - 1]);
      if AllAnswerable(cfg, vendor, n - 2) {
        GrownPairedIff(cfg, vendor(n - 2), c.sent[n - 2], c.sent[n - 1]);
      }
    }
  }

  lemma FirstIsPaired(cfg: Config, userMessage: string)
    ensures var first := [Message(User, Plain(userMessage))];
      Paired(first, Declared(cfg)) && EndsWithoutCalls(first, Declared(cfg))
  {
  }

  /** No request leaves a declared call without exactly one same-id result in the
      next message, if and only if every response that was followed by another
      request is one the loop can answer whole. */
  lemma RequestsArePairedIff(cfg: Config, h: Handlers, vendor: nat -> Response, userMessage: string)
    ensures var c := Finish(cfg, h, vendor, Opened(userMessage));
      c.sent == [] || (AllPaired(cfg, c.sent, |c.sent|) <==> AllAnswerable(cfg, vendor, |c.sent| - 1))
  {
    var c := Finish(cfg, h, vendor, Opened(userMessage));
    FinishKeepsTold(cfg, h, vendor, userMessage, Opened(userMessage));
    if |c.sent| > 0 {
      SentPairedIff(cfg, vendor, userMessage, c, |c.sent|);
    }
  }

  /** The condition is not idle: a paused turn that calls our page reader is
      resumed with the call unanswered. */
  lemma PausedCallGoesUnanswered(h: Handlers, userMessage: string)
    ensures var cfg := Config(true, false, 0, 1, 1, 2);
      var paused := Response([ToolUse("t", WEB_FETCH_TOOL_NAME, None, false)], PauseTurn, 0, 0);
      var sent := Finish(cfg, h, (k: nat) => paused, Opened(userMessage)).sent;
      !AllPaired(cfg, sent, |sent|)
  {
    var cfg := Config(true, false, 0, 1, 1, 2);
    var paused := Response([ToolUse("t", WEB_FETCH_TOOL_NAME, None, false)], PauseTurn, 0, 0);
    var vendor := (k: nat) => paused;
    var start := Opened(userMessage);
    var resumed := Turn(cfg, h, start, paused);
    var ended := Turn(cfg, h, resumed, paused);
    assert resumed.messages[1] == Message(Assistant, Blocks(paused.blocks));
    assert resumed.end.None? && ended.end == Some(TurnCeiling);
    assert Finish(cfg, h, vendor, start) == Finish(cfg, h, vendor, resumed) == Finish(cfg, h, vendor, ended) == ended;
    assert CallIds(paused.blocks, Declared(cfg)) == ["t"] + CallIds(paused.blocks[1..], Declared(cfg));
    assert !Answerable(cfg, vendor(0));
    RequestsArePairedIff(cfg, h, vendor, userMessage);
  }

  // ── The cache marker ───────────────────────────────────────────────────

  lemma {:induction false} SentUnmarked(cfg: Config, vendor: nat -> Response, userMessage: string, c: Chat, k: nat)
    requires Told(cfg, vendor, userMessage, c) && k < |c.sent|
    requires forall i, b :: 0 <= i < k && b in vendor(i).blocks ==> !Marked(b)
    ensures Unmarked(c.sent[k])
  {
    if k > 0 {
      SentUnmarked(cfg, vendor, userMessage, c, k - 1);
      var before, after := c.sent[k - 1], c.sent[k];
      assert Follows(cfg, vendor(k - 1), before, after);
      forall i, b | 0 <= i < |after| && b in BlocksOf(after[i]) ensures !Marked(b) {
        if i < |before| {
          assert after[i] == before[i];
        } else if i == |before| + 1 {
          assert [after[i]][0] == after[i];
        }
      }
    }
  }

  /** The stored conversation never holds a marker, so each request's view
      carries at most one. */
  lemma EachViewCarriesOneMarkerAtMost(cfg: Config, h: Handlers, vendor: nat -> Response, userMessage: string, k: nat)
    requires forall i, b :: 0 <= i && b in vendor(i).blocks ==> !Marked(b)
    requires k < |Finish(cfg, h, vendor, Opened(userMessage)).sent|
    ensures var sent := Finish(cfg, h, vendor, Opened(userMessage)).sent[k];
      Unmarked(sent) && (WithFinalCacheBreakpoint(sent).Some? ==> Marks(WithFinalCacheBreakpoint(sent).value) <= 1)
  {
    var c := Finish(cfg, h, vendor, Opened(userMessage));
    FinishKeepsTold(cfg, h, vendor, userMessage, Opened(userMessage));
    SentUnmarked(cfg, vendor, userMessage, c, k);
    if WithFinalCacheBreakpoint(c.sent[k]).Some? {
      ViewMarksOnlyTheEnd(c.sent[k]);
    }
  }
}
