/**
 What each turn of the web chat leads to, told by the response's own blocks, the
 handlers and the ceilings: which call is told what, and why a chat ends.
 */
module WebChatAnswers {
  import opened Options
  import opened Sequences
  import opened JsText
  import opened Conversation
  import opened ClientTools
  import opened WebChat

  /** A call of this tool with an id to answer it by. */
  predicate IsCall(b: Block, name: string) {
    b.ToolUse? && b.name == name && !Blank(b.id)
  }

  /** One that says what it asks. */
  predicate Asks(b: Block, name: string) {
    IsCall(b, name) && b.ask.Some? && !Blank(b.ask.value)
  }

  function CallsOf(blocks: seq<Block>, name: string): nat {
    if blocks == [] then 0
    else CallsOf(blocks[..|blocks| - 1], name) + if IsCall(blocks[|blocks| - 1], name) then 1 else 0
  }

  function AsksOf(blocks: seq<Block>, name: string): nat {
    if blocks == [] then 0
    else AsksOf(blocks[..|blocks| - 1], name) + if Asks(blocks[|blocks| - 1], name) then 1 else 0
  }

  function Rest(ceiling: nat, spent: nat): nat {
    if ceiling <= spent then 0 else ceiling - spent
  }

  /** A turn whose calls our own handlers answer. */
  predicate CallsUs(cfg: Config, r: Response) {
    r.stop == ToolUseStop
    && ((cfg.ownPages && CallsOf(r.blocks, "web_fetch") > 0) || (cfg.ownSearch && CallsOf(r.blocks, "web_search") > 0))
  }

  // ── What a call is told ────────────────────────────────────────────────

  /** What the call in place i comes to: its handler's answer to what it asks
      while the budget lasts, and a failure after that or where it asks nothing. */
  function Due(blocks: seq<Block>, i: nat, name: string, handler: string -> Handled, left: nat, w: Wording): Handled
    requires i < |blocks| && IsCall(blocks[i], name)
  {
    if !Asks(blocks[i], name) then Failure(w.missing)
    else if AsksOf(blocks[..i], name) < left then handler(blocks[i].ask.value)
    else Failure("max_uses_exceeded")
  }

  /** A result under the call's id: a text up to the ceiling, or a failure worded. */
  predicate Tells(b: Block, id: string, due: Handled, w: Wording) {
    && b.ToolResult? && b.id == id && b.content.Some? && !b.marked
    && match due
       case Text(text) =>
         b.content.value <= text && |b.content.value| == if |text| < w.ceiling then |text| else w.ceiling
       case Failure(reason) => b.content.value == w.failure(reason)
  }

  /** The calls of one tool in a turn, told in the order called, from a place on. */
  ghost predicate TellsCalls(blocks: seq<Block>, name: string, handler: string -> Handled, left: nat, w: Wording,
                             results: seq<Block>, from: nat)
  {
    forall i :: 0 <= i < |blocks| && IsCall(blocks[i], name) ==>
      && from + CallsOf(blocks[..i], name) < |results|
      && Tells(results[from + CallsOf(blocks[..i], name)], blocks[i].id, Due(blocks, i, name, handler, left, w), w)
  }

  /** A turn's searches are told what the searcher says, then its page reads what
      the page reader says, and nothing else is told. */
  ghost predicate TellsTurn(cfg: Config, h: Handlers, r: Response, searchesLeft: nat, readsLeft: nat, told: Message) {
    var searches := if cfg.ownSearch then CallsOf(r.blocks, "web_search") else 0;
    var pages := if cfg.ownPages then CallsOf(r.blocks, "web_fetch") else 0;
    && told.role == User && told.content.Blocks? && |told.content.blocks| == searches + pages
    && (cfg.ownSearch ==> TellsCalls(r.blocks, "web_search", h.searchWeb, searchesLeft, h.searchWording, told.content.blocks, 0))
    && (cfg.ownPages ==> TellsCalls(r.blocks, "web_fetch", h.fetchPage, readsLeft, h.pageWording, told.content.blocks, searches))
  }

  lemma {:induction false} ReadsAppend(blocks: seq<Block>, b: Block, name: string)
    ensures ReadRequests(blocks + [b], name) == ReadRequests(blocks, name) + ReadRequests([b], name)
  {
    if blocks == [] {
      assert blocks + [b] == [b];
    } else {
      ReadsOne(blocks[0], name);
      var head := ReadRequests([blocks[0]], name);
      assert (blocks + [b])[0] == blocks[0] && (blocks + [b])[1..] == blocks[1..] + [b];
      ReadsAppend(blocks[1..], b, name);
      Assoc(head, ReadRequests(blocks[1..], name), ReadRequests([b], name));
    }
  }

  lemma ReadsOne(b: Block, name: string)
    ensures !IsCall(b, name) ==> ReadRequests([b], name) == []
    ensures IsCall(b, name) ==> ReadRequests([b], name) == [Request(b.id, if Asks(b, name) then b.ask else None)]
  {
    assert [b][1..] == [];
  }

  /** The calls of a tool are read in their places, and what they name counted. */
  lemma {:induction false} ReadsAre(blocks: seq<Block>, name: string)
    ensures |ReadRequests(blocks, name)| == CallsOf(blocks, name)
    ensures Named(ReadRequests(blocks, name)) == AsksOf(blocks, name)
  {
    if blocks != [] {
      var front, last := blocks[..|blocks| - 1], blocks[|blocks| - 1];
      assert blocks == front + [last];
      ReadsAre(front, name);
      ReadsAppend(front, last, name);
      ReadsOne(last, name);
      var requests := ReadRequests(blocks, name);
      if IsCall(last, name) {
        assert requests[..|requests| - 1] == ReadRequests(front, name);
      } else {
        assert requests == ReadRequests(front, name);
      }
    }
  }

  lemma {:induction false} ReadAt(blocks: seq<Block>, i: nat, name: string)
    requires i < |blocks| && IsCall(blocks[i], name)
    ensures var k := CallsOf(blocks[..i], name);
      && k < |ReadRequests(blocks, name)|
      && ReadRequests(blocks, name)[k] == Request(blocks[i].id, if Asks(blocks[i], name) then blocks[i].ask else None)
      && ReadRequests(blocks, name)[..k] == ReadRequests(blocks[..i], name)
  {
    var front, last := blocks[..|blocks| - 1], blocks[|blocks| - 1];
    assert blocks == front + [last];
    ReadsAppend(front, last, name);
    if i == |blocks| - 1 {
      ReadsOne(last, name);
      ReadsAre(front, name);
    } else {
      assert front[..i] == blocks[..i];
      ReadAt(front, i, name);
    }
  }

  /** One tool's results tell its calls. */
  lemma ResultsTell(blocks: seq<Block>, name: string, handler: string -> Handled, left: nat, w: Wording, before: seq<Block>, after: seq<Block>)
    ensures TellsCalls(blocks, name, handler, left, w,
      before + ResultBlocks(ReadRequests(blocks, name), handler, left, w) + after, |before|)
  {
    var requests := ReadRequests(blocks, name);
    var results := ResultBlocks(requests, handler, left, w);
    forall i | 0 <= i < |blocks| && IsCall(blocks[i], name)
      ensures CallsOf(blocks[..i], name) < |results|
      ensures Tells(results[CallsOf(blocks[..i], name)], blocks[i].id, Due(blocks, i, name, handler, left, w), w)
    {
      ReadAt(blocks, i, name);
      ReadsAre(blocks[..i], name);
      OneTells(requests, CallsOf(blocks[..i], name), handler, left, w, Due(blocks, i, name, handler, left, w));
    }
  }

  lemma OneTells(requests: seq<Request>, k: nat, handler: string -> Handled, left: nat, w: Wording, due: Handled)
    requires k < |requests|
    requires due == if Runs(requests, left, k) then handler(requests[k].ask.value)
                    else Failure(if Names(requests[k]) then "max_uses_exceeded" else w.missing)
    ensures Tells(ResultBlock(requests, handler, left, w, k), requests[k].id, due, w)
  {
  }

  // ── Over a run ─────────────────────────────────────────────────────────

  /** The searches charged once n responses are in and those before the last
      answered: what the provider billed, and what our own searcher ran. */
  function SearchesHeard(cfg: Config, vendor: nat -> Response, n: nat): nat
    requires n > 0
    decreases n, 0
  {
    SearchesSpent(cfg, vendor, n - 1) + vendor(n - 1).searches
  }

  function SearchesSpent(cfg: Config, vendor: nat -> Response, n: nat): nat
    decreases n, 1
  {
    if n == 0 then 0
    else
      var r, heard := vendor(n - 1), SearchesHeard(cfg, vendor, n);
      var asked := if CallsUs(cfg, r) && cfg.ownSearch then AsksOf(r.blocks, "web_search") else 0;
      heard + if asked < Rest(cfg.maxSearches, heard) then asked else Rest(cfg.maxSearches, heard)
  }

  function FetchesHeard(cfg: Config, vendor: nat -> Response, n: nat): nat
    requires n > 0
    decreases n, 0
  {
    FetchesSpent(cfg, vendor, n - 1) + vendor(n - 1).fetches
  }

  function FetchesSpent(cfg: Config, vendor: nat -> Response, n: nat): nat
    decreases n, 1
  {
    if n == 0 then 0
    else
      var r, heard := vendor(n - 1), FetchesHeard(cfg, vendor, n);
      var asked := if CallsUs(cfg, r) && cfg.ownPages then AsksOf(r.blocks, "web_fetch") else 0;
      heard + if asked < Rest(cfg.maxFetches, heard) then asked else Rest(cfg.maxFetches, heard)
  }

  /** The conversation after a tool turn: the turn, and its calls told, each tool
      with what is left of its ceiling. */
  ghost predicate ToldAfter(cfg: Config, h: Handlers, r: Response, searches: nat, fetches: nat, before: seq<Message>, after: seq<Message>) {
    && |after| == |before| + 2 && after[..|before|] == before
    && after[|before|] == Message(Assistant, Blocks(r.blocks))
    && TellsTurn(cfg, h, r, Rest(cfg.maxSearches, searches), Rest(cfg.maxFetches, fetches), after[|before| + 1])
  }

  lemma CallsUsIffAnswers(cfg: Config, r: Response)
    ensures CallsUs(cfg, r) <==> NextStep(cfg, r).AnswerCalls?
    ensures CallsUs(cfg, r) ==> NextStep(cfg, r) == AnswerCalls(
      if cfg.ownPages then ReadRequests(r.blocks, WEB_FETCH_TOOL_NAME) else [],
      if cfg.ownSearch then ReadRequests(r.blocks, WEB_SEARCH_TOOL_NAME) else [])
  {
    ReadsAre(r.blocks, "web_fetch");
    ReadsAre(r.blocks, "web_search");
  }

  lemma TurnResultsAre(cfg: Config, h: Handlers, r: Response, searchesLeft: nat, readsLeft: nat)
    requires CallsUs(cfg, r)
    ensures NextStep(cfg, r).AnswerCalls?
    ensures TurnResults(h, NextStep(cfg, r), searchesLeft, readsLeft)
      == (if cfg.ownSearch then ResultBlocks(ReadRequests(r.blocks, "web_search"), h.searchWeb, searchesLeft, h.searchWording) else [])
       + (if cfg.ownPages then ResultBlocks(ReadRequests(r.blocks, "web_fetch"), h.fetchPage, readsLeft, h.pageWording) else [])
  {
    CallsUsIffAnswers(cfg, r);
  }

  lemma AnswersTellTheTurn(cfg: Config, h: Handlers, r: Response, searchesLeft: nat, readsLeft: nat)
    requires CallsUs(cfg, r)
    ensures NextStep(cfg, r).AnswerCalls?
    ensures TellsTurn(cfg, h, r, searchesLeft, readsLeft,
      Message(User, Blocks(TurnResults(h, NextStep(cfg, r), searchesLeft, readsLeft))))
  {
    TurnResultsAre(cfg, h, r, searchesLeft, readsLeft);
    ReadsAre(r.blocks, "web_fetch");
    ReadsAre(r.blocks, "web_search");
    var s := if cfg.ownSearch then ResultBlocks(ReadRequests(r.blocks, "web_search"), h.searchWeb, searchesLeft, h.searchWording) else [];
    var p := if cfg.ownPages then ResultBlocks(ReadRequests(r.blocks, "web_fetch"), h.fetchPage, readsLeft, h.pageWording) else [];
    FirstTell(r.blocks, "web_search", h.searchWeb, searchesLeft, h.searchWording, p);
    LastTell(r.blocks, "web_fetch", h.fetchPage, readsLeft, h.pageWording, s);
  }

  lemma FirstTell(blocks: seq<Block>, name: string, handler: string -> Handled, left: nat, w: Wording, after: seq<Block>)
    ensures TellsCalls(blocks, name, handler, left, w, ResultBlocks(ReadRequests(blocks, name), handler, left, w) + after, 0)
  {
    var results := ResultBlocks(ReadRequests(blocks, name), handler, left, w);
    ResultsTell(blocks, name, handler, left, w, [], after);
    assert [] + results + after == results + after;
  }

  lemma LastTell(blocks: seq<Block>, name: string, handler: string -> Handled, left: nat, w: Wording, before: seq<Block>)
    ensures TellsCalls(blocks, name, handler, left, w, before + ResultBlocks(ReadRequests(blocks, name), handler, left, w), |before|)
  {
    var results := ResultBlocks(ReadRequests(blocks, name), handler, left, w);
    ResultsTell(blocks, name, handler, left, w, before, []);
    assert before + results + [] == before + results;
  }

  lemma CallsAnsweredTells(cfg: Config, h: Handlers, heard: Chat, r: Response)
    requires CallsUs(cfg, r)
    ensures NextStep(cfg, r).AnswerCalls?
    ensures ToldAfter(cfg, h, r, heard.searches, heard.fetches, heard.messages, CallsAnswered(cfg, h, heard, r, NextStep(cfg, r)).messages)
  {
    AnswersTellTheTurn(cfg, h, r, Left(cfg.maxSearches, heard.searches), Left(cfg.maxFetches, heard.fetches));
  }

  lemma CallsAnsweredSpends(cfg: Config, h: Handlers, heard: Chat, r: Response)
    requires CallsUs(cfg, r)
    ensures NextStep(cfg, r).AnswerCalls?
    ensures var c := CallsAnswered(cfg, h, heard, r, NextStep(cfg, r));
      && c.searches == heard.searches + Min(Left(cfg.maxSearches, heard.searches), if cfg.ownSearch then AsksOf(r.blocks, "web_search") else 0)
      && c.fetches == heard.fetches + Min(Left(cfg.maxFetches, heard.fetches), if cfg.ownPages then AsksOf(r.blocks, "web_fetch") else 0)
  {
    CallsUsIffAnswers(cfg, r);
    ReadsAre(r.blocks, "web_fetch");
    ReadsAre(r.blocks, "web_search");
  }

  /** How many of the first n responses were paused. */
  function PausesIn(vendor: nat -> Response, n: nat): nat {
    if n == 0 then 0 else PausesIn(vendor, n - 1) + if vendor(n - 1).stop == PauseTurn then 1 else 0
  }

  /** The chat goes on after response k: within its turns, and either it answers
      calls or resumes a pause within its resumes. */
  ghost predicate GoesOn(cfg: Config, vendor: nat -> Response, k: nat) {
    && k + 1 < cfg.maxTurns
    && (CallsUs(cfg, vendor(k)) || (vendor(k).stop == PauseTurn && PausesIn(vendor, k) < cfg.maxResumes))
  }

  /** What the next request will carry, and what is charged by then. */
  ghost predicate Pending(cfg: Config, h: Handlers, vendor: nat -> Response, c: Chat) {
    var n := |c.sent|;
    && c.searches == SearchesSpent(cfg, vendor, n) && c.fetches == FetchesSpent(cfg, vendor, n)
    && c.resumes == PausesIn(vendor, n)
    && if n == 0 then c.messages != [] && c.messages[|c.messages| - 1].content.Plain? else After(cfg, h, vendor, c.sent[n - 1], c.messages, n - 1)
  }

  /** The conversation after response k, where the chat goes on. */
  ghost predicate After(cfg: Config, h: Handlers, vendor: nat -> Response, before: seq<Message>, after: seq<Message>, k: nat) {
    && GoesOn(cfg, vendor, k)
    && if CallsUs(cfg, vendor(k))
       then ToldAfter(cfg, h, vendor(k), SearchesHeard(cfg, vendor, k + 1), FetchesHeard(cfg, vendor, k + 1), before, after)
       else after == before + [Message(Assistant, Blocks(vendor(k).blocks))]
  }

  ghost predicate Sent(cfg: Config, h: Handlers, vendor: nat -> Response, sent: seq<seq<Message>>, k: nat)
    requires k + 1 < |sent|
  {
    After(cfg, h, vendor, sent[k], sent[k + 1], k)
  }

  /** Why a chat that made n requests ended. */
  ghost predicate EndsBy(cfg: Config, vendor: nat -> Response, n: nat, end: End) {
    && n > 0
    && var r := vendor(n - 1);
       match end
       case Answered => r.stop != PauseTurn && !CallsUs(cfg, r)
       case TurnCeiling => (r.stop == PauseTurn || CallsUs(cfg, r)) && n >= cfg.maxTurns
       case ResumeCeiling => r.stop == PauseTurn && n < cfg.maxTurns && PausesIn(vendor, n - 1) >= cfg.maxResumes
       case Threw => GoesOn(cfg, vendor, n - 1) && r.stop == PauseTurn && r.blocks == []
  }

  ghost predicate ToldSoFar(cfg: Config, h: Handlers, vendor: nat -> Response, c: Chat) {
    && (forall k {:trigger Sent(cfg, h, vendor, c.sent, k)} :: 0 <= k < |c.sent| - 1 ==> Sent(cfg, h, vendor, c.sent, k))
    && if c.end.None? then Pending(cfg, h, vendor, c) else EndsBy(cfg, vendor, |c.sent|, c.end.value) && Charged(cfg, vendor, c)
  }

  /** What an ended chat reports: all the provider billed and all our handlers ran. */
  ghost predicate Charged(cfg: Config, vendor: nat -> Response, c: Chat)
    requires c.sent != []
  {
    if c.end == Some(Threw) then c.searches == SearchesSpent(cfg, vendor, |c.sent|) && c.fetches == FetchesSpent(cfg, vendor, |c.sent|)
    else c.searches == SearchesHeard(cfg, vendor, |c.sent|) && c.fetches == FetchesHeard(cfg, vendor, |c.sent|)
  }

  /** One turn, by what it does with the response. */
  ghost predicate Takes(cfg: Config, h: Handlers, vendor: nat -> Response, c: Chat, t: Chat) {
    if t.end == Some(Threw) then t == c.(end := Some(Threw)) && EndsBy(cfg, vendor, |c.sent|, Threw)
    else
      && t.sent == c.sent + [c.messages]
      && if t.end.None? then Pending(cfg, h, vendor, t) else EndsBy(cfg, vendor, |t.sent|, t.end.value) && Charged(cfg, vendor, t)
  }

  lemma ToldIsNotEmpty(cfg: Config, h: Handlers, r: Response, searches: nat, fetches: nat, before: seq<Message>, after: seq<Message>)
    requires CallsUs(cfg, r) && ToldAfter(cfg, h, r, searches, fetches, before, after)
    ensures after[|after| - 1].content != Blocks([])
  {
    var told := after[|before| + 1];
    assert |told.content.blocks| > 0;
  }

  lemma TurnThrows(cfg: Config, h: Handlers, vendor: nat -> Response, c: Chat)
    requires c.end.None? && Pending(cfg, h, vendor, c) && View(c).None?
    ensures EndsBy(cfg, vendor, |c.sent|, Threw)
  {
    assert c.messages[|c.messages| - 1].content == Blocks([]);
    AnsweredIsNotEmpty(cfg, h, vendor, c);
  }

  lemma AnsweredIsNotEmpty(cfg: Config, h: Handlers, vendor: nat -> Response, c: Chat)
    requires Pending(cfg, h, vendor, c) && c.sent != []
    ensures CallsUs(cfg, vendor(|c.sent| - 1)) ==> c.messages != [] && c.messages[|c.messages| - 1].content != Blocks([])
  {
    var n := |c.sent|;
    if CallsUs(cfg, vendor(n - 1)) {
      ToldIsNotEmpty(cfg, h, vendor(n - 1), SearchesHeard(cfg, vendor, n), FetchesHeard(cfg, vendor, n), c.sent[n - 1], c.messages);
    }
  }

  lemma TurnResumes(cfg: Config, h: Handlers, vendor: nat -> Response, c: Chat)
    requires c.end.None? && Pending(cfg, h, vendor, c) && View(c).Some? && !CallsUs(cfg, vendor(|c.sent|))
    ensures Takes(cfg, h, vendor, c, Turn(cfg, h, c, vendor(|c.sent|)))
  {
    CallsUsIffAnswers(cfg, vendor(|c.sent|));
  }

  lemma TurnIsAnswered(cfg: Config, h: Handlers, c: Chat, r: Response)
    requires View(c).Some? && CallsUs(cfg, r)
    ensures NextStep(cfg, r).AnswerCalls?
    ensures Turn(cfg, h, c, r) == if |c.sent| + 1 >= cfg.maxTurns then Heard(c, r).(end := Some(TurnCeiling))
                                  else CallsAnswered(cfg, h, Heard(c, r), r, NextStep(cfg, r))
  {
    CallsUsIffAnswers(cfg, r);
  }

  /** A turn heard and its calls answered. */
  ghost predicate AnsweredAs(cfg: Config, h: Handlers, r: Response, heard: Chat, t: Chat) {
    && t.sent == heard.sent && t.end == heard.end && t.resumes == heard.resumes
    && ToldAfter(cfg, h, r, heard.searches, heard.fetches, heard.messages, t.messages)
    && t.searches == heard.searches + Min(Left(cfg.maxSearches, heard.searches), if cfg.ownSearch then AsksOf(r.blocks, "web_search") else 0)
    && t.fetches == heard.fetches + Min(Left(cfg.maxFetches, heard.fetches), if cfg.ownPages then AsksOf(r.blocks, "web_fetch") else 0)
  }

  lemma CallsAreAnswered(cfg: Config, h: Handlers, heard: Chat, r: Response)
    requires CallsUs(cfg, r)
    ensures NextStep(cfg, r).AnswerCalls?
    ensures AnsweredAs(cfg, h, r, heard, CallsAnswered(cfg, h, heard, r, NextStep(cfg, r)))
  {
    CallsAnsweredTells(cfg, h, heard, r);
    CallsAnsweredSpends(cfg, h, heard, r);
  }

  lemma AnsweredIsPending(cfg: Config, h: Handlers, vendor: nat -> Response, c: Chat, t: Chat)
    requires c.end.None? && Pending(cfg, h, vendor, c) && CallsUs(cfg, vendor(|c.sent|)) && |c.sent| + 1 < cfg.maxTurns
    requires AnsweredAs(cfg, h, vendor(|c.sent|), Heard(c, vendor(|c.sent|)), t)
    ensures Pending(cfg, h, vendor, t)
  {
    var n := |c.sent|;
    assert SearchesHeard(cfg, vendor, n + 1) == Heard(c, vendor(n)).searches;
    assert FetchesHeard(cfg, vendor, n + 1) == Heard(c, vendor(n)).fetches;
    assert After(cfg, h, vendor, t.sent[n], t.messages, n);
  }

  lemma TurnAnswers(cfg: Config, h: Handlers, vendor: nat -> Response, c: Chat)
    requires c.end.None? && Pending(cfg, h, vendor, c) && View(c).Some? && CallsUs(cfg, vendor(|c.sent|))
    ensures Takes(cfg, h, vendor, c, Turn(cfg, h, c, vendor(|c.sent|)))
  {
    var r := vendor(|c.sent|);
    TurnIsAnswered(cfg, h, c, r);
    if |c.sent| + 1 < cfg.maxTurns {
      CallsAreAnswered(cfg, h, Heard(c, r), r);
      AnsweredIsPending(cfg, h, vendor, c, Turn(cfg, h, c, r));
    }
  }

  lemma TurnTakes(cfg: Config, h: Handlers, vendor: nat -> Response, c: Chat)
    requires c.end.None? && Pending(cfg, h, vendor, c)
    ensures Takes(cfg, h, vendor, c, Turn(cfg, h, c, vendor(|c.sent|)))
  {
    if View(c).None? {
      TurnThrows(cfg, h, vendor, c);
    } else if CallsUs(cfg, vendor(|c.sent|)) {
      TurnAnswers(cfg, h, vendor, c);
    } else {
      TurnResumes(cfg, h, vendor, c);
    }
  }

  lemma TakingKeepsTold(cfg: Config, h: Handlers, vendor: nat -> Response, c: Chat, t: Chat)
    requires ToldSoFar(cfg, h, vendor, c) && c.end.None? && Takes(cfg, h, vendor, c, t)
    ensures ToldSoFar(cfg, h, vendor, t)
  {
    forall k | 0 <= k < |t.sent| - 1
      ensures Sent(cfg, h, vendor, t.sent, k)
    {
      if k < |c.sent| - 1 {
        assert Sent(cfg, h, vendor, c.sent, k);
      }
    }
  }

  lemma {:induction false} FinishKeepsTold(cfg: Config, h: Handlers, vendor: nat -> Response, c: Chat)
    requires ToldSoFar(cfg, h, vendor, c)
    ensures ToldSoFar(cfg, h, vendor, Finish(cfg, h, vendor, c)) && Finish(cfg, h, vendor, c).end.Some?
    decreases TurnsLeft(cfg, c)
  {
    if c.end.None? {
      var t := Turn(cfg, h, c, vendor(|c.sent|));
      TurnTakes(cfg, h, vendor, c);
      TakingKeepsTold(cfg, h, vendor, c, t);
      FinishKeepsTold(cfg, h, vendor, t);
    }
  }

  /** In every chat, a request that follows a turn of our own calls carries that
      turn and one message that tells each search what the searcher says of its
      own query, and each page read what the page reader says of its own address,
      as far as each ceiling goes beyond what was charged to it before. */
  lemma EachCallIsToldItsAnswer(cfg: Config, h: Handlers, vendor: nat -> Response, userMessage: string, k: nat)
    requires k + 1 < |Finish(cfg, h, vendor, Opened(userMessage)).sent| && CallsUs(cfg, vendor(k))
    ensures var sent := Finish(cfg, h, vendor, Opened(userMessage)).sent;
      ToldAfter(cfg, h, vendor(k), SearchesHeard(cfg, vendor, k + 1), FetchesHeard(cfg, vendor, k + 1), sent[k], sent[k + 1])
  {
    FinishKeepsTold(cfg, h, vendor, Opened(userMessage));
    assert Sent(cfg, h, vendor, Finish(cfg, h, vendor, Opened(userMessage)).sent, k);
  }

  /** Every turn but the last goes on, and a chat ends for what its last turn was:
      a whole answer; a turn to follow up with no turns left; a pause with turns
      left and no resumes; or a pause that said nothing, which cannot be resumed. */
  lemma EachEndHasItsCause(cfg: Config, h: Handlers, vendor: nat -> Response, userMessage: string)
    ensures var c := Finish(cfg, h, vendor, Opened(userMessage));
      && c.end.Some? && EndsBy(cfg, vendor, |c.sent|, c.end.value) && Charged(cfg, vendor, c)
      && forall k :: 0 <= k < |c.sent| - 1 ==> GoesOn(cfg, vendor, k)
  {
    var c := Finish(cfg, h, vendor, Opened(userMessage));
    FinishKeepsTold(cfg, h, vendor, Opened(userMessage));
    forall k | 0 <= k < |c.sent| - 1
      ensures GoesOn(cfg, vendor, k)
    {
      assert Sent(cfg, h, vendor, c.sent, k);
    }
  }
}
