/**
 The web chat: one answer with web search and page reads, resumed through the
 pauses of the provider's own loop and answering the model's client-side calls.
 The vendor is any sequence of responses.
 */
module WebChat {
  import opened Options
  import opened JsText
  import opened Conversation
  import opened ClientTools

  const WEB_FETCH_TOOL_NAME := "web_fetch"
  const WEB_SEARCH_TOOL_NAME := "web_search"

  datatype StopReason = EndTurn | ToolUseStop | PauseTurn | OtherStop

  /** One response: its content, why it stopped, and what the provider billed. */
  datatype Response = Response(blocks: seq<Block>, stop: StopReason, searches: nat, fetches: nat)

  /** `ownPages` and `ownSearch` say which of the two our own handlers run. */
  datatype Config = Config(ownPages: bool, ownSearch: bool, maxSearches: nat, maxFetches: nat, maxResumes: nat, maxTurns: nat)

  datatype Handlers = Handlers(
    fetchPage: string -> Handled, pageWording: Wording,
    searchWeb: string -> Handled, searchWording: Wording)

  /** The tools whose calls this loop must answer. */
  function Declared(cfg: Config): set<string> {
    (if cfg.ownPages then {WEB_FETCH_TOOL_NAME} else {}) + (if cfg.ownSearch then {WEB_SEARCH_TOOL_NAME} else {})
  }

  /** The calls of one tool in a turn, in the order asked; a call with no id is dropped. */
  function ReadRequests(blocks: seq<Block>, name: string): seq<Request> {
    if blocks == [] then []
    else
      var b := blocks[0];
      (if b.ToolUse? && b.name == name && !Blank(b.id)
       then [Request(b.id, if b.ask.Some? && !Blank(b.ask.value) then b.ask else None)] else [])
      + ReadRequests(blocks[1..], name)
  }

  datatype Next = Finished | Resume | AnswerCalls(pages: seq<Request>, searches: seq<Request>)

  function NextStep(cfg: Config, r: Response): Next {
    if r.stop == PauseTurn then Resume
    else if r.stop != ToolUseStop then Finished
    else
      var pages := if cfg.ownPages then ReadRequests(r.blocks, WEB_FETCH_TOOL_NAME) else [];
      var searches := if cfg.ownSearch then ReadRequests(r.blocks, WEB_SEARCH_TOOL_NAME) else [];
      if pages != [] || searches != [] then AnswerCalls(pages, searches) else Finished
  }

  datatype End = Answered | TurnCeiling | ResumeCeiling | Threw

  /** The loop's state. `sent` is the conversation each request carried, and
      `readsRun` and `searchesRun` what our own handlers ran. */
  datatype Chat = Chat(
    messages: seq<Message>, text: string, resumes: nat, searches: nat, fetches: nat,
    readsRun: nat, searchesRun: nat, sent: seq<seq<Message>>, end: Option<End>)

  function Opened(userMessage: string): Chat {
    Chat([Message(User, Plain(userMessage))], "", 0, 0, 0, 0, 0, [], None)
  }

  function Left(ceiling: nat, spent: nat): nat {
    if spent < ceiling then ceiling - spent else 0
  }

  /** What request k of a turn is told, as the block that answers it. */
  function ResultBlock(requests: seq<Request>, handler: string -> Handled, remaining: nat, w: Wording, k: nat): (b: Block)
    requires k < |requests|
    ensures b.ToolResult? && b.id == requests[k].id && !Marked(b)
  {
    var told := Told(w, requests[k].id,
      if Runs(requests, remaining, k) then handler(requests[k].ask.value)
      else Failure(if Names(requests[k]) then FETCH_BUDGET_SPENT else w.missing));
    Block.ToolResult(told.id, Some(told.told), false)
  }

  function ResultBlocks(requests: seq<Request>, handler: string -> Handled, remaining: nat, w: Wording): (blocks: seq<Block>)
    ensures |blocks| == |requests|
    ensures forall k :: 0 <= k < |requests| ==> blocks[k] == ResultBlock(requests, handler, remaining, w, k)
  {
    seq(|requests|, k requires 0 <= k < |requests| => ResultBlock(requests, handler, remaining, w, k))
  }

  /** The view a request carries: the first is sent as it is. */
  function View(c: Chat): Option<seq<Message>> {
    if c.sent == [] then Some(c.messages) else WithFinalCacheBreakpoint(c.messages)
  }

  /** The request made and its response added to the reply. */
  function Heard(c: Chat, r: Response): Chat {
    c.(sent := c.sent + [c.messages], text := c.text + AnswerText(r.blocks),
       searches := c.searches + r.searches, fetches := c.fetches + r.fetches)
  }

  /** One request and what the loop makes of its response. */
  function Turn(cfg: Config, h: Handlers, c: Chat, r: Response): Chat {
    if View(c).None? then c.(end := Some(Threw))
    else
      var heard := Heard(c, r);
      var next := NextStep(cfg, r);
      if next.Finished? then heard.(end := Some(Answered))
      else if |heard.sent| >= cfg.maxTurns then heard.(end := Some(TurnCeiling))
      else if next.AnswerCalls? then CallsAnswered(cfg, h, heard, r, next)
      else if heard.resumes >= cfg.maxResumes then heard.(end := Some(ResumeCeiling))
      else heard.(messages := heard.messages + [Message(Assistant, Blocks(r.blocks))], resumes := heard.resumes + 1)
  }

  /** The conversation and both tallies once a turn's own calls have their results. */
  function CallsAnswered(cfg: Config, h: Handlers, heard: Chat, r: Response, next: Next): Chat
    requires next.AnswerCalls?
  {
    var searchesLeft, readsLeft := Left(cfg.maxSearches, heard.searches), Left(cfg.maxFetches, heard.fetches);
    var ran, read := Min(searchesLeft, Named(next.searches)), Min(readsLeft, Named(next.pages));
    heard.(messages := heard.messages + [Message(Assistant, Blocks(r.blocks)),
                                         Message(User, Blocks(TurnResults(h, next, searchesLeft, readsLeft)))],
           searches := heard.searches + ran, fetches := heard.fetches + read,
           searchesRun := heard.searchesRun + ran, readsRun := heard.readsRun + read)
  }

  function TurnResults(h: Handlers, next: Next, searchesLeft: nat, readsLeft: nat): seq<Block>
    requires next.AnswerCalls?
  {
    ResultBlocks(next.searches, h.searchWeb, searchesLeft, h.searchWording)
    + ResultBlocks(next.pages, h.fetchPage, readsLeft, h.pageWording)
  }

  function TurnsLeft(cfg: Config, c: Chat): nat {
    if c.end.Some? then 0 else 1 + Left(cfg.maxTurns, |c.sent|)
  }

  /** The loop to its end, turn k answered by the vendor's k-th response. */
  function Finish(cfg: Config, h: Handlers, vendor: nat -> Response, c: Chat): Chat
    decreases TurnsLeft(cfg, c)
  {
    if c.end.Some? then c
    else Finish(cfg, h, vendor, Turn(cfg, h, c, vendor(|c.sent|)))
  }

  /** The loop as the client runs it. Its variables are the fields of `c`. */
  method AnthropicWebChat(cfg: Config, h: Handlers, vendor: nat -> Response, userMessage: string)
    returns (c: Chat, stop: Option<StopReason>)
    ensures c == Finish(cfg, h, vendor, Opened(userMessage)) && c.end.Some?
    ensures stop == if c.sent == [] then None else Some(vendor(|c.sent| - 1).stop)
  {
    c, stop := Opened(userMessage), None;
    while c.end.None?
      invariant Finish(cfg, h, vendor, Opened(userMessage)) == Finish(cfg, h, vendor, c)
      invariant stop == if c.sent == [] then None else Some(vendor(|c.sent| - 1).stop)
      decreases TurnsLeft(cfg, c)
    {
      var response := vendor(|c.sent|);
      var threw := View(c).None?;
      c := TakeTurn(cfg, h, c, response);
      if !threw {
        stop := Some(response.stop);
      }
    }
  }

  /** One pass of the loop, in the order the client takes it. */
  method TakeTurn(cfg: Config, h: Handlers, before: Chat, response: Response) returns (c: Chat)
    ensures c == Turn(cfg, h, before, response)
  {
    c := before;
    if c.sent != [] && WithFinalCacheBreakpoint(c.messages).None? {
      return c.(end := Some(Threw));
    }
    c := Heard(c, response);
    var next := NextStep(cfg, response);
    if next.Finished? { return c.(end := Some(Answered)); }
    if |c.sent| >= cfg.maxTurns { return c.(end := Some(TurnCeiling)); }
    if next.Resume? {
      if c.resumes >= cfg.maxResumes { return c.(end := Some(ResumeCeiling)); }
      return c.(messages := c.messages + [Message(Assistant, Blocks(response.blocks))], resumes := c.resumes + 1);
    }
    c := RunCalls(cfg, h, c, response, next);
  }

  /** The two kinds of call of a turn, run, and their results in one message. */
  method RunCalls(cfg: Config, h: Handlers, heard: Chat, response: Response, next: Next) returns (c: Chat)
    requires next.AnswerCalls?
    ensures c == CallsAnswered(cfg, h, heard, response, next)
  {
    var searchesLeft, readsLeft := Left(cfg.maxSearches, heard.searches), Left(cfg.maxFetches, heard.fetches);
    ghost var sent;
    var searched, pages, ran, read;
    searched, ran, sent := AnswerRequests(next.searches, h.searchWeb, searchesLeft, h.searchWording);
    pages, read, sent := AnswerRequests(next.pages, h.fetchPage, readsLeft, h.pageWording);
    var results := AsBlocks(searched) + AsBlocks(pages);
    assert AsBlocks(searched) == ResultBlocks(next.searches, h.searchWeb, searchesLeft, h.searchWording);
    assert AsBlocks(pages) == ResultBlocks(next.pages, h.fetchPage, readsLeft, h.pageWording);
    c := heard.(messages := heard.messages + [Message(Assistant, Blocks(response.blocks)), Message(User, Blocks(results))],
                searches := heard.searches + ran, fetches := heard.fetches + read,
                searchesRun := heard.searchesRun + ran, readsRun := heard.readsRun + read);
  }

  function AsBlocks(results: seq<Outcome>): seq<Block> {
    seq(|results|, k requires 0 <= k < |results| => Block.ToolResult(results[k].id, Some(results[k].told), false))
  }
}
