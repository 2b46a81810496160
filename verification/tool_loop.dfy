/**
 The tool loop: the model's calls run and answered turn by turn, truncated turns
 continued or retried, and old tool results compacted when the run grows large.
 A run is any sequence of responses.
 */
module ToolLoop {
  import opened Options
  import opened Conversation

  const MAX_TRUNCATION_RECOVERIES := 2
  const COMPACT_TRIGGER_TOKENS := 500_000
  const COMPACT_TARGET_TOKENS := 200_000
  const COMPACTED := "[Compacted — re-query if needed.]"
  // The messages that follow stand for the source's; no law reads their wording.
  const CONTINUE := "continue"
  const CUT_OFF := "[cut off]"
  const SMALLER_STEP := "smaller step"

  datatype StopReason = ToolUseStop | MaxTokens | OtherStop
  datatype Response = Response(blocks: seq<Block>, stop: StopReason, inputTokens: nat)

  /** What a tool made of a call: its result as text (none for one JSON cannot
      spell), or a signal that hands the run to someone else. */
  datatype ToolOutcome = Result(content: Option<string>) | HandOff

  datatype End = Returned(texts: seq<string>) | TurnBudgetSpent | TruncatedTooOften | HandedOff

  /** `sent` is the conversation each request carried. */
  datatype Loop = Loop(messages: seq<Message>, recoveries: nat, sent: seq<seq<Message>>, end: Option<End>)

  function Texts(blocks: seq<Block>): seq<string> {
    if blocks == [] then [] else (if blocks[0].TextBlock? then [blocks[0].text] else []) + Texts(blocks[1..])
  }

  function Joined(texts: seq<string>): string {
    if texts == [] then "" else if |texts| == 1 then texts[0] else texts[0] + "\n" + Joined(texts[1..])
  }

  /** The tool calls of a turn, whatever they name. */
  function ToolUses(blocks: seq<Block>): (uses: seq<Block>)
    ensures forall b :: b in uses ==> b.ToolUse?
  {
    if blocks == [] then [] else (if blocks[0].ToolUse? then [blocks[0]] else []) + ToolUses(blocks[1..])
  }

  // ── Compaction ─────────────────────────────────────────────────────────

  /** A result worth compacting: its text is longer than what replaces it. */
  predicate Compactible(b: Block) {
    b.ToolResult? && b.content.Some? && |b.content.value| > 200
  }

  function Compacted(b: Block): Block {
    if Compactible(b) then b.(content := Some(COMPACTED)) else b
  }

  function CompactedBlocks(blocks: seq<Block>): (out: seq<Block>)
    ensures |out| == |blocks| && forall i :: 0 <= i < |blocks| ==> out[i] == Compacted(blocks[i])
  {
    seq(|blocks|, i requires 0 <= i < |blocks| => Compacted(blocks[i]))
  }

  function Recoverable(blocks: seq<Block>): nat {
    if blocks == [] then 0
    else
      var last := blocks[|blocks| - 1];
      Recoverable(blocks[..|blocks| - 1]) + if Compactible(last) then |last.content.value| else 0
  }

  /** Only a user message made of blocks is walked. */
  function CompactedMessage(m: Message): Message {
    if m.role == User && m.content.Blocks? then m.(content := Blocks(CompactedBlocks(m.content.blocks))) else m
  }

  function RecoverableIn(m: Message): nat {
    if m.role == User then Recoverable(BlocksOf(m)) else 0
  }

  /** How many characters compacting the first n messages recovers. */
  function RecoverableUpTo(messages: seq<Message>, n: nat): nat
    requires n <= |messages|
  {
    if n == 0 then 0 else RecoverableUpTo(messages, n - 1) + RecoverableIn(messages[n - 1])
  }

  predicate IsUserBlocks(m: Message) {
    m.role == User && m.content.Blocks?
  }

  /** The first message compaction leaves alone: where enough has been recovered,
      or the last message, which was just appended. */
  function CompactionStop(messages: seq<Message>, target: nat, i: nat): (stop: nat)
    requires i < |messages|
    ensures i <= stop < |messages|
    ensures RecoverableUpTo(messages, stop) >= target || stop == |messages| - 1
    ensures forall n :: i <= n < stop ==> RecoverableUpTo(messages, n) < target
    decreases |messages| - i
  {
    if i == |messages| - 1 || RecoverableUpTo(messages, i) >= target then i
    else CompactionStop(messages, target, i + 1)
  }

  function CompactedConversation(messages: seq<Message>, target: nat): (out: seq<Message>)
    requires messages != []
    ensures |out| == |messages|
    ensures forall i :: 0 <= i < |messages| ==>
      out[i] == if i < CompactionStop(messages, target, 0) then CompactedMessage(messages[i]) else messages[i]
  {
    seq(|messages|, i requires 0 <= i < |messages| =>
      if i < CompactionStop(messages, target, 0) then CompactedMessage(messages[i]) else messages[i])
  }

  /** Compact old tool results in place, oldest first, sparing the message just
      appended, until enough is recovered. */
  method Compact(messages: seq<Message>, target: nat) returns (out: seq<Message>)
    requires messages != [] && target > 0
    ensures out == CompactedConversation(messages, target)
  {
    out := messages;
    var recovered, i := 0, 0;
    while i < |messages| - 1 && recovered < target
      invariant 0 <= i <= |messages| - 1 && |out| == |messages|
      invariant recovered == RecoverableUpTo(messages, i)
      invariant forall n :: 0 <= n < i ==> RecoverableUpTo(messages, n) < target
      invariant forall k :: 0 <= k < |messages| ==> out[k] == if k < i then CompactedMessage(messages[k]) else messages[k]
    {
      var msg := messages[i];
      if IsUserBlocks(msg) {
        var blocks, chars := CompactBlocks(msg.content.blocks);
        out := out[i := msg.(content := Blocks(blocks))];
        recovered := recovered + chars;
      }
      i := i + 1;
    }
    assert i == CompactionStop(messages, target, 0);
  }

  method CompactBlocks(blocks: seq<Block>) returns (out: seq<Block>, chars: nat)
    ensures out == CompactedBlocks(blocks) && chars == Recoverable(blocks)
  {
    out, chars := blocks, 0;
    for j := 0 to |blocks|
      invariant |out| == |blocks|
      invariant chars == Recoverable(blocks[..j])
      invariant forall k :: 0 <= k < |blocks| ==> out[k] == if k < j then Compacted(blocks[k]) else blocks[k]
    {
      assert blocks[..j + 1][..j] == blocks[..j];
      if Compactible(blocks[j]) {
        chars := chars + |blocks[j].content.value|;
        out := out[j := blocks[j].(content := Some(COMPACTED))];
      }
    }
    assert blocks[..|blocks|] == blocks;
  }

  // ── One turn ───────────────────────────────────────────────────────────

  /** `maxTurns` bounds the requests when it is set. `tools(t, k)` is what call k
      of turn t comes to. */
  datatype Config = Config(maxTurns: Option<nat>, tools: (nat, nat) -> ToolOutcome)

  function Opened(history: seq<(Role, string)>, userMessage: string): Loop {
    Loop(seq(|history|, i requires 0 <= i < |history| => Message(history[i].0, Plain(history[i].1)))
         + (if userMessage != "" then [Message(User, Plain(userMessage))] else []), 0, [], None)
  }

  predicate HandsOff(cfg: Config, turn: nat, calls: nat) {
    exists k :: 0 <= k < calls && cfg.tools(turn, k) == HandOff
  }

  /** The results of a turn's calls, in the order called. */
  function Results(cfg: Config, turn: nat, uses: seq<Block>): (blocks: seq<Block>)
    requires forall b :: b in uses ==> b.ToolUse?
    ensures |blocks| == |uses|
    ensures forall k :: 0 <= k < |uses| ==> blocks[k].ToolResult? && blocks[k].id == uses[k].id && !blocks[k].marked
  {
    seq(|uses|, k requires 0 <= k < |uses| =>
      ToolResult(uses[k].id, if cfg.tools(turn, k).Result? then cfg.tools(turn, k).content else None, false))
  }

  function MaybeCompacted(messages: seq<Message>, inputTokens: nat): (out: seq<Message>)
    requires messages != []
    ensures |out| == |messages|
  {
    if inputTokens > COMPACT_TRIGGER_TOKENS
    then CompactedConversation(messages, (inputTokens - COMPACT_TARGET_TOKENS) * 4)
    else messages
  }

  /** The turn's calls, answered in one user turn. */
  function ToolsAnswered(cfg: Config, heard: Loop, turn: nat, r: Response): Loop {
    var uses := ToolUses(r.blocks);
    var grown := heard.messages + [Message(Assistant, Blocks(r.blocks)), Message(User, Blocks(Results(cfg, turn, uses)))];
    heard.(recoveries := 0, messages := MaybeCompacted(grown, r.inputTokens))
  }

  function Exchanged(l: Loop, recoveries: nat, said: string, asked: string): Loop {
    l.(recoveries := recoveries, messages := l.messages + [Message(Assistant, Plain(said)), Message(User, Plain(asked))])
  }

  /** One pass of the loop, given the response its request gets. */
  function Turn(cfg: Config, l: Loop, r: Response): Loop {
    var turn := |l.sent|;
    if cfg.maxTurns.Some? && turn >= cfg.maxTurns.value then l.(end := Some(TurnBudgetSpent))
    else
      var heard := l.(sent := l.sent + [l.messages]);
      var texts, uses := Texts(r.blocks), ToolUses(r.blocks);
      if r.stop == ToolUseStop && uses != [] then
        if HandsOff(cfg, turn, |uses|) then heard.(recoveries := 0, end := Some(HandedOff))
        else ToolsAnswered(cfg, heard, turn, r)
      else if r.stop == MaxTokens && texts != [] then Exchanged(heard, 0, Joined(texts), CONTINUE)
      else if r.stop == MaxTokens then
        if l.recoveries + 1 > MAX_TRUNCATION_RECOVERIES then heard.(recoveries := l.recoveries + 1, end := Some(TruncatedTooOften))
        else Exchanged(heard, l.recoveries + 1, CUT_OFF, SMALLER_STEP)
      else heard.(end := Some(Returned(texts)))
  }

  /** The loop over the responses it gets, until it ends or none is left. */
  function Run(cfg: Config, l: Loop, responses: seq<Response>): Loop
    decreases |responses|
  {
    if l.end.Some? || responses == [] then l else Run(cfg, Turn(cfg, l, responses[0]), responses[1..])
  }

  /** The loop as the client runs it, its variables the fields of `l`. */
  method AnthropicToolLoop(cfg: Config, history: seq<(Role, string)>, userMessage: string, responses: seq<Response>) returns (l: Loop)
    ensures l == Run(cfg, Opened(history, userMessage), responses)
  {
    l := Opened(history, userMessage);
    var turn := 0;
    while turn < |responses| && l.end.None?
      invariant 0 <= turn <= |responses|
      invariant Run(cfg, Opened(history, userMessage), responses) == Run(cfg, l, responses[turn..])
      decreases |responses| - turn
    {
      assert responses[turn..][1..] == responses[turn + 1..];
      l := TakeTurn(cfg, l, responses[turn]);
      turn := turn + 1;
    }
  }

  method TakeTurn(cfg: Config, before: Loop, r: Response) returns (l: Loop)
    ensures l == Turn(cfg, before, r)
  {
    l := before;
    var turn := |l.sent|;
    if cfg.maxTurns.Some? && turn >= cfg.maxTurns.value {
      return l.(end := Some(TurnBudgetSpent));
    }
    l := l.(sent := l.sent + [l.messages]);
    var texts, uses := Texts(r.blocks), ToolUses(r.blocks);
    if r.stop == ToolUseStop && uses != [] {
      l := RunTools(cfg, l, turn, r);
    } else if r.stop == MaxTokens && texts != [] {
      l := Exchanged(l, 0, Joined(texts), CONTINUE);
    } else if r.stop == MaxTokens {
      var recoveries := l.recoveries + 1;
      if recoveries > MAX_TRUNCATION_RECOVERIES {
        return l.(recoveries := recoveries, end := Some(TruncatedTooOften));
      }
      l := Exchanged(l, recoveries, CUT_OFF, SMALLER_STEP);
    } else {
      return l.(end := Some(Returned(texts)));
    }
  }

  /** Run a turn's calls, answer them, and compact when the run is large. */
  method RunTools(cfg: Config, heard: Loop, turn: nat, r: Response) returns (l: Loop)
    ensures l == if HandsOff(cfg, turn, |ToolUses(r.blocks)|) then heard.(recoveries := 0, end := Some(HandedOff))
                 else ToolsAnswered(cfg, heard, turn, r)
  {
    var uses := ToolUses(r.blocks);
    var results: seq<Block> := [];
    for k := 0 to |uses|
      invariant |results| == k
      invariant forall i :: 0 <= i < k ==> cfg.tools(turn, i) != HandOff && results[i] == Results(cfg, turn, uses)[i]
    {
      var outcome := cfg.tools(turn, k);
      if outcome == HandOff {
        return heard.(recoveries := 0, end := Some(HandedOff));
      }
      results := results + [ToolResult(uses[k].id, outcome.content, false)];
    }
    assert results == Results(cfg, turn, uses);
    var messages := heard.messages + [Message(Assistant, Blocks(r.blocks)), Message(User, Blocks(results))];
    if r.inputTokens > COMPACT_TRIGGER_TOKENS {
      messages := Compact(messages, (r.inputTokens - COMPACT_TARGET_TOKENS) * 4);
    }
    l := heard.(recoveries := 0, messages := messages);
  }
}
