/** What every run of the tool loop keeps, whatever it is answered. */
module ToolLoopLaws {
  import opened Options
  import opened Sequences
  import opened Conversation
  import opened ToolLoop

  // ── The run, told by its responses ─────────────────────────────────────

  predicate RunsTools(r: Response) {
    r.stop == ToolUseStop && ToolUses(r.blocks) != []
  }

  /** The answer was cut off before it said or called anything. */
  predicate TextFree(r: Response) {
    !RunsTools(r) && r.stop == MaxTokens && Texts(r.blocks) == []
  }

  /** How many text-free truncations in a row end the responses so far. */
  function Trailing(responses: seq<Response>): nat {
    if responses == [] || !TextFree(responses[|responses| - 1]) then 0
    else 1 + Trailing(responses[..|responses| - 1])
  }

  /** What a turn that goes on adds to the conversation. */
  function Added(cfg: Config, turn: nat, r: Response): (more: seq<Message>)
    ensures |more| == 2
  {
    if RunsTools(r) then
      [Message(Assistant, Blocks(r.blocks)), Message(User, Blocks(Results(cfg, turn, ToolUses(r.blocks))))]
    else if Texts(r.blocks) != [] then [Message(Assistant, Plain(Joined(Texts(r.blocks)))), Message(User, Plain(CONTINUE))]
    else [Message(Assistant, Plain(CUT_OFF)), Message(User, Plain(SMALLER_STEP))]
  }

  /** The next request's conversation: what was added, then compacted if a tool turn was large. */
  function Next(cfg: Config, turn: nat, before: seq<Message>, r: Response): seq<Message> {
    var grown := before + Added(cfg, turn, r);
    if RunsTools(r) then MaybeCompacted(grown, r.inputTokens) else grown
  }

  /** A response the loop goes on after: calls none of which hands the run off,
      or an answer cut off. */
  ghost predicate GoesOn(cfg: Config, turn: nat, r: Response) {
    if RunsTools(r) then !HandsOff(cfg, turn, |ToolUses(r.blocks)|) else r.stop == MaxTokens
  }

  /** Request k + 1 carries what request k and its response lead to. */
  ghost predicate Succeeds(cfg: Config, responses: seq<Response>, sent: seq<seq<Message>>, k: nat)
    requires k + 1 < |sent| && k < |responses|
  {
    sent[k + 1] == Next(cfg, k, sent[k], responses[k])
  }

  /** Each request's conversation, told by the responses before it. */
  ghost predicate ToldSent(cfg: Config, start: seq<Message>, responses: seq<Response>, l: Loop) {
    var n := |l.sent|;
    && n <= |responses|
    && (n > 0 ==> l.sent[0] == start)
    && (forall k {:trigger Succeeds(cfg, responses, l.sent, k)} :: 0 <= k < n - 1 ==> Succeeds(cfg, responses, l.sent, k))
    && (l.end.None? ==> l.messages == (if n == 0 then start else Next(cfg, n - 1, l.sent[n - 1], responses[n - 1])))
    && (cfg.maxTurns.Some? ==> n <= cfg.maxTurns.value)
  }

  /** How often the loop has recovered in a row, and what it may end with. */
  ghost predicate ToldEnd(cfg: Config, responses: seq<Response>, l: Loop) {
    var n := |l.sent|;
    && n <= |responses|
    && (forall k :: 0 <= k < n ==> Trailing(responses[..k]) <= MAX_TRUNCATION_RECOVERIES)
    && match l.end
       case None => l.recoveries == Trailing(responses[..n]) <= MAX_TRUNCATION_RECOVERIES
       case Some(TruncatedTooOften) => Trailing(responses[..n]) == MAX_TRUNCATION_RECOVERIES + 1
       case Some(Returned(texts)) => n > 0 && WholeAnswer(responses[n - 1]) && texts == Texts(responses[n - 1].blocks)
       case Some(HandedOff) => n > 0 && HandsOver(cfg, n - 1, responses[n - 1])
       case Some(TurnBudgetSpent) => n < |responses| && cfg.maxTurns == Some(n)
  }

  /** A whole answer: it runs no tool and was not cut off. */
  predicate WholeAnswer(r: Response) {
    !RunsTools(r) && r.stop != MaxTokens
  }

  ghost predicate HandsOver(cfg: Config, turn: nat, r: Response) {
    RunsTools(r) && HandsOff(cfg, turn, |ToolUses(r.blocks)|)
  }

  /** Every turn but one that ended the run goes on. */
  ghost predicate ToldTurns(cfg: Config, responses: seq<Response>, l: Loop) {
    var n := |l.sent|;
    && n <= |responses|
    && (forall k :: 0 <= k < n - 1 ==> GoesOn(cfg, k, responses[k]))
    && (l.end.None? && n > 0 ==> GoesOn(cfg, n - 1, responses[n - 1]))
  }

  ghost predicate Told(cfg: Config, start: seq<Message>, responses: seq<Response>, l: Loop) {
    ToldSent(cfg, start, responses, l) && ToldEnd(cfg, responses, l) && ToldTurns(cfg, responses, l)
  }

  /** What a turn does to the conversation: nothing when the budget is spent,
      else one request, and where the loop goes on, what `Next` says. */
  ghost predicate Sends(cfg: Config, l: Loop, r: Response, t: Loop) {
    if t.end == Some(TurnBudgetSpent) then t == l.(end := t.end)
    else
      && t.sent == l.sent + [l.messages]
      && (cfg.maxTurns.Some? ==> |l.sent| < cfg.maxTurns.value)
      && (t.end.None? ==> t.messages == Next(cfg, |l.sent|, l.messages, r))
  }

  lemma TurnSends(cfg: Config, l: Loop, r: Response)
    requires l.end.None?
    ensures Sends(cfg, l, r, Turn(cfg, l, r))
  {
  }

  lemma SendsKeepsToldSent(cfg: Config, start: seq<Message>, responses: seq<Response>, l: Loop, t: Loop)
    requires ToldSent(cfg, start, responses, l) && l.end.None? && |l.sent| < |responses|
    requires Sends(cfg, l, responses[|l.sent|], t)
    ensures ToldSent(cfg, start, responses, t)
  {
    var n := |l.sent|;
    if t.end != Some(TurnBudgetSpent) {
      forall k | 0 <= k < n
        ensures Succeeds(cfg, responses, t.sent, k)
      {
        assert t.sent[k] == l.sent[k];
        if k < n - 1 {
          assert Succeeds(cfg, responses, l.sent, k) && t.sent[k + 1] == l.sent[k + 1];
        } else {
          assert t.sent[n] == l.messages;
        }
      }
    }
  }

  /** What a turn does to the count of recoveries, and what it may end with. */
  ghost predicate Counts(cfg: Config, l: Loop, r: Response, t: Loop) {
    && |t.sent| == |l.sent| + (if t.end == Some(TurnBudgetSpent) then 0 else 1)
    && match t.end
       case None => t.recoveries == (if TextFree(r) then l.recoveries + 1 else 0) && t.recoveries <= MAX_TRUNCATION_RECOVERIES
       case Some(TruncatedTooOften) => TextFree(r) && l.recoveries + 1 > MAX_TRUNCATION_RECOVERIES
       case Some(Returned(texts)) => WholeAnswer(r) && texts == Texts(r.blocks)
       case Some(HandedOff) => HandsOver(cfg, |l.sent|, r)
       case Some(TurnBudgetSpent) => cfg.maxTurns.Some? && |l.sent| >= cfg.maxTurns.value
  }

  lemma TurnCounts(cfg: Config, l: Loop, r: Response)
    requires l.end.None?
    ensures Counts(cfg, l, r, Turn(cfg, l, r))
  {
  }

  lemma TurnGoesOn(cfg: Config, l: Loop, r: Response)
    requires l.end.None?
    ensures Turn(cfg, l, r).end.None? ==> GoesOn(cfg, |l.sent|, r)
  {
  }

  lemma CountsKeepsToldEnd(cfg: Config, responses: seq<Response>, l: Loop, t: Loop)
    requires ToldEnd(cfg, responses, l) && l.end.None? && |l.sent| < |responses|
    requires cfg.maxTurns.Some? ==> |l.sent| <= cfg.maxTurns.value
    requires Counts(cfg, l, responses[|l.sent|], t)
    ensures ToldEnd(cfg, responses, t)
  {
    var n := |l.sent|;
    TrailingGrows(responses, n);
    if t.end != Some(TurnBudgetSpent) {
      assert |t.sent| == n + 1;
      forall k | 0 <= k < n + 1
        ensures Trailing(responses[..k]) <= MAX_TRUNCATION_RECOVERIES
      {
      }
    }
  }

  lemma TrailingGrows(responses: seq<Response>, n: nat)
    requires n < |responses|
    ensures Trailing(responses[..n + 1]) == if TextFree(responses[n]) then 1 + Trailing(responses[..n]) else 0
  {
    assert responses[..n + 1][..n] == responses[..n];
  }

  lemma GoingOnKeepsToldTurns(cfg: Config, responses: seq<Response>, l: Loop, t: Loop)
    requires ToldTurns(cfg, responses, l) && l.end.None? && |l.sent| < |responses|
    requires |t.sent| == |l.sent| + (if t.end == Some(TurnBudgetSpent) then 0 else 1)
    requires t.end.None? ==> GoesOn(cfg, |l.sent|, responses[|l.sent|])
    ensures ToldTurns(cfg, responses, t)
  {
  }

  lemma AdvancingKeepsTold(cfg: Config, start: seq<Message>, responses: seq<Response>, l: Loop, t: Loop)
    requires Told(cfg, start, responses, l) && l.end.None? && |l.sent| < |responses|
    requires Sends(cfg, l, responses[|l.sent|], t) && Counts(cfg, l, responses[|l.sent|], t)
    requires t.end.None? ==> GoesOn(cfg, |l.sent|, responses[|l.sent|])
    ensures Told(cfg, start, responses, t)
  {
    SendsKeepsToldSent(cfg, start, responses, l, t);
    CountsKeepsToldEnd(cfg, responses, l, t);
    GoingOnKeepsToldTurns(cfg, responses, l, t);
  }

  lemma TurnKeepsTold(cfg: Config, start: seq<Message>, responses: seq<Response>, l: Loop)
    requires Told(cfg, start, responses, l) && l.end.None? && |l.sent| < |responses|
    ensures Told(cfg, start, responses, Turn(cfg, l, responses[|l.sent|]))
  {
    var r := responses[|l.sent|];
    TurnSends(cfg, l, r);
    TurnCounts(cfg, l, r);
    TurnGoesOn(cfg, l, r);
    AdvancingKeepsTold(cfg, start, responses, l, Turn(cfg, l, r));
  }

  lemma RunUnfolds(cfg: Config, responses: seq<Response>, l: Loop)
    requires l.end.None? && |l.sent| < |responses|
    ensures var t := Turn(cfg, l, responses[|l.sent|]);
      Run(cfg, l, responses[|l.sent|..]) == if t.end.Some? then t else Run(cfg, t, responses[|t.sent|..])
    ensures var t := Turn(cfg, l, responses[|l.sent|]);
      t.end.None? ==> |t.sent| == |l.sent| + 1
  {
    TurnSends(cfg, l, responses[|l.sent|]);
    assert responses[|l.sent|..][1..] == responses[|l.sent| + 1..];
  }

  lemma {:induction false} RunKeepsTold(cfg: Config, start: seq<Message>, responses: seq<Response>, l: Loop)
    requires Told(cfg, start, responses, l)
    ensures Told(cfg, start, responses, Run(cfg, l, responses[|l.sent|..]))
    ensures Run(cfg, l, responses[|l.sent|..]).end.None? ==> |Run(cfg, l, responses[|l.sent|..]).sent| == |responses|
    decreases |responses| - |l.sent|
  {
    if l.end.None? && |l.sent| < |responses| {
      TurnKeepsTold(cfg, start, responses, l);
      RunUnfolds(cfg, responses, l);
      var t := Turn(cfg, l, responses[|l.sent|]);
      if t.end.None? {
        RunKeepsTold(cfg, start, responses, t);
      }
    }
  }

  lemma RunIsTold(cfg: Config, history: seq<(Role, string)>, userMessage: string, responses: seq<Response>)
    ensures var start := Opened(history, userMessage);
      Told(cfg, start.messages, responses, Run(cfg, start, responses))
      && (Run(cfg, start, responses).end.None? ==> |Run(cfg, start, responses).sent| == |responses|)
  {
    var start := Opened(history, userMessage);
    assert responses[0..] == responses;
    RunKeepsTold(cfg, start.messages, responses, start);
  }

  /** A truncated turn is never returned: what the loop returns is the text of a
      last turn that was not cut off. */
  lemma ReturnsOnlyWholeTurns(cfg: Config, history: seq<(Role, string)>, userMessage: string, responses: seq<Response>)
    ensures var l := Run(cfg, Opened(history, userMessage), responses);
      l.end.Some? && l.end.value.Returned? ==>
        0 < |l.sent| <= |responses| && responses[|l.sent| - 1].stop != MaxTokens
        && l.end.value.texts == Texts(responses[|l.sent| - 1].blocks)
  {
    RunIsTold(cfg, history, userMessage, responses);
  }

  /** At most two text-free truncations in a row are recovered from: no request
      follows a third, and the third raises. The requests keep to `maxTurns`. */
  lemma RecoversTwiceInARow(cfg: Config, history: seq<(Role, string)>, userMessage: string, responses: seq<Response>)
    ensures var l := Run(cfg, Opened(history, userMessage), responses);
      && |l.sent| <= |responses|
      && (forall k :: 0 <= k < |l.sent| ==> Trailing(responses[..k]) <= MAX_TRUNCATION_RECOVERIES)
      && (l.end.None? ==> Trailing(responses[..|l.sent|]) <= MAX_TRUNCATION_RECOVERIES)
      && (l.end == Some(TruncatedTooOften) ==> Trailing(responses[..|l.sent|]) == MAX_TRUNCATION_RECOVERIES + 1)
      && (cfg.maxTurns.Some? ==> |l.sent| <= cfg.maxTurns.value)
  {
    RunIsTold(cfg, history, userMessage, responses);
  }

  // ── Compaction ─────────────────────────────────────────────────────────

  /** A block later on: itself, or a result whose long text was replaced. */
  predicate Trimmed(a: Block, b: Block) {
    b == a || (Compactible(a) && b == a.(content := Some(COMPACTED)))
  }

  ghost predicate TrimmedMessage(a: Message, b: Message) {
    && a.role == b.role
    && (a.content.Plain? ==> b.content == a.content)
    && (a.content.Blocks? ==>
          b.content.Blocks? && |a.content.blocks| == |b.content.blocks|
          && forall j :: 0 <= j < |a.content.blocks| ==> Trimmed(a.content.blocks[j], b.content.blocks[j]))
  }

  /** A conversation later on: every message still there, some results trimmed. */
  ghost predicate TrimmedTo(earlier: seq<Message>, later: seq<Message>) {
    |earlier| <= |later| && forall i :: 0 <= i < |earlier| ==> TrimmedMessage(earlier[i], later[i])
  }

  /** A block is replaced once at most: what replaced it is too short to be
      replaced again, so a trimmed block trimmed later is that block still. */
  lemma TrimmedOnce(a: Block, b: Block, c: Block)
    requires Trimmed(a, b) && Trimmed(b, c)
    ensures Trimmed(a, c) && (b != a ==> c == b)
  {
    assert |COMPACTED| <= 200;
  }

  lemma TrimmedToTransitive(a: seq<Message>, b: seq<Message>, c: seq<Message>)
    requires TrimmedTo(a, b) && TrimmedTo(b, c)
    ensures TrimmedTo(a, c)
  {
    forall i | 0 <= i < |a| ensures TrimmedMessage(a[i], c[i]) {
      assert TrimmedMessage(a[i], b[i]) && TrimmedMessage(b[i], c[i]);
      if a[i].content.Blocks? {
        forall j | 0 <= j < |a[i].content.blocks| ensures Trimmed(a[i].content.blocks[j], c[i].content.blocks[j]) {
          TrimmedOnce(a[i].content.blocks[j], b[i].content.blocks[j], c[i].content.blocks[j]);
        }
      }
    }
  }

  /** Compaction replaces only result text, never in the last message, and it
      stops at the first message boundary where enough is recovered. */
  lemma CompactionTrimsOldResults(messages: seq<Message>, target: nat)
    requires messages != []
    ensures var out := CompactedConversation(messages, target);
      && TrimmedTo(messages, out) && |out| == |messages|
      && out[|messages| - 1] == messages[|messages| - 1]
      && forall i :: 0 <= i < |messages| && out[i] != messages[i] ==>
           messages[i].role == User && RecoverableUpTo(messages, i) < target
  {
  }

  /** The next conversation is what was added to the last, trimmed in place. */
  lemma NextTrimsGrown(cfg: Config, turn: nat, before: seq<Message>, r: Response)
    ensures var grown, next := before + Added(cfg, turn, r), Next(cfg, turn, before, r);
      TrimmedTo(grown, next) && |next| == |grown| == |before| + 2 && next[|before| + 1] == Added(cfg, turn, r)[1]
  {
    var grown := before + Added(cfg, turn, r);
    if r.inputTokens > COMPACT_TRIGGER_TOKENS {
      CompactionTrimsOldResults(grown, (r.inputTokens - COMPACT_TARGET_TOKENS) * 4);
    }
  }

  lemma NextTrims(cfg: Config, turn: nat, before: seq<Message>, r: Response)
    ensures TrimmedTo(before, Next(cfg, turn, before, r))
  {
    var grown := before + Added(cfg, turn, r);
    assert grown[..|before|] == before;
    NextTrimsGrown(cfg, turn, before, r);
    TrimmedToTransitive(before, grown, Next(cfg, turn, before, r));
  }

  lemma {:induction false} SentTrims(cfg: Config, start: seq<Message>, responses: seq<Response>, l: Loop, a: nat, b: nat)
    requires ToldSent(cfg, start, responses, l) && a <= b < |l.sent|
    ensures TrimmedTo(l.sent[a], l.sent[b])
    decreases b - a
  {
    if a < b {
      SentTrims(cfg, start, responses, l, a, b - 1);
      assert Succeeds(cfg, responses, l.sent, b - 1);
      NextTrims(cfg, b - 1, l.sent[b - 1], responses[b - 1]);
      TrimmedToTransitive(l.sent[a], l.sent[b - 1], l.sent[b]);
    }
  }

  /** Between any two requests of a run the earlier conversation is kept: nothing
      is dropped or reordered, and only result text ever changes, once. */
  lemma HistoryIsKeptButForResultText(cfg: Config, history: seq<(Role, string)>, userMessage: string, responses: seq<Response>, a: nat, b: nat)
    requires a <= b < |Run(cfg, Opened(history, userMessage), responses).sent|
    ensures var sent := Run(cfg, Opened(history, userMessage), responses).sent;
      TrimmedTo(sent[a], sent[b])
  {
    RunIsTold(cfg, history, userMessage, responses);
    var start := Opened(history, userMessage);
    SentTrims(cfg, start.messages, responses, Run(cfg, start, responses), a, b);
  }

  // ── Pairing ────────────────────────────────────────────────────────────

  ghost predicate AllNamed(declared: set<string>, r: Response) {
    forall b :: b in r.blocks && b.ToolUse? ==> b.name in declared
  }

  predicate DistinctCalls(declared: set<string>, r: Response) {
    RunsTools(r) ==> NoRepeats(CallIds(r.blocks, declared))
  }

  function IdsOf(uses: seq<Block>): seq<string>
    requires forall b :: b in uses ==> b.ToolUse?
  {
    if uses == [] then [] else [uses[0].id] + IdsOf(uses[1..])
  }

  lemma {:induction false} UsesAreCalls(blocks: seq<Block>, declared: set<string>)
    requires forall b :: b in blocks && b.ToolUse? ==> b.name in declared
    ensures IdsOf(ToolUses(blocks)) == CallIds(blocks, declared)
  {
    if blocks != [] {
      UsesAreCalls(blocks[1..], declared);
      var rest := ToolUses(blocks[1..]);
      if blocks[0].ToolUse? {
        assert blocks[0] in blocks;
        assert ToolUses(blocks) == [blocks[0]] + rest && ToolUses(blocks)[1..] == rest;
      } else {
        assert ToolUses(blocks) == rest && CallIds(blocks, declared) == CallIds(blocks[1..], declared);
      }
    }
  }

  lemma {:induction false} ResultsAnswerUses(blocks: seq<Block>, uses: seq<Block>)
    requires |blocks| == |uses| && forall b :: b in uses ==> b.ToolUse?
    requires forall k :: 0 <= k < |uses| ==> blocks[k].ToolResult? && blocks[k].id == uses[k].id
    ensures ResultIds(blocks) == IdsOf(uses)
  {
    if uses != [] {
      ResultsAnswerUses(blocks[1..], uses[1..]);
    }
  }

  lemma AddedPairedIff(cfg: Config, turn: nat, r: Response, declared: set<string>)
    requires AllNamed(declared, r)
    ensures Paired(Added(cfg, turn, r), declared) <==> DistinctCalls(declared, r)
    ensures Calls(Added(cfg, turn, r)[1], declared) == []
  {
    var more := Added(cfg, turn, r);
    assert Paired(more, declared) <==> PairedAt(more, declared, 0);
    if RunsTools(r) {
      var uses, calls := ToolUses(r.blocks), CallIds(r.blocks, declared);
      UsesAreCalls(r.blocks, declared);
      ResultsAnswerUses(Results(cfg, turn, uses), uses);
      assert Calls(more[0], declared) == calls;
      assert forall id :: Answers(more[1], id) == Count(calls, id);
      NoRepeatsCounts(calls);
    }
  }

  lemma {:induction false} TrimmedResultIds(a: seq<Block>, b: seq<Block>)
    requires |a| == |b| && forall j :: 0 <= j < |a| ==> Trimmed(a[j], b[j])
    ensures ResultIds(a) == ResultIds(b)
    ensures forall declared :: CallIds(a, declared) == CallIds(b, declared)
  {
    if a != [] {
      TrimmedResultIds(a[1..], b[1..]);
    }
  }

  lemma TrimmedSameIds(a: Message, b: Message, declared: set<string>)
    requires TrimmedMessage(a, b)
    ensures Calls(a, declared) == Calls(b, declared)
    ensures forall id :: Answers(a, id) == Answers(b, id)
  {
    if a.content.Blocks? {
      TrimmedResultIds(a.content.blocks, b.content.blocks);
    }
  }

  /** Trimming a conversation in place keeps its pairing as it was. */
  lemma TrimmingKeepsPairing(a: seq<Message>, b: seq<Message>, declared: set<string>)
    requires TrimmedTo(a, b) && |a| == |b|
    ensures Paired(a, declared) <==> Paired(b, declared)
  {
    forall i | 0 <= i < |a| ensures PairedAt(a, declared, i) <==> PairedAt(b, declared, i) {
      TrimmedSameIds(a[i], b[i], declared);
      if i + 1 < |a| {
        TrimmedSameIds(a[i + 1], b[i + 1], declared);
      }
    }
  }

  ghost predicate EndsWithoutCalls(messages: seq<Message>, declared: set<string>) {
    messages != [] ==> Calls(messages[|messages| - 1], declared) == []
  }

  lemma NextPairedIff(cfg: Config, turn: nat, before: seq<Message>, r: Response, declared: set<string>)
    requires AllNamed(declared, r) && EndsWithoutCalls(before, declared)
    ensures Paired(Next(cfg, turn, before, r), declared) <==> Paired(before, declared) && DistinctCalls(declared, r)
    ensures EndsWithoutCalls(Next(cfg, turn, before, r), declared)
  {
    AddedPairedIff(cfg, turn, r, declared);
    PairedGrows(before, Added(cfg, turn, r), declared);
    NextTrimsGrown(cfg, turn, before, r);
    TrimmingKeepsPairing(before + Added(cfg, turn, r), Next(cfg, turn, before, r), declared);
  }

  lemma OnePairedIff(cfg: Config, turn: nat, before: seq<Message>, after: seq<Message>, r: Response, declared: set<string>)
    requires AllNamed(declared, r) && EndsWithoutCalls(before, declared) && after == Next(cfg, turn, before, r)
    ensures Paired(after, declared) <==> Paired(before, declared) && DistinctCalls(declared, r)
    ensures EndsWithoutCalls(after, declared)
  {
    NextPairedIff(cfg, turn, before, r, declared);
  }

  lemma {:induction false} SentPairedIff(cfg: Config, start: seq<Message>, responses: seq<Response>, l: Loop, declared: set<string>, k: nat)
    requires ToldSent(cfg, start, responses, l) && k < |l.sent|
    requires forall i :: 0 <= i < |responses| ==> AllNamed(declared, responses[i])
    requires Paired(start, declared) && EndsWithoutCalls(start, declared)
    ensures Paired(l.sent[k], declared) <==> forall i :: 0 <= i < k ==> DistinctCalls(declared, responses[i])
    ensures EndsWithoutCalls(l.sent[k], declared)
  {
    if k > 0 {
      SentPairedIff(cfg, start, responses, l, declared, k - 1);
      var before, after := l.sent[k - 1], l.sent[k];
      assert Succeeds(cfg, responses, l.sent, k - 1);
      OnePairedIff(cfg, k - 1, before, after, responses[k - 1], declared);
      assert (forall i :: 0 <= i < k ==> DistinctCalls(declared, responses[i]))
        <==> (forall i :: 0 <= i < k - 1 ==> DistinctCalls(declared, responses[i])) && DistinctCalls(declared, responses[k - 1]);
    }
  }

  /** A request's conversation pairs every tool call with exactly one same-id
      result in the next message, if and only if no tool turn before it gave two
      calls one id. Compaction never unpairs. */
  lemma RequestsArePairedIff(cfg: Config, history: seq<(Role, string)>, userMessage: string, responses: seq<Response>, declared: set<string>, k: nat)
    requires k < |Run(cfg, Opened(history, userMessage), responses).sent|
    requires forall i :: 0 <= i < |responses| ==> AllNamed(declared, responses[i])
    ensures |Run(cfg, Opened(history, userMessage), responses).sent| <= |responses|
    ensures Paired(Run(cfg, Opened(history, userMessage), responses).sent[k], declared)
      <==> forall i :: 0 <= i < k ==> DistinctCalls(declared, responses[i])
  {
    var start := Opened(history, userMessage);
    RunIsTold(cfg, history, userMessage, responses);
    assert forall i :: 0 <= i < |start.messages| ==> Calls(start.messages[i], declared) == [];
    SentPairedIff(cfg, start.messages, responses, Run(cfg, start, responses), declared, k);
  }

  // ── The cache marker ───────────────────────────────────────────────────

  lemma TrimmingKeepsUnmarked(a: seq<Message>, b: seq<Message>)
    requires TrimmedTo(a, b) && |a| == |b| && Unmarked(a)
    ensures Unmarked(b)
  {
    forall i, x | 0 <= i < |b| && x in BlocksOf(b[i]) ensures !Marked(x) {
      assert TrimmedMessage(a[i], b[i]);
      var j :| 0 <= j < |BlocksOf(b[i])| && BlocksOf(b[i])[j] == x;
      var was := a[i].content.blocks[j];
      assert Trimmed(was, x);
      assert was in BlocksOf(a[i]) && !Marked(was);
    }
  }

  lemma AddedUnmarked(cfg: Config, turn: nat, before: seq<Message>, r: Response)
    requires Unmarked(before) && forall b :: b in r.blocks ==> !Marked(b)
    ensures Unmarked(before + Added(cfg, turn, r))
  {
    var more := Added(cfg, turn, r);
    forall i, b | 0 <= i < |before + more| && b in BlocksOf((before + more)[i]) ensures !Marked(b) {
      assert (before + more)[i] == if i < |before| then before[i] else more[i - |before|];
    }
  }

  lemma NextUnmarked(cfg: Config, turn: nat, before: seq<Message>, r: Response)
    requires Unmarked(before) && forall b :: b in r.blocks ==> !Marked(b)
    ensures Unmarked(Next(cfg, turn, before, r))
  {
    AddedUnmarked(cfg, turn, before, r);
    NextTrimsGrown(cfg, turn, before, r);
    TrimmingKeepsUnmarked(before + Added(cfg, turn, r), Next(cfg, turn, before, r));
  }

  /** A request can always be viewed: its last message is never an empty one. */
  ghost predicate Viewable(messages: seq<Message>) {
    WithFinalCacheBreakpoint(messages).Some?
  }

  lemma {:induction false} SentUnmarked(cfg: Config, start: seq<Message>, responses: seq<Response>, l: Loop, k: nat)
    requires ToldSent(cfg, start, responses, l) && k < |l.sent|
    requires forall i, b :: 0 <= i < |responses| && b in responses[i].blocks ==> !Marked(b)
    requires Unmarked(start) && Viewable(start)
    ensures Unmarked(l.sent[k]) && Viewable(l.sent[k])
  {
    if k > 0 {
      SentUnmarked(cfg, start, responses, l, k - 1);
      assert Succeeds(cfg, responses, l.sent, k - 1);
      NextUnmarked(cfg, k - 1, l.sent[k - 1], responses[k - 1]);
      NextTrimsGrown(cfg, k - 1, l.sent[k - 1], responses[k - 1]);
    }
  }

  /** The stored messages never hold a marker, and each request's view carries at
      most one: an old marker is never left behind by a growing conversation. */
  lemma EachViewCarriesOneMarkerAtMost(cfg: Config, history: seq<(Role, string)>, userMessage: string, responses: seq<Response>, k: nat)
    requires forall i, b :: 0 <= i < |responses| && b in responses[i].blocks ==> !Marked(b)
    requires k < |Run(cfg, Opened(history, userMessage), responses).sent|
    ensures var sent := Run(cfg, Opened(history, userMessage), responses).sent[k];
      Unmarked(sent) && WithFinalCacheBreakpoint(sent).Some? && Marks(WithFinalCacheBreakpoint(sent).value) <= 1
  {
    var start := Opened(history, userMessage);
    RunIsTold(cfg, history, userMessage, responses);
    SentUnmarked(cfg, start.messages, responses, Run(cfg, start, responses), k);
    ViewMarksOnlyTheEnd(Run(cfg, start, responses).sent[k]);
  }
}
