/**
 What each turn of the tool loop leads to, told by the response's own blocks and
 the tools' outcomes: which call is told what, what a cut-off answer is followed
 by, and why a run ends.
 */
module ToolLoopAnswers {
  import opened Options
  import opened Sequences
  import opened Conversation
  import opened ToolLoop
  import opened ToolLoopLaws

  /** How many of the blocks are calls. */
  function CallsIn(blocks: seq<Block>): nat {
    if blocks == [] then 0 else (if blocks[0].ToolUse? then 1 else 0) + CallsIn(blocks[1..])
  }

  /** A tool turn: it stopped for its calls, and it has one. */
  predicate IsToolTurn(r: Response) {
    r.stop == ToolUseStop && CallsIn(r.blocks) > 0
  }

  lemma {:induction false} UsesAreCounted(blocks: seq<Block>)
    ensures |ToolUses(blocks)| == CallsIn(blocks)
  {
    if blocks != [] {
      UsesAreCounted(blocks[1..]);
    }
  }

  /** The call in place i is the turn's call number `CallsIn(blocks[..i])`. */
  lemma {:induction false} UseAt(blocks: seq<Block>, i: nat)
    requires i < |blocks| && blocks[i].ToolUse?
    ensures CallsIn(blocks[..i]) < |ToolUses(blocks)| && ToolUses(blocks)[CallsIn(blocks[..i])] == blocks[i]
  {
    if i > 0 {
      UseAt(blocks[1..], i - 1);
      assert blocks[..i][0] == blocks[0] && blocks[..i][1..] == blocks[1..][..i - 1];
    }
  }

  /** One result a call, in the order called, each what that call's own tool said. */
  ghost predicate TellsEachCall(cfg: Config, turn: nat, blocks: seq<Block>, told: Message) {
    && told.role == User && told.content.Blocks? && |told.content.blocks| == CallsIn(blocks)
    && forall i :: 0 <= i < |blocks| && blocks[i].ToolUse? ==> TellsCall(cfg, turn, blocks, told.content.blocks, i)
  }

  ghost predicate TellsCall(cfg: Config, turn: nat, blocks: seq<Block>, results: seq<Block>, i: nat)
    requires i < |blocks| && blocks[i].ToolUse?
  {
    var k := CallsIn(blocks[..i]);
    && k < |results| && cfg.tools(turn, k).Result?
    && results[k] == ToolResult(blocks[i].id, cfg.tools(turn, k).content, false)
  }

  lemma ResultsTell(cfg: Config, turn: nat, r: Response)
    requires RunsTools(r) && GoesOn(cfg, turn, r)
    ensures TellsEachCall(cfg, turn, r.blocks, Added(cfg, turn, r)[1])
  {
    var told := Added(cfg, turn, r)[1];
    UsesAreCounted(r.blocks);
    forall i | 0 <= i < |r.blocks| && r.blocks[i].ToolUse?
      ensures TellsCall(cfg, turn, r.blocks, told.content.blocks, i)
    {
      UseAt(r.blocks, i);
      assert cfg.tools(turn, CallsIn(r.blocks[..i])) != HandOff;
    }
  }

  /** After a tool turn that goes on the next request ends with the turn as the
      model said it, and one user message that tells each call what its own tool
      came to. */
  lemma EachCallIsToldItsResult(cfg: Config, history: seq<(Role, string)>, userMessage: string, responses: seq<Response>, j: nat)
    requires j + 1 < |Run(cfg, Opened(history, userMessage), responses).sent|
    ensures j < |responses|
    ensures IsToolTurn(responses[j]) ==>
      var before, after := Run(cfg, Opened(history, userMessage), responses).sent[j], Run(cfg, Opened(history, userMessage), responses).sent[j + 1];
      && |after| == |before| + 2
      && after[|before|] == Message(Assistant, Blocks(responses[j].blocks))
      && TellsEachCall(cfg, j, responses[j].blocks, after[|before| + 1])
  {
    var start := Opened(history, userMessage);
    var l := Run(cfg, start, responses);
    RunIsTold(cfg, history, userMessage, responses);
    UsesAreCounted(responses[j].blocks);
    assert Succeeds(cfg, responses, l.sent, j);
    if IsToolTurn(responses[j]) {
      ResultsTell(cfg, j, responses[j]);
      NextTrimsGrown(cfg, j, l.sent[j], responses[j]);
      SaidIsKept(cfg, j, l.sent[j], responses[j]);
    }
  }

  lemma SaidIsKept(cfg: Config, turn: nat, before: seq<Message>, r: Response)
    requires RunsTools(r)
    ensures |Next(cfg, turn, before, r)| == |before| + 2
    ensures Next(cfg, turn, before, r)[|before|] == Message(Assistant, Blocks(r.blocks))
  {
    NextTrimsGrown(cfg, turn, before, r);
  }

  /** The first request carries the history, each message under its role, and then
      the user's message unless it is empty. */
  lemma FirstRequestSays(cfg: Config, history: seq<(Role, string)>, userMessage: string, responses: seq<Response>)
    requires Run(cfg, Opened(history, userMessage), responses).sent != []
    ensures var first := Run(cfg, Opened(history, userMessage), responses).sent[0];
      && |first| == |history| + (if userMessage == "" then 0 else 1)
      && (forall i :: 0 <= i < |history| ==> first[i] == Message(history[i].0, Plain(history[i].1)))
      && (userMessage != "" ==> first[|history|] == Message(User, Plain(userMessage)))
  {
    RunIsTold(cfg, history, userMessage, responses);
  }

  // ── Compaction ─────────────────────────────────────────────────────────

  /** Every long result of a user message in the first `stop` is replaced, later
      messages stand as they were, and `stop` is the first place where replacing
      recovers `target` characters, or the last message. */
  ghost predicate CompactedTo(was: seq<Message>, now: seq<Message>, target: nat, stop: nat) {
    && |now| == |was| && stop < |was|
    && (forall i, b :: 0 <= i < stop && now[i].role == User && b in BlocksOf(now[i]) && b.ToolResult? && b.content.Some? ==>
          |b.content.value| <= 200)
    && (forall i :: stop <= i < |was| ==> now[i] == was[i])
    && (stop == |was| - 1 || RecoverableUpTo(was, stop) >= target)
    && (forall n :: 0 <= n < stop ==> RecoverableUpTo(was, n) < target)
  }

  ghost predicate IsCompacted(was: seq<Message>, now: seq<Message>, target: nat) {
    exists stop :: CompactedTo(was, now, target, stop)
  }

  lemma CompactionIsDone(was: seq<Message>, target: nat)
    requires was != []
    ensures IsCompacted(was, CompactedConversation(was, target), target)
  {
    var now, stop := CompactedConversation(was, target), CompactionStop(was, target, 0);
    forall i, b | 0 <= i < stop && now[i].role == User && b in BlocksOf(now[i]) && b.ToolResult? && b.content.Some?
      ensures |b.content.value| <= 200
    {
      assert now[i] == CompactedMessage(was[i]);
      var j :| 0 <= j < |BlocksOf(now[i])| && BlocksOf(now[i])[j] == b;
      assert b == Compacted(was[i].content.blocks[j]) && |COMPACTED| <= 200;
    }
    assert CompactedTo(was, now, target, stop);
  }

  /** A tool turn that reads more than 500 000 tokens leaves the conversation
      compacted, four characters sought for each token past 200 000; one that
      reads no more leaves every message as it was. */
  lemma LargeTurnsAreCompacted(cfg: Config, history: seq<(Role, string)>, userMessage: string, responses: seq<Response>, j: nat)
    requires j + 1 < |Run(cfg, Opened(history, userMessage), responses).sent|
    ensures j < |responses|
    ensures IsToolTurn(responses[j]) ==>
      var before, after := Run(cfg, Opened(history, userMessage), responses).sent[j], Run(cfg, Opened(history, userMessage), responses).sent[j + 1];
      exists told :: TellsEachCall(cfg, j, responses[j].blocks, told) && CompactedOrKept(responses[j], before, told, after)
  {
    var start := Opened(history, userMessage);
    var l := Run(cfg, start, responses);
    RunIsTold(cfg, history, userMessage, responses);
    var r := responses[j];
    UsesAreCounted(r.blocks);
    assert Succeeds(cfg, responses, l.sent, j);
    if IsToolTurn(r) {
      ResultsTell(cfg, j, r);
      NextIsCompactedOrKept(cfg, j, l.sent[j], r);
    }
  }

  ghost predicate CompactedOrKept(r: Response, before: seq<Message>, told: Message, after: seq<Message>) {
    var grown := before + [Message(Assistant, Blocks(r.blocks)), told];
    if r.inputTokens > 500_000 then IsCompacted(grown, after, (r.inputTokens - 200_000) * 4)
    else after == grown
  }

  lemma NextIsCompactedOrKept(cfg: Config, turn: nat, before: seq<Message>, r: Response)
    requires RunsTools(r)
    ensures CompactedOrKept(r, before, Added(cfg, turn, r)[1], Next(cfg, turn, before, r))
  {
    var told := Added(cfg, turn, r)[1];
    var grown := before + [Message(Assistant, Blocks(r.blocks)), told];
    assert grown == before + Added(cfg, turn, r);
    if r.inputTokens > 500_000 {
      CompactionIsDone(grown, (r.inputTokens - 200_000) * 4);
    }
  }

  // ── An answer cut off ──────────────────────────────────────────────────

  /** The text of a turn as a message is told it: its texts, a line each. */
  function Lines(blocks: seq<Block>): Option<string> {
    if blocks == [] then None
    else
      var front, last := Lines(blocks[..|blocks| - 1]), blocks[|blocks| - 1];
      if !last.TextBlock? then front
      else if front.None? then Some(last.text)
      else Some(front.value + "\n" + last.text)
  }

  lemma {:induction false} JoinedAppend(texts: seq<string>, text: string)
    ensures Joined(texts + [text]) == if texts == [] then text else Joined(texts) + "\n" + text
  {
    if |texts| > 0 {
      assert (texts + [text])[0] == texts[0] && (texts + [text])[1..] == texts[1..] + [text];
      JoinedAppend(texts[1..], text);
      if |texts| > 1 {
        var rest := Joined(texts[1..]);
        assert (texts[0] + "\n" + rest) + "\n" + text == texts[0] + "\n" + (rest + "\n" + text);
      }
    }
  }

  lemma {:induction false} TextsAppend(blocks: seq<Block>, b: Block)
    ensures Texts(blocks + [b]) == Texts(blocks) + if b.TextBlock? then [b.text] else []
  {
    if blocks == [] {
      assert blocks + [b] == [b] && [b][1..] == [];
    } else {
      var head, more := Texts([blocks[0]]), if b.TextBlock? then [b.text] else [];
      assert [blocks[0]][1..] == [] && head + [] == head;
      assert (blocks + [b])[0] == blocks[0] && (blocks + [b])[1..] == blocks[1..] + [b];
      TextsAppend(blocks[1..], b);
      Assoc(head, Texts(blocks[1..]), more);
    }
  }

  lemma {:induction false} JoinedAreLines(blocks: seq<Block>)
    ensures Lines(blocks) == if Texts(blocks) == [] then None else Some(Joined(Texts(blocks)))
  {
    if blocks != [] {
      var front, last := blocks[..|blocks| - 1], blocks[|blocks| - 1];
      assert blocks == front + [last];
      JoinedAreLines(front);
      TextsAppend(front, last);
      assert !last.TextBlock? ==> Texts(blocks) == Texts(front);
      if last.TextBlock? {
        JoinedAppend(Texts(front), last.text);
      }
    }
  }

  /** After an answer cut off the next request is this one, what was said (or that
      nothing was), and the user asking for the rest (or for a smaller step). */
  lemma CutOffIsContinued(cfg: Config, history: seq<(Role, string)>, userMessage: string, responses: seq<Response>, j: nat)
    requires j + 1 < |Run(cfg, Opened(history, userMessage), responses).sent|
    ensures j < |responses|
    ensures !IsToolTurn(responses[j]) ==>
      var before, after := Run(cfg, Opened(history, userMessage), responses).sent[j], Run(cfg, Opened(history, userMessage), responses).sent[j + 1];
      var said := Lines(responses[j].blocks);
      && responses[j].stop == MaxTokens
      && after == before + (if said.Some? then [Message(Assistant, Plain(said.value)), Message(User, Plain(CONTINUE))]
                            else [Message(Assistant, Plain(CUT_OFF)), Message(User, Plain(SMALLER_STEP))])
  {
    RunIsTold(cfg, history, userMessage, responses);
    UsesAreCounted(responses[j].blocks);
    JoinedAreLines(responses[j].blocks);
    assert GoesOn(cfg, j, responses[j]);
    assert Succeeds(cfg, responses, Run(cfg, Opened(history, userMessage), responses).sent, j);
  }

  // ── Why a run ends ─────────────────────────────────────────────────────

  function TextsIn(blocks: seq<Block>): nat {
    if blocks == [] then 0 else (if blocks[0].TextBlock? then 1 else 0) + TextsIn(blocks[1..])
  }

  /** The texts of these blocks, each in its place. */
  ghost predicate AreTheTexts(blocks: seq<Block>, texts: seq<string>) {
    && |texts| == TextsIn(blocks)
    && forall i :: 0 <= i < |blocks| && blocks[i].TextBlock? ==>
         TextsIn(blocks[..i]) < |texts| && texts[TextsIn(blocks[..i])] == blocks[i].text
  }

  lemma {:induction false} TextsAre(blocks: seq<Block>)
    ensures AreTheTexts(blocks, Texts(blocks))
  {
    if blocks != [] {
      TextsAre(blocks[1..]);
      forall i | 0 <= i < |blocks| && blocks[i].TextBlock?
        ensures TextsIn(blocks[..i]) < |Texts(blocks)| && Texts(blocks)[TextsIn(blocks[..i])] == blocks[i].text
      {
        if i > 0 {
          assert blocks[..i][0] == blocks[0] && blocks[..i][1..] == blocks[1..][..i - 1];
          assert blocks[1..][i - 1] == blocks[i];
        }
      }
    }
  }

  /** Some call of the turn hands the run to someone else. */
  ghost predicate HandedOffBy(cfg: Config, turn: nat, blocks: seq<Block>) {
    exists k :: 0 <= k < CallsIn(blocks) && cfg.tools(turn, k) == HandOff
  }

  ghost predicate Continues(cfg: Config, turn: nat, r: Response) {
    if IsToolTurn(r) then !HandedOffBy(cfg, turn, r.blocks) else r.stop == MaxTokens
  }

  /** How a run that made its last request for this response ends. */
  ghost predicate EndsBy(cfg: Config, turn: nat, r: Response, end: End) {
    match end
    case TurnBudgetSpent => false
    case HandedOff => IsToolTurn(r) && HandedOffBy(cfg, turn, r.blocks)
    case TruncatedTooOften => !IsToolTurn(r) && r.stop == MaxTokens && TextsIn(r.blocks) == 0
    case Returned(texts) => !IsToolTurn(r) && r.stop != MaxTokens && AreTheTexts(r.blocks, texts)
  }

  lemma ContinuesIffGoesOn(cfg: Config, turn: nat, r: Response)
    ensures Continues(cfg, turn, r) <==> GoesOn(cfg, turn, r)
    ensures IsToolTurn(r) <==> RunsTools(r)
    ensures HandsOff(cfg, turn, |ToolUses(r.blocks)|) <==> HandedOffBy(cfg, turn, r.blocks)
  {
    UsesAreCounted(r.blocks);
  }

  /** Why a run of these responses has ended, or not, and that it went on till then. */
  ghost predicate EndsRightly(cfg: Config, responses: seq<Response>, sent: nat, end: Option<End>)
    requires sent <= |responses|
  {
    && (forall j :: 0 <= j < sent - 1 ==> Continues(cfg, j, responses[j]))
    && match end
       case None => sent == |responses| && (sent > 0 ==> Continues(cfg, sent - 1, responses[sent - 1]))
       case Some(TurnBudgetSpent) => cfg.maxTurns == Some(sent) && sent < |responses|
       case Some(cause) => sent > 0 && EndsBy(cfg, sent - 1, responses[sent - 1], cause)
  }

  lemma ToldEndsRightly(cfg: Config, responses: seq<Response>, l: Loop)
    requires ToldEnd(cfg, responses, l) && ToldTurns(cfg, responses, l)
    requires l.end.None? ==> |l.sent| == |responses|
    ensures EndsRightly(cfg, responses, |l.sent|, l.end)
  {
    forall j | 0 <= j < |l.sent|
      ensures Continues(cfg, j, responses[j]) <==> GoesOn(cfg, j, responses[j])
    {
      ContinuesIffGoesOn(cfg, j, responses[j]);
    }
    if l.end.Some? && l.end != Some(TurnBudgetSpent) {
      EndIsOfTheLast(cfg, responses, l);
    }
  }

  /** Every turn but the last goes on, and the run ends as its last turn has it:
      by a call that hands off, by an answer cut off before any text (the third in
      a row), or by an answer that is whole. Only with `maxTurns` requests made
      does it end before the next; and it is left unended only where the vendor
      has said nothing more. */
  lemma EachEndHasItsCause(cfg: Config, history: seq<(Role, string)>, userMessage: string, responses: seq<Response>)
    ensures var l := Run(cfg, Opened(history, userMessage), responses);
      |l.sent| <= |responses| && EndsRightly(cfg, responses, |l.sent|, l.end)
  {
    RunIsTold(cfg, history, userMessage, responses);
    ToldEndsRightly(cfg, responses, Run(cfg, Opened(history, userMessage), responses));
  }

  lemma EndIsOfTheLast(cfg: Config, responses: seq<Response>, l: Loop)
    requires ToldEnd(cfg, responses, l) && l.end.Some? && l.end.value != TurnBudgetSpent
    ensures l.sent != [] && EndsBy(cfg, |l.sent| - 1, responses[|l.sent| - 1], l.end.value)
  {
    var n := |l.sent|;
    if l.end.value.TruncatedTooOften? {
      assert n > 0 && responses[..n][n - 1] == responses[n - 1];
    }
    var last := responses[n - 1];
    ContinuesIffGoesOn(cfg, n - 1, last);
    TextsAre(last.blocks);
  }
}
