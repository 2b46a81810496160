/**
 The chat loop: one reply, continued past the output ceiling, and asked again one
 effort lower, once, when a turn came back all thought.
 */
module ChatLoop {
  import opened Options
  import opened Conversation

  datatype Effort = Low | Medium | High | XHigh

  /** The next lower depth: none below the lowest, none where none was asked for. */
  function EffortBelow(effort: Option<Effort>): (lower: Option<Effort>)
    ensures lower.Some? <==> effort.Some? && effort.value != Low
    ensures lower.Some? ==> Rung(lower.value) + 1 == Rung(effort.value)
  {
    match effort
    case Some(XHigh) => Some(High)
    case Some(High) => Some(Medium)
    case Some(Medium) => Some(Low)
    case Some(Low) => None
    case None => None
  }

  function Rung(effort: Effort): nat {
    match effort
    case Low => 0
    case Medium => 1
    case High => 2
    case XHigh => 3
  }

  datatype StopReason = MaxTokens | OtherStop
  datatype Usage = Usage(input: nat, output: nat, cacheRead: nat, cacheCreation: nat)
  datatype Response = Response(blocks: seq<Block>, stop: StopReason, usage: Usage)

  datatype Config = Config(userMessage: Content, effort: Option<Effort>, noContinue: bool, maxContinuations: nat)

  /** One request: the conversation it carried and the depth it asked for. */
  datatype Request = Request(messages: seq<Message>, effort: Option<Effort>)

  datatype Reply = Reply(
    text: string, stop: StopReason, truncated: bool, continuations: nat, thinkingOnly: bool,
    effort: Option<Effort>, steppedDown: Option<(Effort, Effort)>, usage: Usage)

  /** Stands for the message asking to go on; no law reads it. */
  const CONTINUE := "continue"

  /** A turn cut off with nothing in it but thought. */
  predicate ThinkingOnly(r: Response) {
    r.stop == MaxTokens && AnswerText(r.blocks) == "" && r.blocks != [] && forall b :: b in r.blocks ==> b.Thinking?
  }

  function Plus(a: Usage, b: Usage): Usage {
    Usage(a.input + b.input, a.output + b.output, a.cacheRead + b.cacheRead, a.cacheCreation + b.cacheCreation)
  }

  function TextOf(vendor: nat -> Response, n: nat): string {
    if n == 0 then "" else TextOf(vendor, n - 1) + AnswerText(vendor(n - 1).blocks)
  }

  function UsageOf(vendor: nat -> Response, n: nat): Usage {
    if n == 0 then Usage(0, 0, 0, 0) else Plus(UsageOf(vendor, n - 1), vendor(n - 1).usage)
  }

  /** Each turn adds each of its counts to the usage. */
  lemma UsageAddsEachCount(vendor: nat -> Response, n: nat)
    ensures UsageOf(vendor, 0) == Usage(0, 0, 0, 0)
    ensures var before, after, turn := UsageOf(vendor, n), UsageOf(vendor, n + 1), vendor(n).usage;
      && after.input == before.input + turn.input && after.output == before.output + turn.output
      && after.cacheRead == before.cacheRead + turn.cacheRead && after.cacheCreation == before.cacheCreation + turn.cacheCreation
  {
  }

  /** The next request goes on from a cut-off answer: what was said, and the ask to go on. */
  predicate Continues(r: Response, a: Request, b: Request) {
    && r.stop == MaxTokens && AnswerText(r.blocks) != ""
    && b == Request(a.messages + [Message(Assistant, Plain(AnswerText(r.blocks))), Message(User, Plain(CONTINUE))], a.effort)
  }

  /** The next request asks the same question one rung less deeply. */
  predicate StepsDown(r: Response, a: Request, b: Request) {
    ThinkingOnly(r) && b == Request(a.messages, EffortBelow(a.effort)) && b.effort.Some?
  }

  /** Why a reply ends where it does. */
  predicate Settled(cfg: Config, r: Response, reply: Reply) {
    || r.stop != MaxTokens
    || cfg.noContinue
    || (AnswerText(r.blocks) == "" && !(ThinkingOnly(r) && reply.steppedDown.None? && EffortBelow(reply.effort).Some?))
    || (AnswerText(r.blocks) != "" && reply.continuations == cfg.maxContinuations)
  }

  /** Requests in order, each but the one after `stepAt` going on from the one before. */
  ghost predicate Chained(vendor: nat -> Response, requests: seq<Request>, stepAt: Option<nat>) {
    forall k :: 0 <= k < |requests| - 1 ==>
      if stepAt == Some(k) then StepsDown(vendor(k), requests[k], requests[k + 1])
      else Continues(vendor(k), requests[k], requests[k + 1])
  }

  function NonEmptyAssistant(m: Message): bool {
    m.role == Assistant ==> m.content.Plain? && m.content.text != ""
  }

  /** For every sequence of responses: one request, one more a continuation, and
      one more for a step-down; the reply is every turn's text and usage. */
  method AnthropicChatDetailed(cfg: Config, vendor: nat -> Response)
    returns (reply: Reply, ghost requests: seq<Request>, ghost stepAt: Option<nat>)
    ensures requests != [] && requests[0] == Request([Message(User, cfg.userMessage)], cfg.effort)
    ensures Chained(vendor, requests, stepAt)
    ensures stepAt.Some? ==> stepAt.value < |requests| - 1
    ensures |requests| == 1 + reply.continuations + (if stepAt.Some? then 1 else 0)
    ensures reply.continuations <= cfg.maxContinuations
    ensures cfg.noContinue ==> |requests| == 1
    ensures reply.text == TextOf(vendor, |requests|) && reply.usage == UsageOf(vendor, |requests|)
    ensures var last := vendor(|requests| - 1);
      && reply.stop == last.stop && (reply.truncated <==> last.stop == MaxTokens)
      && reply.thinkingOnly == ThinkingOnly(last)
      && Settled(cfg, last, reply)
    ensures reply.effort == requests[|requests| - 1].effort
    ensures stepAt.Some? ==> EffortBelow(cfg.effort).Some? && reply.steppedDown == Some((cfg.effort.value, EffortBelow(cfg.effort).value))
    ensures stepAt.None? ==> reply.steppedDown.None?
  {
    var messages := [Message(User, cfg.userMessage)];
    var text, usage, turn, asked := "", Usage(0, 0, 0, 0), 0, 0;
    var currentEffort := cfg.effort;
    var steppedDown: Option<(Effort, Effort)> := None;
    requests, stepAt := [Request(messages, currentEffort)], None;
    while true
      invariant |requests| == asked + 1 == 1 + turn + (if stepAt.Some? then 1 else 0)
      invariant turn <= cfg.maxContinuations && (cfg.noContinue ==> asked == 0)
      invariant requests[0] == Request([Message(User, cfg.userMessage)], cfg.effort)
      invariant requests[asked] == Request(messages, currentEffort)
      invariant Chained(vendor, requests, stepAt)
      invariant stepAt.Some? ==> stepAt.value < asked
      invariant stepAt.Some? ==> EffortBelow(cfg.effort).Some? && steppedDown == Some((cfg.effort.value, EffortBelow(cfg.effort).value))
      invariant stepAt.None? ==> steppedDown.None? && currentEffort == cfg.effort
      invariant text == TextOf(vendor, asked) && usage == UsageOf(vendor, asked)
      decreases cfg.maxContinuations - turn, if stepAt.None? then 1 else 0
    {
      var response := vendor(asked);
      asked := asked + 1;
      var said := AnswerText(response.blocks);
      text := text + said;
      usage := Plus(usage, response.usage);
      var thinkingOnly := ThinkingOnly(response);
      reply := Reply(text, response.stop, response.stop == MaxTokens, turn, thinkingOnly, currentEffort, steppedDown, usage);
      if response.stop != MaxTokens || cfg.noContinue { return; }
      ghost var step := stepAt;
      if said == "" {
        var from := if thinkingOnly && steppedDown.None? then currentEffort else None;
        var lower := EffortBelow(from);
        if lower.None? { return; }
        steppedDown := Some((from.value, lower.value));
        currentEffort := lower;
        stepAt := Some(asked - 1);
      } else {
        if turn == cfg.maxContinuations { return; }
        turn := turn + 1;
        messages := messages + [Message(Assistant, Plain(said)), Message(User, Plain(CONTINUE))];
      }
      ChainGrows(vendor, requests, step, Request(messages, currentEffort), stepAt);
      requests := requests + [Request(messages, currentEffort)];
    }
  }

  lemma ChainGrows(vendor: nat -> Response, requests: seq<Request>, stepAt: Option<nat>, next: Request, step: Option<nat>)
    requires requests != [] && Chained(vendor, requests, stepAt)
    requires step == stepAt || (stepAt.None? && step == Some(|requests| - 1))
    requires var k := |requests| - 1;
      if step == Some(k) then StepsDown(vendor(k), requests[k], next) else Continues(vendor(k), requests[k], next)
    ensures Chained(vendor, requests + [next], step)
  {
  }

  /** No request of such a chain carries an empty assistant turn. */
  lemma {:induction false} NoEmptyAssistantTurn(vendor: nat -> Response, requests: seq<Request>, stepAt: Option<nat>, k: nat)
    requires Chained(vendor, requests, stepAt) && k < |requests|
    requires forall m :: m in requests[0].messages ==> m.role == User
    ensures forall m :: m in requests[k].messages ==> NonEmptyAssistant(m)
  {
    if k > 0 {
      NoEmptyAssistantTurn(vendor, requests, stepAt, k - 1);
    }
  }

  /** The depth falls once at most, by one rung, and stays fallen. */
  lemma {:induction false} DepthFallsOnceByOneRung(vendor: nat -> Response, requests: seq<Request>, stepAt: Option<nat>, k: nat)
    requires Chained(vendor, requests, stepAt) && k < |requests|
    ensures requests[k].effort == if stepAt.Some? && stepAt.value < k then EffortBelow(requests[0].effort) else requests[0].effort
  {
    if k > 0 {
      DepthFallsOnceByOneRung(vendor, requests, stepAt, k - 1);
    }
  }
}
