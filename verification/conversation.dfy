/**
 A conversation as the Messages API takes it, the pairing it demands of tool
 calls and their results, and the one cache marker a request's view carries.
 */
module Conversation {
  import opened Options
  import opened Sequences

  datatype Role = User | Assistant

  /** A content block. `ask` is the address or query in a tool call's input. */
  datatype Block =
    | TextBlock(text: string, marked: bool)
    | ToolUse(id: string, name: string, ask: Option<string>, marked: bool)
    | ToolResult(id: string, content: Option<string>, marked: bool)
    | Thinking(thought: string)
    | ServerBlock(code: int)

  datatype Content = Plain(text: string) | Blocks(blocks: seq<Block>)
  datatype Message = Message(role: Role, content: Content)

  /** The text of a message: its text blocks, end to end. */
  function AnswerText(blocks: seq<Block>): string {
    if blocks == [] then ""
    else (if blocks[0].TextBlock? then blocks[0].text else "") + AnswerText(blocks[1..])
  }

  lemma {:induction false} AnswerTextAppend(a: seq<Block>, b: seq<Block>)
    ensures AnswerText(a + b) == AnswerText(a) + AnswerText(b)
  {
    if a == [] {
      assert a + b == b;
    } else {
      assert (a + b)[1..] == a[1..] + b;
      AnswerTextAppend(a[1..], b);
      Assoc(if a[0].TextBlock? then a[0].text else "", AnswerText(a[1..]), AnswerText(b));
    }
  }

  /** Whatever stands around it, a text block adds its text and no other block any. */
  lemma AnswerTextIsEachText(a: seq<Block>, b: Block, c: seq<Block>)
    ensures AnswerText(a + ([b] + c)) == AnswerText(a) + ((if b.TextBlock? then b.text else "") + AnswerText(c))
    ensures AnswerText([]) == ""
  {
    AnswerTextAppend(a, [b] + c);
    assert ([b] + c)[1..] == c;
  }

  // ── Pairing ────────────────────────────────────────────────────────────

  /** The ids of the calls in a turn that name a tool in `declared`, in order. */
  function CallIds(blocks: seq<Block>, declared: set<string>): seq<string> {
    if blocks == [] then []
    else (if blocks[0].ToolUse? && blocks[0].name in declared then [blocks[0].id] else []) + CallIds(blocks[1..], declared)
  }

  function ResultIds(blocks: seq<Block>): seq<string> {
    if blocks == [] then []
    else (if blocks[0].ToolResult? then [blocks[0].id] else []) + ResultIds(blocks[1..])
  }

  function BlocksOf(m: Message): seq<Block> {
    if m.content.Blocks? then m.content.blocks else []
  }

  /** The calls an assistant message makes, and none of a user's. */
  function Calls(m: Message, declared: set<string>): seq<string> {
    if m.role == Assistant then CallIds(BlocksOf(m), declared) else []
  }

  /** How many results of this id a user message holds. */
  function Answers(m: Message, id: string): nat {
    if m.role == User then Count(ResultIds(BlocksOf(m)), id) else 0
  }

  function Count(ids: seq<string>, id: string): nat {
    if ids == [] then 0 else (if ids[0] == id then 1 else 0) + Count(ids[1..], id)
  }

  /** Every call of message i has exactly one same-id result in the very next. */
  ghost predicate PairedAt(messages: seq<Message>, declared: set<string>, i: nat)
    requires i < |messages|
  {
    forall id :: id in Calls(messages[i], declared) ==>
      i + 1 < |messages| && Answers(messages[i + 1], id) == 1
  }

  ghost predicate Paired(messages: seq<Message>, declared: set<string>) {
    forall i :: 0 <= i < |messages| ==> PairedAt(messages, declared, i)
  }

  lemma {:induction false} CountIsMembership(ids: seq<string>, id: string)
    ensures Count(ids, id) > 0 <==> id in ids
  {
    if ids != [] {
      CountIsMembership(ids[1..], id);
    }
  }

  lemma NoRepeatsBeyondTheFirst(ids: seq<string>)
    requires ids != []
    ensures NoRepeats(ids) <==> ids[0] !in ids[1..] && NoRepeats(ids[1..])
  {
    if ids[0] !in ids[1..] && NoRepeats(ids[1..]) {
      forall i, j | 0 <= i < j < |ids|
        ensures ids[i] != ids[j]
      {
        assert ids[1..][j - 1] == ids[j] && (i > 0 ==> ids[1..][i - 1] == ids[i]);
      }
    }
  }

  lemma {:induction false} NoRepeatsCounts(ids: seq<string>)
    ensures NoRepeats(ids) <==> forall id :: id in ids ==> Count(ids, id) == 1
  {
    if ids != [] {
      NoRepeatsCounts(ids[1..]);
      NoRepeatsBeyondTheFirst(ids);
      CountIsMembership(ids[1..], ids[0]);
      if forall id :: id in ids ==> Count(ids, id) == 1 {
        assert ids[0] in ids;
        forall id | id in ids[1..] ensures Count(ids[1..], id) == 1 {
          assert id in ids;
          CountIsMembership(ids[1..], id);
        }
      }
      if NoRepeats(ids) {
        forall id | id in ids ensures Count(ids, id) == 1 {
          CountIsMembership(ids[1..], id);
          assert id != ids[0] ==> id in ids[1..];
        }
      }
    }
  }

  lemma {:induction false} CountAppend(a: seq<string>, b: seq<string>, id: string)
    ensures Count(a + b, id) == Count(a, id) + Count(b, id)
  {
    if a == [] {
      assert a + b == b;
    } else {
      assert (a + b)[1..] == a[1..] + b;
      CountAppend(a[1..], b, id);
    }
  }

  /** A conversation grown by whole turns stays paired when each turn is: the
      call with its results, or a turn that calls nothing. */
  lemma PairedGrows(messages: seq<Message>, more: seq<Message>, declared: set<string>)
    requires messages != [] ==> Calls(messages[|messages| - 1], declared) == []
    ensures Paired(messages + more, declared) <==> Paired(messages, declared) && Paired(more, declared)
  {
    var all := messages + more;
    forall i | 0 <= i < |messages| ensures PairedAt(all, declared, i) <==> PairedAt(messages, declared, i) {
      if i + 1 < |messages| {
        assert all[i] == messages[i] && all[i + 1] == messages[i + 1];
      }
    }
    forall i | 0 <= i < |more| ensures PairedAt(all, declared, |messages| + i) <==> PairedAt(more, declared, i) {
      assert all[|messages| + i] == more[i];
      if i + 1 < |more| {
        assert all[|messages| + i + 1] == more[i + 1];
      }
    }
    if Paired(all, declared) {
      forall i | 0 <= i < |more| ensures PairedAt(more, declared, i) {
        assert PairedAt(all, declared, |messages| + i);
      }
    }
    if Paired(messages, declared) && Paired(more, declared) {
      forall i | 0 <= i < |all| ensures PairedAt(all, declared, i) {
        if i >= |messages| {
          assert PairedAt(more, declared, i - |messages|);
        }
      }
    }
  }

  // ── The cache marker ───────────────────────────────────────────────────

  predicate Marked(b: Block) {
    (b.TextBlock? || b.ToolUse? || b.ToolResult?) && b.marked
  }

  function MarksIn(blocks: seq<Block>): nat {
    if blocks == [] then 0 else (if Marked(blocks[0]) then 1 else 0) + MarksIn(blocks[1..])
  }

  function Marks(messages: seq<Message>): nat {
    if messages == [] then 0 else MarksIn(BlocksOf(messages[0])) + Marks(messages[1..])
  }

  predicate Unmarked(messages: seq<Message>) {
    forall i, b :: 0 <= i < |messages| && b in BlocksOf(messages[i]) ==> !Marked(b)
  }

  /** The block with its marker set or cleared; a block of another kind holds none. */
  function WithMarker(b: Block, on: bool): Block {
    match b
    case TextBlock(text, _) => TextBlock(text, on)
    case ToolUse(id, name, ask, _) => ToolUse(id, name, ask, on)
    case ToolResult(id, content, _) => ToolResult(id, content, on)
    case _ => b
  }

  /** A request's view of the conversation: its final block marked as the cache
      breakpoint, in a copy. None where the source would throw, on a final
      message of no blocks at all. */
  function WithFinalCacheBreakpoint(messages: seq<Message>): Option<seq<Message>> {
    if messages == [] then Some(messages)
    else
      var n := |messages| - 1;
      match messages[n].content
      case Plain(text) => Some(messages[..n] + [Message(messages[n].role, Blocks([TextBlock(text, true)]))])
      case Blocks(blocks) =>
        if blocks == [] then None
        else Some(messages[..n] + [Message(messages[n].role, Blocks(blocks[..|blocks| - 1] + [WithMarker(blocks[|blocks| - 1], true)]))])
  }

  /** A message as the API reads it: plain text is one text block. */
  function Spelled(m: Message): Message {
    match m.content
    case Plain(text) => m.(content := Blocks([TextBlock(text, false)]))
    case Blocks(blocks) => m.(content := Blocks(seq(|blocks|, i requires 0 <= i < |blocks| => WithMarker(blocks[i], false))))
  }

  lemma LastIsMarkedOnce(blocks: seq<Block>)
    requires blocks != [] && forall b :: b in blocks[..|blocks| - 1] ==> !Marked(b)
    ensures MarksIn(blocks) == if Marked(blocks[|blocks| - 1]) then 1 else 0
  {
    var before, last := blocks[..|blocks| - 1], blocks[|blocks| - 1];
    NoMarksIn(before);
    MarksInAppend(before, last);
    assert before + [last] == blocks;
  }

  predicate EndsMarked(m: Message) {
    BlocksOf(m) != [] && Marked(BlocksOf(m)[|BlocksOf(m)| - 1])
  }

  /** A message whose last block can hold a marker. */
  predicate CanEndMarked(m: Message) {
    match m.content
    case Plain(_) => true
    case Blocks(blocks) => blocks != [] && !blocks[|blocks| - 1].Thinking? && !blocks[|blocks| - 1].ServerBlock?
  }

  lemma ViewEndsMarked(messages: seq<Message>)
    requires messages != [] && WithFinalCacheBreakpoint(messages).Some?
    ensures var last := BlocksOf(WithFinalCacheBreakpoint(messages).value[|messages| - 1]);
      last != [] && (Marked(last[|last| - 1]) || !CanEndMarked(messages[|messages| - 1]))
  {
  }

  lemma ViewMarks(messages: seq<Message>)
    requires messages != [] && Unmarked(messages) && WithFinalCacheBreakpoint(messages).Some?
    ensures Marks(WithFinalCacheBreakpoint(messages).value) == if CanEndMarked(messages[|messages| - 1]) then 1 else 0
  {
    var view, n := WithFinalCacheBreakpoint(messages).value, |messages| - 1;
    assert Unmarked(messages[..n]);
    NoMarks(messages[..n]);
    MarksAppend(messages[..n], [view[n]]);
    assert Marks([view[n]]) == MarksIn(BlocksOf(view[n])) + Marks([view[n]][1..]);
    var blocks := BlocksOf(view[n]);
    assert forall b :: b in blocks[..|blocks| - 1] ==> b in BlocksOf(messages[n]);
    LastIsMarkedOnce(blocks);
  }

  lemma ViewSays(messages: seq<Message>)
    requires messages != [] && WithFinalCacheBreakpoint(messages).Some?
    ensures var view := WithFinalCacheBreakpoint(messages).value;
      |view| == |messages| && forall i :: 0 <= i < |view| ==> Spelled(view[i]) == Spelled(messages[i])
  {
    var view, n := WithFinalCacheBreakpoint(messages).value, |messages| - 1;
    SpelledIgnoresMarks(messages[n], view[n]);
  }

  /** The view of an unmarked conversation carries one marker, on its final block,
      where that block can hold it, and otherwise none; and says the same thing. */
  lemma ViewMarksOnlyTheEnd(messages: seq<Message>)
    requires Unmarked(messages) && WithFinalCacheBreakpoint(messages).Some?
    ensures var view := WithFinalCacheBreakpoint(messages).value;
      && |view| == |messages|
      && Marks(view) == (if messages != [] && CanEndMarked(messages[|messages| - 1]) then 1 else 0)
      && (Marks(view) == 1 ==> messages != [] && EndsMarked(view[|messages| - 1]))
      && forall i :: 0 <= i < |view| ==> Spelled(view[i]) == Spelled(messages[i])
  {
    if messages != [] {
      ViewMarks(messages);
      ViewEndsMarked(messages);
      ViewSays(messages);
    }
  }

  lemma SpelledIgnoresMarks(m: Message, v: Message)
    requires m.role == v.role && v.content.Blocks?
    requires m.content.Plain? ==> v.content.blocks == [TextBlock(m.content.text, true)]
    requires m.content.Blocks? ==>
      |v.content.blocks| == |m.content.blocks|
      && forall i :: 0 <= i < |m.content.blocks| ==> WithMarker(v.content.blocks[i], false) == WithMarker(m.content.blocks[i], false)
    ensures Spelled(v) == Spelled(m)
  {
    assert Spelled(v).content.blocks == Spelled(m).content.blocks;
  }

  lemma {:induction false} NoMarksIn(blocks: seq<Block>)
    requires forall b :: b in blocks ==> !Marked(b)
    ensures MarksIn(blocks) == 0
  {
    if blocks != [] {
      assert blocks[0] in blocks;
      NoMarksIn(blocks[1..]);
    }
  }

  lemma {:induction false} NoMarks(messages: seq<Message>)
    requires Unmarked(messages)
    ensures Marks(messages) == 0
  {
    if messages != [] {
      assert Unmarked(messages[1..]);
      NoMarks(messages[1..]);
      NoMarksIn(BlocksOf(messages[0]));
    }
  }

  lemma {:induction false} MarksAppend(a: seq<Message>, b: seq<Message>)
    ensures Marks(a + b) == Marks(a) + Marks(b)
  {
    if a == [] {
      assert a + b == b;
    } else {
      assert (a + b)[1..] == a[1..] + b;
      MarksAppend(a[1..], b);
    }
  }

  lemma {:induction false} MarksInAppend(a: seq<Block>, b: Block)
    ensures MarksIn(a + [b]) == MarksIn(a) + if Marked(b) then 1 else 0
  {
    if a == [] {
      assert a + [b] == [b];
    } else {
      assert (a + [b])[1..] == a[1..] + [b];
      MarksInAppend(a[1..], b);
    }
  }
}
