/** What each message of a conversation turns into, and what the outputs supplied for open calls say. */
module CodexMeaning {
  import opened Options
  import opened Scans
  import opened CodexHistory
  import opened CodexLaws

  /** A call id is what stands before the first bar of a tool call id. */
  lemma {:induction false} CallIdIs(id: string)
    ensures CallId(id) <= id && '|' !in CallId(id)
    ensures |CallId(id)| < |id| ==> id[|CallId(id)|] == '|'
  {
    if id != "" && id[0] != '|' {
      CallIdIs(id[1..]);
      assert id == [id[0]] + id[1..];
    }
  }

  function KnownIn(known: set<string>): string -> Option<string> {
    name => if name in known then Some(name) else None
  }

  lemma {:induction false} KnownArePicked(tools: Tools, names: seq<string>)
    ensures Known(tools, names) == Picked(names, KnownIn(tools.known))
  {
    if names != [] {
      var pick := KnownIn(tools.known);
      KnownArePicked(tools, names[1..]);
      PickedConcat([names[0]], names[1..], pick);
      PickedSnoc([], names[0], pick);
      assert names == [names[0]] + names[1..] && [] + [names[0]] == [names[0]];
      assert Picked<string, string>([], pick) == [];
    }
  }

  // ---------------------------------------------------------------- what a message says

  /** The item of one block of an assistant message, if it has one. */
  function ItemIn(block: Block): Option<Item> {
    match block
    case Thinking(true) => Some(ReasoningItem)
    case Thinking(false) => None
    case Text(text) => Some(AssistantItem(text))
    case ToolCall(id, name, arguments) => Some(Call(CallId(id), name, arguments))
    case OtherBlock => None
  }

  /** The items are those that the message itself says. */
  ghost predicate Says(tools: Tools, message: Message, items: seq<Item>) {
    match message
    case User(parts) => if parts != [] then items == [UserItem(parts)] else items == []
    case Assistant(true, _) => items == []
    case Assistant(false, blocks) => items == Picked(blocks, ItemIn)
    case ToolResult(id, output, addedTools) =>
      var added := Picked(addedTools, KnownIn(tools.known));
      && items != [] && items[0] == Output(CallId(id), output)
      && items[1..] == if added == [] then []
                       else [SearchCall(tools.loadId(id, added), added), SearchOutput(tools.loadId(id, added), added)]
    case OtherMessage => items == []
  }

  /** Outputs for calls without a result: one for each of them, with a fixed text. */
  ghost predicate AreSupplied(items: seq<Item>, ids: seq<string>) {
    |items| == |ids| && forall k :: 0 <= k < |ids| ==> items[k] == Output(CallId(ids[k]), "No result provided")
  }

  lemma {:induction false} FlushedAreSupplied(pending: seq<string>, at: nat)
    ensures AreSupplied(Items(Flushed(pending, at)), pending)
  {
  }

  lemma {:induction false} BlocksSay(history: History, blocks: seq<Block>, at: nat)
    ensures Items(WithBlocks(history, blocks, at).items) == Items(history.items) + Picked(blocks, ItemIn)
  {
    if blocks == [] {
      assert Items(history.items) + [] == Items(history.items);
    } else {
      var front, block := blocks[..|blocks| - 1], blocks[|blocks| - 1];
      var before := WithBlocks(history, front, at);
      BlocksSay(history, front, at);
      ItemsConcat(before.items, BlockItems(block, at));
      assert Items(BlockItems(block, at)) == if ItemIn(block).Some? then [ItemIn(block).value] else [];
    }
  }

  /** One more message writes outputs for the open calls if it is a turn, and then what it says. */
  lemma {:induction false} MessageSays(tools: Tools, history: History, message: Message, at: nat)
    returns (supplied: seq<Item>, own: seq<Item>)
    ensures Items(WithMessage(tools, history, message, at).items) == Items(history.items) + supplied + own
    ensures AreSupplied(supplied, if IsTurn(message) then history.pending else [])
    ensures Says(tools, message, own)
  {
    var flushed := Flushed(history.pending, at);
    FlushedAreSupplied(history.pending, at);
    ItemsConcat(history.items, flushed);
    supplied := if IsTurn(message) then Items(flushed) else [];
    hide Flushed, CallId, Known;
    match message
    case User(parts) =>
      own := if parts == [] then [] else [UserItem(parts)];
      ItemsConcat(history.items + flushed, [Placed(UserItem(parts), at)]);
    case Assistant(failed, blocks) =>
      own := if failed then [] else Picked(blocks, ItemIn);
      if !failed { BlocksSay(History(history.items + flushed, []), blocks, at); }
    case ToolResult(id, output, addedTools) =>
      own := ResultSays(tools, history, id, output, addedTools, at);
    case OtherMessage =>
      own := [];
  }

  lemma {:induction false} ResultSays(tools: Tools, history: History, id: string, output: string,
                                      addedTools: seq<string>, at: nat) returns (own: seq<Item>)
    ensures Items(WithMessage(tools, history, ToolResult(id, output, addedTools), at).items)
         == Items(history.items) + [] + own
    ensures Says(tools, ToolResult(id, output, addedTools), own)
  {
    KnownArePicked(tools, addedTools);
    var added := Known(tools, addedTools);
    var answer := [Placed(Output(CallId(id), output), at)];
    var search := if added == [] then []
                  else [Placed(SearchCall(tools.loadId(id, added), added), at),
                        Placed(SearchOutput(tools.loadId(id, added), added), at)];
    own := Items(answer + search);
    ItemsConcat(history.items, answer + search);
    assert history.items + (answer + search) == (history.items + answer) + search;
    assert Items(history.items) + [] == Items(history.items);
    assert own[1..] == Items(search);
  }

  // ---------------------------------------------------------------- open calls

  /** The position of the first call of an id, or the number of blocks. */
  function FirstCallAt(blocks: seq<Block>, id: string): (i: nat)
    ensures i <= |blocks|
    ensures i < |blocks| ==> blocks[i].ToolCall? && blocks[i].id == id
    ensures forall j :: 0 <= j < i ==> !(blocks[j].ToolCall? && blocks[j].id == id)
  {
    if blocks == [] || (blocks[0].ToolCall? && blocks[0].id == id) then 0 else
    assert forall j :: 1 <= j < |blocks| ==> blocks[j] == blocks[1..][j - 1];
    1 + FirstCallAt(blocks[1..], id)
  }

  /** The ids called, once each, in the order of their first calls. */
  ghost predicate ListsCalls(blocks: seq<Block>, open: seq<string>) {
    && (forall id :: id in open <==> FirstCallAt(blocks, id) < |blocks|)
    && forall k, l :: 0 <= k < l < |open| ==> FirstCallAt(blocks, open[k]) < FirstCallAt(blocks, open[l])
  }

  function Except(id: string): string -> Option<string> {
    other => if other == id then None else Some(other)
  }

  /** The calls open behind a message: its own, or those before it but for the one it answers. */
  ghost predicate StillOpen(waiting: seq<string>, message: Message, open: seq<string>) {
    match message
    case User(_) => open == []
    case Assistant(true, _) => open == []
    case Assistant(false, blocks) => ListsCalls(blocks, open)
    case ToolResult(id, _, _) => open == Picked(waiting, Except(id))
    case OtherMessage => open == waiting
  }

  lemma {:induction false} WithoutIsPicked(pending: seq<string>, id: string)
    ensures Without(pending, id) == Picked(pending, Except(id))
  {
    if pending != [] {
      var first, pick := pending[0], Except(id);
      WithoutIsPicked(pending[1..], id);
      PickedConcat([first], pending[1..], pick);
      PickedSnoc([], first, pick);
      assert pending == [first] + pending[1..] && [] + [first] == [first];
      assert Picked<string, string>([], pick) == [];
    }
  }

  lemma {:induction false} FirstCallSnoc(blocks: seq<Block>, block: Block, id: string)
    ensures FirstCallAt(blocks + [block], id)
         == if FirstCallAt(blocks, id) < |blocks| then FirstCallAt(blocks, id)
            else if block.ToolCall? && block.id == id then |blocks| else |blocks| + 1
  {
    var all, i, j := blocks + [block], FirstCallAt(blocks, id), FirstCallAt(blocks + [block], id);
    assert forall k :: 0 <= k < |blocks| ==> all[k] == blocks[k];
    assert all[|blocks|] == block;
  }

  lemma {:induction false} BlocksOpen(history: History, blocks: seq<Block>, at: nat)
    requires history.pending == []
    ensures ListsCalls(blocks, WithBlocks(history, blocks, at).pending)
  {
    if blocks != [] {
      var front, block := blocks[..|blocks| - 1], blocks[|blocks| - 1];
      BlocksOpen(history, front, at);
      assert blocks == front + [block];
      hide ListsCalls, BlockItems;
      NextCall(front, block, WithBlocks(history, front, at).pending);
    }
  }

  lemma {:induction false} NextCall(blocks: seq<Block>, block: Block, open: seq<string>)
    requires ListsCalls(blocks, open)
    ensures ListsCalls(blocks + [block], if block.ToolCall? then Put(open, block.id) else open)
  {
    if block.ToolCall? && block.id !in open {
      NewCall(blocks, block, open);
    } else {
      OldCall(blocks, block, open);
    }
  }

  lemma {:induction false} OldCall(blocks: seq<Block>, block: Block, open: seq<string>)
    requires ListsCalls(blocks, open) && (block.ToolCall? ==> block.id in open)
    ensures ListsCalls(blocks + [block], open)
  {
    forall id
      ensures FirstCallAt(blocks, id) < |blocks| <==> FirstCallAt(blocks + [block], id) < |blocks| + 1
      ensures FirstCallAt(blocks, id) < |blocks| ==> FirstCallAt(blocks + [block], id) == FirstCallAt(blocks, id)
    {
      FirstCallSnoc(blocks, block, id);
    }
    hide FirstCallAt;
    assert forall k :: 0 <= k < |open| ==> open[k] in open;
  }

  lemma {:induction false} NewCall(blocks: seq<Block>, block: Block, open: seq<string>)
    requires ListsCalls(blocks, open) && block.ToolCall? && block.id !in open
    ensures ListsCalls(blocks + [block], open + [block.id])
  {
    var all, next := blocks + [block], open + [block.id];
    forall id ensures id in next <==> FirstCallAt(all, id) < |all| {
      FirstCallSnoc(blocks, block, id);
      assert id in next <==> id in open || id == block.id;
    }
    forall k, l | 0 <= k < l < |next| ensures FirstCallAt(all, next[k]) < FirstCallAt(all, next[l]) {
      FirstCallSnoc(blocks, block, next[k]);
      FirstCallSnoc(blocks, block, next[l]);
      assert next[k] == open[k] && open[k] in open;
      if l < |open| { assert next[l] == open[l] && open[l] in open; }
    }
  }

  lemma {:induction false} MessageOpens(tools: Tools, history: History, message: Message, at: nat)
    ensures StillOpen(history.pending, message, WithMessage(tools, history, message, at).pending)
  {
    match message
    case Assistant(false, blocks) =>
      BlocksOpen(History(history.items + Flushed(history.pending, at), []), blocks, at);
    case ToolResult(id, _, _) => WithoutIsPicked(history.pending, id);
    case _ =>
  }

  // ---------------------------------------------------------------- the conversation

  /** What is written at a message: outputs for open calls, what the message says, and the calls open behind it. */
  datatype Part = Part(supplied: seq<Item>, own: seq<Item>, open: seq<string>)

  function Joined(parts: seq<Part>): seq<Item> {
    if parts == [] then [] else
    Joined(parts[..|parts| - 1]) + parts[|parts| - 1].supplied + parts[|parts| - 1].own
  }

  function OpenAfter(parts: seq<Part>): seq<string> {
    if parts == [] then [] else parts[|parts| - 1].open
  }

  ghost predicate PartFits(tools: Tools, waiting: seq<string>, message: Message, part: Part) {
    && AreSupplied(part.supplied, if IsTurn(message) then waiting else [])
    && Says(tools, message, part.own)
    && StillOpen(waiting, message, part.open)
  }

  lemma {:induction false} HistoryIsSaid(tools: Tools, messages: seq<Message>) returns (parts: seq<Part>)
    ensures |parts| == |messages|
    ensures forall n | 0 <= n < |messages| :: PartFits(tools, OpenAfter(parts[..n]), messages[n], parts[n])
    ensures Items(HistoryOf(tools, messages).items) == Joined(parts)
    ensures HistoryOf(tools, messages).pending == OpenAfter(parts)
  {
    if messages == [] {
      parts := [];
    } else {
      var n := |messages| - 1;
      var before := HistoryOf(tools, messages[..n]);
      var front := HistoryIsSaid(tools, messages[..n]);
      var supplied, own := MessageSays(tools, before, messages[n], n);
      MessageOpens(tools, before, messages[n], n);
      parts := front + [Part(supplied, own, HistoryOf(tools, messages).pending)];
      assert parts[..n] == front;
      forall k | 0 <= k < n
        ensures parts[..k] == front[..k] && parts[k] == front[k] && messages[k] == messages[..n][k]
      {
      }
      hide WithMessage, PartFits, Items;
      PartIs(tools, before.pending, messages[n], parts[n]);
    }
  }

  lemma {:induction false} PartIs(tools: Tools, waiting: seq<string>, message: Message, part: Part)
    requires AreSupplied(part.supplied, if IsTurn(message) then waiting else [])
    requires Says(tools, message, part.own) && StillOpen(waiting, message, part.open)
    ensures PartFits(tools, waiting, message, part)
  {
  }

  /**
   A serialized conversation is what its messages say, in order, with outputs for the open calls before each
   turn and at the end.
   */
  lemma {:induction false} ConversationIsSaid(tools: Tools, messages: seq<Message>)
    returns (parts: seq<Part>, rest: seq<Item>)
    ensures |parts| == |messages|
    ensures forall n | 0 <= n < |messages| :: PartFits(tools, OpenAfter(parts[..n]), messages[n], parts[n])
    ensures Items(Serialized(tools, messages)) == Joined(parts) + rest && AreSupplied(rest, OpenAfter(parts))
  {
    parts := HistoryIsSaid(tools, messages);
    var history := HistoryOf(tools, messages);
    var flushed := Flushed(history.pending, |messages|);
    rest := Items(flushed);
    FlushedAreSupplied(history.pending, |messages|);
    ItemsConcat(history.items, flushed);
  }
}
