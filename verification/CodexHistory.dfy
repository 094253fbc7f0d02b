/** A conversation serialized for the Codex backend, which wants an output for every function call. */
module CodexHistory {
  datatype Block =
    | Thinking(replayed: bool)
    | Text(text: string)
    | ToolCall(id: string, name: string, arguments: string)
    | OtherBlock

  datatype Message =
    | User(parts: seq<string>)
    | Assistant(failed: bool, blocks: seq<Block>)
    | ToolResult(toolCallId: string, output: string, addedTools: seq<string>)
    | OtherMessage

  datatype Item =
    | UserItem(parts: seq<string>)
    | ReasoningItem
    | AssistantItem(text: string)
    | Call(callId: string, name: string, arguments: string)
    | Output(callId: string, output: string)
    | SearchCall(callId: string, tools: seq<string>)
    | SearchOutput(callId: string, tools: seq<string>)

  /** An item and the index of the message at which it was written. */
  datatype Placed = Placed(item: Item, at: nat)

  /** The items written so far and the ids of the calls without a result, oldest first. */
  datatype History = History(items: seq<Placed>, pending: seq<string>)

  /** The tools that are known, and the id given to the loading of some of them. */
  datatype Tools = Tools(known: set<string>, loadId: (string, seq<string>) -> string)

  /** A tool call id up to its first bar. */
  function CallId(id: string): string {
    if id == "" || id[0] == '|' then "" else [id[0]] + CallId(id[1..])
  }

  function Known(tools: Tools, names: seq<string>): seq<string> {
    if names == [] then []
    else if names[0] in tools.known then [names[0]] + Known(tools, names[1..])
    else Known(tools, names[1..])
  }

  /** Setting a key keeps its place if it has one. */
  function Put(pending: seq<string>, id: string): seq<string> {
    if id in pending then pending else pending + [id]
  }

  function Without(pending: seq<string>, id: string): seq<string> {
    if pending == [] then []
    else if pending[0] == id then Without(pending[1..], id)
    else [pending[0]] + Without(pending[1..], id)
  }

  function Flushed(pending: seq<string>, at: nat): seq<Placed> {
    seq(|pending|, i requires 0 <= i < |pending| => Placed(Output(CallId(pending[i]), "No result provided"), at))
  }

  function BlockItems(block: Block, at: nat): seq<Placed> {
    match block
    case Thinking(replayed) => if replayed then [Placed(ReasoningItem, at)] else []
    case Text(text) => [Placed(AssistantItem(text), at)]
    case ToolCall(id, name, arguments) => [Placed(Call(CallId(id), name, arguments), at)]
    case OtherBlock => []
  }

  function WithBlocks(history: History, blocks: seq<Block>, at: nat): History {
    if blocks == [] then history else
    var before := WithBlocks(history, blocks[..|blocks| - 1], at);
    var block := blocks[|blocks| - 1];
    History(before.items + BlockItems(block, at),
            if block.ToolCall? then Put(before.pending, block.id) else before.pending)
  }

  function WithMessage(tools: Tools, history: History, message: Message, at: nat): History {
    match message
    case User(parts) =>
      var flushed := history.items + Flushed(history.pending, at);
      History(if parts == [] then flushed else flushed + [Placed(UserItem(parts), at)], [])
    case Assistant(failed, blocks) =>
      var flushed := History(history.items + Flushed(history.pending, at), []);
      if failed then flushed else WithBlocks(flushed, blocks, at)
    case ToolResult(id, output, addedTools) =>
      var added := Known(tools, addedTools);
      var answered := history.items + [Placed(Output(CallId(id), output), at)];
      History(
        if added == [] then answered
        else answered + [Placed(SearchCall(tools.loadId(id, added), added), at),
                         Placed(SearchOutput(tools.loadId(id, added), added), at)],
        Without(history.pending, id))
    case OtherMessage => history
  }

  function HistoryOf(tools: Tools, messages: seq<Message>): History {
    if messages == [] then History([], [])
    else WithMessage(tools, HistoryOf(tools, messages[..|messages| - 1]), messages[|messages| - 1], |messages| - 1)
  }

  function Serialized(tools: Tools, messages: seq<Message>): seq<Placed> {
    var history := HistoryOf(tools, messages);
    history.items + Flushed(history.pending, |messages|)
  }

  function Items(placed: seq<Placed>): seq<Item> {
    seq(|placed|, i requires 0 <= i < |placed| => placed[i].item)
  }

  lemma {:induction false} ItemsConcat(a: seq<Placed>, b: seq<Placed>)
    ensures Items(a + b) == Items(a) + Items(b)
  {
  }

  method FlushOrphanedToolCalls(items: seq<Item>, pending: seq<string>, ghost at: nat) returns (flushed: seq<Item>)
    ensures flushed == items + Items(Flushed(pending, at))
  {
    flushed := items;
    for i := 0 to |pending|
      invariant flushed == items + Items(Flushed(pending[..i], at))
    {
      flushed := flushed + [Output(CallId(pending[i]), "No result provided")];
    }
    assert pending[..|pending|] == pending;
  }

  method AppendBlocks(items: seq<Item>, pending: seq<string>, blocks: seq<Block>, ghost history: History, ghost at: nat)
    returns (newItems: seq<Item>, newPending: seq<string>)
    requires items == Items(history.items) && pending == history.pending
    ensures newItems == Items(WithBlocks(history, blocks, at).items)
    ensures newPending == WithBlocks(history, blocks, at).pending
  {
    newItems, newPending := items, pending;
    for i := 0 to |blocks|
      invariant newItems == Items(WithBlocks(history, blocks[..i], at).items)
      invariant newPending == WithBlocks(history, blocks[..i], at).pending
    {
      assert blocks[..i + 1][..i] == blocks[..i];
      ItemsConcat(WithBlocks(history, blocks[..i], at).items, BlockItems(blocks[i], at));
      match blocks[i] {
        case Thinking(replayed) => if replayed { newItems := newItems + [ReasoningItem]; }
        case Text(text) => newItems := newItems + [AssistantItem(text)];
        case ToolCall(id, name, arguments) =>
          newPending := Put(newPending, id);
          newItems := newItems + [Call(CallId(id), name, arguments)];
        case OtherBlock =>
      }
    }
    assert blocks[..|blocks|] == blocks;
  }

  method MessagesToResponseItems(tools: Tools, messages: seq<Message>) returns (items: seq<Item>)
    ensures items == Items(Serialized(tools, messages))
  {
    var pending: seq<string>;
    items, pending := [], [];
    for m := 0 to |messages|
      invariant items == Items(HistoryOf(tools, messages[..m]).items)
      invariant pending == HistoryOf(tools, messages[..m]).pending
    {
      assert messages[..m + 1][..m] == messages[..m];
      ghost var history := HistoryOf(tools, messages[..m]);
      ItemsConcat(history.items, Flushed(history.pending, m));
      match messages[m] {
        case User(parts) =>
          items := FlushOrphanedToolCalls(items, pending, m);
          pending := [];
          if parts != [] { items := items + [UserItem(parts)]; }
        case Assistant(failed, blocks) =>
          items := FlushOrphanedToolCalls(items, pending, m);
          pending := [];
          if failed { continue; }
          items, pending :=
            AppendBlocks(items, pending, blocks, History(history.items + Flushed(history.pending, m), []), m);
        case ToolResult(id, output, addedTools) =>
          pending := Without(pending, id);
          items := items + [Output(CallId(id), output)];
          var added := Known(tools, addedTools);
          if added != [] {
            var searchCallId := tools.loadId(id, added);
            items := items + [SearchCall(searchCallId, added), SearchOutput(searchCallId, added)];
          }
        case OtherMessage =>
      }
    }
    assert messages[..|messages|] == messages;
    ghost var history := HistoryOf(tools, messages);
    ItemsConcat(history.items, Flushed(history.pending, |messages|));
    items := FlushOrphanedToolCalls(items, pending, |messages|);
  }
}
