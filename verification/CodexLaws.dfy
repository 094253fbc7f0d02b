/** Every call in a serialized conversation is answered, and exactly when it is answered once. */
module CodexLaws {
  import opened CodexHistory

  // ---------------------------------------------------------------- every call is answered

  /** An item that may stand between a call and its output: one of the same message, or no turn at all. */
  predicate SameTurn(call: Placed, other: Placed) {
    other.at == call.at || other.item.Output? || other.item.SearchCall? || other.item.SearchOutput?
  }

  predicate Answers(call: Placed, other: Placed) {
    call.item.Call? && other.item.Output? && other.item.callId == call.item.callId
  }

  /** A later output has the call's id, and no item of a later user or assistant message comes between. */
  ghost predicate Answered(items: seq<Placed>, p: nat)
    requires p < |items|
  {
    exists q :: p < q < |items| && Answers(items[p], items[q]) && forall r :: p < r < q ==> SameTurn(items[p], items[r])
  }

  /** A pending id stands for the call, and nothing but its turn and outputs follow. */
  ghost predicate Waiting(items: seq<Placed>, pending: seq<string>, p: nat)
    requires p < |items| && items[p].item.Call?
  {
    && (exists k :: 0 <= k < |pending| && CallId(pending[k]) == items[p].item.callId)
    && (forall r :: p < r < |items| ==> SameTurn(items[p], items[r]))
  }

  ghost predicate Sound(history: History) {
    forall p :: 0 <= p < |history.items| && history.items[p].item.Call? ==>
      Answered(history.items, p) || Waiting(history.items, history.pending, p)
  }

  lemma {:induction false} AnsweredStays(items: seq<Placed>, more: seq<Placed>, p: nat)
    requires p < |items| && Answered(items, p)
    ensures Answered(items + more, p)
  {
    var q :| p < q < |items| && Answers(items[p], items[q]) && forall r :: p < r < q ==> SameTurn(items[p], items[r]);
    assert (items + more)[q] == items[q];
  }

  /** Flushing answers whatever waits. */
  lemma {:induction false} FlushAnswers(items: seq<Placed>, pending: seq<string>, at: nat, p: nat)
    requires p < |items| && items[p].item.Call? && Waiting(items, pending, p)
    ensures Answered(items + Flushed(pending, at), p)
  {
    var k :| 0 <= k < |pending| && CallId(pending[k]) == items[p].item.callId;
    var all, q := items + Flushed(pending, at), |items| + k;
    assert Answers(all[p], all[q]);
    assert forall r :: p < r < q ==> SameTurn(all[p], all[r]);
  }

  lemma {:induction false} AllAnswered(history: History, at: nat)
    requires Sound(history)
    ensures var all := history.items + Flushed(history.pending, at);
            forall p :: 0 <= p < |all| && all[p].item.Call? ==> Answered(all, p)
  {
    var all := history.items + Flushed(history.pending, at);
    forall p | 0 <= p < |all| && all[p].item.Call? ensures Answered(all, p) {
      assert p < |history.items|;
      if Answered(history.items, p) {
        AnsweredStays(history.items, Flushed(history.pending, at), p);
      } else {
        FlushAnswers(history.items, history.pending, at, p);
      }
    }
  }

  /** Calls that wait belong to the message being serialized. */
  ghost predicate SoundWithin(history: History, at: nat) {
    forall p :: 0 <= p < |history.items| && history.items[p].item.Call? ==>
      Answered(history.items, p) || (Waiting(history.items, history.pending, p) && history.items[p].at == at)
  }

  lemma {:induction false} PutKeeps(pending: seq<string>, id: string)
    ensures forall x :: x in pending ==> x in Put(pending, id)
    ensures id in Put(pending, id)
  {
  }

  lemma {:induction false} OneBlock(history: History, block: Block, at: nat)
    requires SoundWithin(history, at)
    ensures SoundWithin(History(history.items + BlockItems(block, at),
                                if block.ToolCall? then Put(history.pending, block.id) else history.pending), at)
  {
    var items, more := history.items, BlockItems(block, at);
    var pending := if block.ToolCall? then Put(history.pending, block.id) else history.pending;
    var all := items + more;
    forall p | 0 <= p < |all| && all[p].item.Call?
      ensures Answered(all, p) || (Waiting(all, pending, p) && all[p].at == at)
    {
      if p < |items| && Answered(items, p) {
        AnsweredStays(items, more, p);
      } else {
        var id: string;
        if p < |items| {
          var k :| 0 <= k < |history.pending| && CallId(history.pending[k]) == items[p].item.callId;
          id := history.pending[k];
        } else {
          id := block.id;
        }
        if block.ToolCall? { PutKeeps(history.pending, block.id); }
        assert id in pending;
        var j :| 0 <= j < |pending| && pending[j] == id;
      }
    }
  }

  lemma {:induction false} BlocksAreSound(history: History, blocks: seq<Block>, at: nat)
    requires SoundWithin(history, at)
    ensures SoundWithin(WithBlocks(history, blocks, at), at)
  {
    hide SoundWithin;
    if blocks != [] {
      BlocksAreSound(history, blocks[..|blocks| - 1], at);
      OneBlock(WithBlocks(history, blocks[..|blocks| - 1], at), blocks[|blocks| - 1], at);
    }
  }

  lemma {:induction false} WithoutMembers(pending: seq<string>, id: string)
    ensures forall x :: x in Without(pending, id) <==> x in pending && x != id
  {
    if pending != [] {
      WithoutMembers(pending[1..], id);
    }
  }

  /** A tool result answers the calls that wait for its id and keeps the others waiting. */
  lemma {:induction false} ResultIsSound(history: History, id: string, output: string, more: seq<Placed>, at: nat)
    requires Sound(history)
    requires forall i :: 0 <= i < |more| ==> more[i].item.SearchCall? || more[i].item.SearchOutput?
    ensures Sound(History(history.items + ([Placed(Output(CallId(id), output), at)] + more),
                          Without(history.pending, id)))
  {
    var items, added := history.items, [Placed(Output(CallId(id), output), at)] + more;
    var rest := Without(history.pending, id);
    var all := items + added;
    WithoutMembers(history.pending, id);
    forall p | 0 <= p < |all| && all[p].item.Call? ensures Answered(all, p) || Waiting(all, rest, p) {
      assert p < |items|;
      if Answered(items, p) {
        AnsweredStays(items, added, p);
      } else {
        var k :| 0 <= k < |history.pending| && CallId(history.pending[k]) == items[p].item.callId;
        if history.pending[k] == id {
          assert Answers(all[p], all[|items|]);
        } else {
          assert history.pending[k] in rest;
          var j :| 0 <= j < |rest| && rest[j] == history.pending[k];
        }
      }
    }
  }

  lemma {:induction false} MessageIsSound(tools: Tools, history: History, message: Message, at: nat)
    requires Sound(history)
    ensures Sound(WithMessage(tools, history, message, at))
  {
    match message
    case User(parts) =>
      AllAnswered(history, at);
      var all := history.items + Flushed(history.pending, at);
      forall p | 0 <= p < |all| && all[p].item.Call? ensures Answered(all + [Placed(UserItem(parts), at)], p) {
        AnsweredStays(all, [Placed(UserItem(parts), at)], p);
      }
    case Assistant(failed, blocks) =>
      AllAnswered(history, at);
      var flushed := History(history.items + Flushed(history.pending, at), []);
      BlocksAreSound(flushed, blocks, at);
    case ToolResult(id, output, addedTools) =>
      var added := Known(tools, addedTools);
      var more := if added == [] then []
                  else [Placed(SearchCall(tools.loadId(id, added), added), at),
                        Placed(SearchOutput(tools.loadId(id, added), added), at)];
      ResultIsSound(history, id, output, more, at);
      assert WithMessage(tools, history, message, at).items
          == history.items + ([Placed(Output(CallId(id), output), at)] + more);
    case OtherMessage =>
  }

  lemma {:induction false} HistoryIsSound(tools: Tools, messages: seq<Message>)
    ensures Sound(HistoryOf(tools, messages))
  {
    if messages != [] {
      HistoryIsSound(tools, messages[..|messages| - 1]);
      MessageIsSound(tools, HistoryOf(tools, messages[..|messages| - 1]), messages[|messages| - 1], |messages| - 1);
    }
  }

  /** In every serialized conversation each call is answered before the next turn and before the end. */
  lemma {:induction false} EveryCallIsAnswered(tools: Tools, messages: seq<Message>)
    ensures forall p :: 0 <= p < |Serialized(tools, messages)| && Serialized(tools, messages)[p].item.Call? ==>
              Answered(Serialized(tools, messages), p)
  {
    HistoryIsSound(tools, messages);
    AllAnswered(HistoryOf(tools, messages), |messages|);
  }

  // ---------------------------------------------------------------- counting outputs

  function OutputCount(items: seq<Placed>, callId: string): nat {
    if items == [] then 0
    else OutputCount(items[..|items| - 1], callId)
         + if items[|items| - 1].item.Output? && items[|items| - 1].item.callId == callId then 1 else 0
  }

  /** The tool results for a call id. */
  function ResultCount(messages: seq<Message>, callId: string): nat {
    if messages == [] then 0
    else ResultCount(messages[..|messages| - 1], callId)
         + var last := messages[|messages| - 1];
           if last.ToolResult? && CallId(last.toolCallId) == callId then 1 else 0
  }

  /** The pending ids for a call id. */
  function PendingCount(pending: seq<string>, callId: string): nat {
    if pending == [] then 0
    else PendingCount(pending[..|pending| - 1], callId) + if CallId(pending[|pending| - 1]) == callId then 1 else 0
  }

  /** The calls with a call id in the blocks, and in the messages that are not dropped. */
  function BlockCalls(blocks: seq<Block>, callId: string): nat {
    if blocks == [] then 0
    else BlockCalls(blocks[..|blocks| - 1], callId)
         + if blocks[|blocks| - 1].ToolCall? && CallId(blocks[|blocks| - 1].id) == callId then 1 else 0
  }

  function CallCount(messages: seq<Message>, callId: string): nat {
    if messages == [] then 0
    else CallCount(messages[..|messages| - 1], callId) + CallsIn(messages[|messages| - 1], callId)
  }

  function CallsIn(message: Message, callId: string): nat {
    if message.Assistant? && !message.failed then BlockCalls(message.blocks, callId) else 0
  }

  predicate IsTurn(message: Message) {
    message.User? || message.Assistant?
  }

  lemma {:induction false} OutputsConcat(a: seq<Placed>, b: seq<Placed>, callId: string)
    ensures OutputCount(a + b, callId) == OutputCount(a, callId) + OutputCount(b, callId)
    decreases |b|
  {
    if b == [] {
      assert a + b == a;
    } else {
      assert (a + b)[..|a + b| - 1] == a + b[..|b| - 1];
      OutputsConcat(a, b[..|b| - 1], callId);
    }
  }

  lemma {:induction false} FlushedOutputs(pending: seq<string>, at: nat, callId: string)
    ensures OutputCount(Flushed(pending, at), callId) == PendingCount(pending, callId)
  {
    if pending != [] {
      FlushedOutputs(pending[..|pending| - 1], at, callId);
      assert Flushed(pending, at)[..|pending| - 1] == Flushed(pending[..|pending| - 1], at);
    }
  }

  lemma {:induction false} OneOutput(placed: Placed, callId: string)
    ensures OutputCount([placed], callId) == if placed.item.Output? && placed.item.callId == callId then 1 else 0
  {
    assert [placed][..0] == [];
  }

  lemma {:induction false} BlocksHaveNoOutputs(history: History, blocks: seq<Block>, at: nat, callId: string)
    ensures OutputCount(WithBlocks(history, blocks, at).items, callId) == OutputCount(history.items, callId)
  {
    if blocks != [] {
      var before, block := WithBlocks(history, blocks[..|blocks| - 1], at), blocks[|blocks| - 1];
      BlocksHaveNoOutputs(history, blocks[..|blocks| - 1], at, callId);
      OutputsConcat(before.items, BlockItems(block, at), callId);
      if BlockItems(block, at) != [] {
        OneOutput(BlockItems(block, at)[0], callId);
        assert BlockItems(block, at) == [BlockItems(block, at)[0]];
      }
    }
  }

  /** A message adds one output per result, and a turn adds one per pending id. */
  lemma {:induction false} MessageOutputs(tools: Tools, history: History, message: Message, at: nat, callId: string)
    ensures OutputCount(WithMessage(tools, history, message, at).items, callId)
         == OutputCount(history.items, callId)
            + (if IsTurn(message) then PendingCount(history.pending, callId) else 0)
            + (if message.ToolResult? && CallId(message.toolCallId) == callId then 1 else 0)
  {
    var flushed := Flushed(history.pending, at);
    OutputsConcat(history.items, flushed, callId);
    FlushedOutputs(history.pending, at, callId);
    match message
    case User(parts) =>
      OutputsConcat(history.items + flushed, [Placed(UserItem(parts), at)], callId);
      OneOutput(Placed(UserItem(parts), at), callId);
    case Assistant(failed, blocks) =>
      BlocksHaveNoOutputs(History(history.items + flushed, []), blocks, at, callId);
    case ToolResult(id, output, addedTools) =>
      var added := Known(tools, addedTools);
      var answer := Placed(Output(CallId(id), output), at);
      var call := Placed(SearchCall(tools.loadId(id, added), added), at);
      var found := Placed(SearchOutput(tools.loadId(id, added), added), at);
      OutputsConcat(history.items, [answer], callId);
      OutputsConcat(history.items + [answer], [call, found], callId);
      OutputsConcat([call], [found], callId);
      assert [call] + [found] == [call, found];
      OneOutput(answer, callId);
      OneOutput(call, callId);
      OneOutput(found, callId);
    case OtherMessage =>
  }

  // ---------------------------------------------------------------- the fate of one call

  /** What happens first behind the call's message: a result for its id, a turn, or neither. */
  datatype Fate = Open | Resolved | Lapsed

  function FateOf(messages: seq<Message>, m: nat, id: string): Fate
    requires m < |messages|
    decreases |messages|
  {
    if m == |messages| - 1 then Open else
    var last := messages[|messages| - 1];
    var before := FateOf(messages[..|messages| - 1], m, id);
    if before != Open then before
    else if IsTurn(last) then Lapsed
    else if last.ToolResult? && last.toolCallId == id then Resolved
    else Open
  }

  ghost predicate ResultBeforeTurn(messages: seq<Message>, m: nat, id: string) {
    exists n :: m < n < |messages| && messages[n].ToolResult? && messages[n].toolCallId == id
                && forall j :: m < j < n ==> !IsTurn(messages[j])
  }

  ghost predicate TurnAfter(messages: seq<Message>, m: nat) {
    exists n :: m < n < |messages| && IsTurn(messages[n])
  }

  /** A call is resolved when a result for its id comes before the next turn. */
  lemma {:induction false} FateMeans(messages: seq<Message>, m: nat, id: string)
    requires m < |messages|
    ensures FateOf(messages, m, id) == Resolved <==> ResultBeforeTurn(messages, m, id)
    ensures FateOf(messages, m, id) == Open ==> !TurnAfter(messages, m)
    ensures FateOf(messages, m, id) == Lapsed ==> TurnAfter(messages, m)
    decreases |messages|
  {
    if m < |messages| - 1 {
      var front, k := messages[..|messages| - 1], |messages| - 1;
      FateMeans(front, m, id);
      if ResultBeforeTurn(front, m, id) {
        var n :| && m < n < |front| && front[n].ToolResult? && front[n].toolCallId == id
                 && forall j :: m < j < n ==> !IsTurn(front[j]);
        assert messages[n] == front[n];
      }
      if TurnAfter(front, m) {
        var n :| m < n < |front| && IsTurn(front[n]);
        assert messages[n] == front[n];
      }
      assert forall j :: m < j < k ==> front[j] == messages[j];
      if ResultBeforeTurn(messages, m, id) {
        var n :| && m < n < |messages| && messages[n].ToolResult? && messages[n].toolCallId == id
                 && forall j :: m < j < n ==> !IsTurn(messages[j]);
        assert n < k ==> front[n] == messages[n];
      }
    }
  }

  lemma {:induction false} PendingConcat(a: seq<string>, b: seq<string>, callId: string)
    ensures PendingCount(a + b, callId) == PendingCount(a, callId) + PendingCount(b, callId)
    decreases |b|
  {
    if b == [] {
      assert a + b == a;
    } else {
      assert (a + b)[..|a + b| - 1] == a + b[..|b| - 1];
      PendingConcat(a, b[..|b| - 1], callId);
    }
  }

  /** Nobody waits under the call id. */
  lemma {:induction false} NonePending(pending: seq<string>, callId: string)
    ensures PendingCount(pending, callId) == 0 <==> forall x :: x in pending ==> CallId(x) != callId
  {
    if pending != [] {
      var n := |pending| - 1;
      NonePending(pending[..n], callId);
      assert pending == pending[..n] + [pending[n]];
      assert pending[n] in pending && forall x :: x in pending <==> x in pending[..n] || x == pending[n];
    }
  }

  /** The id of a block with the call id, if there is one. */
  ghost predicate Calls(blocks: seq<Block>, id: string) {
    exists b :: 0 <= b < |blocks| && blocks[b].ToolCall? && blocks[b].id == id
  }

  lemma {:induction false} SomeCall(blocks: seq<Block>, id: string)
    requires Calls(blocks, id)
    ensures BlockCalls(blocks, CallId(id)) > 0
  {
    var b :| 0 <= b < |blocks| && blocks[b].ToolCall? && blocks[b].id == id;
    if b < |blocks| - 1 {
      assert blocks[..|blocks| - 1][b] == blocks[b];
      SomeCall(blocks[..|blocks| - 1], id);
    }
  }

  /** Blocks without the call id leave its pending count alone; one block adds its id. */
  lemma {:induction false} BlocksPending(history: History, blocks: seq<Block>, at: nat, callId: string)
    requires PendingCount(history.pending, callId) == 0 && BlockCalls(blocks, callId) <= 1
    ensures PendingCount(WithBlocks(history, blocks, at).pending, callId) == BlockCalls(blocks, callId)
    ensures forall x :: x in WithBlocks(history, blocks, at).pending && CallId(x) == callId ==> Calls(blocks, x)
  {
    if blocks == [] {
      NonePending(history.pending, callId);
    } else {
      var front, block := blocks[..|blocks| - 1], blocks[|blocks| - 1];
      BlocksPending(history, front, at, callId);
      var pending := WithBlocks(history, front, at).pending;
      forall x | Calls(front, x) ensures Calls(blocks, x) {
        var b :| 0 <= b < |front| && front[b].ToolCall? && front[b].id == x;
        assert blocks[b] == front[b];
      }
      if block.ToolCall? {
        assert blocks[|blocks| - 1].id == block.id;
        NonePending(pending, callId);
        PendingConcat(pending, [block.id], callId);
        assert PendingCount([block.id], callId) == (if CallId(block.id) == callId then 1 else 0) by {
          assert [block.id][..0] == [];
        }
      }
    }
  }

  lemma {:induction false} WithoutOther(pending: seq<string>, id: string, callId: string)
    requires forall x :: x in pending && CallId(x) == callId ==> x != id
    ensures PendingCount(Without(pending, id), callId) == PendingCount(pending, callId)
  {
    if pending != [] {
      WithoutOther(pending[1..], id, callId);
      assert pending == [pending[0]] + pending[1..];
      PendingConcat([pending[0]], pending[1..], callId);
      PendingConcat([pending[0]], Without(pending[1..], id), callId);
      assert [pending[0]][..0] == [];
    }
  }

  lemma {:induction false} WithoutIt(pending: seq<string>, id: string)
    requires forall x :: x in pending && CallId(x) == CallId(id) ==> x == id
    ensures PendingCount(Without(pending, id), CallId(id)) == 0
  {
    WithoutMembers(pending, id);
    NonePending(Without(pending, id), CallId(id));
  }

  lemma {:induction false} CallCountGrows(messages: seq<Message>, m: nat, callId: string)
    requires m < |messages|
    ensures CallCount(messages[..m], callId) + CallsIn(messages[m], callId) <= CallCount(messages, callId)
    decreases |messages|
  {
    if m == |messages| - 1 {
    } else {
      assert messages[..|messages| - 1][..m] == messages[..m];
      CallCountGrows(messages[..|messages| - 1], m, callId);
    }
  }

  /** Before its call, an id is neither pending nor answered by a flush. */
  lemma {:induction false} BeforeTheCall(tools: Tools, messages: seq<Message>, callId: string)
    requires CallCount(messages, callId) == 0
    ensures var history := HistoryOf(tools, messages);
            && PendingCount(history.pending, callId) == 0
            && OutputCount(history.items, callId) == ResultCount(messages, callId)
  {
    if messages != [] {
      var front, last, at := messages[..|messages| - 1], messages[|messages| - 1], |messages| - 1;
      var before := HistoryOf(tools, front);
      BeforeTheCall(tools, front, callId);
      MessageOutputs(tools, before, last, at, callId);
      if last.Assistant? && !last.failed {
        BlocksPending(History(before.items + Flushed(before.pending, at), []), last.blocks, at, callId);
      } else if last.ToolResult? {
        NonePending(before.pending, callId);
        WithoutMembers(before.pending, last.toolCallId);
        NonePending(Without(before.pending, last.toolCallId), callId);
      }
    }
  }

  ghost predicate IsOnlyCall(messages: seq<Message>, m: nat, id: string) {
    && m < |messages| && messages[m].Assistant? && !messages[m].failed && Calls(messages[m].blocks, id)
    && CallCount(messages, CallId(id)) == 1
  }

  /** The message with the call. */
  lemma {:induction false} AtTheCall(tools: Tools, front: seq<Message>, blocks: seq<Block>, id: string)
    requires CallCount(front, CallId(id)) == 0 && Calls(blocks, id) && BlockCalls(blocks, CallId(id)) == 1
    ensures var history := WithMessage(tools, HistoryOf(tools, front), Assistant(false, blocks), |front|);
            && (forall x :: x in history.pending && CallId(x) == CallId(id) ==> x == id)
            && PendingCount(history.pending, CallId(id)) == 1
            && OutputCount(history.items, CallId(id)) == ResultCount(front, CallId(id))
  {
    var before, at := HistoryOf(tools, front), |front|;
    var flushed := History(before.items + Flushed(before.pending, at), []);
    BeforeTheCall(tools, front, CallId(id));
    MessageOutputs(tools, before, Assistant(false, blocks), at, CallId(id));
    BlocksPending(flushed, blocks, at, CallId(id));
    forall x | x in WithBlocks(flushed, blocks, at).pending && CallId(x) == CallId(id) ensures x == id {
      OneCall(blocks, x, id);
    }
  }

  /** The outputs and the pending ids of a call, by its fate. */
  lemma {:induction false} FateDecides(tools: Tools, messages: seq<Message>, m: nat, id: string)
    requires IsOnlyCall(messages, m, id)
    ensures var history, fate := HistoryOf(tools, messages), FateOf(messages, m, id);
            && (forall x :: x in history.pending && CallId(x) == CallId(id) ==> x == id)
            && PendingCount(history.pending, CallId(id)) == (if fate == Open then 1 else 0)
            && OutputCount(history.items, CallId(id))
                 == ResultCount(messages, CallId(id)) + (if fate == Lapsed then 1 else 0)
    decreases |messages|
  {
    var front, last, at, callId := messages[..|messages| - 1], messages[|messages| - 1], |messages| - 1, CallId(id);
    var before := HistoryOf(tools, front);
    SomeCall(messages[m].blocks, id);
    CallCountGrows(messages, m, callId);
    hide WithMessage, Calls, BlockCalls, Serialized;
    if m == at {
      AtTheCall(tools, front, last.blocks, id);
      assert last == Assistant(false, last.blocks);
    } else {
      assert front[m] == messages[m];
      CallCountGrows(front, m, callId);
      FateDecides(tools, front, m, id);
      MessageOutputs(tools, before, last, at, callId);
      AfterTheCall(tools, before, last, at, id);
    }
  }

  lemma {:induction false} OneCall(blocks: seq<Block>, x: string, y: string)
    requires Calls(blocks, x) && Calls(blocks, y) && CallId(x) == CallId(y) && BlockCalls(blocks, CallId(x)) <= 1
    ensures x == y
  {
    var n := |blocks| - 1;
    var front := blocks[..n];
    var b :| 0 <= b < |blocks| && blocks[b].ToolCall? && blocks[b].id == x;
    var c :| 0 <= c < |blocks| && blocks[c].ToolCall? && blocks[c].id == y;
    assert b < n ==> front[b] == blocks[b];
    assert c < n ==> front[c] == blocks[c];
    if b < n { SomeCall(front, x); }
    if c < n { SomeCall(front, y); }
    if b < n && c < n {
      OneCall(front, x, y);
    }
  }

  /** A message without further calls of the id. */
  lemma {:induction false} AfterTheCall(tools: Tools, before: History, last: Message, at: nat, id: string)
    requires CallsIn(last, CallId(id)) == 0
    requires forall x :: x in before.pending && CallId(x) == CallId(id) ==> x == id
    ensures var pending := WithMessage(tools, before, last, at).pending;
            && (forall x :: x in pending && CallId(x) == CallId(id) ==> x == id)
            && PendingCount(pending, CallId(id)) ==
                 if IsTurn(last) || (last.ToolResult? && last.toolCallId == id) then 0
                 else PendingCount(before.pending, CallId(id))
  {
    var callId := CallId(id);
    match last
    case User(_) =>
    case Assistant(failed, blocks) =>
      if !failed {
        var flushed := History(before.items + Flushed(before.pending, at), []);
        BlocksPending(flushed, blocks, at, callId);
        NonePending(WithBlocks(flushed, blocks, at).pending, callId);
      }
    case ToolResult(other, _, _) =>
      WithoutMembers(before.pending, other);
      if other == id {
        WithoutIt(before.pending, id);
      } else {
        WithoutOther(before.pending, other, callId);
      }
    case OtherMessage =>
  }

  /**
   A call whose call id no other call has is answered by each result for that call id, and once more
   exactly when no result for its own id comes before the next turn.
   */
  lemma {:induction false} OutputsOfACall(tools: Tools, messages: seq<Message>, m: nat, id: string)
    requires IsOnlyCall(messages, m, id)
    ensures OutputCount(Serialized(tools, messages), CallId(id))
         == ResultCount(messages, CallId(id)) + if ResultBeforeTurn(messages, m, id) then 0 else 1
  {
    var history := HistoryOf(tools, messages);
    FateDecides(tools, messages, m, id);
    FateMeans(messages, m, id);
    OutputsConcat(history.items, Flushed(history.pending, |messages|), CallId(id));
    FlushedOutputs(history.pending, |messages|, CallId(id));
  }

  /** Such a call has exactly one output if and only if its one result comes in time, or there is none. */
  lemma {:induction false} AnsweredOnceIff(tools: Tools, messages: seq<Message>, m: nat, id: string)
    requires IsOnlyCall(messages, m, id)
    ensures OutputCount(Serialized(tools, messages), CallId(id)) == 1
       <==> ResultCount(messages, CallId(id)) == if ResultBeforeTurn(messages, m, id) then 1 else 0
  {
    OutputsOfACall(tools, messages, m, id);
  }
}
