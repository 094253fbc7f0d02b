/**
 Cutting an event stream into blocks at empty lines while it arrives in chunks. CR LF counts as LF,
 a subset of event stream framing (section 9.2.6 of the HTML Standard).
 */
module SseSplit {
  import opened Options

  datatype Frames = Frames(blocks: seq<string>, rest: string)

  /** JavaScript's replacement of every CR LF by LF. */
  function ToLf(text: string): string {
    if text == "" then ""
    else if text[0] == '\r' && |text| > 1 && text[1] == '\n' then "\n" + ToLf(text[2..])
    else [text[0]] + ToLf(text[1..])
  }

  predicate EmptyLineAt(text: string, i: nat) {
    i + 1 < |text| && text[i] == '\n' && text[i + 1] == '\n'
  }

  /** The first position of two line feeds. */
  function Boundary(text: string, from: nat): (boundary: Option<nat>)
    ensures boundary.Some? ==> from <= boundary.value && EmptyLineAt(text, boundary.value)
    ensures forall i :: from <= i && (boundary.None? || i < boundary.value) ==> !EmptyLineAt(text, i)
    decreases |text| - from
  {
    if from + 1 >= |text| then None
    else if EmptyLineAt(text, from) then Some(from)
    else Boundary(text, from + 1)
  }

  function Frame(text: string): Frames
    decreases |text|
  {
    var boundary := Boundary(text, 0);
    if boundary.None? then Frames([], text) else
    var tail := Frame(text[boundary.value + 2..]);
    Frames([text[..boundary.value]] + tail.blocks, tail.rest)
  }

  /** What one read does to the blocks and the buffer. */
  function Receive(frames: Frames, chunk: string): Frames {
    var next := Frame(ToLf(frames.rest + chunk));
    Frames(frames.blocks + next.blocks, next.rest)
  }

  function Received(chunks: seq<string>): Frames {
    if chunks == [] then Frames([], "") else Receive(Received(chunks[..|chunks| - 1]), chunks[|chunks| - 1])
  }

  /** The read loop; the last chunk is what the decoder flushes. */
  method SplitStream(chunks: seq<string>) returns (blocks: seq<string>, buffer: string)
    ensures Frames(blocks, buffer) == Received(chunks)
  {
    blocks, buffer := [], "";
    for i := 0 to |chunks|
      invariant Frames(blocks, buffer) == Received(chunks[..i])
    {
      assert chunks[..i + 1][..i] == chunks[..i];
      ghost var before := Frames(blocks, buffer);
      buffer := ToLf(buffer + chunks[i]);
      ghost var start := buffer;
      var boundary := Boundary(buffer, 0);
      while boundary.Some?
        invariant boundary == Boundary(buffer, 0)
        invariant before.blocks + Frame(start).blocks == blocks + Frame(buffer).blocks
        invariant Frame(start).rest == Frame(buffer).rest
        decreases |buffer|
      {
        blocks := blocks + [buffer[..boundary.value]];
        buffer := buffer[boundary.value + 2..];
        boundary := Boundary(buffer, 0);
      }
    }
    assert chunks[..|chunks|] == chunks;
  }

  // ---------------------------------------------------------------- what the blocks are

  function Closed(blocks: seq<string>): string {
    if blocks == [] then "" else blocks[0] + "\n\n" + Closed(blocks[1..])
  }

  /** A text whose first empty line ends the block. */
  ghost predicate IsBlock(block: string) {
    forall i :: !EmptyLineAt(block + "\n", i)
  }

  lemma {:induction false} ClosedPrepend(block: string, blocks: seq<string>)
    ensures Closed([block] + blocks) == block + "\n\n" + Closed(blocks)
  {
    assert ([block] + blocks)[1..] == blocks;
  }

  lemma {:induction false} CutBlock(text: string, b: nat)
    requires EmptyLineAt(text, b) && forall i :: 0 <= i < b ==> !EmptyLineAt(text, i)
    ensures text == text[..b] + "\n\n" + text[b + 2..] && IsBlock(text[..b])
  {
    forall i ensures !EmptyLineAt(text[..b] + "\n", i) {
      assert EmptyLineAt(text[..b] + "\n", i) ==> EmptyLineAt(text, i);
    }
  }

  /** The blocks make up the text, and each ends at its first empty line. */
  lemma {:induction false} FrameIsExact(text: string)
    ensures IsExact(text, Frame(text))
    decreases |text|
  {
    var boundary := Boundary(text, 0);
    if boundary.None? {
      WholeIsExact(text);
      return;
    }
    var b := boundary.value;
    CutBlock(text, b);
    FrameIsExact(text[b + 2..]);
    BlockIsExact(text[..b], text[b + 2..], Frame(text[b + 2..]));
    hide IsExact, EmptyLineAt, IsBlock, Closed;
  }

  ghost predicate IsExact(text: string, frames: Frames) {
    && text == Closed(frames.blocks) + frames.rest
    && (forall i :: !EmptyLineAt(frames.rest, i))
    && (forall k :: 0 <= k < |frames.blocks| ==> IsBlock(frames.blocks[k]))
  }

  lemma {:induction false} WholeIsExact(text: string)
    requires forall i :: !EmptyLineAt(text, i)
    ensures IsExact(text, Frames([], text))
  {
    assert Closed([]) + text == text;
  }

  lemma {:induction false} BlockIsExact(block: string, text: string, tail: Frames)
    requires IsBlock(block) && IsExact(text, tail)
    ensures IsExact(block + "\n\n" + text, Frames([block] + tail.blocks, tail.rest))
  {
    ClosedPrepend(block, tail.blocks);
    hide Closed, IsBlock, EmptyLineAt;
    Regroup(block + "\n\n", Closed(tail.blocks), tail.rest);
  }

  lemma {:induction false} Regroup(a: string, b: string, c: string)
    ensures a + b + c == a + (b + c)
  {
  }

  // ---------------------------------------------------------------- line ends

  ghost predicate NoCrLf(text: string) {
    forall i :: 0 <= i && i + 1 < |text| ==> !(text[i] == '\r' && text[i + 1] == '\n')
  }

  ghost predicate NoCrCrLf(text: string) {
    forall i :: 0 <= i && i + 2 < |text| ==> !(text[i] == '\r' && text[i + 1] == '\r' && text[i + 2] == '\n')
  }

  /** Neither part of a CR LF is on either side of the cut. */
  predicate CleanCut(a: string, b: string) {
    a == "" || b == "" || a[|a| - 1] != '\r' || b[0] != '\n'
  }

  lemma {:induction false} ToLfPair(rest: string)
    ensures ToLf("\r\n" + rest) == "\n" + ToLf(rest)
  {
    assert ("\r\n" + rest)[2..] == rest;
  }

  lemma {:induction false} ToLfOther(c: char, rest: string)
    requires CleanCut([c], rest)
    ensures ToLf([c] + rest) == [c] + ToLf(rest)
  {
    assert ([c] + rest)[1..] == rest;
  }

  lemma {:induction false} ToLfConcat(a: string, b: string)
    requires CleanCut(a, b)
    ensures ToLf(a + b) == ToLf(a) + ToLf(b)
    decreases |a|
  {
    if a == "" {
      assert a + b == b;
      assert ToLf(a) == "";
      return;
    }
    hide ToLf;
    if a[0] == '\r' && |a| > 1 && a[1] == '\n' {
      var rest := a[2..];
      assert a == "\r\n" + rest && a + b == "\r\n" + (rest + b);
      ToLfConcat(rest, b);
      ToLfPair(rest);
      ToLfPair(rest + b);
    } else {
      var c, rest := a[0], a[1..];
      assert a == [c] + rest && a + b == [c] + (rest + b);
      ToLfConcat(rest, b);
      ToLfOther(c, rest);
      ToLfOther(c, rest + b);
    }
  }

  lemma {:induction false} ToLfFixed(text: string)
    requires NoCrLf(text)
    ensures ToLf(text) == text
  {
    if text != "" {
      assert text == [text[0]] + text[1..];
      ToLfFixed(text[1..]);
    }
  }

  lemma {:induction false} ToLfEnds(text: string)
    requires text != ""
    ensures ToLf(text) != "" && (ToLf(text)[|ToLf(text)| - 1] == '\r' <==> text[|text| - 1] == '\r')
    ensures ToLf(text)[0] == '\n' <==> text[0] == '\n' || (|text| > 1 && text[0] == '\r' && text[1] == '\n')
  {
    if text[0] == '\r' && |text| > 1 && text[1] == '\n' {
      if |text| > 2 { ToLfEnds(text[2..]); }
    } else if |text| > 1 {
      ToLfEnds(text[1..]);
    }
  }

  lemma {:induction false} ToLfIsClean(text: string)
    requires NoCrCrLf(text)
    ensures NoCrLf(ToLf(text))
  {
    if |text| > 1 {
      if text[0] == '\r' && text[1] == '\n' {
        assert forall i :: 0 <= i && i + 2 < |text[2..]| ==> text[2..][i] == text[i + 2];
        ToLfIsClean(text[2..]);
      } else {
        ToLfIsClean(text[1..]);
        ToLfEnds(text[1..]);
      }
    }
  }

  lemma {:induction false} NoCrCrLfParts(a: string, b: string)
    requires NoCrCrLf(a + b)
    ensures NoCrCrLf(a) && NoCrCrLf(b)
  {
    forall i | 0 <= i && i + 2 < |a| ensures !(a[i] == '\r' && a[i + 1] == '\r' && a[i + 2] == '\n') {
      assert (a + b)[i] == a[i] && (a + b)[i + 1] == a[i + 1] && (a + b)[i + 2] == a[i + 2];
    }
    forall i | 0 <= i && i + 2 < |b| ensures !(b[i] == '\r' && b[i + 1] == '\r' && b[i + 2] == '\n') {
      assert (a + b)[|a| + i] == b[i] && (a + b)[|a| + i + 1] == b[i + 1] && (a + b)[|a| + i + 2] == b[i + 2];
    }
  }

  /** Normalizing what is already read and then the rest is normalizing everything. */
  lemma {:induction false} ToLfOfRead(text: string, chunk: string)
    requires NoCrCrLf(text + chunk)
    ensures ToLf(ToLf(text) + chunk) == ToLf(text + chunk)
  {
    NoCrCrLfParts(text, chunk);
    if CleanCut(text, chunk) {
      if text != "" { ToLfEnds(text); }
      ToLfIsClean(text);
      ToLfFixed(ToLf(text));
      ToLfConcat(text, chunk);
      ToLfConcat(ToLf(text), chunk);
    } else {
      var front, tail := text[..|text| - 1], "\r" + chunk;
      assert text == front + "\r";
      assert text + chunk == front + tail;
      NoCrCrLfParts(front, "\r");
      ToLfConcat(front, "\r");
      assert ToLf("\r") == "\r" + ToLf("\r"[1..]);
      assert ToLf(text) + chunk == ToLf(front) + tail;
      ToLfIsClean(front);
      ToLfFixed(ToLf(front));
      ToLfConcat(front, tail);
      ToLfConcat(ToLf(front), tail);
    }
  }

  // ---------------------------------------------------------------- chunking

  lemma {:induction false} BlockIsFramed(block: string, more: string)
    requires IsBlock(block)
    ensures Frame(block + "\n\n" + more) == Frames([block] + Frame(more).blocks, Frame(more).rest)
  {
    var all, b := block + "\n\n" + more, |block|;
    forall i | 0 <= i < b ensures !EmptyLineAt(all, i) {
      assert EmptyLineAt(all, i) <==> EmptyLineAt(block + "\n", i);
    }
    assert EmptyLineAt(all, b);
    assert Boundary(all, 0) == Some(b);
    assert all[..b] == block && all[b + 2..] == more;
  }

  /** Framing gives back closed blocks. */
  lemma {:induction false} ClosedIsFramed(blocks: seq<string>, more: string)
    requires forall k :: 0 <= k < |blocks| ==> IsBlock(blocks[k])
    ensures Frame(Closed(blocks) + more) == Frames(blocks + Frame(more).blocks, Frame(more).rest)
  {
    hide IsBlock, Frame;
    if blocks == [] {
      assert Closed(blocks) + more == more;
      assert blocks + Frame(more).blocks == Frame(more).blocks;
    } else {
      var tail := Closed(blocks[1..]) + more;
      ClosedIsFramed(blocks[1..], more);
      BlockIsFramed(blocks[0], tail);
      assert Closed(blocks) + more == blocks[0] + "\n\n" + tail;
      assert [blocks[0]] + (blocks[1..] + Frame(more).blocks) == blocks + Frame(more).blocks;
    }
  }

  lemma {:induction false} ClosedEnds(blocks: seq<string>)
    ensures blocks != [] ==> Closed(blocks) != "" && Closed(blocks)[|Closed(blocks)| - 1] == '\n'
  {
    if blocks != [] {
      ClosedEnds(blocks[1..]);
    }
  }

  /** One more read frames the whole text read so far. */
  lemma {:induction false} ReceiveFrames(text: string, chunk: string)
    requires NoCrCrLf(text + chunk)
    ensures Receive(Frame(ToLf(text)), chunk) == Frame(ToLf(text + chunk))
  {
    var read := ToLf(text);
    var frames := Frame(read);
    var closed := Closed(frames.blocks);
    NoCrCrLfParts(text, chunk);
    ToLfIsClean(text);
    ToLfOfRead(text, chunk);
    FrameIsExact(read);
    assert read == closed + frames.rest;
    assert read + chunk == closed + (frames.rest + chunk);
    ClosedEnds(frames.blocks);
    assert NoCrLf(closed) by {
      forall i | 0 <= i && i + 1 < |closed| ensures !(closed[i] == '\r' && closed[i + 1] == '\n') {
        assert read[i] == closed[i] && read[i + 1] == closed[i + 1];
      }
    }
    ToLfFixed(closed);
    ToLfConcat(closed, frames.rest + chunk);
    ClosedIsFramed(frames.blocks, ToLf(frames.rest + chunk));
  }

  function Flat(chunks: seq<string>): string {
    if chunks == [] then "" else Flat(chunks[..|chunks| - 1]) + chunks[|chunks| - 1]
  }

  /** Without CR CR LF, the blocks are those of the whole text. */
  lemma {:induction false} ReceivedIsFramed(chunks: seq<string>)
    requires NoCrCrLf(Flat(chunks))
    ensures Received(chunks) == Frame(ToLf(Flat(chunks)))
  {
    if chunks != [] {
      var front := chunks[..|chunks| - 1];
      NoCrCrLfParts(Flat(front), chunks[|chunks| - 1]);
      ReceivedIsFramed(front);
      ReceiveFrames(Flat(front), chunks[|chunks| - 1]);
    }
  }

  lemma {:induction false} ReceivedOne(chunk: string)
    ensures Received([chunk]) == Frame(ToLf(chunk))
  {
    assert [chunk][..0] == [];
    assert "" + chunk == chunk;
    assert [] + Frame(ToLf(chunk)).blocks == Frame(ToLf(chunk)).blocks;
  }

  lemma {:induction false} ReceivedTwo(first: string, second: string)
    ensures var before := Frame(ToLf(first)); var after := Frame(ToLf(before.rest + second));
            Received([first, second]) == Frames(before.blocks + after.blocks, after.rest)
  {
    assert [first, second][..1] == [first];
    ReceivedOne(first);
  }

  // ---------------------------------------------------------------- when chunking is irrelevant

  /** The characters that have been read, but for the carriage returns dropped. */
  function Text(frames: Frames): string {
    Closed(frames.blocks) + frames.rest
  }

  lemma {:induction false} ToLfShrinks(text: string)
    ensures |ToLf(text)| <= |text|
    ensures !NoCrLf(text) ==> |ToLf(text)| < |text|
  {
    if text == "" {
      assert NoCrLf(text);
    } else if text[0] == '\r' && |text| > 1 && text[1] == '\n' {
      ToLfShrinks(text[2..]);
    } else {
      ToLfShrinks(text[1..]);
      assert forall i :: 0 <= i && i + 1 < |text[1..]| ==> text[1..][i] == text[i + 1];
    }
  }

  lemma {:induction false} ClosedConcat(a: seq<string>, b: seq<string>)
    ensures Closed(a + b) == Closed(a) + Closed(b)
  {
    if a == [] {
      assert a + b == b;
    } else {
      assert (a + b)[1..] == a[1..] + b;
      ClosedConcat(a[1..], b);
    }
  }

  /** A read drops carriage returns in the buffer and the chunk only. */
  lemma {:induction false} ReceiveText(frames: Frames, chunk: string)
    ensures Text(Receive(frames, chunk)) == Closed(frames.blocks) + ToLf(frames.rest + chunk)
  {
    var read := ToLf(frames.rest + chunk);
    FrameIsExact(read);
    ClosedConcat(frames.blocks, Frame(read).blocks);
  }

  /** Of CR CR LF a read leaves CR LF. */
  lemma {:induction false} CrCrLfLeaves(front: string) returns (x: string)
    ensures ToLf(front + "\r\r\n") == x + "\r\n"
  {
    var cut := front + "\r";
    assert front + "\r\r\n" == cut + "\r\n";
    ToLfConcat(cut, "\r\n");
    assert "\r\n" + "" == "\r\n";
    ToLfPair("");
    ToLfEnds(cut);
    hide ToLf;
    var y := ToLf(cut);
    x := y[..|y| - 1];
    assert y == x + "\r";
    assert x + "\r" + "\n" == x + "\r\n";
  }

  lemma {:induction false} ClosedEndsTwice(blocks: seq<string>)
    ensures blocks != [] ==> |Closed(blocks)| >= 2 && EmptyLineAt(Closed(blocks), |Closed(blocks)| - 2)
    ensures blocks == [] ==> Closed(blocks) == ""
  {
    if blocks != [] {
      ClosedEndsTwice(blocks[1..]);
    }
  }

  lemma {:induction false} EqualTails(a: string, b: string, x: string, tail: string)
    requires a + b == x + tail
    requires |a| > |x| ==> |a| >= 2 && EmptyLineAt(a, |a| - 2)
    requires tail == "\r\n"
    ensures |b| >= 2 && b[|b| - 2] == '\r' && b[|b| - 1] == '\n'
  {
    var all := a + b;
    assert all[|x|] == '\r' && all[|x| + 1] == '\n' && |all| == |x| + 2;
    assert |a| >= 2 ==> all[|a| - 2] == a[|a| - 2] && all[|a| - 1] == a[|a| - 1];
    assert |a| <= |x|;
    assert all[|x|] == b[|x| - |a|] && all[|x| + 1] == b[|x| + 1 - |a|];
  }

  /** A CR LF at the end stays in the buffer. */
  lemma {:induction false} CrLfStays(x: string)
    ensures var rest := Frame(x + "\r\n").rest; |rest| >= 2 && rest[|rest| - 2] == '\r' && rest[|rest| - 1] == '\n'
  {
    hide Frame, Closed;
    var frames := Frame(x + "\r\n");
    FrameIsExact(x + "\r\n");
    ClosedEndsTwice(frames.blocks);
    EqualTails(Closed(frames.blocks), frames.rest, x, "\r\n");
  }

  /** The buffer that a read leaves makes the difference to what the next read keeps. */
  lemma {:induction false} SecondRead(a: string, b: string)
    requires a != "" && CleanCut(a, b)
    requires var rest := Frame(ToLf(a)).rest; rest != "" && CleanCut(rest, b) && !NoCrLf(rest)
    ensures |Text(Received([a, b]))| < |Text(Received([a + b]))|
  {
    hide NoCrLf, Closed, Frame, ToLf, Received, Flat, CleanCut, EmptyLineAt;
    var closed, rest := Closed(Frame(ToLf(a)).blocks), Frame(ToLf(a)).rest;
    FrameIsExact(ToLf(a));
    FrameIsExact(ToLf(a + b));
    TwoReads(a, b);
    ReceivedOne(a + b);
    ToLfShrinks(rest);
    ToLfConcat(a, b);
    ToLfConcat(rest, b);
  }

  /** Cutting a text right behind a CR CR LF drops a carriage return more than reading it at once. */
  lemma {:induction false} CutDropsMore(front: string, more: string)
    ensures var t := front + "\r\r\n"; |Text(Received([t, more]))| < |Text(Received([t + more]))|
  {
    hide Frame, Received, Flat;
    var t := front + "\r\r\n";
    var x := CrCrLfLeaves(front);
    CrLfStays(x);
    hide ToLf;
    SecondRead(t, more);
  }

  lemma {:induction false} TwoReads(a: string, b: string)
    ensures Text(Received([a, b])) == Closed(Frame(ToLf(a)).blocks) + ToLf(Frame(ToLf(a)).rest + b)
  {
    assert [a, b][..1] == [a];
    ReceivedOne(a);
    ReceiveText(Frame(ToLf(a)), b);
  }

  lemma {:induction false} CrCrLfAt(text: string) returns (front: string, more: string)
    requires !NoCrCrLf(text)
    ensures text == front + "\r\r\n" + more
  {
    var i :| 0 <= i && i + 2 < |text| && text[i] == '\r' && text[i + 1] == '\r' && text[i + 2] == '\n';
    front, more := text[..i], text[i + 3..];
  }

  lemma {:induction false} FlatOfOne(a: string)
    ensures Flat([a]) == a
  {
    assert [a][..0] == [];
    assert "" + a == a;
  }

  lemma {:induction false} FlatSnoc(chunks: seq<string>, chunk: string)
    ensures Flat(chunks + [chunk]) == Flat(chunks) + chunk
  {
    assert (chunks + [chunk])[..|chunks|] == chunks;
  }

  /** How a text is cut into chunks does not matter exactly when it has no CR CR LF. */
  lemma {:induction false} ChunkingIsIrrelevantIff(text: string)
    ensures NoCrCrLf(text)
       <==> forall a, b :: Flat(a) == text && Flat(b) == text ==> Received(a) == Received(b)
  {
    hide Flat, Received, Text;
    if NoCrCrLf(text) {
      forall a, b | Flat(a) == text && Flat(b) == text ensures Received(a) == Received(b) {
        ReceivedIsFramed(a);
        ReceivedIsFramed(b);
      }
    } else {
      var front, more := CrCrLfAt(text);
      var t := front + "\r\r\n";
      CutDropsMore(front, more);
      FlatOfOne(t);
      FlatSnoc([t], more);
      FlatOfOne(text);
      assert [t] + [more] == [t, more];
      assert Flat([t, more]) == text && Flat([text]) == text;
    }
  }
}
