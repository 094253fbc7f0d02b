/**
 The read loop ends by flushing the decoder, which normalizes what is left in the buffer once more.
 Here is when the chunks of a stream that ends this way do not matter.
 */
module SseFlush {
  import opened SseSplit

  function Flushed(chunks: seq<string>): Frames {
    Received(chunks + [""])
  }

  /**
   Read at once, no closed block keeps a CR LF, and one more normalization clears the buffer. A line feed
   with a closed block around it has at most one carriage return before it, any other at most two.
   */
  ghost predicate Settles(text: string) {
    var frames := Frame(ToLf(text));
    NoCrLf(Closed(frames.blocks)) && NoCrLf(ToLf(frames.rest))
  }

  // ---------------------------------------------------------------- all carriage returns dropped

  /** Carriage returns that lead to a line feed. */
  predicate LeadsToLf(text: string) {
    text != "" && (text[0] == '\n' || (text[0] == '\r' && LeadsToLf(text[1..])))
  }

  /** The text without any carriage return that leads to a line feed. */
  function Bare(text: string): string {
    if text == "" then ""
    else if text[0] == '\r' && LeadsToLf(text) then Bare(text[1..])
    else [text[0]] + Bare(text[1..])
  }

  lemma {:induction false} BareCons(c: char, rest: string)
    ensures LeadsToLf([c] + rest) <==> c == '\n' || (c == '\r' && LeadsToLf(rest))
    ensures Bare([c] + rest) == if c == '\r' && LeadsToLf(rest) then Bare(rest) else [c] + Bare(rest)
  {
    assert ([c] + rest)[1..] == rest;
  }

  lemma {:induction false} Uncons(text: string, more: string)
    requires text != ""
    ensures text == [text[0]] + text[1..] && text + more == [text[0]] + (text[1..] + more)
  {
  }

  /** A normalization or more of the front is no difference. */
  lemma {:induction false} BareOfNormalized(text: string, more: string)
    ensures LeadsToLf(ToLf(text) + more) == LeadsToLf(text + more)
    ensures Bare(ToLf(text) + more) == Bare(text + more)
    decreases |text|
  {
    if text == "" {
      assert ToLf(text) + more == text + more;
      return;
    }
    Uncons(text, more);
    if text[0] == '\r' && |text| > 1 && text[1] == '\n' {
      var rest := text[2..];
      Uncons(text[1..], more);
      BareOfNormalized(rest, more);
      hide ToLf, Bare, LeadsToLf;
      ToLfPair(rest);
      assert text == "\r\n" + rest;
      assert ToLf(text) + more == ['\n'] + (ToLf(rest) + more);
      assert text + more == ['\r'] + (['\n'] + (rest + more));
      BareCons('\n', ToLf(rest) + more);
      BareCons('\n', rest + more);
      BareCons('\r', ['\n'] + (rest + more));
    } else {
      var c, rest := text[0], text[1..];
      BareOfNormalized(rest, more);
      hide ToLf, Bare, LeadsToLf;
      ToLfOther(c, rest);
      assert ToLf(text) + more == [c] + (ToLf(rest) + more);
      BareCons(c, ToLf(rest) + more);
      BareCons(c, rest + more);
    }
  }

  lemma {:induction false} BareOfBare(text: string, more: string)
    ensures LeadsToLf(Bare(text) + more) == LeadsToLf(text + more)
    ensures Bare(Bare(text) + more) == Bare(text + more)
  {
    if text == "" {
      assert Bare(text) + more == text + more;
      return;
    }
    var c, rest := text[0], text[1..];
    Uncons(text, more);
    BareOfBare(rest, more);
    hide Bare, LeadsToLf;
    BareCons(c, rest);
    BareCons(c, rest + more);
    if c == '\r' && LeadsToLf(rest) {
      LeadsOn(rest, more);
    } else {
      assert Bare(text) + more == [c] + (Bare(rest) + more);
      BareCons(c, Bare(rest) + more);
    }
  }

  lemma {:induction false} LeadsOn(text: string, more: string)
    requires LeadsToLf(text)
    ensures LeadsToLf(text + more)
  {
    Uncons(text, more);
    if text[0] == '\r' { LeadsOn(text[1..], more); }
    BareCons(text[0], text[1..] + more);
  }

  lemma {:induction false} BareFixed(text: string)
    requires NoCrLf(text)
    ensures Bare(text) == text
  {
    if text != "" {
      assert forall i :: 0 <= i && i + 1 < |text[1..]| ==> text[1..][i] == text[i + 1];
      BareFixed(text[1..]);
      if text[0] == '\r' && LeadsToLf(text) { LeadsHasCrLf(text); }
    }
  }

  lemma {:induction false} LeadsHasCrLf(text: string)
    requires LeadsToLf(text) && text[0] == '\r'
    ensures !NoCrLf(text)
  {
    assert text[1] == '\n' || text[1] == '\r';
    if text[1] == '\r' {
      LeadsHasCrLf(text[1..]);
      var i :| 0 <= i && i + 1 < |text[1..]| && text[1..][i] == '\r' && text[1..][i + 1] == '\n';
      assert text[i + 1] == '\r' && text[i + 2] == '\n';
    }
  }

  /** Reads drop nothing but carriage returns that lead to a line feed. */
  lemma {:induction false} ReceivedIsBare(chunks: seq<string>)
    ensures Bare(Text(Received(chunks))) == Bare(Flat(chunks))
  {
    hide Bare, Text;
    if chunks == [] {
      NothingRead();
    } else {
      var front, chunk := chunks[..|chunks| - 1], chunks[|chunks| - 1];
      ReceivedIsBare(front);
      ReadIsBare(Received(front), chunk);
      BareOfBare(Text(Received(front)), chunk);
      BareOfBare(Flat(front), chunk);
    }
  }

  lemma {:induction false} NothingRead()
    ensures Text(Received([])) == "" == Flat([])
  {
  }

  lemma {:induction false} ReadIsBare(frames: Frames, chunk: string)
    ensures Bare(Text(Receive(frames, chunk))) == Bare(Text(frames) + chunk)
  {
    var closed, rest := Closed(frames.blocks), frames.rest;
    ReceiveText(frames, chunk);
    ClosedEndsTwice(frames.blocks);
    hide Bare, ToLf, Receive;
    BareOfNormalized(rest + chunk, "");
    assert rest + chunk + "" == rest + chunk && ToLf(rest + chunk) + "" == ToLf(rest + chunk);
    BareConcat(closed, rest + chunk);
    BareConcat(closed, ToLf(rest + chunk));
    assert closed + (rest + chunk) == Text(frames) + chunk;
  }

  predicate Clean(text: string) {
    text == "" || text[|text| - 1] != '\r'
  }

  lemma {:induction false} BareConcat(a: string, b: string)
    requires Clean(a)
    ensures Bare(a + b) == Bare(a) + Bare(b)
    ensures a != "" ==> LeadsToLf(a + b) == LeadsToLf(a)
  {
    if a == "" {
      assert a + b == b;
    } else {
      var c, rest := a[0], a[1..];
      Uncons(a, b);
      assert c == '\r' ==> rest != "";
      BareConcat(rest, b);
      hide Bare, LeadsToLf, Clean;
      BareCons(c, rest);
      BareCons(c, rest + b);
      Regrouped([c], Bare(rest), Bare(b));
    }
  }

  // ---------------------------------------------------------------- what is read is framed

  /** The blocks and the buffer are those of the text that has been read. */
  lemma {:induction false} ReceivedIsExact(chunks: seq<string>)
    ensures var frames := Received(chunks);
            frames == Frame(Text(frames)) && forall k :: 0 <= k < |frames.blocks| ==> IsBlock(frames.blocks[k])
  {
    if chunks == [] {
      assert Text(Frames([], "")) == "";
    } else {
      ReceivedIsExact(chunks[..|chunks| - 1]);
      ReceiveIsExact(Received(chunks[..|chunks| - 1]), chunks[|chunks| - 1]);
    }
  }

  lemma {:induction false} ReceiveIsExact(frames: Frames, chunk: string)
    requires forall k :: 0 <= k < |frames.blocks| ==> IsBlock(frames.blocks[k])
    ensures var next := Receive(frames, chunk);
            next == Frame(Text(next)) && forall k :: 0 <= k < |next.blocks| ==> IsBlock(next.blocks[k])
  {
    var read := ToLf(frames.rest + chunk);
    FrameIsExact(read);
    ReceiveText(frames, chunk);
    hide IsBlock, Frame, ToLf;
    ClosedIsFramed(frames.blocks, read);
  }

  /** Reads that leave no CR LF leave the same. */
  lemma {:induction false} SettledIsBare(chunks: seq<string>)
    requires NoCrLf(Text(Received(chunks)))
    ensures Received(chunks) == Frame(Bare(Flat(chunks)))
  {
    ReceivedIsExact(chunks);
    ReceivedIsBare(chunks);
    BareFixed(Text(Received(chunks)));
  }

  // ---------------------------------------------------------------- reading slowly

  lemma {:induction false} NoCrLfParts(a: string, b: string)
    requires NoCrLf(a + b)
    ensures NoCrLf(a) && NoCrLf(b)
  {
    forall i | 0 <= i && i + 1 < |a| ensures !(a[i] == '\r' && a[i + 1] == '\n') {
      assert (a + b)[i] == a[i] && (a + b)[i + 1] == a[i + 1];
    }
    forall i | 0 <= i && i + 1 < |b| ensures !(b[i] == '\r' && b[i + 1] == '\n') {
      assert (a + b)[|a| + i] == b[i] && (a + b)[|a| + i + 1] == b[i + 1];
    }
  }

  lemma {:induction false} NoCrLfJoin(a: string, b: string)
    requires NoCrLf(a) && NoCrLf(b) && CleanCut(a, b)
    ensures NoCrLf(a + b)
  {
    var t := a + b;
    forall i | 0 <= i && i + 1 < |t| ensures !(t[i] == '\r' && t[i + 1] == '\n') {
      if i + 1 < |a| {
        assert t[i] == a[i] && t[i + 1] == a[i + 1];
      } else if i >= |a| {
        assert t[i] == b[i - |a|] && t[i + 1] == b[i + 1 - |a|];
      } else {
        assert t[i] == a[|a| - 1] && t[i + 1] == b[0];
      }
    }
  }

  lemma {:induction false} NextRead(chunks: seq<string>, chunk: string)
    ensures Flat(chunks + [chunk]) == Flat(chunks) + chunk
    ensures Received(chunks + [chunk]) == Receive(Received(chunks), chunk)
  {
    assert (chunks + [chunk])[..|chunks|] == chunks;
  }

  lemma {:induction false} DropAtEnd(x: string)
    requires NoCrLf(x)
    ensures ToLf(x + "\r\n") == x + "\n"
  {
    ToLfConcat(x, "\r\n");
    ToLfFixed(x);
    ToLfPair("");
    ToLfFixed("");
    assert "\r\n" + "" == "\r\n" && "\n" + "" == "\n";
  }

  lemma {:induction false} SameFronts(a: string, y: string, x: string, tail: string, other: string)
    requires a + (y + tail) == x + tail
    ensures a + y == x && a + (y + other) == x + other
  {
    assert a + (y + tail) == (a + y) + tail;
    assert ((a + y) + tail)[..|a + y|] == a + y && (x + tail)[..|x|] == x;
    assert a + (y + other) == (a + y) + other;
  }

  lemma {:induction false} BufferEnds(chunks: seq<string>, x: string) returns (y: string)
    requires Text(Received(chunks)) == x + "\r\n"
    ensures Received(chunks).rest == y + "\r\n"
  {
    ReceivedIsExact(chunks);
    hide Received, Text, Frame;
    CrLfStays(x);
    var rest := Received(chunks).rest;
    y := rest[..|rest| - 2];
  }

  /** An empty read drops a carriage return before the last line feed, if it has one. */
  lemma {:induction false} EmptyRead(chunks: seq<string>, x: string)
    requires Text(Received(chunks)) == x + "\r\n" && NoCrLf(x)
    ensures Text(Received(chunks + [""])) == x + "\n"
  {
    var frames := Received(chunks);
    var y := BufferEnds(chunks, x);
    NextRead(chunks, "");
    ReceiveText(frames, "");
    assert frames.rest + "" == frames.rest;
    SameFronts(Closed(frames.blocks), y, x, "\r\n", "\n");
    hide Received, Receive, ToLf, Closed;
    NoCrLfParts(Closed(frames.blocks), y);
    DropAtEnd(y);
  }

  lemma {:induction false} CrLfAtEnd(text: string) returns (x: string)
    requires !NoCrLf(text) && NoCrLf(text[..|text| - 1])
    ensures text == x + "\r\n" && NoCrLf(x)
  {
    var front := text[..|text| - 1];
    assert forall j :: 0 <= j < |front| ==> front[j] == text[j];
    assert text[|text| - 2] == '\r' && text[|text| - 1] == '\n';
    x := text[..|text| - 2];
    assert text[..|text| - 1] == x + "\r";
    NoCrLfParts(x, "\r");
  }

  /** Enough empty reads drop all carriage returns before the last line feed. */
  lemma {:induction false} ReadUntilSettled(chunks: seq<string>) returns (settled: seq<string>)
    requires var t := Text(Received(chunks)); t != "" ==> NoCrLf(t[..|t| - 1])
    ensures Flat(settled) == Flat(chunks) && NoCrLf(Text(Received(settled)))
    decreases |Text(Received(chunks))|
  {
    var t := Text(Received(chunks));
    if NoCrLf(t) {
      settled := chunks;
    } else {
      assert t != "";
      var x := CrLfAtEnd(t);
      hide Received, Flat, Text, NoCrLf;
      EmptyRead(chunks, x);
      NextRead(chunks, "");
      assert Flat(chunks) + "" == Flat(chunks);
      assert (x + "\n")[..|x|] == x;
      settled := ReadUntilSettled(chunks + [""]);
    }
  }

  /** Reading one character keeps all but the end settled. */
  lemma {:induction false} ReadCharacter(chunks: seq<string>, c: char)
    requires NoCrLf(Text(Received(chunks)))
    ensures var t := Text(Received(chunks + [[c]])); t != "" && NoCrLf(t[..|t| - 1])
  {
    var frames := Received(chunks);
    var closed, rest := Closed(frames.blocks), frames.rest;
    NextRead(chunks, [c]);
    ReceiveText(frames, [c]);
    hide Received, Receive, ToLf, Closed, Frame;
    NoCrLfParts(closed, rest);
    if CleanCut(rest, [c]) {
      NoCrLfJoin(rest, [c]);
      ToLfFixed(rest + [c]);
      var t := closed + (rest + [c]);
      assert t[..|t| - 1] == closed + rest;
    } else {
      var y := rest[..|rest| - 1];
      assert rest == y + "\r" && rest + [c] == y + "\r\n";
      assert closed + rest == (closed + y) + "\r";
      NoCrLfParts(closed + y, "\r");
      NoCrLfParts(y, "\r");
      DropAtEnd(y);
      var t := closed + (y + "\n");
      assert t[..|t| - 1] == closed + y;
    }
  }

  /** Every text can be read in chunks that leave no CR LF: character by character, with empty reads between. */
  lemma {:induction false} ReadSlowly(text: string) returns (chunks: seq<string>)
    ensures Flat(chunks) == text && NoCrLf(Text(Received(chunks)))
  {
    if text == "" {
      chunks := [];
      NothingRead();
    } else {
      var front, c := text[..|text| - 1], text[|text| - 1];
      var slow := ReadSlowly(front);
      ReadCharacter(slow, c);
      NextRead(slow, [c]);
      chunks := ReadUntilSettled(slow + [[c]]);
    }
  }

  lemma {:induction false} FlushSettles(chunks: seq<string>)
    ensures Text(Flushed(chunks)) == Closed(Received(chunks).blocks) + ToLf(Received(chunks).rest)
    ensures NoCrLf(Text(Flushed(chunks)))
       <==> NoCrLf(Closed(Received(chunks).blocks)) && NoCrLf(ToLf(Received(chunks).rest))
  {
    var frames := Received(chunks);
    var closed, rest := Closed(frames.blocks), ToLf(frames.rest);
    NextRead(chunks, "");
    ReceiveText(frames, "");
    assert frames.rest + "" == frames.rest;
    ClosedEndsTwice(frames.blocks);
    hide ToLf, Closed, Received, Receive, NoCrLf;
    if NoCrLf(closed) && NoCrLf(rest) { NoCrLfJoin(closed, rest); }
    if NoCrLf(closed + rest) { NoCrLfParts(closed, rest); }
  }

  // ---------------------------------------------------------------- two normalizations

  function Twice(text: string): string {
    ToLf(ToLf(text))
  }

  predicate OnlyCr(text: string) {
    forall i :: 0 <= i < |text| ==> text[i] == '\r'
  }

  /** The text up to its last character other than a carriage return. */
  function Body(text: string): (body: string)
    ensures Clean(body) && body <= text && OnlyCr(text[|body|..])
  {
    if Clean(text) then text else
    assert text == text[..|text| - 1] + "\r";
    Body(text[..|text| - 1])
  }

  lemma {:induction false} ToLfLast(text: string)
    requires text != ""
    ensures ToLf(text) != "" && ToLf(text)[|ToLf(text)| - 1] == text[|text| - 1]
  {
    if text[0] == '\r' && |text| > 1 && text[1] == '\n' {
      if |text| > 2 { ToLfLast(text[2..]); }
    } else if |text| > 1 {
      ToLfLast(text[1..]);
    }
  }

  lemma {:induction false} CleanConcat(a: string, b: string)
    requires Clean(a)
    ensures ToLf(a + b) == ToLf(a) + ToLf(b)
    ensures Twice(a + b) == Twice(a) + Twice(b)
    ensures Clean(ToLf(a)) && Clean(Twice(a))
    ensures a == "" <==> ToLf(a) == ""
    ensures a == "" <==> Twice(a) == ""
  {
    if a != "" {
      ToLfLast(a);
      ToLfLast(ToLf(a));
    }
    hide ToLf;
    ToLfConcat(a, b);
    ToLfConcat(ToLf(a), ToLf(b));
    ToLfFixed("");
  }

  lemma {:induction false} OnlyCrFixed(text: string)
    requires OnlyCr(text)
    ensures NoCrLf(text) && ToLf(text) == text && Twice(text) == text
  {
    ToLfFixed(text);
  }

  /** The body of a text is normalized on its own. */
  lemma {:induction false} BodyAndEnd(text: string)
    ensures text == Body(text) + text[|Body(text)|..]
    ensures ToLf(text) == ToLf(Body(text)) + text[|Body(text)|..]
    ensures NoCrLf(text[|Body(text)|..])
  {
    hide ToLf, NoCrLf;
    CleanConcat(Body(text), text[|Body(text)|..]);
    OnlyCrFixed(text[|Body(text)|..]);
  }

  // ---------------------------------------------------------------- the state between two reads

  /** The part of a text that makes up the closed blocks when it is read at once, and the rest. */
  ghost predicate IsSplit(p: string, q: string) {
    var frames := Frame(ToLf(p + q));
    Clean(p) && Closed(frames.blocks) == ToLf(p) && frames.rest == ToLf(q)
  }

  /**
   The text read, aged + young, has been normalized twice in its first part and once in the other, and
   all blocks are closed in the first part.
   */
  ghost predicate Between(frames: Frames, aged: string, young: string) {
    && Clean(aged)
    && Text(frames) == Twice(aged) + ToLf(young)
    && |Closed(frames.blocks)| <= |Twice(aged)|
  }

  lemma {:induction false} SuffixOf(a: string, rest: string, x: string, y: string) returns (d: string)
    requires a + rest == x + y && |a| <= |x|
    ensures x == a + d && rest == d + y
  {
    d := x[|a|..];
    assert (a + rest)[..|a|] == a && (x + y)[..|x|] == x;
    assert a + rest == a + (d + y);
    assert (a + rest)[|a|..] == rest && (a + (d + y))[|a|..] == d + y;
  }

  lemma {:induction false} CleanSuffix(a: string, d: string)
    requires Clean(a + d)
    ensures Clean(d)
  {
  }

  lemma {:induction false} ReadAgain(d: string, body: string, end: string, chunk: string)
    requires Clean(d) && NoCrLf(d) && Clean(body)
    ensures ToLf(d + (ToLf(body) + end) + chunk) == d + (Twice(body) + ToLf(end + chunk))
  {
    hide ToLf, NoCrLf;
    CleanConcat(body, "");
    assert d + (ToLf(body) + end) + chunk == d + (ToLf(body) + (end + chunk));
    CleanConcat(d, ToLf(body) + (end + chunk));
    CleanConcat(ToLf(body), end + chunk);
    ToLfFixed(d);
  }

  lemma {:induction false} Associates(a: string, b: string, c: string, d: string)
    ensures a + (b + (c + d)) == (a + b) + c + d
  {
  }

  /** A read normalizes once more what is young, and its chunk once. */
  lemma {:induction false} ReadBetween(frames: Frames, aged: string, young: string, chunk: string)
    requires Between(frames, aged, young) && NoCrLf(Twice(aged))
    ensures var body, end := Body(young), young[|Body(young)|..];
            && Clean(aged + body)
            && Text(Receive(frames, chunk)) == Twice(aged + body) + ToLf(end + chunk)
  {
    ReceiveText(frames, chunk);
    var body, end := Body(young), young[|Body(young)|..];
    var closed, rest := Closed(frames.blocks), frames.rest;
    BodyAndEnd(young);
    CleanConcat(aged, body);
    hide Closed, Receive, ToLf, Body, NoCrLf, Twice;
    var d := SuffixOf(closed, rest, Twice(aged), ToLf(young));
    NoCrLfParts(closed, d);
    CleanSuffix(closed, d);
    ReadAgain(d, body, end, chunk);
    Associates(closed, d, Twice(body), ToLf(end + chunk));
  }

  /** What is normalized for good may be called aged. */
  lemma {:induction false} Ages(aged: string, m: string, young: string)
    requires Clean(aged) && Clean(m) && NoCrLf(ToLf(m))
    ensures Twice(aged) + ToLf(m + young) == Twice(aged + m) + ToLf(young) && Clean(aged + m)
  {
    hide ToLf, NoCrLf;
    CleanConcat(aged, m);
    CleanConcat(m, young);
    ToLfFixed(ToLf(m));
  }

  /** The closed blocks end in an empty line. */
  lemma {:induction false} ClosedIsLine(text: string)
    ensures var frames := Frame(text);
            frames.blocks != [] ==>
              |Closed(frames.blocks)| >= 2 && EmptyLineAt(text, |Closed(frames.blocks)| - 2)
  {
    var frames := Frame(text);
    var closed := Closed(frames.blocks);
    FrameIsExact(text);
    ClosedEndsTwice(frames.blocks);
    hide Frame, Closed;
    assert text == closed + frames.rest;
    if frames.blocks != [] {
      assert text[|closed| - 2] == closed[|closed| - 2] && text[|closed| - 1] == closed[|closed| - 1];
    }
  }

  lemma {:induction false} ClosedWithin(x: string, y: string)
    requires forall i: nat :: i + 1 >= |x| ==> !EmptyLineAt(x + y, i)
    ensures |Closed(Frame(x + y).blocks)| <= |x|
  {
    ClosedIsLine(x + y);
  }

  /** Carriage returns at the end close nothing. */
  lemma {:induction false} CrClosesNothing(x: string, y: string)
    requires OnlyCr(y)
    ensures |Closed(Frame(x + y).blocks)| <= |x|
  {
    forall i: nat | i + 1 >= |x| ensures !EmptyLineAt(x + y, i) {
      assert i + 1 < |x + y| ==> (x + y)[i + 1] == y[i + 1 - |x|];
    }
    ClosedWithin(x, y);
  }

  /** Without an empty line after one normalization, what is young ends none. */
  lemma {:induction false} YoungEndsNoLine(m: string, young: string, z: string)
    requires Clean(m) && forall i :: !EmptyLineAt(ToLf(m + (young + z)), i)
    ensures |Closed(Frame(Twice(m) + ToLf(young)).blocks)| <= |Twice(m)|
  {
    hide *;
    var body, end := Body(young), young[|Body(young)|..];
    BodyAndEnd(young);
    Regrouped(body, end, z);
    CleanConcat(m, young + z);
    CleanConcat(body, end + z);
    LastOfTwice(m);
    var once, x, y, b, more := ToLf(m), Twice(m), ToLf(young), ToLf(body), ToLf(end + z);
    Regrouped(once, b, more);
    forall i: nat | i + 1 >= |x| ensures !EmptyLineAt(x + y, i) {
      if EmptyLineAt(x + y, i) {
        var j := LineOnce(once, x, b, end, more, i);
      }
    }
    ClosedWithin(x, y);
  }

  lemma {:induction false} LastOfTwice(m: string)
    ensures ToLf(m) == "" <==> Twice(m) == ""
    ensures ToLf(m) != "" ==> ToLf(m)[|ToLf(m)| - 1] == Twice(m)[|Twice(m)| - 1]
  {
    if ToLf(m) != "" { ToLfLast(ToLf(m)); } else { ToLfFixed(""); }
  }

  lemma {:induction false} LineOnce(once: string, x: string, b: string, end: string, more: string, i: nat)
    returns (j: nat)
    requires once == "" <==> x == ""
    requires once != "" ==> once[|once| - 1] == x[|x| - 1]
    requires OnlyCr(end) && i + 1 >= |x| && EmptyLineAt(x + (b + end), i)
    ensures EmptyLineAt(once + b + more, j)
  {
    var all, k := once + b + more, x + (b + end);
    forall n | |x| + |b| <= n < |k| ensures k[n] == '\r' {
      assert k[n] == end[n - |x| - |b|];
    }
    j := i + |once| - |x|;
    assert k[i + 1] == b[i + 1 - |x|] && all[j + 1] == b[i + 1 - |x|];
    assert i >= |x| ==> k[i] == b[i - |x|] && all[j] == b[i - |x|];
    assert i < |x| ==> k[i] == x[|x| - 1] && all[j] == once[|once| - 1];
  }

  // ---------------------------------------------------------------- the split of a text

  /** The front of a normalized text that ends in a line feed comes from a front of the text. */
  lemma {:induction false} FrontOf(text: string, k: nat) returns (p: string, q: string)
    requires k <= |ToLf(text)| && (k > 0 ==> ToLf(text)[k - 1] == '\n')
    ensures text == p + q && Clean(p) && |ToLf(p)| == k
    decreases |text|
  {
    if k == 0 {
      p, q := "", text;
    } else if text[0] == '\r' && |text| > 1 && text[1] == '\n' {
      p, q := FrontOf(text[2..], k - 1);
      ToLfPair(p);
      p := "\r\n" + p;
    } else if k == 1 {
      p, q := text[..1], text[1..];
      assert p == "\n";
    } else {
      var c := text[0];
      p, q := FrontOf(text[1..], k - 1);
      assert p[0] == text[1];
      ToLfOther(c, p);
      p := [c] + p;
    }
  }

  /** Every text splits into what makes up its closed blocks and the rest. */
  lemma {:induction false} SplitExists(text: string) returns (p: string, q: string)
    ensures text == p + q && IsSplit(p, q)
  {
    var frames := Frame(ToLf(text));
    var closed := Closed(frames.blocks);
    FrameIsExact(ToLf(text));
    ClosedEndsTwice(frames.blocks);
    hide Frame, Closed;
    assert closed != "" ==> ToLf(text)[|closed| - 1] == closed[|closed| - 1];
    p, q := FrontOf(text, |closed|);
    CleanConcat(p, q);
    assert ToLf(text)[..|closed|] == ToLf(p) && ToLf(text)[|closed|..] == ToLf(q);
  }

  /** What a settled text has dropped after two normalizations is all. */
  lemma {:induction false} SettledSplit(p: string, q: string)
    requires IsSplit(p, q) && Settles(p + q)
    ensures NoCrLf(ToLf(p)) && Twice(p) == ToLf(p) && NoCrLf(Twice(p + q))
    ensures forall i :: !EmptyLineAt(ToLf(q), i)
  {
    FrameIsExact(ToLf(p + q));
    hide Frame, ToLf, NoCrLf;
    ToLfFixed(ToLf(p));
    CleanConcat(p, q);
    NoCrLfJoin(Twice(p), Twice(q));
  }

  lemma {:induction false} FrontIsBare(text: string, aged: string, rest: string)
    requires text == aged + rest && Clean(aged) && NoCrLf(Twice(text))
    ensures NoCrLf(Twice(aged))
  {
    hide ToLf, NoCrLf;
    CleanConcat(aged, rest);
    NoCrLfParts(Twice(aged), Twice(rest));
  }

  /** What stands behind closed blocks is framed on its own. */
  lemma {:induction false} FramedBehind(text: string, y: string)
    ensures var closed := Closed(Frame(text).blocks);
            |Closed(Frame(closed + y).blocks)| == |closed| + |Closed(Frame(y).blocks)|
  {
    FrameIsExact(text);
    hide Frame, Closed, IsBlock;
    ClosedIsFramed(Frame(text).blocks, y);
    ClosedConcat(Frame(text).blocks, Frame(y).blocks);
  }

  lemma {:induction false} Regrouped(a: string, b: string, c: string)
    ensures a + b + c == a + (b + c)
  {
  }

  /** Behind the closed part, nothing young ends a block. */
  lemma {:induction false} ClosedBehindSplit(p: string, m: string, young: string, z: string)
    requires IsSplit(p, m + (young + z)) && Settles(p + (m + (young + z))) && Clean(m)
    ensures |Closed(Frame(Twice(p + m) + ToLf(young)).blocks)| <= |Twice(p + m)|
  {
    var q := m + (young + z);
    var y := Twice(m) + ToLf(young);
    hide *;
    SettledSplit(p, q);
    SplitIsClean(p, q);
    YoungEndsNoLine(m, young, z);
    FramedBehindSplit(p, q, y);
    CleanConcat(p, m);
    Regrouped(ToLf(p), Twice(m), ToLf(young));
  }

  lemma {:induction false} SplitIsClean(p: string, q: string)
    requires IsSplit(p, q)
    ensures Clean(p)
  {
  }

  lemma {:induction false} FramedBehindSplit(p: string, q: string, y: string)
    requires IsSplit(p, q)
    ensures |Closed(Frame(ToLf(p) + y).blocks)| == |ToLf(p)| + |Closed(Frame(y).blocks)|
  {
    hide Frame, Closed, ToLf;
    FramedBehind(ToLf(p + q), y);
  }

  // ---------------------------------------------------------------- every way to read a settled text

  /** How far the text read is aged: over its closed part, or over all but carriage returns at its end. */
  predicate IsAged(p: string, aged: string, young: string) {
    |p| <= |aged| || OnlyCr(young)
  }

  /** Where a front of a text ends in another cut of it. */
  lemma {:induction false} FrontCut(a: string, x: string, b: string, y: string) returns (s: string)
    requires a + x == b + y && |a| <= |b|
    ensures b == a + s && x == s + y
  {
    s := b[|a|..];
    assert (a + x)[..|a|] == a && (b + y)[..|a|] == b[..|a|];
    assert a + x == a + (s + y);
    assert (a + x)[|a|..] == x && (a + (s + y))[|a|..] == s + y;
  }

  lemma {:induction false} MoveClosed(p: string, aged: string, m: string, s: string, young: string)
    requires p == aged + m + s && Clean(aged) && Clean(m) && NoCrLf(ToLf(p))
    ensures Twice(aged) + ToLf(m + young) == Twice(aged + m) + ToLf(young) && Clean(aged + m)
  {
    hide ToLf, NoCrLf;
    CleanConcat(aged, m);
    CleanConcat(aged + m, s);
    NoCrLfParts(ToLf(aged) + ToLf(m), ToLf(s));
    NoCrLfParts(ToLf(aged), ToLf(m));
    Ages(aged, m, young);
  }

  /** Move the limit of what is aged over the closed part. */
  lemma {:induction false} AgeClosed(p: string, q: string, aged: string, young: string, z: string)
    returns (m: string, rest: string)
    requires IsSplit(p, q) && Settles(p + q) && aged + young + z == p + q && Clean(aged)
    ensures young == m + rest && Clean(aged + m) && IsAged(p, aged + m, rest)
    ensures Twice(aged) + ToLf(young) == Twice(aged + m) + ToLf(rest)
  {
    SettledSplit(p, q);
    Regrouped(aged, young, z);
    hide *;
    if |p| <= |aged| {
      m, rest := "", young;
      assert aged + m == aged && young == m + rest;
      LongerIsAged(p, aged, young);
    } else if |p| <= |aged| + |young| {
      m := FrontCut(aged, young + z, p, q);
      rest := FrontCut(m, q, young, z);
      LongerIsAged(p, aged + m, rest);
      SplitIsClean(p, q);
      CleanSuffix(aged, m);
      assert p == aged + m + "";
      MoveClosed(p, aged, m, "", rest);
    } else {
      var s := FrontCut(aged + young, z, p, q);
      m, rest := Body(young), young[|Body(young)|..];
      BodyAndEnd(young);
      LongerIsAged(p, aged + m, rest);
      Regrouped(aged, m, rest);
      Regrouped(aged + m, rest, s);
      MoveClosed(p, aged, m, rest + s, rest);
    }
  }

  lemma {:induction false} LongerIsAged(p: string, aged: string, young: string)
    ensures IsAged(p, aged, young) <==> |p| <= |aged| || OnlyCr(young)
  {
  }

  /** However a front of a settled text is read, blocks are closed in its aged part only. */
  lemma {:induction false} ReadsAreBetween(chunks: seq<string>, p: string, q: string, z: string)
    returns (aged: string, young: string)
    requires IsSplit(p, q) && Settles(p + q) && Flat(chunks) + z == p + q
    ensures aged + young == Flat(chunks) && Between(Received(chunks), aged, young)
  {
    if chunks == [] {
      aged, young := "", "";
      NothingBetween();
    } else {
      var front, chunk := chunks[..|chunks| - 1], chunks[|chunks| - 1];
      assert Flat(chunks) == Flat(front) + chunk && Received(chunks) == Receive(Received(front), chunk);
      assert Flat(front) + (chunk + z) == Flat(chunks) + z;
      ReceivedIsExact(front);
      hide Flat, Received, Receive, IsSplit, Settles, Between, IsBlock;
      aged, young := ReadsAreBetween(front, p, q, chunk + z);
      aged, young := NextIsBetween(Received(front), chunk, p, q, aged, young, z);
    }
  }

  lemma {:induction false} NothingBetween()
    ensures Between(Received([]), "", "")
  {
    assert ToLf("") == "";
  }

  lemma {:induction false} NextIsBetween(frames: Frames, chunk: string, p: string, q: string,
                                         aged: string, young: string, z: string)
    returns (aged': string, young': string)
    requires IsSplit(p, q) && Settles(p + q) && aged + young + (chunk + z) == p + q
    requires Between(frames, aged, young)
    requires forall k :: 0 <= k < |frames.blocks| ==> IsBlock(frames.blocks[k])
    ensures aged' + young' == aged + young + chunk && Between(Receive(frames, chunk), aged', young')
  {
    var settled, tail := NextText(frames, p + q, aged, young, chunk, z) by { SettledSplit(p, q); }
    ReceiveIsExact(frames, chunk);
    hide *;
    Regrouped(aged + young, chunk, z);
    var m, rest := AgeClosed(p, q, settled, tail, z);
    Regrouped(settled, m, rest);
    aged', young' := settled + m, rest;
    ClosedInAged(p, q, aged', young', z);
    IsBetween(Receive(frames, chunk), aged', young');
  }

  lemma {:induction false} IsBetween(frames: Frames, aged: string, young: string)
    requires frames == Frame(Text(frames))
    requires Clean(aged) && Text(frames) == Twice(aged) + ToLf(young)
    requires |Closed(Frame(Twice(aged) + ToLf(young)).blocks)| <= |Twice(aged)|
    ensures Between(frames, aged, young)
  {
    hide Frame, Text, Twice, ToLf;
  }

  /** What a read makes of a buffer that is aged in part. */
  lemma {:induction false} NextText(frames: Frames, text: string, aged: string, young: string, chunk: string, z: string)
    returns (settled: string, tail: string)
    requires Between(frames, aged, young) && aged + young + (chunk + z) == text && NoCrLf(Twice(text))
    ensures settled + tail == aged + young + chunk && Clean(settled)
    ensures Text(Receive(frames, chunk)) == Twice(settled) + ToLf(tail)
    ensures chunk == "" ==> OnlyCr(tail)
  {
    var body, end := Body(young), young[|Body(young)|..];
    BetweenIsClean(frames, aged, young);
    hide *;
    Regrouped(aged, young, chunk + z);
    FrontIsBare(text, aged, young + (chunk + z));
    ReadBetween(frames, aged, young, chunk);
    BodyAndEnd(young);
    settled, tail := aged + body, end + chunk;
    EndIsOnlyCr(young, chunk);
    Regrouped(aged, body, end);
    Regrouped(aged + body, end, chunk);
  }

  lemma {:induction false} BetweenIsClean(frames: Frames, aged: string, young: string)
    requires Between(frames, aged, young)
    ensures Clean(aged)
  {
  }

  lemma {:induction false} EndIsOnlyCr(young: string, chunk: string)
    ensures chunk == "" ==> OnlyCr(young[|Body(young)|..] + chunk)
  {
    assert chunk == "" ==> young[|Body(young)|..] + chunk == young[|Body(young)|..];
  }

  lemma {:induction false} ClosedInAged(p: string, q: string, aged: string, young: string, z: string)
    requires IsSplit(p, q) && Settles(p + q) && aged + young + z == p + q && Clean(aged) && IsAged(p, aged, young)
    ensures |Closed(Frame(Twice(aged) + ToLf(young)).blocks)| <= |Twice(aged)|
  {
    if OnlyCr(young) {
      OnlyCrFixed(young);
      CrClosesNothing(Twice(aged), young);
    } else {
      SplitIsClean(p, q);
      assert |p| <= |aged|;
      hide *;
      Regrouped(aged, young, z);
      var m := FrontCut(p, q, aged, young + z);
      CleanSuffix(p, m);
      ClosedBehindSplit(p, m, young, z);
    }
  }

  /** Whatever the chunks of a settled text, the flush leaves no CR LF. */
  lemma {:induction false} EveryFlushSettles(text: string, chunks: seq<string>)
    requires Settles(text) && Flat(chunks) == text
    ensures NoCrLf(Text(Flushed(chunks)))
  {
    var p, q := SplitExists(text);
    assert text + "" == text;
    SettledSplit(p, q);
    var aged, young := ReadsAreBetween(chunks, p, q, "");
    NextRead(chunks, "");
    hide Received, Receive, ToLf, Frame, Settles, IsSplit, NoCrLf, Between, Text, Twice, Flat;
    assert "" + "" == "";
    var settled, tail := NextText(Received(chunks), text, aged, young, "", "");
    assert aged + young + "" == text;
    FrontIsBare(text, settled, tail);
    OnlyCrFixed(tail);
    NoCrLfJoin(Twice(settled), tail) by { assert tail != "" ==> tail[0] == '\r'; }
  }

  /** Every flush of a settled text leaves the blocks of the text without its carriage returns. */
  lemma {:induction false} FlushIsBare(chunks: seq<string>)
    requires Settles(Flat(chunks))
    ensures Flushed(chunks) == Frame(Bare(Flat(chunks)))
  {
    EveryFlushSettles(Flat(chunks), chunks);
    NextRead(chunks, "");
    assert Flat(chunks) + "" == Flat(chunks);
    hide Frame, Received, NoCrLf, Flat;
    SettledIsBare(chunks + [""]);
  }

  lemma {:induction false} FlushAtOnce(text: string)
    ensures Settles(text) <==> NoCrLf(Text(Flushed([text])))
  {
    ReceivedOne(text);
    FlushSettles([text]);
  }

  lemma {:induction false} FlushKeepsSettled(chunks: seq<string>)
    requires NoCrLf(Text(Received(chunks)))
    ensures NoCrLf(Text(Flushed(chunks)))
  {
    var frames := Received(chunks);
    NoCrLfParts(Closed(frames.blocks), frames.rest);
    hide NoCrLf, ToLf, Closed, Received;
    ToLfFixed(frames.rest);
    FlushSettles(chunks);
  }

  /**
   How a text is cut into chunks does not matter to a stream that ends in a flush, exactly when the text
   read at once and flushed keeps no CR LF.
   */
  lemma {:induction false} FlushedChunkingIsIrrelevantIff(text: string)
    ensures Settles(text)
       <==> forall a, b :: Flat(a) == text && Flat(b) == text ==> Flushed(a) == Flushed(b)
  {
    hide Flat, Received, Settles, Text, NoCrLf, Flushed;
    if Settles(text) {
      forall a, b | Flat(a) == text && Flat(b) == text ensures Flushed(a) == Flushed(b) {
        FlushIsBare(a);
        FlushIsBare(b);
      }
    } else {
      var slow := ReadSlowly(text);
      FlushAtOnce(text);
      FlushKeepsSettled(slow);
      FlatOfOne(text);
      assert Flushed(slow) != Flushed([text]);
    }
  }

  // ---------------------------------------------------------------- a text that is not settled

  /** Read at once, the block "a" of this text keeps a carriage return; cut behind the CR CR LF it does not. */
  lemma {:induction false} BlockKeepsCr()
    ensures Flushed(["a\r\r\n\nb"]) == Frames(["a\r"], "b")
    ensures Flushed(["a\r\r\n", "\nb"]) == Frames(["a"], "b")
    ensures !Settles("a\r\r\n\nb")
  {
    AtOnce();
    InTwo();
    FlatOfBoth("a\r\r\n", "\nb");
    hide *;
    FlushedChunkingIsIrrelevantIff("a\r\r\n\nb");
    assert "a\r\r\n" + "\nb" == "a\r\r\n\nb";
    assert "a\r" != "a";
    assert Frames(["a\r"], "b").blocks[0] != Frames(["a"], "b").blocks[0];
  }

  lemma {:induction false} FlatOfBoth(a: string, b: string)
    ensures Flat([a, b]) == a + b && Flat([a + b]) == a + b
  {
    FlatOfOne(a);
    FlatOfOne(a + b);
    FlatSnoc([a], b);
    assert [a] + [b] == [a, b];
  }

  lemma {:induction false} FlushOfFramed(chunks: seq<string>)
    requires Received(chunks).rest == "b"
    ensures Flushed(chunks) == Received(chunks)
  {
    NextRead(chunks, "");
    assert "b" + "" == "b" && ToLf("b"[1..]) == "";
    assert ToLf("b") == "b" && Frame("b") == Frames([], "b");
    assert Received(chunks).blocks + [] == Received(chunks).blocks;
  }

  lemma {:induction false} BlockA(block: string)
    requires block == "a" || block == "a\r"
    ensures Frame(block + "\n\n" + "b") == Frames([block], "b")
  {
    assert IsBlock(block);
    BlockIsFramed(block, "b");
    assert Frame("b") == Frames([], "b");
  }

  lemma {:induction false} AtOnce()
    ensures Flushed(["a\r\r\n\nb"]) == Frames(["a\r"], "b")
  {
    FirstLine();
    BlockA("a\r");
    ToLfFixed("\nb");
    assert "a\r\r\n\nb" == "a\r\r\n" + "\nb";
    assert CleanCut("a\r\r\n", "\nb");
    assert "a\r" + "\n" + "\nb" == "a\r" + "\n\n" + "b";
    hide *;
    ReceivedOne("a\r\r\n\nb");
    ToLfConcat("a\r\r\n", "\nb");
    FlushOfFramed(["a\r\r\n\nb"]);
  }

  lemma {:induction false} FirstLine()
    ensures ToLf("a\r\r\n") == "a\r" + "\n"
  {
    assert "a\r\r\n" == "a\r" + "\r\n";
    DropAtEnd("a\r");
  }

  lemma {:induction false} InTwo()
    ensures Flushed(["a\r\r\n", "\nb"]) == Frames(["a"], "b")
  {
    FirstLine();
    DropAtEnd("a");
    BlockA("a");
    ToLfFixed("\nb");
    NotFramed("a" + "\r\n");
    assert "a\r" + "\n" == "a" + "\r\n";
    assert CleanCut("a" + "\r\n", "\nb");
    assert "a" + "\n" + "\nb" == "a" + "\n\n" + "b";
    assert [] + ["a"] == ["a"];
    hide *;
    ReceivedTwo("a\r\r\n", "\nb");
    ToLfConcat("a" + "\r\n", "\nb");
    FlushOfFramed(["a\r\r\n", "\nb"]);
  }

  lemma {:induction false} NotFramed(text: string)
    requires forall i :: !EmptyLineAt(text, i)
    ensures Frame(text) == Frames([], text)
  {
  }
}
