/**
 Reading a trace file that may still be written: the complete lines are validated and projected,
 an unterminated tail is only checked. Text decoding and JSON parsing are parameters.
 */
module Snapshot {
  import opened Options
  import opened TraceEvents
  import opened TraceChecker
  import opened TraceValidator
  import opened TraceProjector
  import opened TraceLaws

  type Bytes = seq<int>

  const LineFeed: int := 10
  const LineMax: nat := 256 * 1024
  const RecordMax: nat := 4096

  /** Strict decoding of a line, leniency for a cut-off tail, blankness, and the event on a line. */
  datatype Codec = Codec(decode: Bytes -> Option<string>, decodesSoFar: Bytes -> bool,
                         blank: string -> bool, parse: string -> Option<Event>)

  datatype Code = NoCompleteEvent | LineTooLarge | InvalidUtf8 | RecordLimit | MalformedJson | InvalidTrace

  datatype Reading = Detail(partial: bool, projection: Projection) | Refused(code: Code, partial: bool)

  datatype Lines = Lines(lines: seq<string>) | BadLine(code: Code)

  // ---------------------------------------------------------------- lines

  /** The first line feed at or behind a position. */
  function FirstFeed(bytes: Bytes, from: nat): (at: Option<nat>)
    ensures at.Some? ==> from <= at.value < |bytes| && bytes[at.value] == LineFeed
    ensures forall i :: from <= i < |bytes| && (at.None? || i < at.value) ==> bytes[i] != LineFeed
    decreases |bytes| - from
  {
    if from >= |bytes| then None
    else if bytes[from] == LineFeed then Some(from)
    else FirstFeed(bytes, from + 1)
  }

  /** The lines that are complete, without their line feeds, and what follows them. */
  function Complete(bytes: Bytes): seq<Bytes>
    decreases |bytes|
  {
    var feed := FirstFeed(bytes, 0);
    if feed.None? then [] else [bytes[..feed.value]] + Complete(bytes[feed.value + 1..])
  }

  function Tail(bytes: Bytes): Bytes
    decreases |bytes|
  {
    var feed := FirstFeed(bytes, 0);
    if feed.None? then bytes else Tail(bytes[feed.value + 1..])
  }

  function Decoded(codec: Codec, pieces: seq<Bytes>): Lines {
    if pieces == [] then Lines([])
    else if |pieces[0]| > LineMax then BadLine(LineTooLarge)
    else if codec.decode(pieces[0]).None? then BadLine(InvalidUtf8)
    else match Decoded(codec, pieces[1..])
         case Lines(rest) => Lines([codec.decode(pieces[0]).value] + rest)
         case BadLine(code) => BadLine(code)
  }

  function Records(codec: Codec, lines: seq<string>): seq<string> {
    if lines == [] then []
    else if codec.blank(lines[0]) then Records(codec, lines[1..])
    else [lines[0]] + Records(codec, lines[1..])
  }

  function Events(codec: Codec, records: seq<string>): Option<seq<Event>> {
    if records == [] then Some([]) else
    var event, rest := codec.parse(records[0]), Events(codec, records[1..]);
    if event.None? || rest.None? then None else Some([event.value] + rest.value)
  }

  // ---------------------------------------------------------------- the reading

  function ReadLines(codec: Codec, pieces: seq<Bytes>, partial: bool): Reading {
    match Decoded(codec, pieces)
    case BadLine(code) => Refused(code, partial)
    case Lines(lines) =>
      var records := Records(codec, lines);
      if records == [] then Refused(NoCompleteEvent, partial)
      else if |records| > RecordMax then Refused(RecordLimit, partial) else
      match Events(codec, records)
      case None => Refused(MalformedJson, partial)
      case Some(events) =>
        if !Accepted(events) then Refused(InvalidTrace, partial) else
        AcceptedIsCreated(events);
        Detail(partial, Project(events))
  }

  function Read(codec: Codec, bytes: Bytes): Reading {
    var partial := Tail(bytes) != [];
    if Complete(bytes) == [] then Refused(NoCompleteEvent, partial)
    else if |Tail(bytes)| > LineMax then Refused(LineTooLarge, partial)
    else if !codec.decodesSoFar(Tail(bytes)) then Refused(InvalidUtf8, partial)
    else ReadLines(codec, Complete(bytes), partial)
  }

  lemma {:induction false} AcceptedIsCreated(events: seq<Event>)
    requires Accepted(events)
    ensures Created(events)
  {
  }

  // ---------------------------------------------------------------- the scan

  function LastFeed(bytes: Bytes, to: nat): (at: Option<nat>)
    requires to <= |bytes|
    ensures at.Some? ==> at.value < to && bytes[at.value] == LineFeed
    ensures forall i :: 0 <= i < to && (at.None? || at.value < i) ==> bytes[i] != LineFeed
  {
    if to == 0 then None
    else if bytes[to - 1] == LineFeed then Some(to - 1)
    else LastFeed(bytes, to - 1)
  }

  lemma {:induction false} FeedIs(bytes: Bytes, feed: nat)
    requires feed < |bytes| && bytes[feed] == LineFeed && forall i :: 0 <= i < feed ==> bytes[i] != LineFeed
    ensures FirstFeed(bytes, 0) == Some(feed)
  {
  }

  /** Everything behind the last line feed is the tail, and what precedes it are complete lines. */
  lemma {:induction false} CutAtLastFeed(head: Bytes, tail: Bytes)
    requires head == [] || head[|head| - 1] == LineFeed
    requires LineFeed !in tail
    ensures Complete(head + tail) == Complete(head) && Tail(head + tail) == tail
    ensures head != [] ==> Complete(head) != []
    decreases |head|
  {
    if head == [] {
      assert head + tail == tail;
    } else {
      var feed := FirstFeed(head, 0).value;
      FeedIs(head + tail, feed);
      assert (head + tail)[..feed] == head[..feed];
      assert (head + tail)[feed + 1..] == head[feed + 1..] + tail;
      CutAtLastFeed(head[feed + 1..], tail);
    }
  }

  lemma {:induction false} NextLine(bytes: Bytes, start: nat, index: nat)
    requires start <= index < |bytes| && bytes[index] == LineFeed
    requires forall i :: start <= i < index ==> bytes[i] != LineFeed
    ensures Complete(bytes[start..]) == [bytes[start..index]] + Complete(bytes[index + 1..])
  {
    FeedIs(bytes[start..], index - start);
    assert bytes[start..][..index - start] == bytes[start..index];
    assert bytes[start..][index - start + 1..] == bytes[index + 1..];
  }

  function Prepended(lines: seq<string>, rest: Lines): Lines {
    match rest
    case Lines(more) => Lines(lines + more)
    case BadLine(code) => BadLine(code)
  }

  /** Decoded lines and those still ahead. */
  function PrependedLines(codec: Codec, bytes: Bytes, start: nat, lines: seq<string>): Lines
    requires start <= |bytes|
  {
    Prepended(lines, Decoded(codec, Complete(bytes[start..])))
  }

  ghost predicate NoFeed(bytes: Bytes, lo: nat, hi: nat)
    requires lo <= hi <= |bytes|
  {
    forall i :: lo <= i < hi ==> bytes[i] != LineFeed
  }

  lemma {:induction false} StillNoFeed(bytes: Bytes, lo: nat, index: nat)
    requires lo <= index < |bytes| && NoFeed(bytes, lo, index) && bytes[index] != LineFeed
    ensures NoFeed(bytes, lo, index + 1)
  {
  }

  lemma {:induction false} FeedTaken(bytes: Bytes, start: nat)
    requires start <= |bytes|
    ensures NoFeed(bytes, start, start)
  {
  }

  lemma {:induction false} AtEnd(bytes: Bytes, start: nat)
    requires bytes != [] && bytes[|bytes| - 1] == LineFeed && start <= |bytes| && NoFeed(bytes, start, |bytes|)
    ensures start == |bytes|
  {
  }

  lemma {:induction false} TakeLine(codec: Codec, bytes: Bytes, start: nat, index: nat, lines: seq<string>)
    requires start <= index < |bytes| && bytes[index] == LineFeed
    requires NoFeed(bytes, start, index)
    ensures var piece := bytes[start..index];
            PrependedLines(codec, bytes, start, lines) ==
              if |piece| > LineMax then BadLine(LineTooLarge)
              else if codec.decode(piece).None? then BadLine(InvalidUtf8)
              else PrependedLines(codec, bytes, index + 1, lines + [codec.decode(piece).value])
  {
    NextLine(bytes, start, index);
    DecodedNext(codec, bytes[start..index], Complete(bytes[index + 1..]));
    hide Complete, Decoded;
    var rest := Decoded(codec, Complete(bytes[index + 1..]));
    if rest.Lines? && codec.decode(bytes[start..index]).Some? {
      var line := codec.decode(bytes[start..index]).value;
      assert lines + ([line] + rest.lines) == (lines + [line]) + rest.lines;
    }
  }

  lemma {:induction false} NoneTaken(codec: Codec, bytes: Bytes)
    ensures PrependedLines(codec, bytes, 0, []) == Decoded(codec, Complete(bytes))
  {
    assert bytes[0..] == bytes;
  }

  lemma {:induction false} AllTaken(codec: Codec, bytes: Bytes, lines: seq<string>)
    ensures PrependedLines(codec, bytes, |bytes|, lines) == Lines(lines)
  {
    assert bytes[|bytes|..] == [];
    NoLines(codec);
  }

  /** The loop over the complete bytes. */
  method DecodeLines(codec: Codec, bytes: Bytes) returns (result: Lines)
    requires bytes != [] && bytes[|bytes| - 1] == LineFeed
    ensures result == Decoded(codec, Complete(bytes))
  {
    var lines: seq<string>, lineStart: nat := [], 0;
    NoneTaken(codec, bytes);
    FeedTaken(bytes, 0);
    hide *;
    for index := 0 to |bytes|
      invariant lineStart <= index && NoFeed(bytes, lineStart, index)
      invariant Decoded(codec, Complete(bytes)) == PrependedLines(codec, bytes, lineStart, lines)
    {
      if bytes[index] != LineFeed {
        StillNoFeed(bytes, lineStart, index);
        continue;
      }
      var lineBytes := bytes[lineStart..index];
      TakeLine(codec, bytes, lineStart, index, lines);
      if |lineBytes| > LineMax { return BadLine(LineTooLarge); }
      var line := codec.decode(lineBytes);
      if line.None? { return BadLine(InvalidUtf8); }
      lines := lines + [line.value];
      lineStart := index + 1;
      FeedTaken(bytes, lineStart);
    }
    AtEnd(bytes, lineStart);
    AllTaken(codec, bytes, lines);
    return Lines(lines);
  }

  lemma {:induction false} NoLines(codec: Codec)
    ensures Complete([]) == [] && Decoded(codec, []) == Lines([])
  {
  }

  lemma {:induction false} DecodedNext(codec: Codec, piece: Bytes, rest: seq<Bytes>)
    ensures Decoded(codec, [piece] + rest) ==
              if |piece| > LineMax then BadLine(LineTooLarge)
              else if codec.decode(piece).None? then BadLine(InvalidUtf8)
              else Prepended([codec.decode(piece).value], Decoded(codec, rest))
  {
    assert ([piece] + rest)[1..] == rest;
  }

  method ParseSnapshot(codec: Codec, bytes: Bytes) returns (reading: Reading)
    ensures reading == Read(codec, bytes)
  {
    var lastNewline := LastFeed(bytes, |bytes|);
    var end := if lastNewline.None? then 0 else lastNewline.value + 1;
    var completeBytes, tailBytes := bytes[..end], bytes[end..];
    assert bytes == completeBytes + tailBytes;
    CutAtLastFeed(completeBytes, tailBytes);
    var partial := tailBytes != [];
    if lastNewline.None? { return Refused(NoCompleteEvent, partial); }
    if |tailBytes| > LineMax { return Refused(LineTooLarge, partial); }
    if !codec.decodesSoFar(tailBytes) { return Refused(InvalidUtf8, partial); }
    var lines := DecodeLines(codec, completeBytes);
    if lines.BadLine? { return Refused(lines.code, partial); }
    var records := Records(codec, lines.lines);
    if records == [] { return Refused(NoCompleteEvent, partial); }
    if |records| > RecordMax { return Refused(RecordLimit, partial); }
    var events := Events(codec, records);
    if events.None? { return Refused(MalformedJson, partial); }
    var ok, problems := ValidateTrace(events.value);
    if !ok { return Refused(InvalidTrace, partial); }
    AcceptedIsCreated(events.value);
    var projection := ProjectTrace(events.value);
    return Detail(partial, projection);
  }

  // ---------------------------------------------------------------- reading during an append

  function WithPartial(reading: Reading, partial: bool): Reading {
    match reading
    case Detail(_, projection) => Detail(partial, projection)
    case Refused(code, _) => Refused(code, partial)
  }

  /** Lines followed by an unterminated tail read as the lines do, apart from `partial`, if the tail is permitted. */
  lemma {:induction false} TailChangesNothing(codec: Codec, lines: Bytes, tail: Bytes)
    requires lines != [] && lines[|lines| - 1] == LineFeed && LineFeed !in tail && codec.decodesSoFar([])
    ensures Read(codec, lines + tail) ==
              if |tail| > LineMax then Refused(LineTooLarge, true)
              else if !codec.decodesSoFar(tail) then Refused(InvalidUtf8, true)
              else WithPartial(Read(codec, lines), tail != [])
  {
    hide ReadLines;
    CutAtLastFeed(lines, tail);
    CutAtLastFeed(lines, []);
    assert lines + [] == lines;
    PartialOnly(codec, Complete(lines), tail != []);
  }

  lemma {:induction false} PartialOnly(codec: Codec, pieces: seq<Bytes>, partial: bool)
    ensures ReadLines(codec, pieces, partial) == WithPartial(ReadLines(codec, pieces, false), partial)
  {
  }

  predicate IsPrefix<T(==)>(a: seq<T>, b: seq<T>) {
    |a| <= |b| && a == b[..|a|]
  }

  /** Cutting a file off cuts its complete lines off. */
  lemma {:induction false} CutFile(bytes: Bytes, k: nat)
    requires k <= |bytes|
    ensures IsPrefix(Complete(bytes[..k]), Complete(bytes))
    decreases |bytes|
  {
    var feed := FirstFeed(bytes[..k], 0);
    if feed.Some? {
      var n := feed.value;
      FeedIs(bytes, n);
      assert bytes[..k][..n] == bytes[..n];
      assert bytes[..k][n + 1..] == bytes[n + 1..][..k - n - 1];
      CutFile(bytes[n + 1..], k - n - 1);
    }
  }

  lemma {:induction false} DecodedPrefix(codec: Codec, pieces: seq<Bytes>, n: nat)
    requires n <= |pieces| && Decoded(codec, pieces).Lines?
    ensures Decoded(codec, pieces[..n]).Lines?
    ensures |Decoded(codec, pieces).lines| == |pieces|
    ensures Decoded(codec, pieces[..n]).lines == Decoded(codec, pieces).lines[..n]
  {
    if pieces != [] {
      if n > 0 {
        assert pieces[..n][1..] == pieces[1..][..n - 1];
        DecodedPrefix(codec, pieces[1..], n - 1);
      } else {
        DecodedPrefix(codec, pieces[1..], 0);
      }
    }
  }

  lemma {:induction false} RecordsPrefix(codec: Codec, lines: seq<string>, n: nat)
    requires n <= |lines|
    ensures IsPrefix(Records(codec, lines[..n]), Records(codec, lines))
  {
    if n > 0 {
      assert lines[..n][1..] == lines[1..][..n - 1];
      RecordsPrefix(codec, lines[1..], n - 1);
    }
  }

  lemma {:induction false} EventsPrefix(codec: Codec, records: seq<string>, n: nat)
    requires n <= |records| && Events(codec, records).Some?
    ensures |Events(codec, records).value| == |records|
    ensures Events(codec, records[..n]) == Some(Events(codec, records).value[..n])
  {
    if records != [] {
      if n > 0 {
        var first, rest := codec.parse(records[0]).value, Events(codec, records[1..]).value;
        assert records[..n][0] == records[0] && records[..n][1..] == records[1..][..n - 1];
        EventsPrefix(codec, records[1..], n - 1);
        assert ([first] + rest)[..n] == [first] + rest[..n - 1];
      } else {
        EventsPrefix(codec, records[1..], 0);
      }
    }
  }

  /** The events on the complete lines of a file. */
  function EventsOf(codec: Codec, bytes: Bytes): Option<seq<Event>> {
    match Decoded(codec, Complete(bytes))
    case BadLine(_) => None
    case Lines(lines) => Events(codec, Records(codec, lines))
  }

  lemma {:induction false} CutEvents(codec: Codec, bytes: Bytes, k: nat)
    requires k <= |bytes| && EventsOf(codec, bytes).Some?
    ensures Decoded(codec, Complete(bytes[..k])).Lines? && EventsOf(codec, bytes[..k]).Some?
    ensures |Records(codec, Decoded(codec, Complete(bytes[..k])).lines)| == |EventsOf(codec, bytes[..k]).value|
    ensures IsPrefix(EventsOf(codec, bytes[..k]).value, EventsOf(codec, bytes).value)
    ensures |EventsOf(codec, bytes).value| == |Records(codec, Decoded(codec, Complete(bytes)).lines)|
  {
    var all, cut := Complete(bytes), Complete(bytes[..k]);
    CutFile(bytes, k);
    DecodedPrefix(codec, all, |cut|);
    var lines := Decoded(codec, all).lines;
    RecordsPrefix(codec, lines, |cut|);
    var records := Records(codec, lines);
    EventsPrefix(codec, records, |Records(codec, lines[..|cut|])|);
  }

  /**
   A file that reads as an accepted trace, cut anywhere with a permitted tail: either no event is
   complete yet, or the complete events are shown as their own projection, or the only problems are
   replies whose resume is not written yet.
   */
  lemma {:induction false} ReadingDuringAppend(codec: Codec, bytes: Bytes, k: nat)
    requires Read(codec, bytes).Detail? && k <= |bytes|
    requires |Tail(bytes[..k])| <= LineMax && codec.decodesSoFar(Tail(bytes[..k]))
    ensures EventsOf(codec, bytes).Some? && EventsOf(codec, bytes[..k]).Some?
    ensures IsPrefix(EventsOf(codec, bytes[..k]).value, EventsOf(codec, bytes).value)
    ensures var seen, partial := EventsOf(codec, bytes[..k]).value, Tail(bytes[..k]) != [];
            if seen == [] then Read(codec, bytes[..k]) == Refused(NoCompleteEvent, partial)
            else if AwaitsResume(seen) then
              && Read(codec, bytes[..k]) == Refused(InvalidTrace, partial)
              && forall p :: p in Problems(seen) ==> p.rule == REPLY
            else Created(seen) && Read(codec, bytes[..k]) == Detail(partial, Project(seen))
  {
    DetailMeans(codec, bytes);
    CutEvents(codec, bytes, k);
    ReadSeen(codec, bytes[..k]);
    hide Read, Accepted, Problems, Project, AwaitsResume, IsPrefix;
    if EventsOf(codec, bytes[..k]).value != [] {
      SeenPrefix(EventsOf(codec, bytes).value, EventsOf(codec, bytes[..k]).value);
    }
  }

  lemma {:induction false} SeenPrefix(all: seq<Event>, seen: seq<Event>)
    requires Accepted(all) && seen != [] && IsPrefix(seen, all)
    ensures Created(seen)
    ensures Accepted(seen) <==> !AwaitsResume(seen)
    ensures forall p :: p in Problems(seen) ==> p.rule == REPLY
  {
    hide Accepted, Problems, AwaitsResume;
    PrefixIsSafe(all, |seen|);
    assert all[..|seen|] == seen;
    FirstIsCreated(all, seen);
  }

  lemma {:induction false} DetailMeans(codec: Codec, bytes: Bytes)
    requires Read(codec, bytes).Detail?
    ensures EventsOf(codec, bytes).Some? && Accepted(EventsOf(codec, bytes).value)
    ensures |Records(codec, Decoded(codec, Complete(bytes)).lines)| <= RecordMax
  {
    hide Accepted;
  }

  /** What a file with readable lines reads as. */
  lemma {:induction false} ReadSeen(codec: Codec, bytes: Bytes)
    requires |Tail(bytes)| <= LineMax && codec.decodesSoFar(Tail(bytes)) && EventsOf(codec, bytes).Some?
    requires |Records(codec, Decoded(codec, Complete(bytes)).lines)| == |EventsOf(codec, bytes).value| <= RecordMax
    ensures var seen, partial := EventsOf(codec, bytes).value, Tail(bytes) != [];
            Read(codec, bytes) ==
              if seen == [] then Refused(NoCompleteEvent, partial)
              else if !Accepted(seen) then Refused(InvalidTrace, partial)
              else (AcceptedIsCreated(seen); Detail(partial, Project(seen)))
  {
    hide Accepted, Project;
    NothingComplete(codec);
  }

  lemma {:induction false} NothingComplete(codec: Codec)
    ensures Decoded(codec, []) == Lines([]) && Records(codec, []) == [] && Events(codec, []) == Some([])
  {
  }

  lemma {:induction false} FirstIsCreated(all: seq<Event>, seen: seq<Event>)
    requires Accepted(all) && seen != [] && IsPrefix(seen, all)
    ensures Created(seen)
  {
  }
}
