/**
 What a trace file means: which lines are records, which files are refused for what, and that the
 printed lines of an accepted trace read back as the projection of its events.
 */
module SnapshotLaws {
  import opened Options
  import opened TraceEvents
  import opened TraceChecker
  import opened TraceProjector
  import opened Snapshot

  // ---------------------------------------------------------------- lines

  /** Lines, each closed by a line feed. */
  function Terminated(pieces: seq<Bytes>): Bytes {
    if pieces == [] then [] else pieces[0] + [LineFeed] + Terminated(pieces[1..])
  }

  ghost predicate AreLines(pieces: seq<Bytes>, tail: Bytes) {
    LineFeed !in tail && forall i :: 0 <= i < |pieces| ==> LineFeed !in pieces[i]
  }

  /** A file is its complete lines and its tail. */
  lemma {:induction false} FileIsLines(pieces: seq<Bytes>, tail: Bytes)
    requires AreLines(pieces, tail)
    ensures Complete(Terminated(pieces) + tail) == pieces && Tail(Terminated(pieces) + tail) == tail
  {
    var bytes := Terminated(pieces) + tail;
    if pieces == [] {
      assert bytes == tail;
    } else {
      var first, rest := pieces[0], Terminated(pieces[1..]) + tail;
      assert bytes == first + [LineFeed] + rest;
      forall i | 0 <= i < |first| ensures bytes[i] != LineFeed {
        assert bytes[i] == first[i] && first[i] in first;
      }
      assert bytes[|first|] == LineFeed;
      FeedIs(bytes, |first|);
      assert bytes[..|first|] == first && bytes[|first| + 1..] == rest;
      FileIsLines(pieces[1..], tail);
    }
  }

  /** And every file is of that form. */
  lemma {:induction false} EveryFileIsLines(bytes: Bytes)
    ensures AreLines(Complete(bytes), Tail(bytes)) && bytes == Terminated(Complete(bytes)) + Tail(bytes)
    decreases |bytes|
  {
    CutFirstLine(bytes);
    hide Complete, Tail, AreLines, Terminated;
    var feed := FirstFeed(bytes, 0);
    if feed.Some? {
      var first, rest := bytes[..feed.value], bytes[feed.value + 1..];
      EveryFileIsLines(rest);
      OneMoreLine(first, Complete(rest), Tail(rest));
    } else {
      NoLine(bytes);
    }
  }

  lemma {:induction false} CutFirstLine(bytes: Bytes)
    ensures var feed := FirstFeed(bytes, 0);
            if feed.None? then Complete(bytes) == [] && Tail(bytes) == bytes && LineFeed !in bytes
            else var first, rest := bytes[..feed.value], bytes[feed.value + 1..];
              && LineFeed !in first && bytes == first + [LineFeed] + rest
              && Complete(bytes) == [first] + Complete(rest) && Tail(bytes) == Tail(rest)
  {
  }

  lemma {:induction false} NoLine(bytes: Bytes)
    requires LineFeed !in bytes
    ensures AreLines([], bytes) && Terminated([]) + bytes == bytes
  {
  }

  lemma {:induction false} OneMoreLine(first: Bytes, pieces: seq<Bytes>, tail: Bytes)
    requires LineFeed !in first && AreLines(pieces, tail)
    ensures AreLines([first] + pieces, tail)
    ensures Terminated([first] + pieces) + tail == first + [LineFeed] + (Terminated(pieces) + tail)
  {
    assert ([first] + pieces)[1..] == pieces;
  }

  // ---------------------------------------------------------------- decoding

  /** What is wrong with a line by itself: more than 256 KiB, or not UTF-8. */
  function LineCode(codec: Codec, piece: Bytes): Option<Code> {
    if |piece| > 262144 then Some(LineTooLarge)
    else if codec.decode(piece).None? then Some(InvalidUtf8) else None
  }

  /** Without a bad line every line is decoded; otherwise the first bad line decides. */
  lemma {:induction false} DecodedIs(codec: Codec, pieces: seq<Bytes>)
    ensures match Decoded(codec, pieces)
            case Lines(lines) =>
              && |lines| == |pieces|
              && forall i :: 0 <= i < |pieces| ==>
                   LineCode(codec, pieces[i]).None? && codec.decode(pieces[i]) == Some(lines[i])
            case BadLine(code) =>
              exists i :: && 0 <= i < |pieces| && LineCode(codec, pieces[i]) == Some(code)
                          && forall j :: 0 <= j < i ==> LineCode(codec, pieces[j]).None?
  {
    if pieces != [] && LineCode(codec, pieces[0]).None? {
      var rest := pieces[1..];
      DecodedIs(codec, rest);
      match Decoded(codec, rest)
      case Lines(lines) =>
        forall i | 0 <= i < |pieces|
          ensures LineCode(codec, pieces[i]).None?
          ensures codec.decode(pieces[i]) == Some(([codec.decode(pieces[0]).value] + lines)[i])
        {
          assert i > 0 ==> pieces[i] == rest[i - 1];
        }
      case BadLine(code) =>
        var i :| && 0 <= i < |rest| && LineCode(codec, rest[i]) == Some(code)
                 && forall j :: 0 <= j < i ==> LineCode(codec, rest[j]).None?;
        assert LineCode(codec, pieces[i + 1]) == Some(code);
        assert forall j :: 1 <= j < i + 1 ==> pieces[j] == rest[j - 1];
    } else if pieces != [] {
      assert LineCode(codec, pieces[0]).Some?;
    }
  }

  // ---------------------------------------------------------------- records

  /** Positions in ascending order. */
  ghost predicate Ascends(index: seq<nat>, n: nat) {
    && (forall k :: 0 <= k < |index| ==> index[k] < n)
    && forall k, l :: 0 <= k < l < |index| ==> index[k] < index[l]
  }

  /** The i-th position is listed exactly if its line is not blank. */
  ghost predicate PicksText(codec: Codec, lines: seq<string>, index: seq<nat>) {
    Ascends(index, |lines|) && forall i: nat :: i < |lines| ==> (i in index <==> !codec.blank(lines[i]))
  }

  /** The records are the lines that are not blank, in their order. */
  lemma {:induction false} RecordsAreNotBlank(codec: Codec, lines: seq<string>) returns (index: seq<nat>)
    ensures PicksText(codec, lines, index) && |index| == |Records(codec, lines)|
    ensures forall k :: 0 <= k < |index| ==> Records(codec, lines)[k] == lines[index[k]]
  {
    if lines == [] {
      index := [];
    } else {
      var rest := RecordsAreNotBlank(codec, lines[1..]);
      var moved := seq(|rest|, k requires 0 <= k < |rest| => rest[k] + 1);
      index := if codec.blank(lines[0]) then moved else [0] + moved;
      RecordsAt(codec, lines, rest, moved, index);
      hide Records;
      OneMoreText(codec, lines, rest, moved, index);
    }
  }

  lemma {:induction false} RecordsAt(codec: Codec, lines: seq<string>, rest: seq<nat>, moved: seq<nat>,
                                     index: seq<nat>)
    requires lines != [] && Ascends(rest, |lines| - 1) && |rest| == |Records(codec, lines[1..])|
    requires forall k :: 0 <= k < |rest| ==> Records(codec, lines[1..])[k] == lines[1..][rest[k]]
    requires |moved| == |rest| && forall k :: 0 <= k < |rest| ==> moved[k] == rest[k] + 1
    requires index == if codec.blank(lines[0]) then moved else [0] + moved
    ensures |index| == |Records(codec, lines)| && Ascends(index, |lines|)
    ensures forall k :: 0 <= k < |index| ==> Records(codec, lines)[k] == lines[index[k]]
  {
    forall k | 0 <= k < |index| ensures Records(codec, lines)[k] == lines[index[k]] {
      if codec.blank(lines[0]) {
        assert Records(codec, lines)[k] == lines[1..][rest[k]];
      } else if k > 0 {
        assert index[k] == moved[k - 1];
        assert Records(codec, lines)[k] == lines[1..][rest[k - 1]];
      }
    }
  }

  lemma {:induction false} OneMoreText(codec: Codec, lines: seq<string>, rest: seq<nat>, moved: seq<nat>,
                                       index: seq<nat>)
    requires lines != [] && PicksText(codec, lines[1..], rest)
    requires |moved| == |rest| && forall k :: 0 <= k < |rest| ==> moved[k] == rest[k] + 1
    requires index == if codec.blank(lines[0]) then moved else [0] + moved
    ensures PicksText(codec, lines, index)
  {
    forall i: nat | i < |lines| ensures i in index <==> !codec.blank(lines[i]) {
      if i > 0 {
        assert lines[i] == lines[1..][i - 1];
        Shifted(rest, moved, i);
      } else {
        assert 0 !in moved;
      }
    }
  }

  lemma {:induction false} Shifted(rest: seq<nat>, moved: seq<nat>, i: nat)
    requires i > 0 && |moved| == |rest| && forall k :: 0 <= k < |rest| ==> moved[k] == rest[k] + 1
    ensures i in moved <==> i - 1 in rest
    ensures i in [0] + moved <==> i - 1 in rest
  {
    if i - 1 in rest {
      var k :| 0 <= k < |rest| && rest[k] == i - 1;
      assert moved[k] == i;
    }
  }

  /** No other list of positions does that. */
  lemma {:induction false} PickIsUnique(codec: Codec, lines: seq<string>, a: seq<nat>, b: seq<nat>)
    requires PicksText(codec, lines, a) && PicksText(codec, lines, b)
    ensures a == b
  {
    forall i: nat ensures i in a <==> i in b {}
    SameAscents(a, b, |lines|);
  }

  lemma {:induction false} SameAscents(a: seq<nat>, b: seq<nat>, n: nat)
    requires Ascends(a, n) && Ascends(b, n) && forall i :: i in a <==> i in b
    ensures a == b
  {
    assert a != [] ==> a[0] in a;
    assert b != [] ==> b[0] in b;
    if a != [] {
      var x, y := a[|a| - 1], b[|b| - 1];
      assert x in b && y in a;
      assert x == y;
      var front, other := a[..|a| - 1], b[..|b| - 1];
      forall i ensures i in front <==> i in other {
        FrontWithoutLast(a, n, i);
        FrontWithoutLast(b, n, i);
      }
      SameAscents(front, other, n);
      assert a == front + [x] && b == other + [y];
    }
  }

  lemma {:induction false} FrontWithoutLast(a: seq<nat>, n: nat, i: nat)
    requires a != [] && Ascends(a, n)
    ensures i in a[..|a| - 1] <==> i in a && i != a[|a| - 1]
  {
    assert a == a[..|a| - 1] + [a[|a| - 1]];
  }

  /** The events are what the records parse as, if all of them do. */
  lemma {:induction false} EventsAre(codec: Codec, records: seq<string>)
    ensures Events(codec, records).Some? <==> forall k :: 0 <= k < |records| ==> codec.parse(records[k]).Some?
    ensures Events(codec, records).Some? ==>
              && |Events(codec, records).value| == |records|
              && forall k :: 0 <= k < |records| ==> codec.parse(records[k]) == Some(Events(codec, records).value[k])
  {
    if records != [] {
      EventsAre(codec, records[1..]);
      assert forall k :: 1 <= k < |records| ==> records[k] == records[1..][k - 1];
      assert forall k :: 0 <= k < |records[1..]| ==> records[1..][k] == records[k + 1];
    }
  }

  // ---------------------------------------------------------------- what a file reads as

  ghost predicate GoodLines(codec: Codec, pieces: seq<Bytes>, lines: seq<string>) {
    && |lines| == |pieces|
    && forall i :: 0 <= i < |pieces| ==> LineCode(codec, pieces[i]).None? && codec.decode(pieces[i]) == Some(lines[i])
  }

  /** A file whose tail or one of whose lines is bad is refused for the tail first, then for its first bad line. */
  lemma {:induction false} BadBytesAreRefused(codec: Codec, pieces: seq<Bytes>, tail: Bytes)
    requires AreLines(pieces, tail)
    ensures var reading, partial := Read(codec, Terminated(pieces) + tail), tail != [];
            && (pieces == [] ==> reading == Refused(NoCompleteEvent, partial))
            && (pieces != [] && |tail| > 262144 ==> reading == Refused(LineTooLarge, partial))
            && (pieces != [] && |tail| <= 262144 && !codec.decodesSoFar(tail) ==>
                  reading == Refused(InvalidUtf8, partial))
            && (|tail| <= 262144 && codec.decodesSoFar(tail) ==>
                  forall i | 0 <= i < |pieces| && LineCode(codec, pieces[i]).Some? ::
                    (forall j :: 0 <= j < i ==> LineCode(codec, pieces[j]).None?) ==>
                      reading == Refused(LineCode(codec, pieces[i]).value, partial))
  {
    FileIsLines(pieces, tail);
    DecodedIs(codec, pieces);
    hide Complete, Tail, Decoded, LineCode, Records, Events;
  }

  /**
   A file of good lines is read from the lines that are not blank: refused if there are none or more than
   4096, if one does not parse, or if the trace is not accepted, in this order, and shown otherwise.
   */
  lemma {:induction false} GoodLinesAreRead(codec: Codec, pieces: seq<Bytes>, tail: Bytes, lines: seq<string>)
    returns (index: seq<nat>)
    requires AreLines(pieces, tail) && |tail| <= 262144 && codec.decodesSoFar(tail)
    requires pieces != [] && GoodLines(codec, pieces, lines)
    ensures PicksText(codec, lines, index)
    ensures var reading, partial := Read(codec, Terminated(pieces) + tail), tail != [];
            if index == [] then reading == Refused(NoCompleteEvent, partial)
            else if |index| > 4096 then reading == Refused(RecordLimit, partial)
            else if exists k :: 0 <= k < |index| && codec.parse(lines[index[k]]).None? then
              reading == Refused(MalformedJson, partial)
            else
              exists events: seq<Event> ::
                && |events| == |index|
                && (forall k :: 0 <= k < |index| ==> codec.parse(lines[index[k]]) == Some(events[k]))
                && (Accepted(events) ==> Created(events))
                && reading == if Accepted(events) then Detail(partial, Project(events))
                              else Refused(InvalidTrace, partial)
  {
    ReadLineByLine(codec, pieces, tail);
    GoodLinesDecode(codec, pieces, lines);
    index := RecordsAreNotBlank(codec, lines);
    hide Read, ReadLines, Accepted, Project, GoodLines, Decoded, Records, Terminated, LineCode;
    ReadFromRecords(codec, pieces, lines, index, tail != []);
  }

  lemma {:induction false} ReadLineByLine(codec: Codec, pieces: seq<Bytes>, tail: Bytes)
    requires AreLines(pieces, tail) && |tail| <= 262144 && codec.decodesSoFar(tail) && pieces != []
    ensures Read(codec, Terminated(pieces) + tail) == ReadLines(codec, pieces, tail != [])
  {
    FileIsLines(pieces, tail);
    hide Complete, Tail, ReadLines, Terminated;
  }

  lemma {:induction false} ReadFromRecords(codec: Codec, pieces: seq<Bytes>, lines: seq<string>, index: seq<nat>,
                                           partial: bool)
    requires Decoded(codec, pieces) == Lines(lines) && Ascends(index, |lines|)
    requires |index| == |Records(codec, lines)|
    requires forall k :: 0 <= k < |index| ==> Records(codec, lines)[k] == lines[index[k]]
    ensures var reading := ReadLines(codec, pieces, partial);
            if index == [] then reading == Refused(NoCompleteEvent, partial)
            else if |index| > 4096 then reading == Refused(RecordLimit, partial)
            else if exists k :: 0 <= k < |index| && codec.parse(lines[index[k]]).None? then
              reading == Refused(MalformedJson, partial)
            else
              exists events: seq<Event> ::
                && |events| == |index|
                && (forall k :: 0 <= k < |index| ==> codec.parse(lines[index[k]]) == Some(events[k]))
                && (Accepted(events) ==> Created(events))
                && reading == if Accepted(events) then Detail(partial, Project(events))
                              else Refused(InvalidTrace, partial)
  {
    var records := Records(codec, lines);
    EventsAre(codec, records);
    hide Decoded, Records, Events, Accepted, Project;
    if Events(codec, records).Some? {
      var events := Events(codec, records).value;
      if Accepted(events) { AcceptedIsCreated(events); }
      assert forall k :: 0 <= k < |index| ==> codec.parse(lines[index[k]]) == Some(events[k]);
    } else {
      var k :| 0 <= k < |records| && codec.parse(records[k]).None?;
      assert codec.parse(lines[index[k]]).None?;
    }
  }

  lemma {:induction false} GoodLinesDecode(codec: Codec, pieces: seq<Bytes>, lines: seq<string>)
    requires GoodLines(codec, pieces, lines)
    ensures Decoded(codec, pieces) == Lines(lines)
  {
    DecodedIs(codec, pieces);
    hide LineCode;
    if Decoded(codec, pieces).Lines? {
      assert Decoded(codec, pieces).lines == lines;
    }
  }

  // ---------------------------------------------------------------- writing and reading back

  /** How events are printed and lines encoded. */
  datatype Printer = Printer(print_: Event -> string, encode: string -> Bytes)

  /** A line survives being written. */
  predicate IsWritable(codec: Codec, printer: Printer, line: string) {
    var piece := printer.encode(line);
    LineFeed !in piece && |piece| <= 262144 && codec.decode(piece) == Some(line)
  }

  /** An event survives being printed. */
  predicate IsPrintable(codec: Codec, printer: Printer, e: Event) {
    var line := printer.print_(e);
    IsWritable(codec, printer, line) && !codec.blank(line) && codec.parse(line) == Some(e)
  }

  /** The lines of a file: each event on a line, with any lines before each and at the end. */
  function Printed(printer: Printer, events: seq<Event>, gaps: seq<seq<string>>): seq<string>
    requires |gaps| == |events| + 1
  {
    if events == [] then gaps[0]
    else gaps[0] + [printer.print_(events[0])] + Printed(printer, events[1..], gaps[1..])
  }

  function Encoded(printer: Printer, lines: seq<string>): (pieces: seq<Bytes>)
    ensures |pieces| == |lines|
  {
    seq(|lines|, i requires 0 <= i < |lines| => printer.encode(lines[i]))
  }

  lemma {:induction false} RecordsConcat(codec: Codec, a: seq<string>, b: seq<string>)
    ensures Records(codec, a + b) == Records(codec, a) + Records(codec, b)
  {
    if a == [] {
      assert a + b == b;
    } else {
      assert (a + b)[1..] == a[1..] + b;
      RecordsConcat(codec, a[1..], b);
    }
  }

  lemma {:induction false} BlankHasNoRecords(codec: Codec, lines: seq<string>)
    requires forall line :: line in lines ==> codec.blank(line)
    ensures Records(codec, lines) == []
  {
    if lines != [] { BlankHasNoRecords(codec, lines[1..]); }
  }

  lemma {:induction false} PrintedEvents(codec: Codec, printer: Printer, events: seq<Event>, gaps: seq<seq<string>>)
    requires |gaps| == |events| + 1
    requires forall e :: e in events ==> IsPrintable(codec, printer, e)
    requires forall gap, line :: gap in gaps && line in gap ==> codec.blank(line) && IsWritable(codec, printer, line)
    ensures |Records(codec, Printed(printer, events, gaps))| == |events|
    ensures Events(codec, Records(codec, Printed(printer, events, gaps))) == Some(events)
    ensures forall line :: line in Printed(printer, events, gaps) ==> IsWritable(codec, printer, line)
  {
    assert gaps[0] in gaps;
    BlankHasNoRecords(codec, gaps[0]);
    if events == [] {
      NothingComplete(codec);
    } else {
      var e, more := events[0], events[1..];
      var line, rest := printer.print_(e), Printed(printer, more, gaps[1..]);
      assert IsPrintable(codec, printer, e);
      PrintedEvents(codec, printer, more, gaps[1..]);
      RecordsConcat(codec, gaps[0] + [line], rest);
      RecordsConcat(codec, gaps[0], [line]);
      OneRecord(codec, line, Records(codec, rest), e, more);
      hide IsWritable, Records, Events;
      assert [] + [line] == [line];
      assert events == [e] + more;
    }
  }

  lemma {:induction false} OneRecord(codec: Codec, line: string, records: seq<string>, e: Event, more: seq<Event>)
    requires !codec.blank(line) && codec.parse(line) == Some(e) && Events(codec, records) == Some(more)
    ensures Records(codec, [line]) == [line] && Events(codec, [line] + records) == Some([e] + more)
  {
    assert [line][1..] == [] && ([line] + records)[1..] == records;
    assert Records(codec, []) == [] && [line] + [] == [line];
  }

  lemma {:induction false} EncodedLines(codec: Codec, printer: Printer, lines: seq<string>)
    requires forall line :: line in lines ==> IsWritable(codec, printer, line)
    ensures AreLines(Encoded(printer, lines), []) && GoodLines(codec, Encoded(printer, lines), lines)
  {
    var pieces := Encoded(printer, lines);
    forall i | 0 <= i < |pieces|
      ensures LineFeed !in pieces[i] && LineCode(codec, pieces[i]).None? && codec.decode(pieces[i]) == Some(lines[i])
    {
      assert lines[i] in lines && pieces[i] == printer.encode(lines[i]);
    }
  }

  /** The printed lines of an accepted trace, with or without blank lines between them, read as its projection. */
  lemma {:induction false} PrintedTraceIsShown(codec: Codec, printer: Printer, events: seq<Event>,
                                               gaps: seq<seq<string>>)
    requires Accepted(events) && |events| <= 4096 && |gaps| == |events| + 1 && codec.decodesSoFar([])
    requires forall e :: e in events ==> IsPrintable(codec, printer, e)
    requires forall gap, line :: gap in gaps && line in gap ==> codec.blank(line) && IsWritable(codec, printer, line)
    ensures Created(events)
    ensures Read(codec, Terminated(Encoded(printer, Printed(printer, events, gaps)))) == Detail(false, Project(events))
  {
    AcceptedIsCreated(events);
    var lines := Printed(printer, events, gaps);
    var pieces := Encoded(printer, lines);
    PrintedEvents(codec, printer, events, gaps);
    EncodedLines(codec, printer, lines);
    hide IsPrintable, IsWritable, Printed, Encoded, Accepted, Project, Records, Events, GoodLines, AreLines;
    FileIsLines(pieces, []);
    GoodLinesDecode(codec, pieces, lines);
    assert Terminated(pieces) + [] == Terminated(pieces);
    NoRecordsWithoutLines(codec);
  }

  lemma {:induction false} NoRecordsWithoutLines(codec: Codec)
    ensures Records(codec, []) == []
  {
  }
}
