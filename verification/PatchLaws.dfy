/** Splicing the hunks of a patch from the back is one forward pass over the lines. */
module PatchLaws {
  import opened Options
  import opened Splicing
  import opened PatchSplice
  import opened RowText

  function Reversed<T>(s: seq<T>): seq<T> {
    if s == [] then [] else Reversed(s[1..]) + [s[0]]
  }

  lemma {:induction false} ReversedSnoc<T>(s: seq<T>, x: T)
    ensures Reversed(s + [x]) == [x] + Reversed(s)
  {
    if s != [] {
      ReversedSnoc(s[1..], x);
      assert (s + [x])[1..] == s[1..] + [x];
    } else {
      assert Reversed([x]) == Reversed([x][1..]) + [x];
    }
  }

  lemma {:induction false} InOrderOfReversed(lines: seq<string>, edits: seq<Splice<string>>)
    ensures ApplyInOrder(lines, Reversed(edits)) == BackToFront(lines, edits)
    decreases |edits|
  {
    if edits != [] {
      var front, last := edits[..|edits| - 1], edits[|edits| - 1];
      assert edits == front + [last];
      ReversedSnoc(front, last);
      assert Reversed(edits)[1..] == Reversed(front);
      InOrderOfReversed(Spliced(lines, last), front);
    } else {
      assert Reversed(edits) == [];
    }
  }

  lemma {:induction false} InOrderSplits(lines: seq<string>, a: seq<Splice<string>>, b: seq<Splice<string>>)
    ensures ApplyInOrder(lines, a + b) == ApplyInOrder(ApplyInOrder(lines, a), b)
    decreases |a|
  {
    InOrderStep(lines, a);
    InOrderStep(lines, a + b);
    hide *;
    if a != [] {
      InOrderSplits(Spliced(lines, a[0]), a[1..], b);
      assert (a + b)[0] == a[0] && (a + b)[1..] == a[1..] + b;
    } else {
      assert a + b == b;
    }
  }

  lemma {:induction false} InOrderStep(lines: seq<string>, edits: seq<Splice<string>>)
    ensures ApplyInOrder(lines, edits) ==
              if edits == [] then lines else ApplyInOrder(Spliced(lines, edits[0]), edits[1..])
  {
  }

  lemma {:induction false} PlacedBetween(a: seq<Splice<string>>, b: seq<Splice<string>>, x: Splice<string>)
    requires forall e :: e in a ==> x.at <= e.at
    requires forall i :: 0 <= i < |b| ==> b[i].at < x.at
    ensures PlaceDown(a + b, x) == a + [x] + b
    decreases |b|
  {
    if b != [] {
      var front, last := b[..|b| - 1], b[|b| - 1];
      assert (a + b)[..|a + b| - 1] == a + front;
      PlacedBetween(a, front, x);
      assert a + [x] + front + [last] == a + [x] + b;
    } else {
      assert a + b == a;
    }
  }

  // ---------------------------------------------------------------- additions and hunks

  /** The located hunks that replace lines, and the additions that replace none. */
  function Hunks(chunks: seq<UpdateChunk>, edits: seq<Splice<string>>): seq<Splice<string>>
    requires |chunks| == |edits|
  {
    if chunks == [] then [] else
    var n := |chunks| - 1;
    var front := Hunks(chunks[..n], edits[..n]);
    if chunks[n].oldLines == [] then front else front + [edits[n]]
  }

  function Additions(chunks: seq<UpdateChunk>, edits: seq<Splice<string>>): seq<Splice<string>>
    requires |chunks| == |edits|
  {
    if chunks == [] then [] else
    var n := |chunks| - 1;
    var front := Additions(chunks[..n], edits[..n]);
    if chunks[n].oldLines == [] then front + [edits[n]] else front
  }

  /** The added lines, last addition first. */
  function AddedLines(chunks: seq<UpdateChunk>): seq<string> {
    if chunks == [] then [] else
    var n := |chunks| - 1;
    if chunks[n].oldLines == [] then chunks[n].newLines + AddedLines(chunks[..n]) else AddedLines(chunks[..n])
  }

  /** No hunk is tied to the end of the file, and every hunk with old lines matches at least one line. */
  predicate InSequence(chunks: seq<UpdateChunk>, edits: seq<Splice<string>>)
    requires |chunks| == |edits|
  {
    forall i :: 0 <= i < |chunks| ==> !chunks[i].endOfFile && (chunks[i].oldLines == [] || edits[i].length > 0)
  }

  lemma {:induction false} LocatedFront(passes: seq<LineEqual>, lines: seq<string>, chunks: seq<UpdateChunk>)
    requires chunks != [] && Locate(passes, lines, chunks).Located?
    requires InSequence(chunks, Locate(passes, lines, chunks).edits)
    ensures var front, n := Locate(passes, lines, chunks[..|chunks| - 1]), |chunks| - 1;
            && front.Located? && front.edits == Locate(passes, lines, chunks).edits[..n]
            && InSequence(chunks[..n], front.edits)
            && LocateChunk(passes, lines, chunks[n], front.lineIndex)
                 == Found(Locate(passes, lines, chunks).edits[n], Locate(passes, lines, chunks).lineIndex)
  {
    var front, n := Locate(passes, lines, chunks[..|chunks| - 1]), |chunks| - 1;
    assert front.edits == Locate(passes, lines, chunks).edits[..n];
  }

  /** Additions stand at the end; hunks match lines and lie one behind the other. */
  ghost predicate InPlace(chunks: seq<UpdateChunk>, edits: seq<Splice<string>>, count: nat) {
    && |chunks| == |edits|
    && (forall i :: 0 <= i < |chunks| ==> FitsChunk(chunks[i], edits[i], count))
    && (forall i, j :: 0 <= i < j < |chunks| && chunks[i].oldLines != [] && chunks[j].oldLines != [] ==>
          edits[i].End() <= edits[j].at)
  }

  predicate FitsChunk(chunk: UpdateChunk, edit: Splice<string>, count: nat) {
    if chunk.oldLines == [] then edit == Splice(count, 0, chunk.newLines)
    else edit.length > 0 && edit.End() <= count
  }

  lemma {:induction false} LocatedIsInPlace(passes: seq<LineEqual>, lines: seq<string>, chunks: seq<UpdateChunk>)
    requires Locate(passes, lines, chunks).Located?
    requires InSequence(chunks, Locate(passes, lines, chunks).edits)
    ensures var location := Locate(passes, lines, chunks);
            && InPlace(chunks, location.edits, |lines|)
            && forall i :: 0 <= i < |chunks| && chunks[i].oldLines != [] ==>
                 location.edits[i].End() <= location.lineIndex
    decreases |chunks|
  {
    hide LocateChunk;
    if chunks != [] {
      LocatedFront(passes, lines, chunks);
      LocatedIsInPlace(passes, lines, chunks[..|chunks| - 1]);
      LocatedLast(passes, lines, chunks);
      OneMoreInPlace(chunks, Locate(passes, lines, chunks).edits, |lines|,
                     Locate(passes, lines, chunks[..|chunks| - 1]).lineIndex);
    }
  }

  lemma {:induction false} OneMoreInPlace(chunks: seq<UpdateChunk>, edits: seq<Splice<string>>, count: nat, bound: nat)
    requires chunks != [] && |chunks| == |edits| && InPlace(chunks[..|chunks| - 1], edits[..|chunks| - 1], count)
    requires forall i :: 0 <= i < |chunks| - 1 && chunks[i].oldLines != [] ==> edits[i].End() <= bound
    requires FitsChunk(chunks[|chunks| - 1], edits[|chunks| - 1], count)
    requires chunks[|chunks| - 1].oldLines != [] ==> bound <= edits[|chunks| - 1].at
    ensures InPlace(chunks, edits, count)
  {
    var n := |chunks| - 1;
    forall i | 0 <= i < |chunks| ensures FitsChunk(chunks[i], edits[i], count) {
      assert i < n ==> FitsChunk(chunks[..n][i], edits[..n][i], count);
    }
    forall i, j | 0 <= i < j < |chunks| && chunks[i].oldLines != [] && chunks[j].oldLines != []
      ensures edits[i].End() <= edits[j].at
    {
      assert j < n ==> chunks[..n][i] == chunks[i] && chunks[..n][j] == chunks[j];
      assert j < n ==> edits[..n][i].End() <= edits[..n][j].at;
    }
  }

  lemma {:induction false} LocatedLast(passes: seq<LineEqual>, lines: seq<string>, chunks: seq<UpdateChunk>)
    requires chunks != [] && Locate(passes, lines, chunks).Located?
    requires InSequence(chunks, Locate(passes, lines, chunks).edits)
    requires Locate(passes, lines, chunks[..|chunks| - 1]).Located?
    ensures var n, location := |chunks| - 1, Locate(passes, lines, chunks);
            && FitsChunk(chunks[n], location.edits[n], |lines|)
            && Locate(passes, lines, chunks[..n]).lineIndex <= location.lineIndex
            && (chunks[n].oldLines != [] ==> Locate(passes, lines, chunks[..n]).lineIndex <= location.edits[n].at
                                             && location.edits[n].End() <= location.lineIndex)
  {
    hide LocateChunk;
    LocatedFront(passes, lines, chunks);
  }

  lemma {:induction false} FrontIsInPlace(chunks: seq<UpdateChunk>, edits: seq<Splice<string>>, count: nat)
    requires InPlace(chunks, edits, count) && chunks != []
    ensures InPlace(chunks[..|chunks| - 1], edits[..|chunks| - 1], count)
    ensures FitsChunk(chunks[|chunks| - 1], edits[|chunks| - 1], count)
  {
  }

  /** The hunks lie one behind the other, in front of a bound. */
  lemma {:induction false} HunksAreOrdered(chunks: seq<UpdateChunk>, edits: seq<Splice<string>>, count: nat, bound: nat)
    requires InPlace(chunks, edits, count)
    requires forall i :: 0 <= i < |chunks| && chunks[i].oldLines != [] ==> edits[i].End() <= bound
    ensures Ordered(Hunks(chunks, edits), 0, bound) && NonEmpty(Hunks(chunks, edits))
    decreases |chunks|
  {
    if chunks != [] {
      var n := |chunks| - 1;
      FrontIsInPlace(chunks, edits, count);
      if chunks[n].oldLines == [] {
        HunksAreOrdered(chunks[..n], edits[..n], count, bound);
      } else {
        HunksAreOrdered(chunks[..n], edits[..n], count, edits[n].at);
        var hunks := Hunks(chunks[..n], edits[..n]);
        OrderedBounds(hunks, 0, edits[n].at);
        OrderedFromBounds(hunks + [edits[n]], 0, bound);
      }
    }
  }

  lemma {:induction false} AdditionsAreAtEnd(chunks: seq<UpdateChunk>, edits: seq<Splice<string>>, count: nat)
    requires InPlace(chunks, edits, count)
    ensures forall e :: e in Additions(chunks, edits) ==> e.at == count
    decreases |chunks|
  {
    if chunks != [] {
      var n := |chunks| - 1;
      FrontIsInPlace(chunks, edits, count);
      AdditionsAreAtEnd(chunks[..n], edits[..n], count);
    }
  }

  lemma {:induction false} OneInOrder(lines: seq<string>, edit: Splice<string>)
    ensures ApplyInOrder(lines, [edit]) == Spliced(lines, edit)
  {
    assert [edit][1..] == [];
  }

  lemma {:induction false} SplicedAtEnd(lines: seq<string>, added: seq<string>, text: seq<string>)
    ensures Spliced(lines + added, Splice(|lines|, 0, text)) == lines + (text + added)
  {
    assert (lines + added)[..|lines|] == lines && (lines + added)[|lines|..] == added;
  }

  /** Each addition goes in front of the earlier ones. */
  lemma {:induction false} AdditionsAddLines(lines: seq<string>, chunks: seq<UpdateChunk>, edits: seq<Splice<string>>)
    requires InPlace(chunks, edits, |lines|)
    ensures ApplyInOrder(lines, Additions(chunks, edits)) == lines + AddedLines(chunks)
    decreases |chunks|
  {
    if chunks != [] {
      var n := |chunks| - 1;
      var before, edit, added := Additions(chunks[..n], edits[..n]), edits[n], AddedLines(chunks[..n]);
      FrontIsInPlace(chunks, edits, |lines|);
      AdditionsAddLines(lines, chunks[..n], edits[..n]);
      if chunks[n].oldLines == [] {
        assert Additions(chunks, edits) == before + [edit];
        assert edit == Splice(|lines|, 0, chunks[n].newLines);
        assert AddedLines(chunks) == chunks[n].newLines + added;
        hide *;
        InOrderSplits(lines, before, [edit]);
        OneInOrder(lines + added, edit);
        SplicedAtEnd(lines, added, chunks[n].newLines);
      }
    }
  }

  /** Sorting puts the additions first and then the hunks from the back. */
  lemma {:induction false} DescendingIs(chunks: seq<UpdateChunk>, edits: seq<Splice<string>>, count: nat)
    requires InPlace(chunks, edits, count)
    ensures Descending(edits) == Additions(chunks, edits) + Reversed(Hunks(chunks, edits))
    decreases |chunks|
  {
    if chunks != [] {
      var n := |chunks| - 1;
      FrontIsInPlace(chunks, edits, count);
      DescendingIs(chunks[..n], edits[..n], count);
      NewestIsPlaced(chunks, edits, count);
      ReversedSnoc(Hunks(chunks[..n], edits[..n]), edits[n]);
    }
  }

  lemma {:induction false} ReversedMembers<T>(s: seq<T>)
    ensures |Reversed(s)| == |s| && forall i :: 0 <= i < |s| ==> Reversed(s)[i] == s[|s| - 1 - i]
  {
    if s != [] {
      ReversedMembers(s[1..]);
    }
  }

  lemma {:induction false} NewestIsPlaced(chunks: seq<UpdateChunk>, edits: seq<Splice<string>>, count: nat)
    requires InPlace(chunks, edits, count) && chunks != []
    ensures var n := |chunks| - 1;
            var additions, hunks := Additions(chunks[..n], edits[..n]), Hunks(chunks[..n], edits[..n]);
            PlaceDown(additions + Reversed(hunks), edits[n]) == additions + [edits[n]] + Reversed(hunks)
  {
    var n := |chunks| - 1;
    FrontIsInPlace(chunks, edits, count);
    var edit, additions, hunks := edits[n], Additions(chunks[..n], edits[..n]), Hunks(chunks[..n], edits[..n]);
    AdditionsAreAtEnd(chunks[..n], edits[..n], count);
    HunksAreOrdered(chunks[..n], edits[..n], count, if chunks[n].oldLines == [] then count else edit.at);
    assert edit.at <= count;
    hide InPlace, Additions, Hunks, PlaceDown;
    OrderedBounds(hunks, 0, if chunks[n].oldLines == [] then count else edit.at);
    ReversedMembers(hunks);
    var reversed := Reversed(hunks);
    forall i | 0 <= i < |reversed| ensures reversed[i].at < edit.at {
      assert reversed[i] == hunks[|hunks| - 1 - i];
    }
    PlacedBetween(additions, reversed, edit);
  }

  /**
   When no hunk is tied to the end of the file and each hunk with old lines matches at least one, the
   hunks are in order and disjoint, and the spliced lines are those of one forward pass over the hunks,
   followed by the lines of the pure additions, last addition first.
   */
  lemma {:induction false} SplicesAreForwardPass(passes: seq<LineEqual>, lines: seq<string>, chunks: seq<UpdateChunk>)
    requires Locate(passes, lines, chunks).Located?
    requires InSequence(chunks, Locate(passes, lines, chunks).edits)
    ensures var edits := Locate(passes, lines, chunks).edits;
            && Ordered(Hunks(chunks, edits), 0, |lines|)
            && ApplyInOrder(lines, Descending(edits)) == Rebuild(lines, Hunks(chunks, edits), 0) + AddedLines(chunks)
  {
    var edits := Locate(passes, lines, chunks).edits;
    var additions, hunks, added := Additions(chunks, edits), Hunks(chunks, edits), AddedLines(chunks);
    LocatedIsInPlace(passes, lines, chunks);
    HunksAreOrdered(chunks, edits, |lines|, |lines|);
    DescendingIs(chunks, edits, |lines|);
    AdditionsAddLines(lines, chunks, edits);
    hide Locate, Hunks, Additions, AddedLines, Ordered, Descending, ApplyInOrder, BackToFront, Rebuild;
    InOrderSplits(lines, additions, Reversed(hunks));
    InOrderOfReversed(lines + added, hunks);
    assert (lines + added)[..|lines|] == lines && (lines + added)[|lines|..] == added;
    RebuildTail(lines + added, hunks, 0, |lines|);
    BackToFrontIsRebuild(lines + added, hunks);
  }

  // ---------------------------------------------------------------- any disjoint places

  predicate SortedDown(edits: seq<Splice<string>>) {
    forall i, j :: 0 <= i < j < |edits| ==> edits[i].at >= edits[j].at
  }

  lemma {:induction false} PlaceDownKeepsAll(edits: seq<Splice<string>>, edit: Splice<string>)
    ensures multiset(PlaceDown(edits, edit)) == multiset(edits) + multiset{edit}
  {
    if edits != [] && edits[|edits| - 1].at < edit.at {
      var front, last := edits[..|edits| - 1], edits[|edits| - 1];
      PlaceDownKeepsAll(front, edit);
      assert multiset(edits) == multiset(front) + multiset{last} by { assert edits == front + [last]; }
      assert multiset(PlaceDown(front, edit) + [last]) == multiset(PlaceDown(front, edit)) + multiset{last};
    }
  }

  lemma {:induction false} PlaceDownSorts(edits: seq<Splice<string>>, edit: Splice<string>)
    requires SortedDown(edits)
    ensures SortedDown(PlaceDown(edits, edit))
  {
    if edits != [] && edits[|edits| - 1].at < edit.at {
      var front, last := edits[..|edits| - 1], edits[|edits| - 1];
      PlaceDownSorts(front, edit);
      var placed := PlaceDown(front, edit);
      PlaceDownKeepsAll(front, edit);
      forall i | 0 <= i < |placed| ensures placed[i].at >= last.at {
        assert placed[i] in multiset(placed);
        assert placed[i] == edit || placed[i] in front;
      }
      hide PlaceDown;
      assert SortedDown(placed + [last]);
    }
  }

  lemma {:induction false} DescendingKeepsAll(edits: seq<Splice<string>>)
    ensures multiset(Descending(edits)) == multiset(edits)
  {
    hide PlaceDown;
    if edits != [] {
      var front, last := edits[..|edits| - 1], edits[|edits| - 1];
      DescendingKeepsAll(front);
      PlaceDownKeepsAll(Descending(front), last);
      assert edits == front + [last];
      assert multiset(front + [last]) == multiset(front) + multiset{last};
      assert Descending(edits) == PlaceDown(Descending(front), last);
    }
  }

  lemma {:induction false} DescendingSorts(edits: seq<Splice<string>>)
    ensures SortedDown(Descending(edits))
  {
    if edits != [] {
      DescendingSorts(edits[..|edits| - 1]);
      PlaceDownSorts(Descending(edits[..|edits| - 1]), edits[|edits| - 1]);
    }
  }

  /** Two disjoint edits in descending order. */
  lemma {:induction false} DownIsApart(down: seq<Splice<string>>, i: nat, j: nat)
    requires SortedDown(down) && Disjoint(multiset(down)) && i < j < |down|
    ensures down[j].End() <= down[i].at
  {
    assert down[i] in multiset(down) && down[j] in multiset(down);
    if down[i] == down[j] {
      TwiceInMultiset(down, i, j);
    }
  }

  lemma {:induction false} TurnedIsOrdered(down: seq<Splice<string>>, to: nat)
    requires SortedDown(down) && Disjoint(multiset(down)) && forall i :: 0 <= i < |down| ==> down[i].End() <= to
    ensures Ordered(Reversed(down), 0, to) && NonEmpty(Reversed(down))
  {
    hide Disjoint, SortedDown;
    ReversedMembers(down);
    var up := Reversed(down);
    forall i, j | 0 <= i < j < |up| ensures up[i].End() <= up[j].at {
      DownIsApart(down, |down| - 1 - j, |down| - 1 - i);
    }
    forall i | 0 <= i < |up| ensures up[i].length > 0 && up[i].End() <= to {
      DownIsNonEmpty(down, |down| - 1 - i);
    }
    OrderedFromBounds(up, 0, to);
  }

  lemma {:induction false} DownIsNonEmpty(down: seq<Splice<string>>, i: nat)
    requires Disjoint(multiset(down)) && i < |down|
    ensures down[i].length > 0
  {
    assert down[i] in multiset(down);
  }

  lemma {:induction false} ReversedHasSame<T>(s: seq<T>)
    ensures forall e :: e in Reversed(s) <==> e in s
  {
    if s != [] {
      ReversedHasSame(s[1..]);
    }
  }

  /** Disjoint edits sorted down are the same edits sorted up, reversed. */
  lemma {:induction false} DescendingIsReversed(edits: seq<Splice<string>>, to: nat)
    requires Disjoint(multiset(edits)) && forall e :: e in edits ==> e.End() <= to
    ensures Descending(edits) == Reversed(Ascending(edits))
  {
    hide Disjoint, Ordered, PlaceDown, Descending, Ascending, Reversed, SortedDown, NonEmpty;
    var down := Descending(edits);
    DescendingKeepsAll(edits);
    DescendingSorts(edits);
    AscendingIsOrdered(edits, to);
    forall e ensures e in down <==> e in edits {
      assert e in multiset(down) <==> e in down;
      assert e in multiset(edits) <==> e in edits;
    }
    forall i | 0 <= i < |down| ensures down[i].End() <= to {
      assert down[i] in down;
    }
    TurnedIsOrdered(down, to);
    ReversedHasSame(down);
    SameOrderedList(Reversed(down), Ascending(edits), 0, to);
    ReversedTwice(down);
  }

  lemma {:induction false} ReversedTwice<T>(s: seq<T>)
    ensures Reversed(Reversed(s)) == s
  {
    ReversedMembers(s);
    ReversedMembers(Reversed(s));
  }

  /** Wherever the hunks were found, hunks at disjoint places make one forward pass. */
  lemma {:induction false} DisjointHunksAreForwardPass(passes: seq<LineEqual>, lines: seq<string>,
                                                       chunks: seq<UpdateChunk>)
    requires Locate(passes, lines, chunks).Located?
    requires Disjoint(multiset(Locate(passes, lines, chunks).edits))
    ensures var edits := Locate(passes, lines, chunks).edits;
            && Ordered(Ascending(edits), 0, |lines|)
            && ApplyInOrder(lines, Descending(edits)) == Rebuild(lines, Ascending(edits), 0)
  {
    hide LocateChunk;
    var edits := Locate(passes, lines, chunks).edits;
    AscendingIsOrdered(edits, |lines|);
    DescendingIsReversed(edits, |lines|);
    InOrderOfReversed(lines, Ascending(edits));
    BackToFrontIsRebuild(lines, Ascending(edits));
  }

  // ---------------------------------------------------------------- the end of the file

  /** A patched file ends every line with a line feed, and an empty last line is no line of its own. */
  lemma {:induction false} EndedIs(lines: seq<string>)
    ensures Ended(lines) == Terminated(if lines != [] && lines[|lines| - 1] == "" then lines[..|lines| - 1] else lines)
  {
    var front := if lines != [] && lines[|lines| - 1] == "" then lines[..|lines| - 1] else lines;
    JoinConcat(front, [""]);
    assert Terminated(front) + "" == Terminated(front);
    hide Terminated;
    assert lines != [] && lines[|lines| - 1] == "" ==> lines == front + [""];
  }

  /** The lines of a file: without the empty one behind a final line feed. */
  lemma {:induction false} LinesAre(rows: seq<string>)
    requires AreRows(rows) && rows != []
    ensures Lines(Terminated(rows)) == rows
    ensures rows[|rows| - 1] != "" ==> Lines(Join(rows)) == rows
  {
    SplitJoin(rows);
    SplitJoin(rows + [""]);
    JoinConcat(rows, [""]);
    assert Terminated(rows) + "" == Terminated(rows);
    hide Terminated, Split, Join;
  }

  // ---------------------------------------------------------------- limits

  /** An empty old line that is not there leaves a hunk that matches no line, at the search position. */
  lemma {:induction false} MissingEmptyLine(passes: seq<LineEqual>, lines: seq<string>, text: seq<string>,
                                            lineIndex: nat)
    requires lineIndex <= |lines| && SeekPasses(passes, lines, [""], lineIndex).None?
    ensures LocateChunk(passes, lines, UpdateChunk(None, [""], text, false), lineIndex)
         == Found(Splice(lineIndex, 0, WithoutLastEmpty(text)), lineIndex)
  {
    assert [""][..0] == [];
  }

  /** A hunk that matches no line is overwritten by the next hunk if that starts at the same place. */
  lemma {:induction false} EmptyHunkIsOverwritten(lines: seq<string>, first: Splice<string>, second: Splice<string>)
    requires first.at == second.at && first.length == 0 && second.End() <= |lines|
    ensures ApplyInOrder(lines, Descending([first, second]))
         == lines[..first.at] + second.text + (first.text + lines[first.at..])[second.length..]
  {
    var edits := [first, second];
    assert edits[..1] == [first] && [first][..0] == [];
    assert Descending([first]) == [first];
    assert Descending(edits) == edits;
    assert edits[1..] == [second];
    OneInOrder(Spliced(lines, first), second);
    var inserted := lines[..first.at] + (first.text + lines[first.at..]);
    assert Spliced(lines, first) == inserted;
    assert inserted[second.End()..] == (first.text + lines[first.at..])[second.length..];
  }

  lemma {:induction false} ForwardOfTwo(lines: seq<string>, first: Splice<string>, second: Splice<string>)
    requires first.at == second.at && first.length == 0 && second.End() <= |lines|
    ensures Ordered([first, second], 0, |lines|)
    ensures Rebuild(lines, [first, second], 0)
         == lines[..first.at] + (first.text + second.text) + lines[second.End()..]
  {
    var edits := [first, second];
    assert edits[1..] == [second] && [second][1..] == [];
    assert lines[first.at..first.at] == [];
    assert Rebuild(lines, [second], first.at) == [] + second.text + lines[second.End()..];
    assert Rebuild(lines, edits, 0) == lines[..first.at] + first.text + (second.text + lines[second.End()..]);
  }

  /** When a hunk that matches no line and the next one at its place make one forward pass. */
  predicate Harmless(first: Splice<string>, second: Splice<string>) {
    if second.length > 0 then first.text == [] else first.text + second.text == second.text + first.text
  }

  lemma {:induction false} HarmlessIsForward(lines: seq<string>, first: Splice<string>, second: Splice<string>)
    requires first.at == second.at && first.length == 0 && second.End() <= |lines| && Harmless(first, second)
    ensures Ordered([first, second], 0, |lines|)
    ensures ApplyInOrder(lines, Descending([first, second])) == Rebuild(lines, [first, second], 0)
  {
    hide ApplyInOrder, Descending, Rebuild;
    EmptyHunkIsOverwritten(lines, first, second);
    ForwardOfTwo(lines, first, second);
    var front, rest := lines[..first.at], lines[first.at..];
    assert lines[second.End()..] == rest[second.length..];
    if second.length > 0 {
      assert [] + rest == rest && [] + second.text == second.text;
    } else {
      assert (first.text + rest)[0..] == first.text + rest && rest[0..] == rest;
      assert front + second.text + (first.text + rest) == front + (second.text + first.text) + rest;
    }
  }

  /** Lines of which the two readings end differently, or hold the two texts in different order. */
  lemma {:induction false} HarmIsSeen(first: Splice<string>, second: Splice<string>) returns (lines: seq<string>)
    requires first.at == second.at && first.length == 0 && !Harmless(first, second)
    ensures second.End() <= |lines| && Ordered([first, second], 0, |lines|)
    ensures ApplyInOrder(lines, Descending([first, second])) != Rebuild(lines, [first, second], 0)
  {
    hide ApplyInOrder, Descending, Rebuild;
    var texts := first.text + second.text;
    assert texts != [];
    var other := texts[|texts| - 1] + "x";
    lines := seq(second.End(), _ => other);
    EmptyHunkIsOverwritten(lines, first, second);
    ForwardOfTwo(lines, first, second);
    var front, rest := lines[..first.at], lines[first.at..];
    assert lines[second.End()..] == [];
    var tail := (first.text + rest)[second.length..];
    if second.length > 0 {
      assert |tail| == |first.text|;
      assert tail[|tail| - 1] == rest[|rest| - 1] == other;
      assert (front + second.text + tail)[|front| + |texts| - 1] == other;
      assert (front + texts + [])[|front| + |texts| - 1] == texts[|texts| - 1] != other;
    } else {
      assert rest == [] && tail == first.text;
      assert (front + second.text + tail)[|front|..] == second.text + first.text;
      assert (front + texts + [])[|front|..] == texts;
    }
  }

  /**
   A hunk that matches no line and the next hunk at its place give one forward pass over every file
   exactly when the first writes nothing, or the second matches no line either and the order of the two
   texts makes no difference.
   */
  lemma {:induction false} ForwardPassIffHarmless(first: Splice<string>, second: Splice<string>)
    requires first.at == second.at && first.length == 0
    ensures Harmless(first, second)
       <==> forall lines: seq<string> | second.End() <= |lines| ::
              && Ordered([first, second], 0, |lines|)
              && ApplyInOrder(lines, Descending([first, second])) == Rebuild(lines, [first, second], 0)
  {
    hide ApplyInOrder, Descending, Rebuild, Harmless, Ordered;
    if Harmless(first, second) {
      forall lines: seq<string> | second.End() <= |lines|
        ensures Ordered([first, second], 0, |lines|)
        ensures ApplyInOrder(lines, Descending([first, second])) == Rebuild(lines, [first, second], 0)
      {
        HarmlessIsForward(lines, first, second);
      }
    } else {
      var lines := HarmIsSeen(first, second);
    }
  }
}
