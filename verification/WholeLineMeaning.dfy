/** A successful set of whole-line edits, matched exactly, is a set of row replacements. */
module WholeLineMeaning {
  import opened Splicing
  import opened EditMatching
  import opened EditLaws
  import opened RowText
  import opened WholeLineEdits

  // ---------------------------------------------------------------- counting

  /** Whole-line matches are counted one by one. */
  lemma {:induction false} CountIsCardinality(content: string, needle: string, from: nat)
    requires needle != ""
    ensures CountFrom(content, needle, true, from)
         == |set p | from <= p <= |content| && MatchesAt(content, needle, true, p)|
    decreases |content| - from
  {
    var all := set p | from <= p <= |content| && MatchesAt(content, needle, true, p);
    if from + |needle| > |content| {
      assert all == {};
    } else {
      CountIsCardinality(content, needle, from + 1);
      var rest := set p | from + 1 <= p <= |content| && MatchesAt(content, needle, true, p);
      if MatchesAt(content, needle, true, from) {
        assert all == rest + {from};
      } else {
        assert all == rest;
      }
    }
  }

  lemma {:induction false} TwoAreTwo(s: set<int>, p: int, q: int)
    requires p in s && q in s && p != q
    ensures |s| >= 2
  {
    assert |s - {p}| == |s| - 1;
    assert q in s - {p};
  }

  lemma {:induction false} CountedOnceIsUnique(content: string, needle: string, p: nat, q: nat)
    requires needle != "" && CountFrom(content, needle, true, 0) <= 1
    requires MatchesAt(content, needle, true, p) && MatchesAt(content, needle, true, q)
    ensures p == q
  {
    CountIsCardinality(content, needle, 0);
    if p != q {
      var all := set r | 0 <= r <= |content| && MatchesAt(content, needle, true, r);
      TwoAreTwo(all, p, q);
    }
  }

  // ---------------------------------------------------------------- normalization row by row

  function Folded(fold: string -> string, rows: seq<string>): seq<string> {
    seq(|rows|, i requires 0 <= i < |rows| => fold(rows[i]))
  }

  /** The normalization works on each row by itself. */
  ghost predicate PerRow(fuzzy: Fuzzy, fold: string -> string) {
    && fold("") == ""
    && (forall row :: IsRow(row) ==> IsRow(fold(row)))
    && (forall rows :: rows != [] && AreRows(rows) ==> fuzzy(Join(rows)) == Join(Folded(fold, rows)))
  }

  function FoldedPair(fold: string -> string, pair: Pair): Pair {
    Pair(Folded(fold, pair.oldRows), pair.newRows)
  }

  lemma {:induction false} FoldedNeedle(fuzzy: Fuzzy, fold: string -> string, pair: Pair)
    requires PerRow(fuzzy, fold) && WellFormed(pair)
    ensures fuzzy(RowEditFromPair(pair, true).oldText) == RowEditFromPair(FoldedPair(fold, pair), true).oldText
  {
    if pair.newRows == [] {
      var rows := pair.oldRows + [""];
      JoinConcat(pair.oldRows, [""]);
      JoinTerminates(pair.oldRows);
      JoinConcat(Folded(fold, pair.oldRows), [""]);
      JoinTerminates(Folded(fold, pair.oldRows));
      assert Folded(fold, rows) == Folded(fold, pair.oldRows) + [""];
      assert AreRows(rows);
      assert Join(rows) == Join(pair.oldRows) + "\n";
      assert Join(Folded(fold, rows)) == Join(Folded(fold, pair.oldRows)) + "\n";
    }
  }

  lemma {:induction false} FoldedRun(fold: string -> string, rows: seq<string>, pair: Pair, i: nat)
    requires Run(rows, pair, i)
    ensures Run(Folded(fold, rows), FoldedPair(fold, pair), i)
  {
    var folded, n := Folded(fold, rows), |pair.oldRows|;
    forall k | 0 <= k < n ensures folded[i..i + n][k] == fold(pair.oldRows[k]) {
      assert rows[i..i + n][k] == rows[i + k];
    }
    assert folded[i..i + n] == Folded(fold, pair.oldRows);
  }

  /** A pair that is not counted twice has at most one run. */
  lemma {:induction false} RunIsUnique(fuzzy: Fuzzy, fold: string -> string, rows: seq<string>, pair: Pair, i: nat,
                                       j: nat)
    requires PerRow(fuzzy, fold) && rows != [] && AreRows(rows) && WellFormed(pair)
    requires Occurrences(fuzzy, Join(rows), RowEditFromPair(pair, true).oldText, true) <= 1
    requires Run(rows, pair, i) && Run(rows, pair, j)
    ensures i == j
  {
    hide Run, CountFrom, MatchesAt, WellFormed, Join, RowEditFromPair;
    var folded, foldedPair := Folded(fold, rows), FoldedPair(fold, pair);
    FoldedNeedle(fuzzy, fold, pair);
    HasOldRows(pair);
    if RowEditFromPair(foldedPair, true).oldText != "" {
      FoldedRun(fold, rows, pair, i);
      FoldedRun(fold, rows, pair, j);
      RunMatches(folded, foldedPair, i);
      RunMatches(folded, foldedPair, j);
      CountedOnceIsUnique(Join(folded), RowEditFromPair(foldedPair, true).oldText, RowStart(folded, i),
                          RowStart(folded, j));
      SameStart(folded, i, j);
    } else {
      RunMatches(rows, pair, i);
      RunMatches(rows, pair, j);
      CountedOnceIsUnique(Join(rows), RowEditFromPair(pair, true).oldText, RowStart(rows, i), RowStart(rows, j));
      SameStart(rows, i, j);
    }
  }

  lemma {:induction false} HasOldRows(pair: Pair)
    requires WellFormed(pair)
    ensures pair.oldRows != [] && RowEditFromPair(pair, true).oldText != ""
    ensures forall rows: seq<string>, i: nat :: Run(rows, pair, i) ==> i < |rows|
  {
    NeedleEnd(pair);
  }

  lemma {:induction false} SameStart(rows: seq<string>, i: nat, j: nat)
    requires i <= |rows| && j <= |rows| && RowStart(rows, i) == RowStart(rows, j)
    ensures i == j
  {
    if i < j { RowStartGrows(rows, i, j); }
    if j < i { RowStartGrows(rows, j, i); }
  }

  // ---------------------------------------------------------------- the edits of a set

  lemma {:induction false} NoCarriageReturn(text: string)
    requires '\r' !in text
    ensures NormalizeToLF(text) == text
  {
    if text != "" {
      NoCarriageReturn(text[1..]);
      assert text == [text[0]] + text[1..];
    }
  }

  lemma {:induction false} CleanJoin(rows: seq<string>)
    requires Clean(rows)
    ensures '\r' !in Join(rows)
  {
    if |rows| > 1 {
      CleanJoin(rows[1..]);
    }
  }

  lemma {:induction false} PairIsNormal(pair: Pair)
    requires WellFormed(pair)
    ensures Normalized(RowEditFromPair(pair, true)) == RowEditFromPair(pair, true)
  {
    CleanJoin(pair.oldRows);
    CleanJoin(pair.newRows);
    NoCarriageReturn(RowEditFromPair(pair, true).oldText);
    NoCarriageReturn(Join(pair.newRows));
  }

  lemma {:induction false} PairsAreNormal(pairs: seq<Pair>)
    requires forall k :: 0 <= k < |pairs| ==> WellFormed(pairs[k])
    ensures AllNormalized(RowEdits(pairs)) == RowEdits(pairs)
  {
    hide WellFormed, Normalized, RowEditFromPair;
    forall k | 0 <= k < |pairs| ensures Normalized(RowEdits(pairs)[k]) == RowEdits(pairs)[k] {
      PairIsNormal(pairs[k]);
    }
  }

  /** The run's row splice lies in the rows, and only a deletion ends in an empty row. */
  predicate RunEnds(rows: seq<string>, pair: Pair, i: nat) {
    && Fits(rows, RowSplice(pair, i))
    && (pair.newRows != [] ==> rows[RowSplice(pair, i).End() - 1] != "")
  }

  lemma {:induction false} RunText(rows: seq<string>, pair: Pair, i: nat)
    requires WellFormed(pair) && Run(rows, pair, i)
    ensures RunEnds(rows, pair, i)
    ensures AsText(rows, RowSplice(pair, i))
         == Splice(RowStart(rows, i), |RowEditFromPair(pair, true).oldText|, Join(pair.newRows))
  {
    var n := |pair.oldRows|;
    NeedleEnd(pair);
    TerminatedSlice(rows, i, i + n);
    assert rows[i..i + n][n - 1] == rows[i + n - 1];
  }

  /** The exact match of a pair is the text of a run. */
  lemma {:induction false} ExactMatchIsRun(fuzzy: Fuzzy, rows: seq<string>, pair: Pair) returns (i: nat)
    requires rows != [] && AreRows(rows) && WellFormed(pair)
    requires FuzzyFind(fuzzy, Join(rows), RowEditFromPair(pair, true).oldText, true).Some?
    requires !FuzzyOnly(fuzzy, Join(rows), RowEditFromPair(pair, true), true)
    ensures Run(rows, pair, i) && RunEnds(rows, pair, i)
    ensures MatchOf(fuzzy, Join(rows), true, RowEditFromPair(pair, true)) == AsText(rows, RowSplice(pair, i))
  {
    hide MatchesAt, WellFormed, Run, RunEnds, AsText, Join;
    var edit := RowEditFromPair(pair, true);
    var found := FuzzyFind(fuzzy, Join(rows), edit.oldText, true).value;
    assert MatchesAt(Join(rows), edit.oldText, true, found.index);
    i := MatchIsRun(rows, pair, found.index);
    RunText(rows, pair, i);
  }

  // ---------------------------------------------------------------- order

  lemma {:induction false} StartsAgree(rows: seq<string>, a: Splice<string>, b: Splice<string>)
    requires Fits(rows, a) && Fits(rows, b)
    ensures a.at <= b.at <==> AsText(rows, a).at <= AsText(rows, b).at
  {
    if a.at < b.at { RowStartGrows(rows, a.at, b.at); }
    if b.at < a.at { RowStartGrows(rows, b.at, a.at); }
  }

  lemma {:induction false} PlacedAsText(rows: seq<string>, edits: seq<Splice<string>>, edit: Splice<string>)
    requires AllFit(rows, edits) && Fits(rows, edit)
    ensures AllFit(rows, Place(edits, edit))
    ensures Place(AllAsText(rows, edits), AsText(rows, edit)) == AllAsText(rows, Place(edits, edit))
  {
    hide AsText, Fits;
    var texts := AllAsText(rows, edits);
    if edits == [] {
      assert Place(texts, AsText(rows, edit)) == [AsText(rows, edit)];
    } else {
      var front, last := edits[..|edits| - 1], edits[|edits| - 1];
      StartsAgree(rows, last, edit);
      if last.at <= edit.at {
        assert AllAsText(rows, edits + [edit]) == texts + [AsText(rows, edit)];
      } else {
        PlacedAsText(rows, front, edit);
        assert texts[..|texts| - 1] == AllAsText(rows, front);
        assert AllAsText(rows, Place(front, edit) + [last])
            == AllAsText(rows, Place(front, edit)) + [AsText(rows, last)];
      }
    }
  }

  lemma {:induction false} SortedAsText(rows: seq<string>, edits: seq<Splice<string>>)
    requires AllFit(rows, edits)
    ensures AllFit(rows, Ascending(edits))
    ensures Ascending(AllAsText(rows, edits)) == AllAsText(rows, Ascending(edits))
  {
    hide AsText, Fits, Place;
    if edits != [] {
      var front, last := edits[..|edits| - 1], edits[|edits| - 1];
      SortedAsText(rows, front);
      PlacedAsText(rows, Ascending(front), last);
      assert AllAsText(rows, edits)[..|edits| - 1] == AllAsText(rows, front);
    }
  }

  /** Disjoint as text means disjoint as rows, unless an edit ends in an empty row. */
  lemma {:induction false} RowsAreApart(rows: seq<string>, a: Splice<string>, b: Splice<string>)
    requires Fits(rows, a) && Fits(rows, b) && (a.text != [] ==> rows[a.End() - 1] != "")
    requires AsText(rows, a).End() <= AsText(rows, b).at
    ensures a.End() <= b.at
  {
    RowStartGrows(rows, a.at, a.End());
    if b.at < a.End() {
      StartWithin(rows, b.at, a.End());
    }
  }

  lemma {:induction false} StartWithin(rows: seq<string>, i: nat, j: nat)
    requires i < j <= |rows|
    ensures RowStart(rows, i) + |rows[j - 1]| < RowStart(rows, j)
  {
    if i < j - 1 {
      RowStartGrows(rows, i, j - 1);
    }
  }

  lemma {:induction false} RowsAreOrdered(rows: seq<string>, sorted: seq<Splice<string>>, to: nat)
    requires AllFit(rows, sorted) && Ordered(AllAsText(rows, sorted), 0, to)
    requires forall k :: 0 <= k < |sorted| ==> (sorted[k].text != [] ==> rows[sorted[k].End() - 1] != "")
    ensures Ordered(sorted, 0, |rows|)
  {
    var texts := AllAsText(rows, sorted);
    OrderedBounds(texts, 0, to);
    forall i, j | 0 <= i < j < |sorted| ensures sorted[i].End() <= sorted[j].at {
      assert texts[i].End() <= texts[j].at;
      RowsAreApart(rows, sorted[i], sorted[j]);
    }
    OrderedFromBounds(sorted, 0, |rows|);
  }

  /** Only deletions end in an empty row. */
  predicate EndsInText(rows: seq<string>, edits: seq<Splice<string>>)
    requires AllFit(rows, edits)
  {
    forall k :: 0 <= k < |edits| ==> (edits[k].text != [] ==> rows[edits[k].End() - 1] != "")
  }

  lemma {:induction false} SortedRunsAreOrdered(rows: seq<string>, edits: seq<Splice<string>>)
    requires rows != [] && AllFit(rows, edits) && EndsInText(rows, edits)
    requires Disjoint(multiset(AllAsText(rows, edits)))
    ensures Ordered(Ascending(edits), 0, |rows|)
  {
    var texts, sorted := AllAsText(rows, edits), Ascending(edits);
    TextWithin(rows, edits);
    AscendingIsOrdered(texts, |Join(rows)|);
    SortedAsText(rows, edits);
    AscendingKeepsAll(edits);
    forall k | 0 <= k < |sorted| ensures sorted[k].text != [] ==> rows[sorted[k].End() - 1] != "" {
      assert sorted[k] in multiset(edits);
      assert sorted[k] in edits;
    }
    RowsAreOrdered(rows, sorted, |Join(rows)|);
  }

  // ---------------------------------------------------------------- the theorem

  ghost predicate OnlyRun(rows: seq<string>, pair: Pair, i: nat) {
    Run(rows, pair, i) && forall j :: Run(rows, pair, j) ==> j == i
  }

  function RowSplices(pairs: seq<Pair>, runs: seq<nat>): seq<Splice<string>>
    requires |pairs| == |runs|
  {
    seq(|pairs|, k requires 0 <= k < |pairs| => RowSplice(pairs[k], runs[k]))
  }

  /** The only run of a pair starts at row i, and the pair's match is the text of that run. */
  ghost predicate PairAt(fuzzy: Fuzzy, rows: seq<string>, pair: Pair, i: nat) {
    && OnlyRun(rows, pair, i) && RunEnds(rows, pair, i)
    && MatchOf(fuzzy, Join(rows), true, RowEditFromPair(pair, true)) == AsText(rows, RowSplice(pair, i))
  }

  lemma {:induction false} FindRun(fuzzy: Fuzzy, fold: string -> string, rows: seq<string>, pair: Pair) returns (i: nat)
    requires PerRow(fuzzy, fold) && rows != [] && AreRows(rows) && WellFormed(pair)
    requires MatchesOnce(fuzzy, Join(rows), true, RowEditFromPair(pair, true))
    requires !FuzzyOnly(fuzzy, Join(rows), RowEditFromPair(pair, true), true)
    ensures PairAt(fuzzy, rows, pair, i)
  {
    hide MatchOf, FuzzyFind, WellFormed, Run, AsText, RowEditFromPair, Occurrences, PerRow, FuzzyOnly, Join, RunEnds;
    i := ExactMatchIsRun(fuzzy, rows, pair);
    forall j | Run(rows, pair, j) ensures j == i {
      RunIsUnique(fuzzy, fold, rows, pair, i, j);
    }
  }

  /** The runs of all pairs. */
  lemma {:induction false} FindRuns(fuzzy: Fuzzy, fold: string -> string, rows: seq<string>, pairs: seq<Pair>)
    returns (runs: seq<nat>)
    requires PerRow(fuzzy, fold) && rows != [] && AreRows(rows)
    requires forall k :: 0 <= k < |pairs| ==> WellFormed(pairs[k])
    requires forall k :: 0 <= k < |pairs| ==> MatchesOnce(fuzzy, Join(rows), true, RowEdits(pairs)[k])
    requires forall k :: 0 <= k < |pairs| ==> !FuzzyOnly(fuzzy, Join(rows), RowEdits(pairs)[k], true)
    ensures |runs| == |pairs| && forall k :: 0 <= k < |pairs| ==> PairAt(fuzzy, rows, pairs[k], runs[k])
  {
    hide MatchesOnce, WellFormed, PerRow, FuzzyOnly, Join, PairAt, RowEditFromPair;
    runs := [];
    for n := 0 to |pairs|
      invariant |runs| == n && forall k :: 0 <= k < n ==> PairAt(fuzzy, rows, pairs[k], runs[k])
    {
      assert RowEdits(pairs)[n] == RowEditFromPair(pairs[n], true);
      var i := FindRun(fuzzy, fold, rows, pairs[n]);
      runs := runs + [i];
    }
  }

  lemma {:induction false} MatchesAreTexts(fuzzy: Fuzzy, rows: seq<string>, pairs: seq<Pair>, runs: seq<nat>)
    requires |runs| == |pairs|
    requires forall k :: 0 <= k < |pairs| ==> PairAt(fuzzy, rows, pairs[k], runs[k])
    ensures AllFit(rows, RowSplices(pairs, runs)) && EndsInText(rows, RowSplices(pairs, runs))
    ensures MatchesOf(fuzzy, Join(rows), true, RowEdits(pairs)) == AllAsText(rows, RowSplices(pairs, runs))
  {
    hide MatchOf, AsText, RowEditFromPair, OnlyRun, Join;
    forall k | 0 <= k < |pairs|
      ensures Fits(rows, RowSplices(pairs, runs)[k])
      ensures MatchesOf(fuzzy, Join(rows), true, RowEdits(pairs))[k] == AsText(rows, RowSplices(pairs, runs)[k])
      ensures pairs[k].newRows != [] ==> rows[RowSplices(pairs, runs)[k].End() - 1] != ""
    {
      assert PairAt(fuzzy, rows, pairs[k], runs[k]);
      assert RowEdits(pairs)[k] == RowEditFromPair(pairs[k], true);
    }
  }

  /**
   A successful set of whole-line edits in which every pair occurs literally: each pair's old rows
   stand at exactly one place, the places are disjoint, and the result holds the new rows at those
   places and every other row as it was.
   */
  lemma {:induction false} WholeLineEditsReplaceRuns(fuzzy: Fuzzy, fold: string -> string, content: string,
                                                     pairs: seq<Pair>)
    returns (runs: seq<nat>)
    requires PerRow(fuzzy, fold) && forall k :: 0 <= k < |pairs| ==> WellFormed(pairs[k])
    requires ApplyEdits(fuzzy, content, RowEdits(pairs), true).Edited?
    requires !NeedsFuzzy(fuzzy, content, RowEdits(pairs), true)
    ensures |runs| == |pairs| && forall k :: 0 <= k < |pairs| ==> OnlyRun(Split(content), pairs[k], runs[k])
    ensures Ordered(Ascending(RowSplices(pairs, runs)), 0, |Split(content)|)
    ensures ApplyEdits(fuzzy, content, RowEdits(pairs), true).text
         == Join(Rebuild(Split(content), Ascending(RowSplices(pairs, runs)), 0))
  {
    JoinSplit(content);
    PairsAreNormal(pairs);
    EditedIsDisjoint(fuzzy, content, RowEdits(pairs), true);
    runs := MatchedRuns(fuzzy, fold, Split(content), pairs);
  }

  /** The runs of pairs that match once, exactly and disjointly. */
  lemma {:induction false} MatchedRuns(fuzzy: Fuzzy, fold: string -> string, rows: seq<string>, pairs: seq<Pair>)
    returns (runs: seq<nat>)
    requires PerRow(fuzzy, fold) && rows != [] && AreRows(rows) && forall k :: 0 <= k < |pairs| ==> WellFormed(pairs[k])
    requires forall k :: 0 <= k < |pairs| ==> MatchesOnce(fuzzy, Join(rows), true, RowEdits(pairs)[k])
    requires !NeedsFuzzy(fuzzy, Join(rows), RowEdits(pairs), true)
    requires Disjoint(multiset(MatchesOf(fuzzy, Join(rows), true, RowEdits(pairs))))
    ensures |runs| == |pairs| && forall k :: 0 <= k < |pairs| ==> OnlyRun(rows, pairs[k], runs[k])
    ensures Ordered(Ascending(RowSplices(pairs, runs)), 0, |rows|)
    ensures BackToFront(Join(rows), Ascending(MatchesOf(fuzzy, Join(rows), true, RowEdits(pairs))))
         == Join(Rebuild(rows, Ascending(RowSplices(pairs, runs)), 0))
  {
    hide MatchOf, MatchesOnce, WellFormed, OnlyRun, AsText, RowEditFromPair, FuzzyOnly, Run, PerRow, Disjoint;
    runs := FindRuns(fuzzy, fold, rows, pairs);
    var splices := RowSplices(pairs, runs);
    MatchesAreTexts(fuzzy, rows, pairs, runs);
    SortedAsText(rows, splices);
    SortedRunsAreOrdered(rows, splices);
    JoinedRebuild(rows, Ascending(splices));
  }

  // ---------------------------------------------------------------- limits

  lemma {:induction false} EmptyLastRowEdit()
    ensures AllNormalized(RowEdits([Pair(["a", ""], ["x"])])) == [Edit("a\n", "x")]
  {
    var edits := RowEdits([Pair(["a", ""], ["x"])]);
    assert Join(["a", ""]) == "a\n" by {
      assert ["a", ""][1..] == [""];
      assert Join([""]) == "";
    }
    assert edits == [Edit("a\n", "x")];
    NoCarriageReturn("a\n");
    NoCarriageReturn("x");
    assert AllNormalized(edits) == edits;
  }

  lemma {:induction false} OneEdit(fuzzy: Fuzzy, content: string, edit: Edit)
    requires edit.oldText != "" && MatchesOnce(fuzzy, content, true, edit) && !FuzzyOnly(fuzzy, content, edit, true)
    requires MatchOf(fuzzy, content, true, edit).End() <= |content|
    ensures FirstEmpty([edit], 0).None? && !NeedsFuzzy(fuzzy, content, [edit], true)
    ensures MatchEdits(fuzzy, content, [edit], true) == Matched([MatchOf(fuzzy, content, true, edit)])
    ensures Ascending([MatchOf(fuzzy, content, true, edit)]) == [MatchOf(fuzzy, content, true, edit)]
    ensures BackToFront(content, [MatchOf(fuzzy, content, true, edit)])
         == Spliced(content, MatchOf(fuzzy, content, true, edit))
  {
    hide MatchOf, MatchesOnce, FuzzyOnly;
    MatchedIff(fuzzy, content, [edit], true);
    var match_ := MatchOf(fuzzy, content, true, edit);
    assert MatchesOf(fuzzy, content, true, [edit]) == [match_];
    assert [match_][..0] == [];
    hide MatchEdits;
    assert Ascending([match_]) == Place([], match_);
  }

  lemma {:induction false} MatchesInTwoRows()
    ensures var fuzzy: Fuzzy := text => text;
            && MatchesOnce(fuzzy, "a\nb", true, Edit("a\n", "x")) && !FuzzyOnly(fuzzy, "a\nb", Edit("a\n", "x"), true)
            && MatchOf(fuzzy, "a\nb", true, Edit("a\n", "x")) == Splice(0, 2, "x")
  {
    assert MatchesAt("a\nb", "a\n", true, 0);
    assert CountFrom("a\nb", "a\n", true, 1) == 0;
  }

  /** Replacing the rows "a" and "" in a text without that empty row joins the rows around the edit. */
  lemma {:induction false} EmptyLastRowJoinsRows()
    ensures ApplyEdits(text => text, "a\nb", RowEdits([Pair(["a", ""], ["x"])]), true) == Edited("xb")
    ensures Split("a\nb") == ["a", "b"]
  {
    var fuzzy: Fuzzy, edit := text => text, Edit("a\n", "x");
    SplitRow("a", "b");
    SplitRow("b", "");
    assert "a\nb" == "a" + "\n" + "b";
    EmptyLastRowEdit();
    MatchesInTwoRows();
    OneEdit(fuzzy, "a\nb", edit);
    assert Spliced("a\nb", Splice(0, 2, "x")) == "xb";
    hide MatchEdits, MatchOf, FirstEmpty, NeedsFuzzy, Ascending, BackToFront, Spliced, RowEdits, AllNormalized, Split;
  }
}
