/** What the operations of a row script do to the rows of a document. */
module RowMeaning {
  import opened Splicing
  import opened EditMatching
  import opened EditLaws
  import opened RowText
  import opened WholeLineEdits
  import opened WholeLineMeaning
  import opened RowOperations

  // ---------------------------------------------------------------- operations by line number

  /**
   Rows put in front of a line, or behind it, stand there among the rows as they were; at the end they force a
   final newline. A line that is not there is refused.
   */
  lemma {:induction false} InsertionShows(fuzzy: Fuzzy, doc: Document, line: nat, rows: seq<string>)
    requires line >= 1
    ensures var before, n := ApplyOperation(fuzzy, doc, InsertBefore(line, rows)), |doc.lines|;
            if line > n + 1 then before == Rejected(OutsideFile(line, n))
            else before == Done(Document(doc.lines[..line - 1] + rows + doc.lines[line - 1..],
                                         doc.finalNewline || line == n + 1))
    ensures var behind, n := ApplyOperation(fuzzy, doc, InsertAfter(line, rows)), |doc.lines|;
            if line > n then behind == Rejected(OutsideFile(line, n))
            else behind == Done(Document(doc.lines[..line] + rows + doc.lines[line..], doc.finalNewline || line == n))
    ensures ApplyOperation(fuzzy, doc, Append(rows)) == Done(Document(doc.lines + rows, true))
  {
  }

  /** Deleted lines are gone and the others stay; a file left without lines has no final newline. */
  lemma {:induction false} DeletionShows(fuzzy: Fuzzy, doc: Document, startLine: nat, endLine: nat)
    requires 1 <= startLine <= endLine
    ensures var step, n := ApplyOperation(fuzzy, doc, Delete(startLine, endLine)), |doc.lines|;
            if endLine > n then step == Rejected(OutsideFile(endLine, n))
            else
              && step.Done? && step.doc.lines == doc.lines[..startLine - 1] + doc.lines[endLine..]
              && (step.doc.finalNewline <==> doc.finalNewline && n > endLine - startLine + 1)
  {
    if endLine <= |doc.lines| {
      assert |doc.lines[..startLine - 1] + doc.lines[endLine..]| == |doc.lines| - (endLine - startLine + 1);
    }
  }

  // ---------------------------------------------------------------- insertions at an anchor

  /** The replacement of the anchor that an insertion beside it is. */
  function AnchorPair(op: Operation): Pair
    requires op.InsertBeforeAnchor? || op.InsertAfterAnchor?
  {
    Pair(op.anchor, if op.InsertBeforeAnchor? then op.rows + op.anchor else op.anchor + op.rows)
  }

  lemma {:induction false} AnchorIsReplaced(op: Operation)
    requires (op.InsertBeforeAnchor? || op.InsertAfterAnchor?) && op.anchor != [] && op.rows != []
    ensures [AnchorEdit(op)] == RowEdits([AnchorPair(op)])
  {
    JoinConcat(op.rows, op.anchor);
    JoinConcat(op.anchor, op.rows);
    JoinTerminates(op.rows);
    JoinTerminates(op.anchor);
    hide Join, Terminated;
    assert AnchorPair(op).newRows != [];
  }

  /** The rows of an anchor stand at row i. */
  predicate AnchorAt(all: seq<string>, anchor: seq<string>, i: nat) {
    i + |anchor| <= |all| && all[i..i + |anchor|] == anchor
  }

  /**
   An insertion at an anchor that stands there literally puts its rows beside the one place where the rows of the
   anchor stand.
   */
  lemma {:induction false} AnchorShows(fuzzy: Fuzzy, fold: string -> string, doc: Document, op: Operation)
    returns (run: nat)
    requires (op.InsertBeforeAnchor? || op.InsertAfterAnchor?) && PerRow(fuzzy, fold)
    requires Clean(op.anchor) && Clean(op.rows) && op.rows != [] && op.anchor != [] && op.anchor[|op.anchor| - 1] != ""
    requires ApplyOperation(fuzzy, doc, op).Done? && !NeedsFuzzy(fuzzy, JoinContent(doc), [AnchorEdit(op)], true)
    ensures AnchorAt(Split(JoinContent(doc)), op.anchor, run)
    ensures forall i: nat :: AnchorAt(Split(JoinContent(doc)), op.anchor, i) ==> i == run
    ensures ApplyOperation(fuzzy, doc, op) == Done(SplitContent(Join(InsertedAt(Split(JoinContent(doc)), op, run))))
  {
    hide ApplyEdits, JoinContent, SplitContent, Split, Join, PerRow, AnchorAt, AnchorEdit, Clean, NeedsFuzzy,
         InsertedAt;
    AnchorIsWellFormed(op);
    AnchorIsReplaced(op);
    run := OneReplacement(fuzzy, fold, JoinContent(doc), AnchorPair(op));
    AnchorPlaces(Split(JoinContent(doc)), op, run);
  }

  function PlaceOf(op: Operation, run: nat): nat
    requires op.InsertBeforeAnchor? || op.InsertAfterAnchor?
  {
    if op.InsertBeforeAnchor? then run else run + |op.anchor|
  }

  /** The rows of an insertion at an anchor that stands at a row. */
  function InsertedAt(all: seq<string>, op: Operation, run: nat): seq<string>
    requires (op.InsertBeforeAnchor? || op.InsertAfterAnchor?) && AnchorAt(all, op.anchor, run)
  {
    all[..PlaceOf(op, run)] + op.rows + all[PlaceOf(op, run)..]
  }

  lemma {:induction false} AnchorPlaces(all: seq<string>, op: Operation, run: nat)
    requires (op.InsertBeforeAnchor? || op.InsertAfterAnchor?) && AnchorAt(all, op.anchor, run)
    ensures run + |op.anchor| <= |all|
    ensures all[..run] + AnchorPair(op).newRows + all[run + |op.anchor|..] == InsertedAt(all, op, run)
  {
    AnchorStays(all, op.anchor, op.rows, run);
  }

  /** A block that is replaced by itself stands at one place, and its new rows come there. */
  lemma {:induction false} OneReplacement(fuzzy: Fuzzy, fold: string -> string, content: string, pair: Pair)
    returns (run: nat)
    requires PerRow(fuzzy, fold) && WellFormed(pair) && pair.newRows != []
    requires ApplyEdits(fuzzy, content, RowEdits([pair]), true).Edited?
    requires !NeedsFuzzy(fuzzy, content, RowEdits([pair]), true)
    ensures AnchorAt(Split(content), pair.oldRows, run)
    ensures forall i: nat :: AnchorAt(Split(content), pair.oldRows, i) ==> i == run
    ensures run + |pair.oldRows| <= |Split(content)|
    ensures ApplyEdits(fuzzy, content, RowEdits([pair]), true).text
         == Join(Split(content)[..run] + pair.newRows + Split(content)[run + |pair.oldRows|..])
  {
    hide *;
    var all, pairs := Split(content), [pair];
    var runs := WholeLineEditsReplaceRuns(fuzzy, fold, content, pairs);
    run := runs[0];
    assert runs == [run];
    assert OnlyRun(all, pairs[0], runs[0]);
    OneRunSplices(pair, run);
    OnlyAnchor(all, pair, pair.oldRows, run);
    AnchorEnds(all, pair.oldRows, run);
    OneSplice(all, pairs, runs, Splice(run, |pair.oldRows|, pair.newRows));
  }

  lemma {:induction false} AnchorIsWellFormed(op: Operation)
    requires (op.InsertBeforeAnchor? || op.InsertAfterAnchor?)
    requires Clean(op.anchor) && Clean(op.rows) && op.rows != [] && op.anchor != [] && op.anchor[|op.anchor| - 1] != ""
    ensures WellFormed(AnchorPair(op))
    ensures AnchorPair(op).oldRows == op.anchor && AnchorPair(op).newRows != []
    ensures AnchorPair(op).newRows == if op.InsertBeforeAnchor? then op.rows + op.anchor else op.anchor + op.rows
  {
  }

  lemma {:induction false} OneRunSplices(pair: Pair, run: nat)
    ensures RowSplices([pair], [run]) == [Splice(run, |pair.oldRows|, pair.newRows)]
  {
  }

  lemma {:induction false} AnchorEnds(all: seq<string>, anchor: seq<string>, run: nat)
    requires AnchorAt(all, anchor, run)
    ensures run + |anchor| <= |all| && all[run..run + |anchor|] == anchor
  {
  }

  lemma {:induction false} OnlyAnchor(all: seq<string>, pair: Pair, anchor: seq<string>, run: nat)
    requires OnlyRun(all, pair, run) && pair.oldRows == anchor && pair.newRows != []
    ensures AnchorAt(all, anchor, run) && forall i: nat :: AnchorAt(all, anchor, i) ==> i == run
  {
    forall i: nat | AnchorAt(all, anchor, i) ensures i == run {
      assert Run(all, pair, i);
    }
  }

  lemma {:induction false} AnchorStays(all: seq<string>, anchor: seq<string>, rows: seq<string>, run: nat)
    requires run + |anchor| <= |all| && all[run..run + |anchor|] == anchor
    ensures all[..run] + (rows + anchor) + all[run + |anchor|..] == all[..run] + rows + all[run..]
    ensures all[..run] + (anchor + rows) + all[run + |anchor|..]
         == all[..run + |anchor|] + rows + all[run + |anchor|..]
  {
    assert all[run..] == anchor + all[run + |anchor|..];
    assert all[..run + |anchor|] == all[..run] + anchor;
  }

  lemma {:induction false} OneSplice(all: seq<string>, pairs: seq<Pair>, runs: seq<nat>, splice: Splice<string>)
    requires |pairs| == |runs| == 1 && RowSplices(pairs, runs) == [splice] && splice.at + splice.length <= |all|
    ensures Ordered(Ascending([splice]), 0, |all|)
    ensures Rebuild(all, Ascending([splice]), 0)
         == all[..splice.at] + splice.text + all[splice.at + splice.length..]
  {
    assert [splice][..0] == [];
    assert Ascending([splice]) == [splice];
    assert [splice][1..] == [];
    assert Rebuild(all, [splice], 0) == all[0..splice.at] + splice.text + all[splice.End()..];
  }

  // ---------------------------------------------------------------- replacements

  /** A deletion that leaves an empty row behind. */
  function Emptied(pair: Pair): Pair {
    if pair.newRows == [] then Pair(pair.oldRows, [""]) else pair
  }

  function AllEmptied(pairs: seq<Pair>): seq<Pair> {
    seq(|pairs|, k requires 0 <= k < |pairs| => Emptied(pairs[k]))
  }

  /** Rows are replaced; where that fails, the same replacement is tried with an empty row for the deleted ones. */
  lemma {:induction false} ReplacementIs(fuzzy: Fuzzy, content: string, pairs: seq<Pair>)
    ensures var deleted := ApplyEdits(fuzzy, content, RowEdits(pairs), true);
            ReplaceRows(fuzzy, content, pairs) == if deleted.Edited? then deleted else
              ApplyEdits(fuzzy, content, RowEdits(AllEmptied(pairs)), true)
  {
    hide ApplyEdits;
    assert Join([""]) == "";
    assert PlainEdits(pairs) == RowEdits(AllEmptied(pairs));
    if !HasDeletion(pairs) { assert AllEmptied(pairs) == pairs; }
  }

  ghost predicate AllReplaceable(pairs: seq<Pair>) {
    forall k :: 0 <= k < |pairs| ==> WellFormed(pairs[k]) && WellFormed(Emptied(pairs[k]))
  }

  /**
   A replacement whose blocks of old rows stand there literally puts the new rows in their places, each the only
   one of its block, and leaves all other rows; if deletions make this fail, each leaves an empty row.
   */
  lemma {:induction false} ReplacementShows(fuzzy: Fuzzy, fold: string -> string, doc: Document, pairs: seq<Pair>)
    returns (shown: seq<Pair>, runs: seq<nat>)
    requires PerRow(fuzzy, fold) && AllReplaceable(pairs)
    requires ApplyOperation(fuzzy, doc, Replace(pairs)).Done?
    requires !NeedsFuzzy(fuzzy, JoinContent(doc), RowEdits(pairs), true)
    requires !NeedsFuzzy(fuzzy, JoinContent(doc), RowEdits(AllEmptied(pairs)), true)
    ensures shown == if ApplyEdits(fuzzy, JoinContent(doc), RowEdits(pairs), true).Edited? then pairs
                     else AllEmptied(pairs)
    ensures |runs| == |shown| == |pairs|
    ensures forall k :: 0 <= k < |pairs| ==> OnlyRun(Split(JoinContent(doc)), shown[k], runs[k])
    ensures Ordered(Ascending(RowSplices(shown, runs)), 0, |Split(JoinContent(doc))|)
    ensures ApplyOperation(fuzzy, doc, Replace(pairs))
         == Done(SplitContent(Join(Rebuild(Split(JoinContent(doc)), Ascending(RowSplices(shown, runs)), 0))))
  {
    hide ApplyEdits, NeedsFuzzy, PerRow, JoinContent, SplitContent, Split, Join, ReplaceRows, RowEdits, WellFormed,
         Ascending, Rebuild, Ordered, OnlyRun, RowSplices;
    var content := JoinContent(doc);
    ReplacementIs(fuzzy, content, pairs);
    shown := if ApplyEdits(fuzzy, content, RowEdits(pairs), true).Edited? then pairs else AllEmptied(pairs);
    runs := WholeLineEditsReplaceRuns(fuzzy, fold, content, shown);
  }

  lemma {:induction false} OneChar(c: char)
    ensures Join([[c]]) == [c] && Join([""]) == ""
  {
  }

  lemma {:induction false} TwoDeletions()
    ensures var pairs := [Pair(["a"], []), Pair(["c"], [])];
            && AllNormalized(RowEdits(pairs)) == [Edit("a\n", ""), Edit("c\n", "")]
            && AllNormalized(RowEdits(AllEmptied(pairs))) == [Edit("a", ""), Edit("c", "")]
  {
    var pairs := [Pair(["a"], []), Pair(["c"], [])];
    OneChar('a');
    OneChar('c');
    NoCarriageReturn("a\n");
    NoCarriageReturn("c\n");
    NoCarriageReturn("a");
    NoCarriageReturn("c");
    NoCarriageReturn("");
    assert RowEdits(pairs) == [Edit("a\n", ""), Edit("c\n", "")];
    assert RowEdits(AllEmptied(pairs)) == [Edit("a", ""), Edit("c", "")];
  }

  lemma {:induction false} OnePlace(content: string, edit: Edit, p: nat)
    requires edit.oldText != "" && MatchesAt(content, edit.oldText, true, p)
    requires forall q: nat :: MatchesAt(content, edit.oldText, true, q) ==> q == p
    ensures var fuzzy: Fuzzy := text => text;
            && MatchesOnce(fuzzy, content, true, edit) && !FuzzyOnly(fuzzy, content, edit, true)
            && MatchOf(fuzzy, content, true, edit) == Splice(p, |edit.oldText|, edit.newText)
  {
    CountIsCardinality(content, edit.oldText, 0);
    hide MatchesAt;
    var places := set q | 0 <= q <= |content| && MatchesAt(content, edit.oldText, true, q);
    CardinalityOfSubset(places, p);
  }

  lemma {:induction false} CardinalityOfSubset(s: set<int>, p: int)
    requires s <= {p}
    ensures |s| <= 1
  {
    assert s == {} || s == {p};
  }

  lemma {:induction false} RowsOfThree()
    ensures forall q: nat :: MatchesAt("a\nb\nc", "a", true, q) <==> q == 0
    ensures forall q: nat :: MatchesAt("a\nb\nc", "c", true, q) <==> q == 4
    ensures forall q: nat :: !MatchesAt("a\nb\nc", "c\n", true, q)
  {
    var content := "a\nb\nc";
    forall q: nat | MatchesAt(content, "a", true, q) ensures q == 0 {
      assert content[q] == 'a';
    }
    forall q: nat | MatchesAt(content, "c", true, q) ensures q == 4 {
      assert content[q] == 'c';
    }
    forall q: nat ensures !MatchesAt(content, "c\n", true, q) {
      if q + 2 <= |content| { assert content[q..q + 2] == [content[q], content[q + 1]]; }
    }
  }

  lemma {:induction false} TwoAscending()
    ensures var edits := [Splice(0, 1, ""), Splice(4, 1, "")];
            && Ascending(edits) == edits && !HasOverlap(edits) && BackToFront("a\nb\nc", edits) == "\nb\n"
  {
    var edits := [Splice(0, 1, ""), Splice(4, 1, "")];
    assert edits[..1] == [Splice(0, 1, "")] && edits[..1][..0] == [];
    assert Ascending(edits[..1]) == edits[..1];
    assert Spliced("a\nb\nc", edits[1]) == "a\nb\n";
    assert Spliced("a\nb\n", edits[0]) == "\nb\n";
  }

  lemma {:induction false} LastRowIsNotFound(edits: seq<Edit>)
    requires AllNormalized(edits) == [Edit("a\n", ""), Edit("c\n", "")]
    ensures ApplyEdits(text => text, "a\nb\nc", edits, true).Failed?
  {
    var fuzzy: Fuzzy, whole := text => text, [Edit("a\n", ""), Edit("c\n", "")];
    RowsOfThree();
    MatchedIff(fuzzy, "a\nb\nc", whole, true);
    assert !MatchesOnce(fuzzy, "a\nb\nc", true, whole[1]);
    hide MatchEdits, MatchesAt, Ascending, HasOverlap, Replaced, NeedsFuzzy, AllNormalized;
  }

  lemma {:induction false} EmptiedRowsAreFound(edits: seq<Edit>)
    requires AllNormalized(edits) == [Edit("a", ""), Edit("c", "")]
    ensures ApplyEdits(text => text, "a\nb\nc", edits, true) == Edited("\nb\n")
  {
    hide AllNormalized, MatchEdits, MatchesOnce, MatchesAt, FuzzyFind, FuzzyOnly, Ascending, HasOverlap, MatchOf,
         BackToFront;
    var fuzzy: Fuzzy, content, emptied := text => text, "a\nb\nc", [Edit("a", ""), Edit("c", "")];
    RowsOfThree();
    OnePlace(content, emptied[0], 0);
    OnePlace(content, emptied[1], 4);
    assert MatchesOf(fuzzy, content, true, emptied) == [Splice(0, 1, ""), Splice(4, 1, "")];
    MatchedIff(fuzzy, content, emptied, true);
    TwoAscending();
    assert FirstEmpty(emptied, 0).None?;
  }

  /** Deleting the first and the last of three rows leaves an empty row where the first was. */
  lemma {:induction false} DeletionLeavesEmptyRow()
    ensures ReplaceRows(text => text, "a\nb\nc", [Pair(["a"], []), Pair(["c"], [])]) == Edited("\nb\n")
  {
    hide ApplyEdits, ReplaceRows, RowEdits, AllNormalized;
    var pairs := [Pair(["a"], []), Pair(["c"], [])];
    TwoDeletions();
    ReplacementIs(text => text, "a\nb\nc", pairs);
    LastRowIsNotFound(RowEdits(pairs));
    EmptiedRowsAreFound(RowEdits(AllEmptied(pairs)));
  }
}
