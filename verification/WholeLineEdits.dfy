/**
 Whole-line edits seen as edits of rows: a set that matches exactly replaces one run of rows per
 edit, each the only such run, and leaves all other rows alone.
 */
module WholeLineEdits {
  import opened Splicing
  import opened TextEdits
  import opened EditMatching
  import opened RowText

  /** Rows to find and rows to put in their place. */
  datatype Pair = Pair(oldRows: seq<string>, newRows: seq<string>)

  /** The edit for a pair; a deletion takes the line feed behind its rows as well. */
  function RowEditFromPair(pair: Pair, deleteWholeRows: bool): Edit {
    Edit(if deleteWholeRows && pair.newRows == [] then Join(pair.oldRows) + "\n" else Join(pair.oldRows),
         Join(pair.newRows))
  }

  function RowEdits(pairs: seq<Pair>): seq<Edit> {
    seq(|pairs|, k requires 0 <= k < |pairs| => RowEditFromPair(pairs[k], true))
  }

  predicate Clean(rows: seq<string>) {
    AreRows(rows) && forall i :: 0 <= i < |rows| ==> '\r' !in rows[i]
  }

  /** The rows hold no line ends, there is something to find, and only a deletion may end in an empty row. */
  predicate WellFormed(pair: Pair) {
    && Clean(pair.oldRows) && Clean(pair.newRows) && pair.oldRows != []
    && (pair.newRows == [] || pair.oldRows[|pair.oldRows| - 1] != "")
  }

  /** The old rows stand at row i; a deletion needs a row behind them. */
  predicate Run(rows: seq<string>, pair: Pair, i: nat) {
    && i + |pair.oldRows| <= |rows| && rows[i..i + |pair.oldRows|] == pair.oldRows
    && (pair.newRows == [] ==> i + |pair.oldRows| < |rows|)
  }

  // ---------------------------------------------------------------- matches are runs

  lemma {:induction false} NeedleEnd(pair: Pair)
    requires WellFormed(pair)
    ensures var needle := RowEditFromPair(pair, true).oldText;
            && needle != "" && (needle[|needle| - 1] == '\n' <==> pair.newRows == [])
            && needle + (if pair.newRows == [] then "" else "\n") == Terminated(pair.oldRows)
  {
    JoinTerminates(pair.oldRows);
    JoinEnd(pair.oldRows);
  }

  lemma {:induction false} ThreeParts(rows: seq<string>, i: nat, n: nat)
    requires i + n <= |rows| && rows != []
    ensures Join(rows) + "\n" == Terminated(rows[..i]) + Terminated(rows[i..i + n]) + Terminated(rows[i + n..])
    ensures |Terminated(rows[..i])| == RowStart(rows, i)
  {
    JoinTerminates(rows);
    RowStartIs(rows, i);
    assert rows == rows[..i] + (rows[i..i + n] + rows[i + n..]);
    TerminatedConcat(rows[..i], rows[i..i + n] + rows[i + n..]);
    TerminatedConcat(rows[i..i + n], rows[i + n..]);
  }

  lemma {:induction false} TerminatedEnd(rows: seq<string>)
    requires rows != []
    ensures Terminated(rows) != "" && Terminated(rows)[|Terminated(rows)| - 1] == '\n'
  {
    JoinTerminates(rows);
  }

  /** A run of rows is a whole-line match. */
  lemma {:induction false} RunMatches(rows: seq<string>, pair: Pair, i: nat)
    requires rows != [] && pair.oldRows != [] && Run(rows, pair, i)
    requires RowEditFromPair(pair, true).oldText != ""
    ensures MatchesAt(Join(rows), RowEditFromPair(pair, true).oldText, true, RowStart(rows, i))
  {
    var needle, n, content := RowEditFromPair(pair, true).oldText, |pair.oldRows|, Join(rows);
    var before, after := Terminated(rows[..i]), Terminated(rows[i + n..]);
    ThreeParts(rows, i, n);
    JoinTerminates(pair.oldRows);
    if i > 0 { TerminatedEnd(rows[..i]); }
    if i + n < |rows| {
      TerminatedEnd(rows[i + n..]);
    } else {
      assert after == "";
    }
    var rest := if pair.newRows == [] then after else "\n" + after;
    assert content + "\n" == before + needle + rest;
    WithoutLast(content, before + needle, rest);
    hide *;
    MatchBetween(before, needle, rest[..|rest| - 1]);
  }

  lemma {:induction false} MatchBetween(before: string, needle: string, after: string)
    requires before == "" || before[|before| - 1] == '\n'
    requires after == "" || after[0] == '\n' || (needle != "" && needle[|needle| - 1] == '\n')
    ensures MatchesAt(before + needle + after, needle, true, |before|)
  {
  }

  lemma {:induction false} WithoutLast(a: string, b: string, rest: string)
    requires a + "\n" == b + rest && rest != ""
    ensures a == b + rest[..|rest| - 1]
  {
    assert a == (a + "\n")[..|a|];
    assert (b + rest)[..|a|] == b + rest[..|rest| - 1];
  }

  lemma {:induction false} UniqueRows(a: seq<string>, b: seq<string>)
    requires a != [] && b != [] && AreRows(a) && AreRows(b) && Join(a) == Join(b)
    ensures a == b
  {
    SplitJoin(a);
    SplitJoin(b);
  }

  /** A text that is empty or ends in a line feed is a list of terminated rows. */
  lemma {:induction false} RowsBefore(text: string) returns (rows: seq<string>)
    requires text == "" || text[|text| - 1] == '\n'
    ensures AreRows(rows) && Terminated(rows) == text
  {
    if text == "" {
      rows := [];
    } else {
      JoinSplit(text[..|text| - 1]);
      rows := Split(text[..|text| - 1]);
      JoinTerminates(rows);
    }
  }

  lemma {:induction false} AreRowsConcat(a: seq<string>, b: seq<string>)
    requires AreRows(a) && AreRows(b)
    ensures AreRows(a + b)
  {
  }

  lemma {:induction false} JoinAround(before: seq<string>, middle: seq<string>, tail: string)
    ensures AreRows(Split(tail))
         && Join(before + middle + Split(tail)) == Terminated(before) + Terminated(middle) + tail
  {
    JoinSplit(tail);
    JoinConcat(before + middle, Split(tail));
    TerminatedConcat(before, middle);
  }

  /** The rows of a text around a needle. */
  lemma {:induction false} RowsAround(before: seq<string>, pair: Pair, rest: string) returns (after: seq<string>)
    requires AreRows(before) && WellFormed(pair)
    requires pair.newRows == [] || rest == "" || rest[0] == '\n'
    ensures AreRows(after) && (pair.newRows == [] ==> after != [])
    ensures Join(before + pair.oldRows + after) == Terminated(before) + RowEditFromPair(pair, true).oldText + rest
  {
    JoinTerminates(pair.oldRows);
    hide Join, Terminated, Split, WellFormed;
    if pair.newRows == [] {
      JoinAround(before, pair.oldRows, rest);
      after := Split(rest);
    } else if rest == "" {
      JoinConcat(before, pair.oldRows);
      after := [];
      assert before + pair.oldRows + after == before + pair.oldRows;
    } else {
      JoinAround(before, pair.oldRows, rest[1..]);
      after := Split(rest[1..]);
      assert rest == "\n" + rest[1..];
      assert Terminated(before) + (Join(pair.oldRows) + "\n") + rest[1..]
          == Terminated(before) + Join(pair.oldRows) + rest;
    }
  }

  /** A whole-line match is a run of rows. */
  lemma {:induction false} MatchIsRun(rows: seq<string>, pair: Pair, p: nat) returns (i: nat)
    requires rows != [] && AreRows(rows) && WellFormed(pair)
    requires MatchesAt(Join(rows), RowEditFromPair(pair, true).oldText, true, p)
    ensures Run(rows, pair, i) && p == RowStart(rows, i)
  {
    hide Join, Terminated, RowEditFromPair;
    var content, needle, n := Join(rows), RowEditFromPair(pair, true).oldText, |pair.oldRows|;
    NeedleEnd(pair);
    var before := RowsBefore(content[..p]);
    var rest := content[p + |needle|..];
    assert content == content[..p] + needle + rest;
    var after := RowsAround(before, pair, rest);
    var found := before + pair.oldRows + after;
    AreRowsConcat(before, pair.oldRows);
    AreRowsConcat(before + pair.oldRows, after);
    UniqueRows(rows, found);
    i := |before|;
    assert rows[..i] == before && rows[i..i + n] == pair.oldRows;
    RowStartIs(rows, i);
  }

  ghost predicate RunStartsAt(rows: seq<string>, pair: Pair, p: nat) {
    exists i: nat :: Run(rows, pair, i) && p == RowStart(rows, i)
  }

  /** The text of a pair matches on whole lines exactly where its old rows stand. */
  lemma {:induction false} MatchIffRun(rows: seq<string>, pair: Pair, p: nat)
    requires rows != [] && AreRows(rows) && WellFormed(pair)
    ensures MatchesAt(Join(rows), RowEditFromPair(pair, true).oldText, true, p) <==> RunStartsAt(rows, pair, p)
  {
    hide MatchesAt, Join, WellFormed, RowEditFromPair;
    NeedleEnd(pair);
    if MatchesAt(Join(rows), RowEditFromPair(pair, true).oldText, true, p) {
      var i := MatchIsRun(rows, pair, p);
    }
    if i: nat :| Run(rows, pair, i) && p == RowStart(rows, i) {
      OldRowsAreThere(pair);
      RunMatches(rows, pair, i);
    }
  }

  lemma {:induction false} OldRowsAreThere(pair: Pair)
    requires WellFormed(pair)
    ensures pair.oldRows != []
  {
  }

  /**
   A replacement whose old rows end in an empty row ignores that row: it matches wherever the other
   old rows stand with any row behind them.
   */
  lemma {:induction false} EmptyLastRowIsIgnored(rows: seq<string>, pair: Pair, p: nat)
    requires rows != [] && AreRows(rows) && Clean(pair.oldRows) && pair.newRows != []
    requires |pair.oldRows| > 1 && pair.oldRows[|pair.oldRows| - 1] == ""
    ensures MatchesAt(Join(rows), RowEditFromPair(pair, true).oldText, true, p)
       <==> RunStartsAt(rows, Pair(pair.oldRows[..|pair.oldRows| - 1], []), p)
  {
    var front := pair.oldRows[..|pair.oldRows| - 1];
    assert pair.oldRows == front + [""];
    JoinConcat(front, [""]);
    JoinTerminates(front);
    MatchIffRun(rows, Pair(front, []), p);
  }

  // ---------------------------------------------------------------- replacing runs

  /** The row splice for a pair whose run starts at row i. */
  function RowSplice(pair: Pair, i: nat): Splice<string> {
    Splice(i, |pair.oldRows|, pair.newRows)
  }

  /** The replacement of characters that a row splice stands for. */
  function AsText(rows: seq<string>, edit: Splice<string>): Replacement
    requires Fits(rows, edit)
  {
    RowStartGrows(rows, edit.at, edit.End());
    var length := RowStart(rows, edit.End()) - RowStart(rows, edit.at);
    Splice(RowStart(rows, edit.at), if edit.text == [] then length else length - 1, Join(edit.text))
  }

  /** A row splice inside the rows; a deletion leaves a row behind it. */
  predicate Fits(rows: seq<string>, edit: Splice<string>) {
    edit.length > 0 && edit.End() <= |rows| && (edit.text == [] ==> edit.End() < |rows|)
  }

  predicate AllFit(rows: seq<string>, edits: seq<Splice<string>>) {
    forall k :: 0 <= k < |edits| ==> Fits(rows, edits[k])
  }

  function AllAsText(rows: seq<string>, edits: seq<Splice<string>>): seq<Replacement>
    requires AllFit(rows, edits)
  {
    seq(|edits|, k requires 0 <= k < |edits| => AsText(rows, edits[k]))
  }

  lemma {:induction false} TextIsOrdered(rows: seq<string>, edits: seq<Splice<string>>, from: nat)
    requires AllFit(rows, edits) && Ordered(edits, from, |rows|) && from <= |rows|
    ensures Ordered(AllAsText(rows, edits), RowStart(rows, from), |Terminated(rows)|)
    decreases |edits|
  {
    if edits == [] {
      TerminatedSlice(rows, from, |rows|);
    } else {
      var edit, rest := edits[0], edits[1..];
      assert AllAsText(rows, edits)[1..] == AllAsText(rows, rest);
      TextIsOrdered(rows, rest, edit.End());
      TerminatedSlice(rows, from, edit.at);
      RowStartGrows(rows, edit.at, edit.End());
      OrderedEarlier(AllAsText(rows, rest), AsText(rows, edit).End(), RowStart(rows, edit.End()), |Terminated(rows)|);
    }
  }

  lemma {:induction false} OrderedEarlier(edits: seq<Replacement>, earlier: nat, from: nat, to: nat)
    requires Ordered(edits, from, to) && earlier <= from
    ensures Ordered(edits, earlier, to)
  {
  }

  lemma {:induction false} Prepended(c: char, a: string, text: string, rest: string)
    ensures [c] + a + text + rest == [c] + (a + text + rest)
  {
  }

  /** Starting one position earlier copies one more character. */
  lemma {:induction false} RebuildEarlier(s: string, edits: seq<Replacement>, from: nat)
    requires Ordered(edits, from + 1, |s|) && from < |s|
    ensures Ordered(edits, from, |s|) && Rebuild(s, edits, from) == [s[from]] + Rebuild(s, edits, from + 1)
  {
    OrderedEarlier(edits, from, from + 1, |s|);
    if edits != [] {
      var edit := edits[0];
      OrderedBounds(edits, from + 1, |s|);
      var rest := Rebuild(s, edits[1..], edit.End());
      assert Rebuild(s, edits, from) == s[from..edit.at] + edit.text + rest;
      assert Rebuild(s, edits, from + 1) == s[from + 1..edit.at] + edit.text + rest;
      assert s[from..edit.at] == [s[from]] + s[from + 1..edit.at];
      Prepended(s[from], s[from + 1..edit.at], edit.text, rest);
    } else {
      assert s[from..] == [s[from]] + s[from + 1..];
    }
  }

  lemma {:induction false} TerminatedParts(before: seq<string>, text: seq<string>, tail: seq<string>)
    ensures Terminated(before + text + tail) == Terminated(before) + (Terminated(text) + Terminated(tail))
  {
    TerminatedConcat(before + text, tail);
    TerminatedConcat(before, text);
  }

  /** Replacing runs of terminated rows as text is replacing the rows. */
  lemma {:induction false} RowsRebuild(rows: seq<string>, edits: seq<Splice<string>>, from: nat)
    requires AllFit(rows, edits) && Ordered(edits, from, |rows|) && from <= |rows|
    ensures Ordered(AllAsText(rows, edits), RowStart(rows, from), |Terminated(rows)|)
    ensures Rebuild(Terminated(rows), AllAsText(rows, edits), RowStart(rows, from))
         == Terminated(Rebuild(rows, edits, from))
    decreases |edits|
  {
    TextIsOrdered(rows, edits, from);
    if edits == [] {
      TerminatedSlice(rows, from, |rows|);
      RowStartIs(rows, |rows|);
      assert rows[..|rows|] == rows && rows[from..|rows|] == rows[from..];
    } else {
      RowsRebuild(rows, edits[1..], edits[0].End());
      NextRun(rows, edits, from);
    }
  }

  lemma {:induction false} NextRun(rows: seq<string>, edits: seq<Splice<string>>, from: nat)
    requires AllFit(rows, edits) && edits != [] && from <= |rows| && AllFit(rows, edits[1..])
    requires Ordered(edits, from, |rows|) && Ordered(edits[1..], edits[0].End(), |rows|)
    requires Ordered(AllAsText(rows, edits), RowStart(rows, from), |Terminated(rows)|)
    requires Ordered(AllAsText(rows, edits[1..]), RowStart(rows, edits[0].End()), |Terminated(rows)|)
    requires Rebuild(Terminated(rows), AllAsText(rows, edits[1..]), RowStart(rows, edits[0].End()))
          == Terminated(Rebuild(rows, edits[1..], edits[0].End()))
    ensures Rebuild(Terminated(rows), AllAsText(rows, edits), RowStart(rows, from))
         == Terminated(Rebuild(rows, edits, from))
  {
    hide Terminated;
    var all, edit, rest := Terminated(rows), edits[0], edits[1..];
    var texts := AllAsText(rows, edits);
    assert texts[1..] == AllAsText(rows, rest) && texts[0] == AsText(rows, edit);
    EditedRun(rows, rest, edit);
    TerminatedSlice(rows, from, edit.at);
    TerminatedParts(rows[from..edit.at], edit.text, Rebuild(rows, rest, edit.End()));
    var tail := Rebuild(all, texts[1..], texts[0].End());
    assert Rebuild(all, texts, RowStart(rows, from)) == all[RowStart(rows, from)..texts[0].at] + texts[0].text + tail;
    hide Rebuild, AllAsText, Ordered, AllFit;
    Regroup(all[RowStart(rows, from)..texts[0].at], texts[0].text, tail);
  }

  lemma {:induction false} Regroup(a: string, b: string, c: string)
    ensures a + b + c == a + (b + c)
  {
  }

  /** The text of an edit and what follows it. */
  lemma {:induction false} EditedRun(rows: seq<string>, rest: seq<Splice<string>>, edit: Splice<string>)
    requires AllFit(rows, rest) && Fits(rows, edit)
    requires Ordered(AllAsText(rows, rest), RowStart(rows, edit.End()), |Terminated(rows)|)
    ensures Ordered(AllAsText(rows, rest), AsText(rows, edit).End(), |Terminated(rows)|)
    ensures AsText(rows, edit).text + Rebuild(Terminated(rows), AllAsText(rows, rest), AsText(rows, edit).End())
         == Terminated(edit.text) + Rebuild(Terminated(rows), AllAsText(rows, rest), RowStart(rows, edit.End()))
  {
    var end := RowStart(rows, edit.End());
    RowStartGrows(rows, edit.at, edit.End());
    if edit.text != [] {
      LineFeedBefore(rows, edit.at, edit.End());
      hide Rebuild, Terminated, Ordered, AllAsText;
      var s, texts := Terminated(rows), AllAsText(rows, rest);
      RebuildEarlier(s, texts, end - 1);
      JoinTerminates(edit.text);
      assert AsText(rows, edit).End() == end - 1;
      Regroup(Join(edit.text), [s[end - 1]], Rebuild(s, texts, end));
    }
  }

  lemma {:induction false} LineFeedBefore(rows: seq<string>, i: nat, j: nat)
    requires i < j <= |rows|
    ensures 0 < RowStart(rows, j) <= |Terminated(rows)| && Terminated(rows)[RowStart(rows, j) - 1] == '\n'
  {
    var s, start, end := Terminated(rows), RowStart(rows, i), RowStart(rows, j);
    RowStartGrows(rows, i, j);
    TerminatedSlice(rows, i, j);
    TerminatedEnd(rows[i..j]);
    assert s[end - 1] == s[start..end][end - 1 - start];
  }

  /** Replacements that keep clear of the last line feed leave it in place. */
  lemma {:induction false} TextWithin(rows: seq<string>, edits: seq<Splice<string>>)
    requires AllFit(rows, edits) && rows != []
    ensures forall k :: 0 <= k < |edits| ==> AsText(rows, edits[k]).End() <= |Join(rows)|
  {
    JoinTerminates(rows);
    TerminatedSlice(rows, |rows|, |rows|);
    forall k | 0 <= k < |edits| ensures AsText(rows, edits[k]).End() <= |Join(rows)| {
      if edits[k].End() < |rows| {
        RowStartGrows(rows, edits[k].End(), |rows|);
      }
    }
  }

  /** Replacing runs in the joined text is replacing the rows. */
  lemma {:induction false} JoinedRebuild(rows: seq<string>, edits: seq<Splice<string>>)
    requires rows != [] && AllFit(rows, edits) && Ordered(edits, 0, |rows|)
    ensures Ordered(AllAsText(rows, edits), 0, |Join(rows)|)
    ensures BackToFront(Join(rows), AllAsText(rows, edits)) == Join(Rebuild(rows, edits, 0))
  {
    var content, texts := Join(rows), AllAsText(rows, edits);
    RowsRebuild(rows, edits, 0);
    JoinTerminates(rows);
    TextWithin(rows, edits);
    OrderedBounds(texts, 0, |Terminated(rows)|);
    OrderedFromBounds(texts, 0, |content|);
    assert (content + "\n")[..|content|] == content;
    RebuildTail(content + "\n", texts, 0, |content|);
    BackToFrontIsRebuild(content, texts);
    assert Rebuild(content, texts, 0) + "\n" == Terminated(Rebuild(rows, edits, 0));
    var result := Rebuild(rows, edits, 0);
    assert result != [];
    JoinTerminates(result);
    assert (Rebuild(content, texts, 0) + "\n")[..|Rebuild(content, texts, 0)|]
        == (Join(result) + "\n")[..|Join(result)|];
  }
}
