/**
 Finding the text of an edit, exactly or after normalization, and applying a set of edits that
 each match once. The normalization of the fuzzy matcher is a parameter.
 */
module EditMatching {
  import opened Options
  import opened Splicing
  import opened TextEdits

  type Fuzzy = string -> string

  datatype Edit = Edit(oldText: string, newText: string)
  datatype Found = Found(index: nat, length: nat, usedFuzzy: bool)

  datatype EditProblem =
    | EmptyOldText(edit: nat)
    | NotFound(edit: nat)
    | Duplicate(edit: nat, count: nat)
    | Overlap
    | LinesDiffer
    | OutsideContent
    | NoChange

  datatype Outcome = Edited(text: string) | Failed(problem: EditProblem)
  datatype Matches = Matched(edits: seq<Replacement>) | Unmatched(problem: EditProblem)

  /** CR LF and CR both become LF. */
  function NormalizeToLF(text: string): string {
    if text == "" then ""
    else if text[0] != '\r' then [text[0]] + NormalizeToLF(text[1..])
    else if |text| > 1 && text[1] == '\n' then "\n" + NormalizeToLF(text[2..])
    else "\n" + NormalizeToLF(text[1..])
  }

  // ---------------------------------------------------------------- occurrences

  predicate OccursAt(content: string, needle: string, p: nat) {
    p + |needle| <= |content| && content[p..p + |needle|] == needle
  }

  /** JavaScript's `indexOf` for a needle that is not empty. */
  function IndexOf(content: string, needle: string, from: nat): (index: Option<nat>)
    requires needle != ""
    ensures index.Some? ==> from <= index.value && OccursAt(content, needle, index.value)
    ensures forall p :: from <= p && (index.None? || p < index.value) ==> !OccursAt(content, needle, p)
    decreases |content| - from
  {
    if from + |needle| > |content| then None
    else if OccursAt(content, needle, from) then Some(from)
    else IndexOf(content, needle, from + 1)
  }

  predicate IsWholeLineBoundary(content: string, start: nat, length: nat, oldText: string)
    requires start + length <= |content|
  {
    && (start == 0 || content[start - 1] == '\n')
    && ((oldText != "" && oldText[|oldText| - 1] == '\n')
        || start + length == |content| || content[start + length] == '\n')
  }

  /** The needle occurs at p, and on whole lines if that is asked for. */
  predicate MatchesAt(content: string, needle: string, wholeLines: bool, p: nat) {
    OccursAt(content, needle, p) && (wholeLines ==> IsWholeLineBoundary(content, p, |needle|, needle))
  }

  ghost predicate NoMatchIn(content: string, needle: string, wholeLines: bool, from: nat, to: nat) {
    forall p :: from <= p < to ==> !MatchesAt(content, needle, wholeLines, p)
  }

  function FirstMatch(content: string, needle: string, wholeLines: bool, from: nat): (index: Option<nat>)
    requires needle != ""
    ensures index.Some? ==> from <= index.value && MatchesAt(content, needle, wholeLines, index.value)
    ensures forall p :: from <= p && (index.None? || p < index.value) ==> !MatchesAt(content, needle, wholeLines, p)
    decreases |content| - from
  {
    if from + |needle| > |content| then None
    else if MatchesAt(content, needle, wholeLines, from) then Some(from)
    else FirstMatch(content, needle, wholeLines, from + 1)
  }

  lemma {:induction false} SkipToMatch(content: string, needle: string, wholeLines: bool, lo: nat, hi: nat)
    requires needle != "" && lo <= hi && NoMatchIn(content, needle, wholeLines, lo, hi)
    ensures FirstMatch(content, needle, wholeLines, lo) == FirstMatch(content, needle, wholeLines, hi)
    decreases hi - lo
  {
    if lo < hi {
      SkipToMatch(content, needle, wholeLines, lo + 1, hi);
    }
  }

  method FindMatchIndex(content: string, needle: string, wholeLines: bool) returns (found: Option<nat>)
    ensures found == if needle == "" then None else FirstMatch(content, needle, wholeLines, 0)
  {
    if needle == "" { return None; }
    var index := IndexOf(content, needle, 0);
    while index.Some?
      invariant index.Some? ==> OccursAt(content, needle, index.value)
      invariant index.Some? ==> NoMatchIn(content, needle, wholeLines, 0, index.value)
      invariant index.None? ==> forall p :: !MatchesAt(content, needle, wholeLines, p)
      decreases if index.Some? then |content| - index.value else -1
    {
      if !wholeLines || IsWholeLineBoundary(content, index.value, |needle|, needle) {
        SkipToMatch(content, needle, wholeLines, 0, index.value);
        return index;
      }
      index := IndexOf(content, needle, index.value + 1);
    }
    return None;
  }

  /**
   Whole-line matches may share their ends and are all counted; others are counted left to right, none
   overlapping.
   */
  function CountFrom(content: string, needle: string, wholeLines: bool, from: nat): nat
    requires needle != ""
    decreases |content| - from
  {
    if from + |needle| > |content| then 0
    else if MatchesAt(content, needle, wholeLines, from) then
      1 + CountFrom(content, needle, wholeLines, from + if wholeLines then 1 else |needle|)
    else CountFrom(content, needle, wholeLines, from + 1)
  }

  lemma {:induction false} SkipToCount(content: string, needle: string, wholeLines: bool, lo: nat, hi: nat)
    requires needle != "" && lo <= hi && NoMatchIn(content, needle, wholeLines, lo, hi)
    ensures CountFrom(content, needle, wholeLines, lo) == CountFrom(content, needle, wholeLines, hi)
    decreases hi - lo
  {
    if lo < hi {
      SkipToCount(content, needle, wholeLines, lo + 1, hi);
    }
  }

  lemma {:induction false} NothingToCount(content: string, needle: string, wholeLines: bool, from: nat)
    requires needle != "" && forall p :: from <= p ==> !MatchesAt(content, needle, wholeLines, p)
    ensures CountFrom(content, needle, wholeLines, from) == 0
    decreases |content| - from
  {
    if from + |needle| <= |content| {
      NothingToCount(content, needle, wholeLines, from + 1);
    }
  }

  method CountNeedleOccurrences(content: string, needle: string, wholeLines: bool) returns (count: nat)
    ensures count == if needle == "" then 0 else CountFrom(content, needle, wholeLines, 0)
  {
    if needle == "" { return 0; }
    count := 0;
    var from := 0;
    var index := IndexOf(content, needle, 0);
    while index.Some?
      invariant index == IndexOf(content, needle, from)
      invariant count + CountFrom(content, needle, wholeLines, from) == CountFrom(content, needle, wholeLines, 0)
      decreases |content| - from, if index.Some? then 1 else 0
    {
      SkipToCount(content, needle, wholeLines, from, index.value);
      if !wholeLines || IsWholeLineBoundary(content, index.value, |needle|, needle) {
        count := count + 1;
      }
      from := index.value + if wholeLines then 1 else |needle|;
      index := IndexOf(content, needle, from);
    }
    NothingToCount(content, needle, wholeLines, from);
  }

  // ---------------------------------------------------------------- fuzzy search

  function FuzzyFind(fuzzy: Fuzzy, content: string, oldText: string, wholeLines: bool): Option<Found> {
    var exact := if oldText == "" then None else FirstMatch(content, oldText, wholeLines, 0);
    if exact.Some? then Some(Found(exact.value, |oldText|, false)) else
    var index := if fuzzy(oldText) == "" then None else FirstMatch(fuzzy(content), fuzzy(oldText), wholeLines, 0);
    if index.None? then None else Some(Found(index.value, |fuzzy(oldText)|, true))
  }

  method FuzzyFindText(fuzzy: Fuzzy, content: string, oldText: string, wholeLines: bool) returns (found: Option<Found>)
    ensures found == FuzzyFind(fuzzy, content, oldText, wholeLines)
  {
    var exactIndex := FindMatchIndex(content, oldText, wholeLines);
    if exactIndex.Some? { return Some(Found(exactIndex.value, |oldText|, false)); }
    var fuzzyIndex := FindMatchIndex(fuzzy(content), fuzzy(oldText), wholeLines);
    if fuzzyIndex.None? { return None; }
    return Some(Found(fuzzyIndex.value, |fuzzy(oldText)|, true));
  }

  /** Occurrences are counted in the normalized content, unless the normalized text is empty. */
  function Occurrences(fuzzy: Fuzzy, content: string, oldText: string, wholeLines: bool): nat {
    if fuzzy(oldText) != "" then CountFrom(fuzzy(content), fuzzy(oldText), wholeLines, 0)
    else if oldText == "" then 0
    else CountFrom(content, oldText, wholeLines, 0)
  }

  method CountOccurrences(fuzzy: Fuzzy, content: string, oldText: string, wholeLines: bool) returns (count: nat)
    ensures count == Occurrences(fuzzy, content, oldText, wholeLines)
  {
    if fuzzy(oldText) == "" {
      count := CountNeedleOccurrences(content, oldText, wholeLines);
    } else {
      count := CountNeedleOccurrences(fuzzy(content), fuzzy(oldText), wholeLines);
    }
  }

  // ---------------------------------------------------------------- edit sets

  function Normalized(edit: Edit): Edit {
    Edit(NormalizeToLF(edit.oldText), NormalizeToLF(edit.newText))
  }

  function AllNormalized(edits: seq<Edit>): seq<Edit> {
    seq(|edits|, i requires 0 <= i < |edits| => Normalized(edits[i]))
  }

  predicate NeedsFuzzy(fuzzy: Fuzzy, content: string, edits: seq<Edit>, wholeLines: bool) {
    exists i :: 0 <= i < |edits| && FuzzyOnly(fuzzy, content, edits[i], wholeLines)
  }

  predicate FuzzyOnly(fuzzy: Fuzzy, content: string, edit: Edit, wholeLines: bool) {
    var found := FuzzyFind(fuzzy, content, edit.oldText, wholeLines);
    found.Some? && found.value.usedFuzzy
  }

  /** The match of one edit, which must be the only one. */
  function MatchEdit(fuzzy: Fuzzy, base: string, edit: Edit, i: nat, wholeLines: bool): Matches {
    var found := FuzzyFind(fuzzy, base, edit.oldText, wholeLines);
    var count := Occurrences(fuzzy, base, edit.oldText, wholeLines);
    if found.None? then Unmatched(NotFound(i))
    else if count > 1 then Unmatched(Duplicate(i, count))
    else Matched([Splice(found.value.index, found.value.length, edit.newText)])
  }

  function MatchEdits(fuzzy: Fuzzy, base: string, edits: seq<Edit>, wholeLines: bool): Matches {
    if edits == [] then Matched([]) else
    var n := |edits| - 1;
    var before := MatchEdits(fuzzy, base, edits[..n], wholeLines);
    if before.Unmatched? then before else
    var match_ := MatchEdit(fuzzy, base, edits[n], n, wholeLines);
    if match_.Unmatched? then match_ else Matched(before.edits + match_.edits)
  }

  predicate HasOverlap(sorted: seq<Replacement>) {
    exists i :: 0 <= i && i + 1 < |sorted| && OverlapsNext(sorted, i)
  }

  predicate OverlapsNext(sorted: seq<Replacement>, i: nat)
    requires i + 1 < |sorted|
  {
    sorted[i].End() > sorted[i + 1].at
  }

  function FirstEmpty(edits: seq<Edit>, from: nat): Option<nat>
    requires from <= |edits|
    decreases |edits| - from
  {
    if from == |edits| then None
    else if edits[from].oldText == "" then Some(from)
    else FirstEmpty(edits, from + 1)
  }

  function Replaced(content: string, base: string, usedFuzzy: bool, sorted: seq<Replacement>): Preserved {
    if usedFuzzy then PreservingUnchanged(content, base, sorted) else Kept(BackToFront(base, sorted))
  }

  function ApplyEdits(fuzzy: Fuzzy, content: string, listed: seq<Edit>, wholeLines: bool): Outcome {
    var edits := AllNormalized(listed);
    if FirstEmpty(edits, 0).Some? then Failed(EmptyOldText(FirstEmpty(edits, 0).value)) else
    var usedFuzzy := NeedsFuzzy(fuzzy, content, edits, wholeLines);
    var base := if usedFuzzy then fuzzy(content) else content;
    var matches := MatchEdits(fuzzy, base, edits, wholeLines);
    if matches.Unmatched? then Failed(matches.problem)
    else if HasOverlap(Ascending(matches.edits)) then Failed(Overlap) else
    match Replaced(content, base, usedFuzzy, Ascending(matches.edits))
    case LineCountDiffers => Failed(LinesDiffer)
    case OutsideBase => Failed(OutsideContent)
    case Kept(text) => if text == content then Failed(NoChange) else Edited(text)
  }

  lemma {:induction false} MatchEditsFails(fuzzy: Fuzzy, base: string, edits: seq<Edit>, wholeLines: bool, n: nat)
    requires n <= |edits| && MatchEdits(fuzzy, base, edits[..n], wholeLines).Unmatched?
    ensures MatchEdits(fuzzy, base, edits, wholeLines) == MatchEdits(fuzzy, base, edits[..n], wholeLines)
    decreases |edits|
  {
    if n < |edits| {
      assert edits[..|edits| - 1][..n] == edits[..n];
      MatchEditsFails(fuzzy, base, edits[..|edits| - 1], wholeLines, n);
    } else {
      assert edits[..n] == edits;
    }
  }

  lemma {:induction false} NothingShifted(edits: seq<Replacement>)
    ensures AllShifted(edits, 0) == edits
  {
  }

  method MatchAll(fuzzy: Fuzzy, base: string, edits: seq<Edit>, wholeLines: bool) returns (matches: Matches)
    ensures matches == MatchEdits(fuzzy, base, edits, wholeLines)
  {
    var matched: seq<Replacement> := [];
    for i := 0 to |edits|
      invariant MatchEdits(fuzzy, base, edits[..i], wholeLines) == Matched(matched)
    {
      assert edits[..i + 1][..i] == edits[..i];
      var found := FuzzyFindText(fuzzy, base, edits[i].oldText, wholeLines);
      if found.None? {
        MatchEditsFails(fuzzy, base, edits, wholeLines, i + 1);
        return Unmatched(NotFound(i));
      }
      var occurrences := CountOccurrences(fuzzy, base, edits[i].oldText, wholeLines);
      if occurrences > 1 {
        MatchEditsFails(fuzzy, base, edits, wholeLines, i + 1);
        return Unmatched(Duplicate(i, occurrences));
      }
      matched := matched + [Splice(found.value.index, found.value.length, edits[i].newText)];
    }
    assert edits[..|edits|] == edits;
    return Matched(matched);
  }

  method ApplyEditsToNormalizedContent(fuzzy: Fuzzy, content: string, listed: seq<Edit>, wholeLines: bool)
    returns (outcome: Outcome)
    ensures outcome == ApplyEdits(fuzzy, content, listed, wholeLines)
  {
    hide MatchEdits, FuzzyFind, PreservingUnchanged, BackToFront, Ascending, Normalized;
    var edits := AllNormalized(listed);
    for i := 0 to |edits|
      invariant FirstEmpty(edits, 0) == FirstEmpty(edits, i)
    {
      if edits[i].oldText == "" { return Failed(EmptyOldText(i)); }
    }
    var usedFuzzy := false;
    for i := 0 to |edits|
      invariant usedFuzzy <==> exists k :: 0 <= k < i && FuzzyOnly(fuzzy, content, edits[k], wholeLines)
    {
      var found := FuzzyFindText(fuzzy, content, edits[i].oldText, wholeLines);
      usedFuzzy := usedFuzzy || (found.Some? && found.value.usedFuzzy);
    }
    var base := if usedFuzzy then fuzzy(content) else content;
    var matches := MatchAll(fuzzy, base, edits, wholeLines);
    if matches.Unmatched? { return Failed(matches.problem); }
    var sorted := Ascending(matches.edits);
    var i := 1;
    while i < |sorted|
      invariant 1 <= i
      invariant forall k :: 0 <= k < i - 1 && k + 1 < |sorted| ==> !OverlapsNext(sorted, k)
    {
      if OverlapsNext(sorted, i - 1) { return Failed(Overlap); }
      i := i + 1;
    }
    if usedFuzzy {
      var preserved := ApplyReplacementsPreservingUnchangedLines(content, base, sorted);
      match preserved {
        case LineCountDiffers => return Failed(LinesDiffer);
        case OutsideBase => return Failed(OutsideContent);
        case Kept(text) => return if text == content then Failed(NoChange) else Edited(text);
      }
    }
    var text := ApplyTextReplacements(base, sorted, 0);
    NothingShifted(sorted);
    return if text == content then Failed(NoChange) else Edited(text);
  }
}
