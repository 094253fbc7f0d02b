/** What is found and counted, and when a set of edits fails with which problem. */
module EditMeaning {
  import opened Options
  import opened Splicing
  import opened TextEdits
  import opened EditMatching
  import opened EditLaws

  // ---------------------------------------------------------------- line ends

  /** The ways to end a line. */
  predicate IsLineEnd(end: string) {
    end == "\n" || end == "\r" || end == "\r\n"
  }

  /** Lines without line ends, each but the last followed by its end. */
  function Assembled(lines: seq<string>, ends: seq<string>): string
    requires |lines| == |ends| + 1
  {
    if ends == [] then lines[0] else lines[0] + ends[0] + Assembled(lines[1..], ends[1..])
  }

  /** No end is a CR in front of an LF, which together would be one end. */
  ghost predicate EndsApart(lines: seq<string>, ends: seq<string>)
    requires |lines| == |ends| + 1
  {
    && (forall i :: 0 <= i < |lines| ==> '\r' !in lines[i] && '\n' !in lines[i])
    && (forall i :: 0 <= i < |ends| ==> IsLineEnd(ends[i]))
    && forall i :: 0 <= i && i + 1 < |ends| && ends[i] == "\r" && lines[i + 1] == "" ==> ends[i + 1] != "\n"
  }

  function AllLf(n: nat): (ends: seq<string>)
    ensures |ends| == n
  {
    seq(n, i => "\n")
  }

  lemma {:induction false} NormalizeLine(line: string, rest: string)
    requires '\r' !in line
    ensures NormalizeToLF(line + rest) == line + NormalizeToLF(rest)
  {
    if line == "" {
      assert line + rest == rest;
    } else {
      assert (line + rest)[1..] == line[1..] + rest && line[0] in line;
      NormalizeLine(line[1..], rest);
    }
  }

  lemma {:induction false} NormalizeEnd(end: string, rest: string)
    requires IsLineEnd(end) && (end == "\r" ==> rest == "" || rest[0] != '\n')
    ensures NormalizeToLF(end + rest) == "\n" + NormalizeToLF(rest)
  {
    assert end == "\r\n" ==> (end + rest)[2..] == rest;
    assert end != "\r\n" ==> (end + rest)[1..] == rest;
  }

  /** Every line end becomes LF, and nothing else changes. */
  lemma {:induction false} NormalizedLineEnds(lines: seq<string>, ends: seq<string>)
    requires |lines| == |ends| + 1 && EndsApart(lines, ends)
    ensures NormalizeToLF(Assembled(lines, ends)) == Assembled(lines, AllLf(|ends|))
  {
    if ends == [] {
      NormalizeLine(lines[0], "");
      assert lines[0] + "" == lines[0] && NormalizeToLF("") == "";
    } else {
      var rest := Assembled(lines[1..], ends[1..]);
      NormalizedLineEnds(lines[1..], ends[1..]);
      if ends[0] == "\r" { FirstOfRest(lines, ends); }
      hide NormalizeToLF;
      NormalizeEnd(ends[0], rest);
      NormalizeLine(lines[0], ends[0] + rest);
      assert AllLf(|ends|)[1..] == AllLf(|ends| - 1);
      assert lines[0] + ends[0] + rest == lines[0] + (ends[0] + rest);
    }
  }

  lemma {:induction false} FirstOfRest(lines: seq<string>, ends: seq<string>)
    requires |lines| == |ends| + 1 && ends != [] && EndsApart(lines, ends) && ends[0] == "\r"
    ensures var rest := Assembled(lines[1..], ends[1..]); rest == "" || rest[0] != '\n'
  {
    if lines[1] != "" {
      assert lines[1][0] in lines[1];
    } else if |ends| > 1 {
      assert IsLineEnd(ends[1]);
    }
  }

  // ---------------------------------------------------------------- counting

  /** Occurrences from a position on, in order and none overlapping the next. */
  ghost predicate AreApart(content: string, needle: string, at: seq<nat>, from: nat) {
    && (forall k :: 0 <= k < |at| ==> from <= at[k] && OccursAt(content, needle, at[k]))
    && forall k, l :: 0 <= k < l < |at| ==> at[k] + |needle| <= at[l]
  }

  /** As many occurrences as are counted lie apart. */
  lemma {:induction false} CountedLieApart(content: string, needle: string, from: nat) returns (at: seq<nat>)
    requires needle != ""
    ensures AreApart(content, needle, at, from) && |at| == CountFrom(content, needle, false, from)
    decreases |content| - from
  {
    if from + |needle| > |content| {
      at := [];
    } else if MatchesAt(content, needle, false, from) {
      var rest := CountedLieApart(content, needle, from + |needle|);
      at := [from] + rest;
    } else {
      at := CountedLieApart(content, needle, from + 1);
    }
  }

  /** And no more than are counted do. */
  lemma {:induction false} NoMoreLieApart(content: string, needle: string, from: nat, at: seq<nat>)
    requires needle != "" && AreApart(content, needle, at, from)
    ensures |at| <= CountFrom(content, needle, false, from)
    decreases |content| - from
  {
    if at != [] {
      assert OccursAt(content, needle, at[0]);
      if MatchesAt(content, needle, false, from) {
        var rest := at[1..];
        forall k | 0 <= k < |rest| ensures from + |needle| <= rest[k] && OccursAt(content, needle, rest[k]) {
          assert rest[k] == at[k + 1];
        }
        NoMoreLieApart(content, needle, from + |needle|, rest);
      } else {
        assert at[0] != from;
        assert forall k :: 0 <= k < |at| ==> from + 1 <= at[k];
        NoMoreLieApart(content, needle, from + 1, at);
      }
    }
  }

  // ---------------------------------------------------------------- finding

  /** The first place where a needle matches. */
  ghost predicate IsFirst(content: string, needle: string, wholeLines: bool, p: nat) {
    MatchesAt(content, needle, wholeLines, p) && forall q :: 0 <= q < p ==> !MatchesAt(content, needle, wholeLines, q)
  }

  ghost predicate IsAbsent(content: string, needle: string, wholeLines: bool) {
    needle == "" || forall q: nat :: !MatchesAt(content, needle, wholeLines, q)
  }

  /**
   An exact match is taken where there is one; otherwise the normalized text is looked for in the
   normalized content.
   */
  lemma {:induction false} FindingIs(fuzzy: Fuzzy, content: string, oldText: string, wholeLines: bool)
    ensures var found := FuzzyFind(fuzzy, content, oldText, wholeLines);
            && (found.None? <==>
                  IsAbsent(content, oldText, wholeLines) && IsAbsent(fuzzy(content), fuzzy(oldText), wholeLines))
            && (found.Some? && !found.value.usedFuzzy ==>
                  && IsFirst(content, oldText, wholeLines, found.value.index) && found.value.length == |oldText| > 0)
            && (found.Some? && found.value.usedFuzzy ==>
                  && IsAbsent(content, oldText, wholeLines)
                  && IsFirst(fuzzy(content), fuzzy(oldText), wholeLines, found.value.index)
                  && found.value.length == |fuzzy(oldText)| > 0)
  {
    hide MatchesAt;
  }

  /** Where occurrences are counted: in the normalized content, unless nothing is left of the text. */
  lemma {:induction false} CountingIs(fuzzy: Fuzzy, content: string, oldText: string, wholeLines: bool)
    ensures fuzzy(oldText) != "" ==>
              Occurrences(fuzzy, content, oldText, wholeLines)
              == CountFrom(fuzzy(content), fuzzy(oldText), wholeLines, 0)
    ensures fuzzy(oldText) == "" && oldText != "" ==>
              Occurrences(fuzzy, content, oldText, wholeLines) == CountFrom(content, oldText, wholeLines, 0)
    ensures fuzzy(oldText) == "" && oldText == "" ==> Occurrences(fuzzy, content, oldText, wholeLines) == 0
  {
  }

  // ---------------------------------------------------------------- the outcome of a set of edits

  ghost predicate IsFirstEmpty(edits: seq<Edit>, i: nat) {
    i < |edits| && edits[i].oldText == "" && forall j :: 0 <= j < i ==> edits[j].oldText != ""
  }

  lemma {:induction false} FirstEmptyIs(edits: seq<Edit>, from: nat)
    requires from <= |edits| && forall j :: 0 <= j < from ==> edits[j].oldText != ""
    ensures FirstEmpty(edits, from).Some? ==> IsFirstEmpty(edits, FirstEmpty(edits, from).value)
    ensures FirstEmpty(edits, from).None? ==> forall j :: 0 <= j < |edits| ==> edits[j].oldText != ""
    decreases |edits| - from
  {
    if from < |edits| && edits[from].oldText != "" { FirstEmptyIs(edits, from + 1); }
  }

  /** The first edit that does not match, or matches more than once, and what is reported about it. */
  ghost predicate IsFirstUnmatched(fuzzy: Fuzzy, base: string, wholeLines: bool, edits: seq<Edit>, i: nat,
                                   problem: EditProblem) {
    && i < |edits| && (forall j :: 0 <= j < i ==> MatchesOnce(fuzzy, base, wholeLines, edits[j]))
    && if FuzzyFind(fuzzy, base, edits[i].oldText, wholeLines).None? then problem == NotFound(i)
       else
         var count := Occurrences(fuzzy, base, edits[i].oldText, wholeLines);
         count >= 2 && problem == Duplicate(i, count)
  }

  lemma {:induction false} FirstUnmatchedIs(fuzzy: Fuzzy, base: string, wholeLines: bool, edits: seq<Edit>)
    ensures var matches := MatchEdits(fuzzy, base, edits, wholeLines);
            matches.Unmatched? ==> exists i :: IsFirstUnmatched(fuzzy, base, wholeLines, edits, i, matches.problem)
  {
    hide FuzzyFind, Occurrences;
    if edits != [] {
      var n := |edits| - 1;
      FirstUnmatchedIs(fuzzy, base, wholeLines, edits[..n]);
      MatchedIff(fuzzy, base, edits[..n], wholeLines);
      var before := MatchEdits(fuzzy, base, edits[..n], wholeLines);
      if before.Unmatched? {
        var i :| IsFirstUnmatched(fuzzy, base, wholeLines, edits[..n], i, before.problem);
        assert IsFirstUnmatched(fuzzy, base, wholeLines, edits, i, before.problem);
      } else if MatchEdits(fuzzy, base, edits, wholeLines).Unmatched? {
        forall j | 0 <= j < n ensures MatchesOnce(fuzzy, base, wholeLines, edits[j]) {
          assert edits[..n][j] == edits[j];
        }
        assert IsFirstUnmatched(fuzzy, base, wholeLines, edits, n, MatchEdits(fuzzy, base, edits, wholeLines).problem);
      }
    }
  }

  /** Some edit is found only after normalization. */
  ghost predicate IsNormalized(fuzzy: Fuzzy, content: string, edits: seq<Edit>, wholeLines: bool) {
    exists i :: && 0 <= i < |edits| && IsAbsent(content, edits[i].oldText, wholeLines)
                && !IsAbsent(fuzzy(content), fuzzy(edits[i].oldText), wholeLines)
  }

  lemma {:induction false} NormalizedIff(fuzzy: Fuzzy, content: string, edits: seq<Edit>, wholeLines: bool)
    ensures NeedsFuzzy(fuzzy, content, edits, wholeLines) <==> IsNormalized(fuzzy, content, edits, wholeLines)
  {
    forall i | 0 <= i < |edits|
      ensures FuzzyOnly(fuzzy, content, edits[i], wholeLines)
         <==> && IsAbsent(content, edits[i].oldText, wholeLines)
              && !IsAbsent(fuzzy(content), fuzzy(edits[i].oldText), wholeLines)
    {
      FindingIs(fuzzy, content, edits[i].oldText, wholeLines);
      hide FuzzyFind, MatchesAt;
    }
    hide FuzzyOnly, IsAbsent;
  }

  /** Matches that overlap are reported, wherever they are in the listing. */
  lemma {:induction false} OverlapIff(matches: seq<Replacement>)
    requires NonEmpty(Ascending(matches))
    ensures HasOverlap(Ascending(matches)) <==> !Disjoint(multiset(matches))
  {
    var sorted := Ascending(matches);
    AscendingSorts(matches);
    if !HasOverlap(sorted) {
      forall i, j | 0 <= i < j < |sorted| ensures sorted[i].End() <= sorted[j].at {
        NoOverlapIsDisjoint(sorted, i, j);
      }
      IsDisjoint(sorted);
    } else {
      var i :| 0 <= i && i + 1 < |sorted| && OverlapsNext(sorted, i);
      hide Ascending, Place;
      OverlapIsNotDisjoint(sorted, i);
    }
  }

  lemma {:induction false} OverlapIsNotDisjoint(sorted: seq<Replacement>, i: nat)
    requires i + 1 < |sorted| && OverlapsNext(sorted, i) && Sorted(sorted) && NonEmpty(sorted)
    ensures !Disjoint(multiset(sorted))
  {
    var a, b := sorted[i], sorted[i + 1];
    assert a in multiset(sorted) && b in multiset(sorted);
    if a == b { TwiceInMultiset(sorted, i, i + 1); }
  }

  /** In a set that is found exactly, every match lies in the content. */
  lemma {:induction false} ExactMatchesLieInside(fuzzy: Fuzzy, content: string, edits: seq<Edit>, wholeLines: bool)
    requires !NeedsFuzzy(fuzzy, content, edits, wholeLines)
    requires forall i :: 0 <= i < |edits| ==> MatchesOnce(fuzzy, content, wholeLines, edits[i])
    ensures forall e :: e in MatchesOf(fuzzy, content, wholeLines, edits) ==> e.End() <= |content|
  {
    forall i | 0 <= i < |edits| ensures MatchOf(fuzzy, content, wholeLines, edits[i]).End() <= |content| {
      assert !FuzzyOnly(fuzzy, content, edits[i], wholeLines);
      FindingIs(fuzzy, content, edits[i].oldText, wholeLines);
      hide FuzzyFind;
    }
  }

  /** What comes of disjoint matches: the content rewritten, unless that changes nothing or is not possible. */
  ghost predicate IsRewritten(content: string, base: string, normalized: bool, matches: seq<Replacement>,
                              outcome: Outcome) {
    var sorted := Ascending(matches);
    if normalized then
      match PreservingUnchanged(content, base, sorted)
      case LineCountDiffers => outcome == Failed(LinesDiffer)
      case OutsideBase => outcome == Failed(OutsideContent)
      case Kept(text) => outcome == if text == content then Failed(NoChange) else Edited(text)
    else
      && Ordered(sorted, 0, |content|)
      && outcome == if Rebuild(content, sorted, 0) == content then Failed(NoChange)
                    else Edited(Rebuild(content, sorted, 0))
  }

  /** What the matcher looks through: the content, or all of it normalized if an edit needs that. */
  ghost function Base(fuzzy: Fuzzy, content: string, edits: seq<Edit>, wholeLines: bool): string {
    if IsNormalized(fuzzy, content, edits, wholeLines) then fuzzy(content) else content
  }

  lemma {:induction false} EmptyIsReported(fuzzy: Fuzzy, content: string, listed: seq<Edit>, wholeLines: bool)
    requires exists i :: 0 <= i < |listed| && AllNormalized(listed)[i].oldText == ""
    ensures exists i :: && IsFirstEmpty(AllNormalized(listed), i)
                        && ApplyEdits(fuzzy, content, listed, wholeLines) == Failed(EmptyOldText(i))
  {
    FirstEmptyIs(AllNormalized(listed), 0);
    hide AllNormalized, NeedsFuzzy, MatchEdits, HasOverlap, Replaced, Ascending;
  }

  /** What remains to be looked at when no edit looks for nothing. */
  lemma {:induction false} WithoutEmpty(fuzzy: Fuzzy, content: string, listed: seq<Edit>, wholeLines: bool)
    requires forall i :: 0 <= i < |listed| ==> AllNormalized(listed)[i].oldText != ""
    ensures var edits, outcome := AllNormalized(listed), ApplyEdits(fuzzy, content, listed, wholeLines);
            var base := Base(fuzzy, content, edits, wholeLines);
            var normalized := NeedsFuzzy(fuzzy, content, edits, wholeLines);
            var matches := MatchEdits(fuzzy, base, edits, wholeLines);
            && (normalized <==> IsNormalized(fuzzy, content, edits, wholeLines))
            && if matches.Unmatched? then outcome == Failed(matches.problem)
               else if HasOverlap(Ascending(matches.edits)) then outcome == Failed(Overlap)
               else match Replaced(content, base, normalized, Ascending(matches.edits))
                    case LineCountDiffers => outcome == Failed(LinesDiffer)
                    case OutsideBase => outcome == Failed(OutsideContent)
                    case Kept(text) => outcome == if text == content then Failed(NoChange) else Edited(text)
  {
    var edits := AllNormalized(listed);
    FirstEmptyIs(edits, 0);
    NormalizedIff(fuzzy, content, edits, wholeLines);
    hide AllNormalized, NeedsFuzzy, MatchEdits, HasOverlap, Replaced, Ascending, IsNormalized;
  }

  /** Disjoint matches that were all found are rewritten. */
  lemma {:induction false} RewritingIs(fuzzy: Fuzzy, content: string, edits: seq<Edit>, wholeLines: bool)
    requires var base := Base(fuzzy, content, edits, wholeLines);
             && (forall i :: 0 <= i < |edits| ==> MatchesOnce(fuzzy, base, wholeLines, edits[i]))
             && Disjoint(multiset(MatchesOf(fuzzy, base, wholeLines, edits)))
    ensures var base := Base(fuzzy, content, edits, wholeLines);
            var normalized := NeedsFuzzy(fuzzy, content, edits, wholeLines);
            var sorted := Ascending(MatchesOf(fuzzy, base, wholeLines, edits));
            if normalized then Replaced(content, base, normalized, sorted) == PreservingUnchanged(content, base, sorted)
            else Ordered(sorted, 0, |content|)
                 && Replaced(content, base, normalized, sorted) == Kept(Rebuild(content, sorted, 0))
  {
    var base := Base(fuzzy, content, edits, wholeLines);
    var matches := MatchesOf(fuzzy, base, wholeLines, edits);
    NormalizedIff(fuzzy, content, edits, wholeLines);
    hide PreservingUnchanged, IsNormalized, Disjoint, Ascending, MatchesOf, MatchesOnce;
    if !NeedsFuzzy(fuzzy, content, edits, wholeLines) {
      ExactMatchesLieInside(fuzzy, content, edits, wholeLines);
      AscendingIsOrdered(matches, |content|);
      BackToFrontIsRebuild(content, Ascending(matches));
    }
    hide NeedsFuzzy;
  }

  /** The first thing that is wrong with a set of edits decides; otherwise the content is rewritten. */
  lemma {:induction false} OutcomeIs(fuzzy: Fuzzy, content: string, listed: seq<Edit>, wholeLines: bool)
    ensures var edits, outcome := AllNormalized(listed), ApplyEdits(fuzzy, content, listed, wholeLines);
            var base := Base(fuzzy, content, edits, wholeLines);
            var matches := MatchesOf(fuzzy, base, wholeLines, edits);
            if exists i :: 0 <= i < |edits| && edits[i].oldText == "" then
              exists i :: IsFirstEmpty(edits, i) && outcome == Failed(EmptyOldText(i))
            else if exists i :: 0 <= i < |edits| && !MatchesOnce(fuzzy, base, wholeLines, edits[i]) then
              exists i, problem ::
                IsFirstUnmatched(fuzzy, base, wholeLines, edits, i, problem) && outcome == Failed(problem)
            else if !Disjoint(multiset(matches)) then outcome == Failed(Overlap)
            else IsRewritten(content, base, IsNormalized(fuzzy, content, edits, wholeLines), matches, outcome)
  {
    var edits := AllNormalized(listed);
    if exists i :: 0 <= i < |edits| && edits[i].oldText == "" {
      EmptyIsReported(fuzzy, content, listed, wholeLines);
    } else {
      var base := Base(fuzzy, content, edits, wholeLines);
      WithoutEmpty(fuzzy, content, listed, wholeLines);
      MatchedIff(fuzzy, base, edits, wholeLines);
      FirstUnmatchedIs(fuzzy, base, wholeLines, edits);
      hide ApplyEdits, AllNormalized, Base, IsNormalized, NeedsFuzzy, MatchEdits, MatchesOnce, MatchesOf, Replaced,
           Ascending, HasOverlap, Disjoint, PreservingUnchanged, IsFirstUnmatched, IsFirstEmpty, Rebuild;
      if forall i :: 0 <= i < |edits| ==> MatchesOnce(fuzzy, base, wholeLines, edits[i]) {
        SortedMatchesAreNonEmpty(fuzzy, base, wholeLines, edits);
        OverlapIff(MatchesOf(fuzzy, base, wholeLines, edits));
        if Disjoint(multiset(MatchesOf(fuzzy, base, wholeLines, edits))) {
          RewritingIs(fuzzy, content, edits, wholeLines);
        }
      }
    }
  }
}
