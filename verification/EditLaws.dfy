/** What every successful set of edits guarantees: its matches are disjoint, and its listing does not matter. */
module EditLaws {
  import opened Splicing
  import opened TextEdits
  import opened EditMatching
  import opened LineText
  import opened TextEditLaws

  /** The replacement that a matched edit stands for. */
  function MatchOf(fuzzy: Fuzzy, base: string, wholeLines: bool, edit: Edit): Replacement {
    var found := FuzzyFind(fuzzy, base, edit.oldText, wholeLines);
    if found.None? then Splice(0, 0, "") else Splice(found.value.index, found.value.length, edit.newText)
  }

  /** The edit matches, and not twice. */
  predicate MatchesOnce(fuzzy: Fuzzy, base: string, wholeLines: bool, edit: Edit) {
    FuzzyFind(fuzzy, base, edit.oldText, wholeLines).Some? && Occurrences(fuzzy, base, edit.oldText, wholeLines) <= 1
  }

  function MatchesOf(fuzzy: Fuzzy, base: string, wholeLines: bool, edits: seq<Edit>): seq<Replacement> {
    seq(|edits|, i requires 0 <= i < |edits| => MatchOf(fuzzy, base, wholeLines, edits[i]))
  }

  lemma {:induction false} MatchedIff(fuzzy: Fuzzy, base: string, edits: seq<Edit>, wholeLines: bool)
    ensures MatchEdits(fuzzy, base, edits, wholeLines).Matched?
       <==> forall i :: 0 <= i < |edits| ==> MatchesOnce(fuzzy, base, wholeLines, edits[i])
    ensures MatchEdits(fuzzy, base, edits, wholeLines).Matched? ==>
              MatchEdits(fuzzy, base, edits, wholeLines).edits == MatchesOf(fuzzy, base, wholeLines, edits)
  {
    hide FuzzyFind, Occurrences;
    if edits != [] {
      var n := |edits| - 1;
      MatchedIff(fuzzy, base, edits[..n], wholeLines);
      assert forall i :: 0 <= i < n ==> edits[..n][i] == edits[i];
      if MatchEdits(fuzzy, base, edits[..n], wholeLines).Matched? && MatchesOnce(fuzzy, base, wholeLines, edits[n]) {
        assert MatchesOf(fuzzy, base, wholeLines, edits)
            == MatchesOf(fuzzy, base, wholeLines, edits[..n]) + [MatchOf(fuzzy, base, wholeLines, edits[n])];
      }
    }
  }

  /** A match found for a text that is not empty has positive length. */
  lemma {:induction false} MatchIsNonEmpty(fuzzy: Fuzzy, base: string, wholeLines: bool, edit: Edit)
    requires FuzzyFind(fuzzy, base, edit.oldText, wholeLines).Some?
    ensures MatchOf(fuzzy, base, wholeLines, edit).length > 0
  {
  }

  lemma {:induction false} SortedMatchesAreNonEmpty(fuzzy: Fuzzy, base: string, wholeLines: bool, edits: seq<Edit>)
    requires forall i :: 0 <= i < |edits| ==> MatchesOnce(fuzzy, base, wholeLines, edits[i])
    ensures NonEmpty(Ascending(MatchesOf(fuzzy, base, wholeLines, edits)))
  {
    var matches := MatchesOf(fuzzy, base, wholeLines, edits);
    AscendingSorts(matches);
    forall i | 0 <= i < |matches| ensures matches[i].length > 0 {
      MatchIsNonEmpty(fuzzy, base, wholeLines, edits[i]);
    }
    var sorted := Ascending(matches);
    forall i | 0 <= i < |sorted| ensures sorted[i].length > 0 {
      assert sorted[i] in multiset(matches);
      assert sorted[i] in matches;
    }
  }

  /** Neighbours that do not overlap are all disjoint. */
  lemma {:induction false} NoOverlapIsDisjoint(sorted: seq<Replacement>, i: nat, j: nat)
    requires !HasOverlap(sorted) && NonEmpty(sorted) && i < j < |sorted|
    ensures sorted[i].End() <= sorted[j].at
    decreases j
  {
    assert !OverlapsNext(sorted, j - 1);
    if i + 1 < j {
      NoOverlapIsDisjoint(sorted, i, j - 1);
    }
  }

  lemma {:induction false} IsDisjoint(sorted: seq<Replacement>)
    requires NonEmpty(sorted) && forall i, j :: 0 <= i < j < |sorted| ==> sorted[i].End() <= sorted[j].at
    ensures Disjoint(multiset(sorted))
  {
    forall a, b | a in multiset(sorted) && b in multiset(sorted) && a != b ensures Separate(a, b) {
      var i :| 0 <= i < |sorted| && sorted[i] == a;
      var j :| 0 <= j < |sorted| && sorted[j] == b;
      assert i < j || j < i;
    }
    forall a | a in multiset(sorted) ensures multiset(sorted)[a] == 1 && a.length > 0 {
      var i :| 0 <= i < |sorted| && sorted[i] == a;
      OnlyOnce(sorted, i);
    }
  }

  lemma {:induction false} OnlyOnce(sorted: seq<Replacement>, i: nat)
    requires i < |sorted| && forall k :: 0 <= k < |sorted| && k != i ==> sorted[k] != sorted[i]
    ensures multiset(sorted)[sorted[i]] == 1
  {
    assert sorted == sorted[..i] + [sorted[i]] + sorted[i + 1..];
    assert sorted[i] !in sorted[..i] && sorted[i] !in sorted[i + 1..];
  }

  /** The matches of a successful set of edits are disjoint. */
  lemma {:induction false} EditedIsDisjoint(fuzzy: Fuzzy, content: string, listed: seq<Edit>, wholeLines: bool)
    requires ApplyEdits(fuzzy, content, listed, wholeLines).Edited?
    ensures var edits := AllNormalized(listed);
            var usedFuzzy := NeedsFuzzy(fuzzy, content, edits, wholeLines);
            var base := if usedFuzzy then fuzzy(content) else content;
            var matches := MatchesOf(fuzzy, base, wholeLines, edits);
            && (forall i :: 0 <= i < |edits| ==> MatchesOnce(fuzzy, base, wholeLines, edits[i]))
            && Disjoint(multiset(matches)) && NonEmpty(Ascending(matches))
            && Replaced(content, base, usedFuzzy, Ascending(matches))
                 == Kept(ApplyEdits(fuzzy, content, listed, wholeLines).text)
            && ApplyEdits(fuzzy, content, listed, wholeLines).text != content
  {
    hide FuzzyFind, PreservingUnchanged, BackToFront, Disjoint, Place, Ascending;
    var edits := AllNormalized(listed);
    var usedFuzzy := NeedsFuzzy(fuzzy, content, edits, wholeLines);
    var base := if usedFuzzy then fuzzy(content) else content;
    MatchedIff(fuzzy, base, edits, wholeLines);
    var sorted := Ascending(MatchesOf(fuzzy, base, wholeLines, edits));
    SortedMatchesAreNonEmpty(fuzzy, base, wholeLines, edits);
    AscendingSorts(MatchesOf(fuzzy, base, wholeLines, edits));
    forall i, j | 0 <= i < j < |sorted| ensures sorted[i].End() <= sorted[j].at {
      NoOverlapIsDisjoint(sorted, i, j);
    }
    IsDisjoint(sorted);
  }

  /**
   A set that needed normalization: the line counts agree, and every line of the normalized content
   that no match touches is the line of the content itself.
   */
  lemma {:induction false} FuzzyEditsKeepOtherLines(fuzzy: Fuzzy, content: string, listed: seq<Edit>, wholeLines: bool)
    requires ApplyEdits(fuzzy, content, listed, wholeLines).Edited?
    requires NeedsFuzzy(fuzzy, content, AllNormalized(listed), wholeLines)
    ensures var original, lines := SplitLines(content), SplitLines(fuzzy(content));
            var edits := Ascending(MatchesOf(fuzzy, fuzzy(content), wholeLines, AllNormalized(listed)));
            && |original| == |lines|
            && ApplyEdits(fuzzy, content, listed, wholeLines).text == Woven(original, lines, edits, 0, |lines|)
  {
    hide ApplyEdits, MatchesOf, Ascending, NeedsFuzzy, AllNormalized, Disjoint, Woven, SplitLines, PreservingUnchanged;
    EditedIsDisjoint(fuzzy, content, listed, wholeLines);
    var matches := MatchesOf(fuzzy, fuzzy(content), wholeLines, AllNormalized(listed));
    AscendingKeepsAll(matches);
    AscendingIgnoresListing(Ascending(matches), matches);
    PreservingMeaning(content, fuzzy(content), Ascending(matches));
  }

  // ---------------------------------------------------------------- listing

  lemma {:induction false} SameMembers<T>(a: seq<T>, b: seq<T>)
    requires multiset(a) == multiset(b)
    ensures |a| == |b| && forall x :: x in a <==> x in b
  {
    assert |multiset(a)| == |a| && |multiset(b)| == |b|;
    forall x ensures x in a <==> x in b {
      assert x in a <==> x in multiset(a);
      assert x in b <==> x in multiset(b);
    }
  }

  function Map<S, T>(f: S -> T, s: seq<S>): seq<T> {
    seq(|s|, i requires 0 <= i < |s| => f(s[i]))
  }

  lemma {:induction false} WithoutOne<T>(a: seq<T>, x: T, before: seq<T>, after: seq<T>)
    requires multiset(a + [x]) == multiset(before + [x] + after)
    ensures multiset(a) == multiset(before + after)
  {
    assert multiset(a) == multiset(a + [x]) - multiset{x};
    assert multiset(before + [x] + after) == multiset(before + after) + multiset{x};
  }

  lemma {:induction false} MapAround<S, T>(f: S -> T, before: seq<S>, x: S, after: seq<S>)
    ensures multiset(Map(f, before + [x] + after)) == multiset(Map(f, before + after)) + multiset{f(x)}
  {
    assert Map(f, before + [x] + after) == Map(f, before) + [f(x)] + Map(f, after);
    assert Map(f, before + after) == Map(f, before) + Map(f, after);
  }

  lemma {:induction false} MapIgnoresListing<S, T>(f: S -> T, a: seq<S>, b: seq<S>)
    requires multiset(a) == multiset(b)
    ensures multiset(Map(f, a)) == multiset(Map(f, b))
    decreases |a|
  {
    SameMembers(a, b);
    if a != [] {
      var n := |a| - 1;
      var front, x := a[..n], a[n];
      assert x in b;
      var j :| 0 <= j < |b| && b[j] == x;
      var before, after := b[..j], b[j + 1..];
      assert a == front + [x] && b == before + [x] + after;
      WithoutOne(front, x, before, after);
      MapIgnoresListing(f, front, before + after);
      MapAround(f, before, x, after);
      MapAround(f, front, x, []);
      assert front + [x] + [] == a && front + [] == front;
    }
  }

  /** Matching the edits one by one ignores how they are listed. */
  lemma {:induction false} MatchesIgnoreListing(fuzzy: Fuzzy, base: string, wholeLines: bool, a: seq<Edit>,
                                                b: seq<Edit>)
    requires multiset(a) == multiset(b)
    ensures multiset(MatchesOf(fuzzy, base, wholeLines, a)) == multiset(MatchesOf(fuzzy, base, wholeLines, b))
  {
    hide MatchOf;
    var f := edit => MatchOf(fuzzy, base, wholeLines, edit);
    MapIgnoresListing(f, a, b);
    assert MatchesOf(fuzzy, base, wholeLines, a) == Map(f, a);
    assert MatchesOf(fuzzy, base, wholeLines, b) == Map(f, b);
  }

  lemma {:induction false} NormalizedIgnoresListing(a: seq<Edit>, b: seq<Edit>)
    requires multiset(a) == multiset(b)
    ensures multiset(AllNormalized(a)) == multiset(AllNormalized(b))
  {
    hide Normalized;
    MapIgnoresListing(Normalized, a, b);
    assert AllNormalized(a) == Map(Normalized, a);
    assert AllNormalized(b) == Map(Normalized, b);
  }

  lemma {:induction false} FirstEmptyIff(edits: seq<Edit>, from: nat)
    requires from <= |edits|
    ensures FirstEmpty(edits, from).Some? <==> exists i :: from <= i < |edits| && edits[i].oldText == ""
    decreases |edits| - from
  {
    if from < |edits| {
      FirstEmptyIff(edits, from + 1);
    }
  }

  lemma {:induction false} EmptyIgnoresListing(a: seq<Edit>, b: seq<Edit>)
    requires multiset(a) == multiset(b)
    ensures FirstEmpty(a, 0).Some? <==> FirstEmpty(b, 0).Some?
  {
    FirstEmptyIff(a, 0);
    FirstEmptyIff(b, 0);
    SameMembers(a, b);
    forall i | 0 <= i < |a| ensures a[i] in b { assert a[i] in a; }
    forall i | 0 <= i < |b| ensures b[i] in a { assert b[i] in b; }
  }

  lemma {:induction false} FuzzyIgnoresListing(fuzzy: Fuzzy, content: string, a: seq<Edit>, b: seq<Edit>,
                                               wholeLines: bool)
    requires multiset(a) == multiset(b)
    ensures NeedsFuzzy(fuzzy, content, a, wholeLines) <==> NeedsFuzzy(fuzzy, content, b, wholeLines)
  {
    hide FuzzyOnly;
    SameMembers(a, b);
    if i :| 0 <= i < |a| && FuzzyOnly(fuzzy, content, a[i], wholeLines) { assert a[i] in b; }
    if i :| 0 <= i < |b| && FuzzyOnly(fuzzy, content, b[i], wholeLines) { assert b[i] in a; }
  }

  /** However the edits of a successful set are listed, the resulting text is the same. */
  lemma {:induction false} EditsIgnoreListing(fuzzy: Fuzzy, content: string, a: seq<Edit>, b: seq<Edit>,
                                              wholeLines: bool)
    requires multiset(a) == multiset(b) && ApplyEdits(fuzzy, content, a, wholeLines).Edited?
    ensures ApplyEdits(fuzzy, content, b, wholeLines) == ApplyEdits(fuzzy, content, a, wholeLines)
  {
    hide MatchOf, MatchesOnce, FuzzyOnly, Normalized, Disjoint, Ascending, BackToFront, PreservingUnchanged, MatchesOf,
         NeedsFuzzy, MatchEdits;
    var as_, bs := AllNormalized(a), AllNormalized(b);
    NormalizedIgnoresListing(a, b);
    EmptyIgnoresListing(as_, bs);
    FuzzyIgnoresListing(fuzzy, content, as_, bs, wholeLines);
    var usedFuzzy := NeedsFuzzy(fuzzy, content, as_, wholeLines);
    var base := if usedFuzzy then fuzzy(content) else content;
    EditedIsDisjoint(fuzzy, content, a, wholeLines);
    MatchedIff(fuzzy, base, as_, wholeLines);
    MatchedIff(fuzzy, base, bs, wholeLines);
    SameMembers(as_, bs);
    forall i | 0 <= i < |bs| ensures MatchesOnce(fuzzy, base, wholeLines, bs[i]) {
      assert bs[i] in as_;
    }
    MatchesIgnoreListing(fuzzy, base, wholeLines, as_, bs);
    AscendingIgnoresListing(MatchesOf(fuzzy, base, wholeLines, as_), MatchesOf(fuzzy, base, wholeLines, bs));
  }
}
