/**
 What the line-preserving replacement means: every line that no replacement touches is the original
 line, and every other position of the base becomes what plain replacement makes of it.
 */
module TextEditLaws {
  import opened Splicing
  import opened LineText
  import opened TextEdits

  // ---------------------------------------------------------------- groups

  predicate Touches(lines: seq<string>, k: nat, edit: Replacement)
    requires k < |lines|
  {
    edit.at < Start(lines, k + 1) && Start(lines, k) < edit.End()
  }

  ghost predicate Touched(lines: seq<string>, k: nat, edits: seq<Replacement>)
    requires k < |lines|
  {
    exists e :: e in edits && Touches(lines, k, e)
  }

  /** The group's edits lie in its lines in order, and each of its lines is touched by one. */
  ghost predicate GroupFits(lines: seq<string>, group: Group) {
    && group.startLine < group.endLine <= |lines| && group.edits != []
    && Ordered(group.edits, Start(lines, group.startLine), Start(lines, group.endLine))
    && (forall k :: group.startLine <= k < group.endLine ==> Touched(lines, k, group.edits))
  }

  ghost predicate Grouped(lines: seq<string>, edits: seq<Replacement>, groups: seq<Group>) {
    && InOrder(groups, 0, |lines|)
    && (forall i :: 0 <= i < |groups| ==> GroupFits(lines, groups[i]))
    && (forall i, e :: 0 <= i < |groups| && e in groups[i].edits ==> e in edits)
    && (forall e :: e in edits ==> InSomeGroup(groups, e))
  }

  ghost predicate InSomeGroup(groups: seq<Group>, e: Replacement) {
    exists i :: 0 <= i < |groups| && e in groups[i].edits
  }

  lemma {:induction false} LineRangeTouches(lines: seq<string>, e: Replacement)
    requires e.length > 0 && e.End() <= |Concat(lines)|
    ensures LineRange(lines, e).Some?
    ensures var range := LineRange(lines, e).value;
            && range.startLine < range.endLine <= |lines|
            && Start(lines, range.startLine) <= e.at && e.End() <= Start(lines, range.endLine)
            && forall k :: range.startLine <= k < range.endLine ==> Touches(lines, k, e)
  {
    var range := LineRange(lines, e).value;
    LineAtIsMonotone(lines, e.at, e.End() - 1);
    forall k | range.startLine <= k < range.endLine ensures Touches(lines, k, e) {
      StartIsMonotone(lines, range.startLine + 1, k + 1);
      StartIsMonotone(lines, k, range.endLine - 1);
    }
  }

  /** The text of a span is its line. */
  lemma {:induction false} SpansAreLines(content: string, spans: seq<LineSpan>, k: nat)
    requires AreSpans(spans, SplitLines(content))
    ensures |spans| == |SplitLines(content)|
    ensures k < |spans| ==> spans[k].start <= spans[k].end <= |content|
    ensures k < |spans| ==> content[spans[k].start..spans[k].end] == SplitLines(content)[k]
  {
    var lines := SplitLines(content);
    SplitLinesIsExact(content);
    if k < |spans| {
      Slice(lines, k, k + 1);
      assert lines[k..k + 1] == [lines[k]];
      assert Concat(lines[k..k + 1]) == lines[k] + Concat([]);
    }
  }

  /** The range starts with the line of the first character and ends with the line in which the replaced text ends. */
  lemma {:induction false} LineRangeIs(lines: seq<string>, e: Replacement)
    ensures LineRange(lines, e).Some? <==> e.at < |Concat(lines)| && e.End() <= |Concat(lines)|
    ensures LineRange(lines, e).Some? ==>
              var range := LineRange(lines, e).value;
              && range.startLine < range.endLine <= |lines|
              && Start(lines, range.startLine) <= e.at < Start(lines, range.startLine + 1)
              && e.End() <= Start(lines, range.endLine)
              && (range.endLine > range.startLine + 1 ==> Start(lines, range.endLine - 1) < e.End())
  {
    if e.at < |Concat(lines)| && e.End() <= |Concat(lines)| && e.length > 0 {
      LineAtIsMonotone(lines, e.at, e.End() - 1);
    }
  }

  lemma {:induction false} StillTouched(lines: seq<string>, k: nat, edits: seq<Replacement>, e: Replacement)
    requires k < |lines| && (Touched(lines, k, edits) || Touches(lines, k, e))
    ensures Touched(lines, k, edits + [e])
  {
    assert e in edits + [e];
    forall d | d in edits ensures d in edits + [e] {}
  }

  /** An edit that shares a line with the last group extends it. */
  lemma {:induction false} ExtendedGroupFits(lines: seq<string>, group: Group, e: Replacement)
    requires GroupFits(lines, group) && e.length > 0 && e.End() <= |Concat(lines)|
    requires group.edits[|group.edits| - 1].End() <= e.at
    requires LineRange(lines, e).Some? && LineRange(lines, e).value.startLine < group.endLine
    ensures GroupFits(lines, Group(group.startLine, Max(group.endLine, LineRange(lines, e).value.endLine),
                                   group.edits + [e]))
  {
    LineRangeTouches(lines, e);
    var range := LineRange(lines, e).value;
    var end, edits := Max(group.endLine, range.endLine), group.edits + [e];
    var from, to := Start(lines, group.startLine), Start(lines, end);
    StartIsMonotone(lines, group.endLine, end);
    StartIsMonotone(lines, range.endLine, end);
    OrderedBounds(group.edits, from, Start(lines, group.endLine));
    OrderedFromBounds(edits, from, to);
    hide Ordered, Touches, Touched, LineRange;
    forall k | group.startLine <= k < end ensures Touched(lines, k, edits) {
      assert k < group.endLine ==> Touched(lines, k, group.edits);
      StillTouched(lines, k, group.edits, e);
    }
  }

  lemma {:induction false} NewGroupFits(lines: seq<string>, e: Replacement)
    requires e.length > 0 && e.End() <= |Concat(lines)|
    ensures LineRange(lines, e).Some?
    ensures GroupFits(lines, Group(LineRange(lines, e).value.startLine, LineRange(lines, e).value.endLine, [e]))
  {
    LineRangeTouches(lines, e);
    var range := LineRange(lines, e).value;
    OrderedFromBounds([e], Start(lines, range.startLine), Start(lines, range.endLine));
    forall k | range.startLine <= k < range.endLine ensures Touched(lines, k, [e]) {
      assert e in [e] && Touches(lines, k, e);
    }
  }

  lemma {:induction false} AddKeepsMembers(edits: seq<Replacement>, groups: seq<Group>, range: Range, e: Replacement)
    requires forall i, d :: 0 <= i < |groups| && d in groups[i].edits ==> d in edits
    requires forall d :: d in edits ==> InSomeGroup(groups, d)
    ensures var added := AddToGroups(groups, range, e);
            && (forall i, d :: 0 <= i < |added| && d in added[i].edits ==> d in edits + [e])
            && (forall d :: d in edits + [e] ==> InSomeGroup(added, d))
  {
    var added := AddToGroups(groups, range, e);
    forall d | d in edits + [e] ensures InSomeGroup(added, d) {
      if d in edits {
        var i :| 0 <= i < |groups| && d in groups[i].edits;
        assert d in added[i].edits;
      } else {
        assert d in added[|added| - 1].edits;
      }
    }
  }

  lemma {:induction false} AddKeepsGrouped(lines: seq<string>, edits: seq<Replacement>, groups: seq<Group>,
                                           e: Replacement)
    requires Grouped(lines, edits, groups) && e.length > 0 && e.End() <= |Concat(lines)|
    requires forall d :: d in edits ==> d.End() <= e.at
    ensures LineRange(lines, e).Some?
    ensures Grouped(lines, edits + [e], AddToGroups(groups, LineRange(lines, e).value, e))
  {
    LineRangeTouches(lines, e);
    var range := LineRange(lines, e).value;
    AddKeepsMembers(edits, groups, range, e);
    NewGroupFits(lines, e);
    hide GroupFits;
    if groups != [] && range.startLine < groups[|groups| - 1].endLine {
      var last := groups[|groups| - 1];
      LastEditIn(lines, last);
      ExtendedGroupFits(lines, last, e);
    }
  }

  lemma {:induction false} LastEditIn(lines: seq<string>, group: Group)
    requires GroupFits(lines, group)
    ensures group.edits != [] && group.edits[|group.edits| - 1] in group.edits
  {
  }

  lemma {:induction false} GroupsAreGrouped(lines: seq<string>, edits: seq<Replacement>)
    requires Ordered(edits, 0, |Concat(lines)|) && NonEmpty(edits)
    ensures Groups(lines, edits).Some? && Grouped(lines, edits, Groups(lines, edits).value)
  {
    if edits != [] {
      var front, last := edits[..|edits| - 1], edits[|edits| - 1];
      OrderedBounds(edits, 0, |Concat(lines)|);
      OrderedFromBounds(front, 0, |Concat(lines)|);
      assert edits == front + [last];
      GroupsAreGrouped(lines, front);
      AddKeepsGrouped(lines, front, Groups(lines, front).value, last);
    }
  }

  /** Grouping fails exactly when some replacement leaves the base. */
  lemma {:induction false} GroupsFailIff(lines: seq<string>, edits: seq<Replacement>)
    requires NonEmpty(edits)
    ensures Groups(lines, edits).None? <==> exists e :: e in edits && e.End() > |Concat(lines)|
  {
    if edits != [] {
      var front, last := edits[..|edits| - 1], edits[|edits| - 1];
      assert edits == front + [last];
      GroupsFailIff(lines, front);
    }
  }

  // ---------------------------------------------------------------- the text of a group

  lemma {:induction false} ShiftedTexts(edits: seq<Replacement>, offset: nat, p: nat)
    requires forall i :: 0 <= i < |edits| ==> offset <= edits[i].at
    ensures TextsAt(AllShifted(edits, offset), p) == TextsAt(edits, offset + p)
  {
    if edits != [] {
      ShiftedTexts(edits[1..], offset, p);
      assert AllShifted(edits, offset)[1..] == AllShifted(edits[1..], offset);
    }
  }

  lemma {:induction false} ShiftedCovers(edits: seq<Replacement>, offset: nat, p: nat)
    requires forall i :: 0 <= i < |edits| ==> offset <= edits[i].at
    ensures Covered(AllShifted(edits, offset), p) <==> Covered(edits, offset + p)
  {
    var shifted := AllShifted(edits, offset);
    if i :| 0 <= i < |edits| && edits[i].at <= offset + p < edits[i].End() {
      assert shifted[i].at <= p < shifted[i].End();
    }
    if i :| 0 <= i < |shifted| && shifted[i].at <= p < shifted[i].End() {
      assert edits[i].at <= offset + p < edits[i].End();
    }
  }

  lemma {:induction false} ShiftedOut(s: string, edits: seq<Replacement>, a: nat, b: nat, p: nat)
    requires a + p < b <= |s| && forall i :: 0 <= i < |edits| ==> a <= edits[i].at
    ensures Out(s[a..b], AllShifted(edits, a), p) == Out(s, edits, a + p)
  {
    ShiftedTexts(edits, a, p);
    ShiftedCovers(edits, a, p);
  }

  lemma {:induction false} ShiftedWindow(s: string, edits: seq<Replacement>, a: nat, b: nat, p: nat)
    requires a + p <= b <= |s| && forall i :: 0 <= i < |edits| ==> a <= edits[i].at
    ensures Window(s[a..b], AllShifted(edits, a), p, b - a) == Window(s, edits, a + p, b)
    decreases b - a - p
  {
    hide *;
    WindowStep(s[a..b], AllShifted(edits, a), p, b - a);
    WindowStep(s, edits, a + p, b);
    if a + p < b {
      ShiftedOut(s, edits, a, b, p);
      ShiftedWindow(s, edits, a, b, p + 1);
    }
  }

  lemma {:induction false} ShiftedIsOrdered(edits: seq<Replacement>, a: nat, b: nat)
    requires a <= b && Ordered(edits, a, b)
    ensures Ordered(AllShifted(edits, a), 0, b - a)
  {
    OrderedBounds(edits, a, b);
    OrderedFromBounds(AllShifted(edits, a), 0, b - a);
  }

  /** Editing a slice back to front with shifted positions is the reading of those positions. */
  lemma {:induction false} SliceText(s: string, edits: seq<Replacement>, a: nat, b: nat)
    requires a <= b <= |s| && Ordered(edits, a, b) && NonEmpty(edits)
    ensures BackToFront(s[a..b], AllShifted(edits, a)) == Window(s, edits, a, b)
  {
    var shifted := AllShifted(edits, a);
    ShiftedIsOrdered(edits, a, b);
    BackToFrontIsRebuild(s[a..b], shifted);
    assert shifted[0..] == shifted;
    assert NonEmpty(shifted) by { OrderedBounds(edits, a, b); }
    RebuildIsWindow(s[a..b], shifted, 0, 0);
    OrderedBounds(edits, a, b);
    ShiftedWindow(s, edits, a, b, 0);
  }

  /** The text written at a position is that of the edit that starts there. */
  lemma {:induction false} TextsAtMember(edits: seq<Replacement>, from: nat, to: nat, p: nat)
    requires Ordered(edits, from, to) && NonEmpty(edits)
    ensures forall e :: e in edits && e.at == p ==> TextsAt(edits, p) == e.text
    ensures (forall e :: e in edits ==> e.at != p) ==> TextsAt(edits, p) == []
  {
    OrderedBounds(edits, from, to);
    forall e | e in edits && e.at == p ensures TextsAt(edits, p) == e.text {
      var k :| 0 <= k < |edits| && edits[k] == e;
      OneTextAt(edits, k);
    }
    if forall e :: e in edits ==> e.at != p {
      NoTextsAt(edits, p);
    }
  }

  lemma {:induction false} SameTexts(a: seq<Replacement>, b: seq<Replacement>, to: nat, p: nat)
    requires Ordered(a, 0, to) && Ordered(b, 0, to) && NonEmpty(a) && NonEmpty(b)
    requires forall e: Replacement :: e.at <= p < e.End() ==> (e in a <==> e in b)
    ensures TextsAt(a, p) == TextsAt(b, p) && (Covered(a, p) <==> Covered(b, p))
  {
    TextsAtMember(a, 0, to, p);
    TextsAtMember(b, 0, to, p);
    forall e | e in a && e.at == p ensures e in b { MemberIsNonEmpty(a, e); }
    forall e | e in b && e.at == p ensures e in a { MemberIsNonEmpty(b, e); }
    if i :| 0 <= i < |a| && a[i].at <= p < a[i].End() { assert a[i] in b; }
    if i :| 0 <= i < |b| && b[i].at <= p < b[i].End() { assert b[i] in a; }
  }

  lemma {:induction false} MemberIsNonEmpty(edits: seq<Replacement>, e: Replacement)
    requires NonEmpty(edits) && e in edits
    ensures e.length > 0
  {
  }

  lemma {:induction false} SameOut(s: string, a: seq<Replacement>, b: seq<Replacement>, p: nat)
    requires p < |s| && Ordered(a, 0, |s|) && Ordered(b, 0, |s|) && NonEmpty(a) && NonEmpty(b)
    requires forall e: Replacement :: e.at <= p < e.End() ==> (e in a <==> e in b)
    ensures Out(s, a, p) == Out(s, b, p)
  {
    SameTexts(a, b, |s|, p);
  }

  /** Edits that meet a window alike read it alike. */
  lemma {:induction false} SameWindow(s: string, a: seq<Replacement>, b: seq<Replacement>, lo: nat, hi: nat)
    requires lo <= hi <= |s|
    requires Ordered(a, 0, |s|) && Ordered(b, 0, |s|) && NonEmpty(a) && NonEmpty(b)
    requires forall e: Replacement :: e.at < hi && lo < e.End() ==> (e in a <==> e in b)
    ensures Window(s, a, lo, hi) == Window(s, b, lo, hi)
    decreases hi - lo
  {
    hide *;
    WindowStep(s, a, lo, hi);
    WindowStep(s, b, lo, hi);
    if lo < hi {
      SameOut(s, a, b, lo);
      SameWindow(s, a, b, lo + 1, hi);
    }
  }

  // ---------------------------------------------------------------- meaning

  /** A line that an edit touches is read from the base; any other line is the original one. */
  ghost function LineOut(original: seq<string>, lines: seq<string>, edits: seq<Replacement>, k: nat): string
    requires k < |lines| == |original|
  {
    Slice(lines, k, k + 1);
    if Touched(lines, k, edits) then Window(Concat(lines), edits, Start(lines, k), Start(lines, k + 1)) else original[k]
  }

  ghost function Woven(original: seq<string>, lines: seq<string>, edits: seq<Replacement>, j: nat, k: nat): string
    requires j <= k <= |lines| == |original|
    decreases k - j
  {
    if j == k then "" else LineOut(original, lines, edits, j) + Woven(original, lines, edits, j + 1, k)
  }

  lemma {:induction false} WovenSplits(original: seq<string>, lines: seq<string>, edits: seq<Replacement>, i: nat,
                                       j: nat, k: nat)
    requires i <= j <= k <= |lines| == |original|
    ensures Woven(original, lines, edits, i, k)
         == Woven(original, lines, edits, i, j) + Woven(original, lines, edits, j, k)
    decreases j - i
  {
    if i < j {
      WovenSplits(original, lines, edits, i + 1, j, k);
    }
  }

  /** Lines that no edit touches are copied from the original. */
  lemma {:induction false} UntouchedAreCopied(original: seq<string>, lines: seq<string>, edits: seq<Replacement>,
                                              j: nat, k: nat)
    requires j <= k <= |lines| == |original| && forall i :: j <= i < k ==> !Touched(lines, i, edits)
    ensures Woven(original, lines, edits, j, k) == Concat(original[j..k])
    decreases k - j
  {
    if j < k {
      UntouchedAreCopied(original, lines, edits, j + 1, k);
      assert original[j..k][1..] == original[j + 1..k];
    }
  }

  lemma {:induction false} TouchedAreRead(original: seq<string>, lines: seq<string>, edits: seq<Replacement>, j: nat,
                                          k: nat)
    requires j <= k <= |lines| == |original| && forall i :: j <= i < k ==> Touched(lines, i, edits)
    ensures Start(lines, j) <= Start(lines, k) <= |Concat(lines)|
    ensures Woven(original, lines, edits, j, k) == Window(Concat(lines), edits, Start(lines, j), Start(lines, k))
    decreases k - j
  {
    Slice(lines, j, k);
    if j < k {
      TouchedAreRead(original, lines, edits, j + 1, k);
      Slice(lines, j, j + 1);
      WindowSplits(Concat(lines), edits, Start(lines, j), Start(lines, j + 1), Start(lines, k));
    }
  }

  /** An edit in a group touches no line outside it. */
  lemma {:induction false} OutsideGroup(lines: seq<string>, group: Group, k: nat)
    requires GroupFits(lines, group) && k < |lines| && (k < group.startLine || group.endLine <= k)
    ensures !Touched(lines, k, group.edits)
  {
    OrderedBounds(group.edits, Start(lines, group.startLine), Start(lines, group.endLine));
    if k < group.startLine {
      StartIsMonotone(lines, k + 1, group.startLine);
    } else {
      StartIsMonotone(lines, group.endLine, k);
    }
  }

  lemma {:induction false} OutsideAllGroups(lines: seq<string>, edits: seq<Replacement>, groups: seq<Group>, k: nat)
    requires Grouped(lines, edits, groups) && k < |lines|
    requires forall i :: 0 <= i < |groups| ==> k < groups[i].startLine || groups[i].endLine <= k
    ensures !Touched(lines, k, edits)
  {
    hide GroupFits;
    if e :| e in edits && Touches(lines, k, e) {
      var i :| 0 <= i < |groups| && e in groups[i].edits;
      OutsideGroup(lines, groups[i], k);
    }
  }

  /** Every line of a group is touched, and the edits that meet it are the group's. */
  lemma {:induction false} InsideGroup(lines: seq<string>, edits: seq<Replacement>, groups: seq<Group>, i: nat)
    requires Grouped(lines, edits, groups) && i < |groups|
    ensures forall k :: groups[i].startLine <= k < groups[i].endLine ==> Touched(lines, k, edits)
  {
    forall k | groups[i].startLine <= k < groups[i].endLine ensures Touched(lines, k, edits) {
      assert Touched(lines, k, groups[i].edits);
      var e :| e in groups[i].edits && Touches(lines, k, e);
      assert e in edits;
    }
  }

  lemma {:induction false} EditBounds(lines: seq<string>, group: Group, e: Replacement)
    requires GroupFits(lines, group) && e in group.edits
    ensures Start(lines, group.startLine) <= e.at && e.End() <= Start(lines, group.endLine)
  {
    OrderedBounds(group.edits, Start(lines, group.startLine), Start(lines, group.endLine));
  }

  /** The edits that meet a group's lines are the group's. */
  lemma {:induction false} EditsOfGroup(lines: seq<string>, edits: seq<Replacement>, groups: seq<Group>, i: nat,
                                        e: Replacement)
    requires Grouped(lines, edits, groups) && i < |groups|
    requires e.at < Start(lines, groups[i].endLine) && Start(lines, groups[i].startLine) < e.End()
    ensures e in edits <==> e in groups[i].edits
  {
    hide GroupFits;
    if e in edits {
      var j :| 0 <= j < |groups| && e in groups[j].edits;
      EditBounds(lines, groups[j], e);
      if j < i {
        StartIsMonotone(lines, groups[j].endLine, groups[i].startLine);
      } else if i < j {
        StartIsMonotone(lines, groups[i].endLine, groups[j].startLine);
      }
    }
  }

  lemma {:induction false} GroupEditsAreOrdered(lines: seq<string>, group: Group, edits: seq<Replacement>)
    requires GroupFits(lines, group) && NonEmpty(edits) && forall e :: e in group.edits ==> e in edits
    ensures NonEmpty(group.edits) && Ordered(group.edits, 0, |Concat(lines)|)
    ensures Start(lines, group.startLine) <= Start(lines, group.endLine) <= |Concat(lines)|
  {
    Slice(lines, group.startLine, group.endLine);
    OrderedBounds(group.edits, Start(lines, group.startLine), Start(lines, group.endLine));
    OrderedFromBounds(group.edits, 0, |Concat(lines)|);
    forall i | 0 <= i < |group.edits| ensures group.edits[i].length > 0 {
      assert group.edits[i] in edits;
    }
  }

  /** A group's text is what its lines become. */
  lemma {:induction false} GroupIsWoven(original: seq<string>, lines: seq<string>, edits: seq<Replacement>,
                                        groups: seq<Group>, i: nat)
    requires Grouped(lines, edits, groups) && i < |groups| && |original| == |lines|
    requires Ordered(edits, 0, |Concat(lines)|) && NonEmpty(edits)
    ensures GroupText(lines, groups[i]) == Woven(original, lines, edits, groups[i].startLine, groups[i].endLine)
  {
    var group := groups[i];
    var a, b := Start(lines, group.startLine), Start(lines, group.endLine);
    GroupEditsAreOrdered(lines, group, edits);
    SliceText(Concat(lines), group.edits, a, b);
    Slice(lines, group.startLine, group.endLine);
    forall e: Replacement | e.at < b && a < e.End() ensures e in edits <==> e in group.edits {
      EditsOfGroup(lines, edits, groups, i, e);
    }
    SameWindow(Concat(lines), edits, group.edits, a, b);
    InsideGroup(lines, edits, groups, i);
    TouchedAreRead(original, lines, edits, group.startLine, group.endLine);
  }

  lemma {:induction false} NextGroup(original: seq<string>, lines: seq<string>, edits: seq<Replacement>,
                                     groups: seq<Group>, i: nat, from: nat)
    requires i < |groups| && |original| == |lines| && InOrder(groups, 0, |lines|) && from <= groups[i].startLine
    requires GroupText(lines, groups[i]) == Woven(original, lines, edits, groups[i].startLine, groups[i].endLine)
    requires Woven(original, lines, edits, from, groups[i].startLine) == Concat(original[from..groups[i].startLine])
    requires InOrder(groups[i + 1..], groups[i].endLine, |lines|)
    requires Assembled(original, lines, groups[i + 1..], groups[i].endLine)
          == Woven(original, lines, edits, groups[i].endLine, |lines|)
    ensures InOrder(groups[i..], from, |lines|)
    ensures Assembled(original, lines, groups[i..], from) == Woven(original, lines, edits, from, |lines|)
  {
    hide GroupText, Woven;
    assert groups[i..][0] == groups[i] && groups[i..][1..] == groups[i + 1..];
    WovenSplits(original, lines, edits, from, groups[i].startLine, |lines|);
    WovenSplits(original, lines, edits, groups[i].startLine, groups[i].endLine, |lines|);
  }

  /** Assembling the remaining groups weaves the remaining lines. */
  lemma {:induction false} AssembledIsWoven(original: seq<string>, lines: seq<string>, edits: seq<Replacement>,
                                            groups: seq<Group>, i: nat, from: nat)
    requires Grouped(lines, edits, groups) && i <= |groups| && |original| == |lines|
    requires Ordered(edits, 0, |Concat(lines)|) && NonEmpty(edits)
    requires from <= |lines|
    requires (i > 0 ==> groups[i - 1].endLine <= from) && (i < |groups| ==> from <= groups[i].startLine)
    ensures InOrder(groups[i..], from, |lines|)
    ensures Assembled(original, lines, groups[i..], from) == Woven(original, lines, edits, from, |lines|)
    decreases |groups| - i
  {
    hide GroupFits, GroupText, Woven, Touched, Ordered;
    var stop := if i < |groups| then groups[i].startLine else |lines|;
    forall k | from <= k < stop ensures !Touched(lines, k, edits) {
      OutsideAllGroups(lines, edits, groups, k);
    }
    UntouchedAreCopied(original, lines, edits, from, stop);
    if i < |groups| {
      GroupIsWoven(original, lines, edits, groups, i);
      AssembledIsWoven(original, lines, edits, groups, i + 1, groups[i].endLine);
      NextGroup(original, lines, edits, groups, i, from);
    } else {
      assert original[from..|lines|] == original[from..];
    }
  }

  /**
   Disjoint replacements, listed in any order: the result exists exactly when the line counts agree
   and every replacement lies in the base, and then each untouched line is the original line and each
   touched line is read from the base.
   */
  lemma {:induction false} PreservingMeaning(original: string, base: string, edits: seq<Replacement>)
    requires Disjoint(multiset(edits))
    ensures PreservingUnchanged(original, base, edits) ==
              if |SplitLines(original)| != |SplitLines(base)| then LineCountDiffers
              else if exists e :: e in edits && e.End() > |base| then OutsideBase
              else Kept(Woven(SplitLines(original), SplitLines(base), Ascending(edits), 0, |SplitLines(base)|))
  {
    var lines, sorted := SplitLines(base), Ascending(edits);
    SplitLinesIsExact(base);
    AscendingIsOrdered(edits, Bound(edits));
    GroupsFailIff(lines, sorted);
    if |SplitLines(original)| == |lines| && forall e :: e in edits ==> e.End() <= |base| {
      AscendingIsOrdered(edits, |base|);
      GroupsAreGrouped(lines, sorted);
      var groups := Groups(lines, sorted).value;
      AssembledIsWoven(SplitLines(original), lines, sorted, groups, 0, 0);
      assert groups[0..] == groups;
    }
  }

  lemma {:induction false} UntouchedLineIsRead(lines: seq<string>, edits: seq<Replacement>, k: nat)
    requires k < |lines| && NonEmpty(edits) && !Touched(lines, k, edits)
    ensures Start(lines, k) <= Start(lines, k + 1) <= |Concat(lines)|
    ensures Window(Concat(lines), edits, Start(lines, k), Start(lines, k + 1)) == lines[k]
  {
    Slice(lines, k, k + 1);
    assert lines[k..k + 1] == [lines[k]];
    assert Concat(lines[k..k + 1]) == lines[k] + Concat([]);
    forall i | 0 <= i < |edits| ensures edits[i].End() <= Start(lines, k) || Start(lines, k + 1) <= edits[i].at {
      assert edits[i] in edits;
    }
    UntouchedWindow(Concat(lines), edits, Start(lines, k), Start(lines, k + 1));
  }

  lemma {:induction false} LineIsRead(lines: seq<string>, edits: seq<Replacement>, j: nat)
    requires j < |lines| && NonEmpty(edits)
    ensures Start(lines, j) <= Start(lines, j + 1) <= |Concat(lines)|
    ensures LineOut(lines, lines, edits, j) == Window(Concat(lines), edits, Start(lines, j), Start(lines, j + 1))
  {
    hide Window, Concat, Touched;
    Slice(lines, j, j + 1);
    if !Touched(lines, j, edits) { UntouchedLineIsRead(lines, edits, j); }
  }

  lemma {:induction false} WovenFromItself(lines: seq<string>, edits: seq<Replacement>, j: nat)
    requires j <= |lines| && NonEmpty(edits)
    ensures Start(lines, j) <= |Concat(lines)|
    ensures Woven(lines, lines, edits, j, |lines|) == Window(Concat(lines), edits, Start(lines, j), |Concat(lines)|)
    decreases |lines| - j
  {
    hide Concat, NonEmpty, LineOut;
    StartOfEnd(lines);
    if j < |lines| {
      hide Window;
      LineIsRead(lines, edits, j);
      WovenFromItself(lines, edits, j + 1);
      WindowSplits(Concat(lines), edits, Start(lines, j), Start(lines, j + 1), |Concat(lines)|);
    }
  }

  /** With the base as the original, the grouped form is plain replacement. */
  lemma {:induction false} PreservingRefinesPlain(base: string, edits: seq<Replacement>)
    requires Disjoint(multiset(edits)) && forall e :: e in edits ==> e.End() <= |base|
    ensures PreservingUnchanged(base, base, edits) == Kept(BackToFront(base, Ascending(edits)))
  {
    var lines, sorted := SplitLines(base), Ascending(edits);
    PreservingMeaning(base, base, edits);
    SplitLinesIsExact(base);
    AscendingIsOrdered(edits, |base|);
    WovenFromItself(lines, sorted, 0);
    BackToFrontIsRebuild(base, sorted);
    assert sorted[0..] == sorted;
    RebuildIsWindow(base, sorted, 0, 0);
  }

  /** The listing of the replacements does not matter. */
  lemma {:induction false} PreservingIgnoresListing(original: string, base: string, a: seq<Replacement>,
                                                    b: seq<Replacement>)
    requires Disjoint(multiset(a)) && multiset(a) == multiset(b)
    ensures PreservingUnchanged(original, base, a) == PreservingUnchanged(original, base, b)
  {
    AscendingIgnoresListing(a, b);
  }
}
