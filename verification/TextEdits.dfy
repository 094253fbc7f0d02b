/**
 Replacements in a text: applied directly, or grouped by the lines they touch so that all other
 lines are copied from the original.
 */
module TextEdits {
  import opened Options
  import opened Splicing
  import opened LineText

  type Replacement = Splice<char>

  datatype LineSpan = LineSpan(start: nat, end: nat)
  datatype Range = Range(startLine: nat, endLine: nat)
  datatype Group = Group(startLine: nat, endLine: nat, edits: seq<Replacement>)
  datatype Preserved = Kept(text: string) | LineCountDiffers | OutsideBase

  // ---------------------------------------------------------------- direct replacement

  /** The edit seen from a text that starts at `offset`; positions before it count as its start. */
  function Shifted(edit: Replacement, offset: nat): Replacement {
    var at := if edit.at < offset then 0 else edit.at - offset;
    Splice(at, if edit.End() < offset + at then 0 else edit.End() - offset - at, edit.text)
  }

  function AllShifted(edits: seq<Replacement>, offset: nat): seq<Replacement> {
    seq(|edits|, i requires 0 <= i < |edits| => Shifted(edits[i], offset))
  }

  /** A JavaScript substring up to, or from, a position that may be out of range. */
  function Before(s: string, p: int): string {
    if p < 0 then "" else Take(s, p)
  }

  function From(s: string, p: int): string {
    if p < 0 then s else Drop(s, p)
  }

  lemma {:induction false} ShiftedSplice(s: string, edit: Replacement, offset: nat)
    ensures Spliced(s, Shifted(edit, offset))
         == Before(s, edit.at - offset) + edit.text + From(s, edit.at - offset + edit.length)
  {
  }

  method ApplyTextReplacements(content: string, replacements: seq<Replacement>, offset: nat) returns (result: string)
    ensures result == BackToFront(content, AllShifted(replacements, offset))
  {
    hide Spliced, Shifted, Before, From;
    result := content;
    ghost var shifted := AllShifted(replacements, offset);
    assert shifted[..|replacements|] == shifted;
    for i := |replacements| downto 0
      invariant BackToFront(result, shifted[..i]) == BackToFront(content, shifted)
    {
      var replacement := replacements[i];
      var matchIndex := replacement.at - offset;
      ShiftedSplice(result, replacement, offset);
      result := Before(result, matchIndex) + replacement.text + From(result, matchIndex + replacement.length);
      assert shifted[..i + 1][..i] == shifted[..i];
    }
  }

  // ---------------------------------------------------------------- line ranges

  ghost predicate AreSpans(spans: seq<LineSpan>, lines: seq<string>) {
    && |spans| == |lines|
    && forall k {:trigger spans[k]} :: 0 <= k < |spans| ==> spans[k] == LineSpan(Start(lines, k), Start(lines, k + 1))
  }

  method GetLineSpans(content: string) returns (spans: seq<LineSpan>)
    ensures AreSpans(spans, SplitLines(content))
  {
    var lines, offset := SplitLines(content), 0;
    spans := [];
    for i := 0 to |lines|
      invariant |spans| == i && offset == Start(lines, i)
      invariant forall k :: 0 <= k < i ==> spans[k] == LineSpan(Start(lines, k), Start(lines, k + 1))
    {
      StartStep(lines, i);
      spans := spans + [LineSpan(offset, offset + |lines[i]|)];
      offset := offset + |lines[i]|;
    }
  }

  /** The lines that a replacement touches, if it lies within them. */
  function LineRange(lines: seq<string>, edit: Replacement): Option<Range> {
    if edit.at >= |Concat(lines)| || edit.End() > |Concat(lines)| then None
    else Some(Range(LineAt(lines, edit.at), LineAt(lines, if edit.length == 0 then edit.at else edit.End() - 1) + 1))
  }

  method GetReplacementLineRange(spans: seq<LineSpan>, replacement: Replacement, ghost lines: seq<string>)
    returns (range: Option<Range>)
    requires AreSpans(spans, lines)
    ensures range == LineRange(lines, replacement)
  {
    var startLine := 0;
    StartOfEnd(lines);
    while startLine < |spans| && !(spans[startLine].start <= replacement.at < spans[startLine].end)
      invariant startLine <= |spans|
      invariant Start(lines, startLine) <= replacement.at
    {
      startLine := startLine + 1;
    }
    if startLine == |spans| { return None; }
    LineAtIsUnique(lines, replacement.at, startLine);
    var endLine := startLine;
    while endLine < |spans| && spans[endLine].end < replacement.End()
      invariant startLine <= endLine <= |spans|
      invariant endLine > startLine ==> replacement.at < Start(lines, endLine) < replacement.End()
    {
      StartStep(lines, endLine);
      endLine := endLine + 1;
    }
    if endLine >= |spans| { return None; }
    StartIsMonotone(lines, endLine + 1, |lines|);
    LineAtIsUnique(lines, if replacement.length == 0 then replacement.at else replacement.End() - 1, endLine);
    return Some(Range(startLine, endLine + 1));
  }

  // ---------------------------------------------------------------- grouped replacement

  function Max(a: nat, b: nat): nat {
    if a < b then b else a
  }

  /** Add an edit to the last group if they share a line, else open a group. */
  function AddToGroups(groups: seq<Group>, range: Range, edit: Replacement): seq<Group> {
    if groups != [] && range.startLine < groups[|groups| - 1].endLine then
      var last := groups[|groups| - 1];
      groups[..|groups| - 1] + [Group(last.startLine, Max(last.endLine, range.endLine), last.edits + [edit])]
    else groups + [Group(range.startLine, range.endLine, [edit])]
  }

  function Groups(lines: seq<string>, edits: seq<Replacement>): Option<seq<Group>> {
    if edits == [] then Some([]) else
    var groups := Groups(lines, edits[..|edits| - 1]);
    var range := LineRange(lines, edits[|edits| - 1]);
    if groups.None? || range.None? then None
    else Some(AddToGroups(groups.value, range.value, edits[|edits| - 1]))
  }

  /** The text of a group's lines after its edits. */
  function GroupText(lines: seq<string>, group: Group): string
    requires group.startLine <= group.endLine <= |lines|
  {
    var offset := Start(lines, group.startLine);
    BackToFront(Concat(lines[group.startLine..group.endLine]), AllShifted(group.edits, offset))
  }

  predicate InOrder(groups: seq<Group>, from: nat, to: nat) {
    && (forall i :: 0 <= i < |groups| ==> from <= groups[i].startLine < groups[i].endLine <= to)
    && (forall i, j :: 0 <= i < j < |groups| ==> groups[i].endLine <= groups[j].startLine)
  }

  /** The lines from `from` on, with the groups replaced. */
  function Assembled(original: seq<string>, lines: seq<string>, groups: seq<Group>, from: nat): string
    requires |original| == |lines| && from <= |lines| && InOrder(groups, from, |lines|)
  {
    if groups == [] then Concat(original[from..])
    else Concat(original[from..groups[0].startLine]) + GroupText(lines, groups[0])
         + Assembled(original, lines, groups[1..], groups[0].endLine)
  }

  function PreservingUnchanged(original: string, base: string, edits: seq<Replacement>): Preserved {
    var originalLines, lines := SplitLines(original), SplitLines(base);
    if |originalLines| != |lines| then LineCountDiffers else
    var groups := Groups(lines, Ascending(edits));
    if groups.None? then OutsideBase else
    GroupsAreInOrder(lines, Ascending(edits));
    Kept(Assembled(originalLines, lines, groups.value, 0))
  }

  lemma {:induction false} AddKeepsInOrder(groups: seq<Group>, range: Range, edit: Replacement, to: nat)
    requires InOrder(groups, 0, to) && range.startLine < range.endLine <= to
    ensures InOrder(AddToGroups(groups, range, edit), 0, to)
  {
  }

  lemma {:induction false} RangeIsProper(lines: seq<string>, edit: Replacement)
    requires LineRange(lines, edit).Some?
    ensures LineRange(lines, edit).value.startLine < LineRange(lines, edit).value.endLine <= |lines|
  {
    LineAtIsMonotone(lines, edit.at, if edit.length == 0 then edit.at else edit.End() - 1);
  }

  lemma {:induction false} GroupsAreInOrder(lines: seq<string>, edits: seq<Replacement>)
    requires Groups(lines, edits).Some?
    ensures InOrder(Groups(lines, edits).value, 0, |lines|)
  {
    if edits != [] {
      hide InOrder, AddToGroups, LineRange;
      GroupsAreInOrder(lines, edits[..|edits| - 1]);
      var last := edits[|edits| - 1];
      RangeIsProper(lines, last);
      AddKeepsInOrder(Groups(lines, edits[..|edits| - 1]).value, LineRange(lines, last).value, last, |lines|);
    }
  }

  lemma {:induction false} LineAtIsMonotone(lines: seq<string>, p: nat, q: nat)
    requires p <= q < |Concat(lines)|
    ensures LineAt(lines, p) <= LineAt(lines, q)
  {
    if LineAt(lines, q) < LineAt(lines, p) {
      StartIsMonotone(lines, LineAt(lines, q) + 1, LineAt(lines, p));
    }
  }

  lemma {:induction false} InOrderTail(groups: seq<Group>, from: nat, to: nat)
    requires InOrder(groups, from, to) && groups != []
    ensures InOrder(groups[1..], groups[0].endLine, to)
  {
  }

  lemma {:induction false} GroupsFail(lines: seq<string>, edits: seq<Replacement>, n: nat)
    requires n <= |edits| && Groups(lines, edits[..n]).None?
    ensures Groups(lines, edits).None?
    decreases |edits|
  {
    if n < |edits| {
      assert edits[..|edits| - 1][..n] == edits[..n];
      GroupsFail(lines, edits[..|edits| - 1], n);
    } else {
      assert edits[..n] == edits;
    }
  }

  lemma {:induction false} GroupsStep(lines: seq<string>, sorted: seq<Replacement>, i: nat, groups: seq<Group>)
    requires i < |sorted| && Groups(lines, sorted[..i]) == Some(groups)
    ensures LineRange(lines, sorted[i]).None? ==> Groups(lines, sorted).None?
    ensures LineRange(lines, sorted[i]).Some? ==>
              Groups(lines, sorted[..i + 1]) == Some(AddToGroups(groups, LineRange(lines, sorted[i]).value, sorted[i]))
  {
    hide LineRange, AddToGroups;
    assert sorted[..i + 1][..i] == sorted[..i];
    if LineRange(lines, sorted[i]).None? {
      GroupsFail(lines, sorted, i + 1);
    }
  }

  /** The loop that groups sorted replacements by the lines they touch. */
  method GroupByLines(spans: seq<LineSpan>, sorted: seq<Replacement>, ghost lines: seq<string>)
    returns (groups: seq<Group>, inside: bool)
    requires AreSpans(spans, lines)
    ensures Groups(lines, sorted) == if inside then Some(groups) else None
  {
    groups, inside := [], true;
    assert Groups(lines, []) == Some([]);
    assert sorted[..0] == [];
    hide Groups, LineRange;
    for i := 0 to |sorted|
      invariant Groups(lines, sorted[..i]) == Some(groups)
    {
      GroupsStep(lines, sorted, i, groups);
      var range := GetReplacementLineRange(spans, sorted[i], lines);
      if range.None? {
        return groups, false;
      }
      if groups != [] && range.value.startLine < groups[|groups| - 1].endLine {
        var current := groups[|groups| - 1];
        groups := groups[..|groups| - 1] + [current.(endLine := Max(current.endLine, range.value.endLine),
                                                     edits := current.edits + [sorted[i]])];
      } else {
        groups := groups + [Group(range.value.startLine, range.value.endLine, [sorted[i]])];
      }
    }
    assert sorted[..|sorted|] == sorted;
  }

  method EditGroup(base: string, spans: seq<LineSpan>, group: Group, ghost lines: seq<string>) returns (text: string)
    requires AreSpans(spans, lines) && Concat(lines) == base && group.startLine < group.endLine <= |spans|
    ensures text == GroupText(lines, group)
  {
    var groupStartOffset, groupEndOffset := spans[group.startLine].start, spans[group.endLine - 1].end;
    Slice(lines, group.startLine, group.endLine);
    text := ApplyTextReplacements(base[groupStartOffset..groupEndOffset], group.edits, groupStartOffset);
  }

  lemma {:induction false} AssembledStep(original: seq<string>, lines: seq<string>, groups: seq<Group>, i: nat,
                                         from: nat, text: string)
    requires |original| == |lines| && from <= |lines| && i < |groups| && InOrder(groups[i..], from, |lines|)
    ensures from <= groups[i].startLine < groups[i].endLine <= |lines|
         && InOrder(groups[i + 1..], groups[i].endLine, |lines|)
    ensures text + Assembled(original, lines, groups[i..], from)
         == text + Concat(original[from..groups[i].startLine]) + GroupText(lines, groups[i])
            + Assembled(original, lines, groups[i + 1..], groups[i].endLine)
  {
    assert groups[i..][0] == groups[i] && groups[i..][1..] == groups[i + 1..];
    InOrderTail(groups[i..], from, |lines|);
    hide GroupText;
    var rest := Assembled(original, lines, groups[i + 1..], groups[i].endLine);
    assert Assembled(original, lines, groups[i..], from)
        == Concat(original[from..groups[i].startLine]) + GroupText(lines, groups[i]) + rest;
    hide *;
    Regrouped(text, Concat(original[from..groups[i].startLine]), GroupText(lines, groups[i]), rest);
  }

  lemma {:induction false} Regrouped(a: string, b: string, c: string, d: string)
    ensures a + (b + c + d) == a + b + c + d
  {
  }

  lemma {:induction false} AssembledEnd(original: seq<string>, lines: seq<string>, from: nat)
    requires |original| == |lines| && from <= |lines|
    ensures InOrder([], from, |lines|) && Assembled(original, lines, [], from) == Concat(original[from..])
  {
  }

  method ApplyReplacementsPreservingUnchangedLines(original: string, base: string, replacements: seq<Replacement>)
    returns (result: Preserved)
    ensures result == PreservingUnchanged(original, base, replacements)
  {
    hide Groups, Ascending, BackToFront, GroupText, Assembled, InOrder;
    var originalLines := SplitLines(original);
    var baseLines := GetLineSpans(base);
    if |originalLines| != |baseLines| { return LineCountDiffers; }

    ghost var lines := SplitLines(base);
    var groups, inside := GroupByLines(baseLines, Ascending(replacements), lines);
    if !inside { return OutsideBase; }
    GroupsAreInOrder(lines, Ascending(replacements));
    SplitLinesIsExact(base);

    var originalLineIndex: nat, text := 0, "";
    for i := 0 to |groups|
      invariant originalLineIndex <= |lines| && InOrder(groups[i..], originalLineIndex, |lines|)
      invariant text + Assembled(originalLines, lines, groups[i..], originalLineIndex)
             == Assembled(originalLines, lines, groups, 0)
    {
      var group := groups[i];
      AssembledStep(originalLines, lines, groups, i, originalLineIndex, text);
      text := text + Concat(originalLines[originalLineIndex..group.startLine]);
      var edited := EditGroup(base, baseLines, group, lines);
      text := text + edited;
      originalLineIndex := group.endLine;
    }
    AssembledEnd(originalLines, lines, originalLineIndex);
    assert groups[|groups|..] == [];
    text := text + Concat(originalLines[originalLineIndex..]);
    return Kept(text);
  }
}
