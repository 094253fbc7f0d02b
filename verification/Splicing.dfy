/**
 Lists of replacements over a sequence of characters or lines: applied back to front, as the
 editors do, and read left to right, as they are meant.
 */
module Splicing {
  /** Replace `length` elements from `at` on by `text`. */
  datatype Splice<T> = Splice(at: nat, length: nat, text: seq<T>) {
    function End(): nat { at + length }
  }

  function Take<T>(s: seq<T>, n: nat): seq<T> {
    if n <= |s| then s[..n] else s
  }

  function Drop<T>(s: seq<T>, n: nat): seq<T> {
    if n <= |s| then s[n..] else []
  }

  function Spliced<T>(s: seq<T>, edit: Splice<T>): seq<T> {
    Take(s, edit.at) + edit.text + Drop(s, edit.End())
  }

  /** Apply the edits one by one, the last one first. */
  function BackToFront<T>(s: seq<T>, edits: seq<Splice<T>>): seq<T>
    decreases |edits|
  {
    if edits == [] then s
    else BackToFront(Spliced(s, edits[|edits| - 1]), edits[..|edits| - 1])
  }

  /** The edits are in order and disjoint and lie between two positions. */
  predicate Ordered<T>(edits: seq<Splice<T>>, from: nat, to: nat) {
    if edits == [] then from <= to
    else from <= edits[0].at && Ordered(edits[1..], edits[0].End(), to)
  }

  /** One pass from left to right: copy up to the next edit, write its text, skip what it replaces. */
  function Rebuild<T>(s: seq<T>, edits: seq<Splice<T>>, from: nat): seq<T>
    requires Ordered(edits, from, |s|)
  {
    if edits == [] then s[from..] else
    OrderedBounds(edits, from, |s|);
    s[from..edits[0].at] + edits[0].text + Rebuild(s, edits[1..], edits[0].End())
  }

  lemma {:induction false} OrderedBounds<T>(edits: seq<Splice<T>>, from: nat, to: nat)
    requires Ordered(edits, from, to)
    ensures from <= to
    ensures forall i :: 0 <= i < |edits| ==> from <= edits[i].at && edits[i].End() <= to
    ensures forall i, j :: 0 <= i < j < |edits| ==> edits[i].End() <= edits[j].at
  {
    if edits != [] {
      OrderedBounds(edits[1..], edits[0].End(), to);
      assert forall i :: 1 <= i < |edits| ==> edits[i] == edits[1..][i - 1];
    }
  }

  lemma {:induction false} OrderedFromBounds<T>(edits: seq<Splice<T>>, from: nat, to: nat)
    requires from <= to
    requires forall i :: 0 <= i < |edits| ==> from <= edits[i].at && edits[i].End() <= to
    requires forall i, j :: 0 <= i < j < |edits| ==> edits[i].End() <= edits[j].at
    ensures Ordered(edits, from, to)
  {
    if edits != [] {
      OrderedFromBounds(edits[1..], edits[0].End(), to);
    }
  }

  lemma {:induction false} RebuildStep<T>(s: seq<T>, edits: seq<Splice<T>>, from: nat)
    requires Ordered(edits, from, |s|) && edits != []
    ensures from <= edits[0].at <= |s| && Ordered(edits[1..], edits[0].End(), |s|)
    ensures Rebuild(s, edits, from) == s[from..edits[0].at] + edits[0].text + Rebuild(s, edits[1..], edits[0].End())
  {
    OrderedBounds(edits, from, |s|);
  }

  lemma {:induction false} SliceOfPrefix<T>(s: seq<T>, n: nat, a: nat, b: nat)
    requires a <= b <= n <= |s|
    ensures s[..n][a..b] == s[a..b]
  {
  }

  lemma {:induction false} Regroup<T>(a: seq<T>, b: seq<T>, c: seq<T>, d: seq<T>, e: seq<T>)
    ensures a + b + (c + d + e) == a + b + c + d + e
    ensures a + b + (c + d) == a + b + c + d
  {
  }

  /** What lies behind all edits is copied. */
  lemma {:induction false} RebuildTail<T>(s: seq<T>, edits: seq<Splice<T>>, from: nat, to: nat)
    requires Ordered(edits, from, to) && to <= |s|
    ensures Ordered(edits, from, |s|) && Ordered(edits, from, |s[..to]|)
    ensures Rebuild(s, edits, from) == Rebuild(s[..to], edits, from) + s[to..]
  {
    OrderedBounds(edits, from, to);
    OrderedFromBounds(edits, from, |s|);
    if edits == [] {
      assert s[from..] == s[..to][from..] + s[to..];
    } else {
      RebuildStep(s, edits, from);
      RebuildStep(s[..to], edits, from);
      RebuildTail(s, edits[1..], edits[0].End(), to);
      SliceOfPrefix(s, to, from, edits[0].at);
      hide *;
      Regroup(s[from..edits[0].at], edits[0].text, Rebuild(s[..to], edits[1..], edits[0].End()), s[to..], []);
    }
  }

  lemma {:induction false} FrontIsOrdered<T>(edits: seq<Splice<T>>, from: nat, to: nat)
    requires Ordered(edits, from, to) && edits != []
    ensures edits[|edits| - 1].End() <= to
    ensures Ordered(edits[..|edits| - 1], from, edits[|edits| - 1].at)
  {
    OrderedBounds(edits, from, to);
    OrderedFromBounds(edits[..|edits| - 1], from, edits[|edits| - 1].at);
  }

  /** The pass over all edits is the pass over all but the last, followed by the last. */
  lemma {:induction false} RebuildSnoc<T>(s: seq<T>, edits: seq<Splice<T>>, from: nat)
    requires Ordered(edits, from, |s|) && edits != []
    requires Ordered(edits[..|edits| - 1], from, edits[|edits| - 1].at) && edits[|edits| - 1].End() <= |s|
    ensures var last := edits[|edits| - 1];
            Rebuild(s, edits, from) == Rebuild(s[..last.at], edits[..|edits| - 1], from) + last.text + s[last.End()..]
  {
    var last, front := edits[|edits| - 1], edits[..|edits| - 1];
    RebuildStep(s, edits, from);
    if front == [] {
      assert edits[1..] == [];
      assert s[from..last.at] == s[..last.at][from..];
    } else {
      var head := s[..last.at];
      RebuildStep(head, front, from);
      assert edits[1..][..|edits| - 2] == front[1..];
      RebuildSnoc(s, edits[1..], edits[0].End());
      assert front[0] == edits[0];
      SliceOfPrefix(s, last.at, from, edits[0].at);
      hide *;
      Regroup(head[from..front[0].at], front[0].text, Rebuild(head, front[1..], front[0].End()), last.text,
              s[last.End()..]);
    }
  }

  /** Applying ordered edits from the back is the pass from the left. */
  lemma {:induction false} BackToFrontIsRebuild<T>(s: seq<T>, edits: seq<Splice<T>>)
    requires Ordered(edits, 0, |s|)
    ensures BackToFront(s, edits) == Rebuild(s, edits, 0)
    decreases |edits|
  {
    if edits != [] {
      var last, front := edits[|edits| - 1], edits[..|edits| - 1];
      FrontIsOrdered(edits, 0, |s|);
      RebuildSnoc(s, edits, 0);
      hide Ordered, Rebuild;
      var next := Spliced(s, last);
      assert next[..last.at] == s[..last.at];
      assert next[last.at..] == last.text + s[last.End()..];
      RebuildTail(next, front, 0, last.at);
      BackToFrontIsRebuild(next, front);
    }
  }

  // ---------------------------------------------------------------- position by position

  /** The texts of the edits that start at a position. */
  function TextsAt<T>(edits: seq<Splice<T>>, p: nat): seq<T> {
    if edits == [] then []
    else (if edits[0].at == p then edits[0].text else []) + TextsAt(edits[1..], p)
  }

  predicate Covered<T>(edits: seq<Splice<T>>, p: nat) {
    exists i :: 0 <= i < |edits| && edits[i].at <= p < edits[i].End()
  }

  /** What a position becomes: the texts written there, and its element unless an edit replaces it. */
  function Out<T>(s: seq<T>, edits: seq<Splice<T>>, p: nat): seq<T>
    requires p < |s|
  {
    TextsAt(edits, p) + if Covered(edits, p) then [] else [s[p]]
  }

  /** What the positions from a to b become. */
  function Window<T>(s: seq<T>, edits: seq<Splice<T>>, a: nat, b: nat): seq<T>
    requires a <= b <= |s|
    decreases b - a
  {
    if a == b then []
    else Out(s, edits, a) + Window(s, edits, a + 1, b)
  }

  lemma {:induction false} WindowStep<T>(s: seq<T>, edits: seq<Splice<T>>, a: nat, b: nat)
    requires a <= b <= |s|
    ensures a == b ==> Window(s, edits, a, b) == []
    ensures a < b ==> Window(s, edits, a, b) == Out(s, edits, a) + Window(s, edits, a + 1, b)
  {
  }

  lemma {:induction false} WindowSplits<T>(s: seq<T>, edits: seq<Splice<T>>, a: nat, m: nat, b: nat)
    requires a <= m <= b <= |s|
    ensures Window(s, edits, a, b) == Window(s, edits, a, m) + Window(s, edits, m, b)
    decreases m - a
  {
    if a < m {
      WindowSplits(s, edits, a + 1, m, b);
    }
  }

  lemma {:induction false} NoTextsAt<T>(edits: seq<Splice<T>>, p: nat)
    requires forall i :: 0 <= i < |edits| ==> edits[i].at != p
    ensures TextsAt(edits, p) == []
  {
    if edits != [] {
      NoTextsAt(edits[1..], p);
    }
  }

  lemma {:induction false} OneTextAt<T>(edits: seq<Splice<T>>, k: nat)
    requires k < |edits| && forall i :: 0 <= i < |edits| && i != k ==> edits[i].at != edits[k].at
    ensures TextsAt(edits, edits[k].at) == edits[k].text
  {
    if k > 0 {
      assert forall i :: 1 <= i < |edits| ==> edits[i] == edits[1..][i - 1];
      OneTextAt(edits[1..], k - 1);
    } else {
      NoTextsAt(edits[1..], edits[k].at);
    }
  }

  /** Positions that no edit touches are copied. */
  lemma {:induction false} UntouchedWindow<T>(s: seq<T>, edits: seq<Splice<T>>, a: nat, b: nat)
    requires a <= b <= |s|
    requires forall i :: 0 <= i < |edits| ==> edits[i].length > 0 && (edits[i].End() <= a || b <= edits[i].at)
    ensures Window(s, edits, a, b) == s[a..b]
    decreases b - a
  {
    if a < b {
      NoTextsAt(edits, a);
      UntouchedWindow(s, edits, a + 1, b);
      assert s[a..b] == [s[a]] + s[a + 1..b];
    }
  }

  /** Positions inside an edit, behind its start, vanish. */
  lemma {:induction false} CoveredWindow<T>(s: seq<T>, edits: seq<Splice<T>>, k: nat, a: nat)
    requires k < |edits| && edits[k].at < a <= edits[k].End() <= |s|
    requires forall i :: 0 <= i < |edits| ==> edits[i].length > 0
    requires forall i, j :: 0 <= i < j < |edits| ==> edits[i].End() <= edits[j].at
    ensures Window(s, edits, a, edits[k].End()) == []
    decreases edits[k].End() - a
  {
    if a < edits[k].End() {
      NoTextsAt(edits, a);
      CoveredWindow(s, edits, k, a + 1);
    }
  }

  predicate NonEmpty<T>(edits: seq<Splice<T>>) {
    forall i :: 0 <= i < |edits| ==> edits[i].length > 0
  }

  /** An edit puts its text where it starts. */
  lemma {:induction false} EditWindow<T>(s: seq<T>, edits: seq<Splice<T>>, k: nat)
    requires k < |edits| && edits[k].End() <= |s| && NonEmpty(edits)
    requires forall i, j :: 0 <= i < j < |edits| ==> edits[i].End() <= edits[j].at
    ensures Window(s, edits, edits[k].at, edits[k].End()) == edits[k].text
  {
    OneTextAt(edits, k);
    CoveredWindow(s, edits, k, edits[k].at + 1);
  }

  /** Up to the next edit the positions are copied, and the edit puts its text. */
  lemma {:induction false} NextEditWindow<T>(s: seq<T>, edits: seq<Splice<T>>, k: nat, from: nat)
    requires Ordered(edits, 0, |s|) && NonEmpty(edits) && k < |edits|
    requires (k > 0 ==> edits[k - 1].End() <= from) && from <= edits[k].at
    ensures edits[k].End() <= |s|
    ensures Window(s, edits, from, |s|) == s[from..edits[k].at] + edits[k].text + Window(s, edits, edits[k].End(), |s|)
  {
    OrderedBounds(edits, 0, |s|);
    UntouchedWindow(s, edits, from, edits[k].at);
    EditWindow(s, edits, k);
    WindowSplits(s, edits, from, edits[k].at, |s|);
    WindowSplits(s, edits, edits[k].at, edits[k].End(), |s|);
  }

  /** The pass from the left over the remaining edits is the position-by-position reading. */
  lemma {:induction false} RebuildIsWindow<T>(s: seq<T>, edits: seq<Splice<T>>, k: nat, from: nat)
    requires Ordered(edits, 0, |s|) && NonEmpty(edits) && k <= |edits|
    requires Ordered(edits[k..], from, |s|) && (k > 0 ==> edits[k - 1].End() <= from)
    ensures from <= |s| && Rebuild(s, edits[k..], from) == Window(s, edits, from, |s|)
    decreases |edits| - k
  {
    OrderedBounds(edits[k..], from, |s|);
    if k == |edits| {
      OrderedBounds(edits, 0, |s|);
      UntouchedWindow(s, edits, from, |s|);
    } else {
      assert edits[k..][1..] == edits[k + 1..];
      NextEditWindow(s, edits, k, from);
      hide Window;
      RebuildIsWindow(s, edits, k + 1, edits[k].End());
    }
  }

  // ---------------------------------------------------------------- order

  /** Insert an edit behind those that start no later. */
  function Place<T(==)>(edits: seq<Splice<T>>, edit: Splice<T>): seq<Splice<T>> {
    if edits == [] then [edit]
    else if edits[|edits| - 1].at <= edit.at then edits + [edit]
    else Place(edits[..|edits| - 1], edit) + [edits[|edits| - 1]]
  }

  /** The edits by position; equal positions keep their order. */
  function Ascending<T(==)>(edits: seq<Splice<T>>): seq<Splice<T>> {
    if edits == [] then [] else Place(Ascending(edits[..|edits| - 1]), edits[|edits| - 1])
  }

  predicate Separate<T(==)>(a: Splice<T>, b: Splice<T>) {
    a.End() <= b.at || b.End() <= a.at
  }

  /** No replacement occurs twice, and no two of them overlap. */
  ghost predicate Disjoint<T>(edits: multiset<Splice<T>>) {
    && (forall a :: a in edits ==> edits[a] == 1 && a.length > 0)
    && (forall a, b :: a in edits && b in edits && a != b ==> Separate(a, b))
  }

  predicate Sorted<T(==)>(edits: seq<Splice<T>>) {
    forall i, j :: 0 <= i < j < |edits| ==> edits[i].at <= edits[j].at
  }

  lemma {:induction false} PlaceKeepsAll<T>(edits: seq<Splice<T>>, edit: Splice<T>)
    ensures multiset(Place(edits, edit)) == multiset(edits) + multiset{edit}
  {
    if edits != [] && edits[|edits| - 1].at > edit.at {
      var front, last := edits[..|edits| - 1], edits[|edits| - 1];
      PlaceKeepsAll(front, edit);
      assert multiset(edits) == multiset(front) + multiset{last} by { assert edits == front + [last]; }
      assert multiset(Place(front, edit) + [last]) == multiset(Place(front, edit)) + multiset{last};
    }
  }

  lemma {:induction false} PlaceSorts<T>(edits: seq<Splice<T>>, edit: Splice<T>)
    requires Sorted(edits)
    ensures Sorted(Place(edits, edit))
  {
    if edits != [] && edits[|edits| - 1].at > edit.at {
      var front, last := edits[..|edits| - 1], edits[|edits| - 1];
      PlaceSorts(front, edit);
      var placed := Place(front, edit);
      PlaceKeepsAll(front, edit);
      forall i | 0 <= i < |placed| ensures placed[i].at <= last.at {
        assert placed[i] in multiset(placed);
        assert placed[i] == edit || placed[i] in front;
      }
      hide Place;
      assert Sorted(placed + [last]);
    }
  }

  lemma {:induction false} AscendingKeepsAll<T>(edits: seq<Splice<T>>)
    ensures multiset(Ascending(edits)) == multiset(edits)
  {
    hide Place;
    if edits != [] {
      var front, last := edits[..|edits| - 1], edits[|edits| - 1];
      AscendingKeepsAll(front);
      PlaceKeepsAll(Ascending(front), last);
      assert edits == front + [last];
      assert multiset(front + [last]) == multiset(front) + multiset{last};
      assert Ascending(edits) == Place(Ascending(front), last);
    }
  }

  /** Sorting loses nothing, adds nothing and puts the positions in order. */
  lemma {:induction false} AscendingSorts<T>(edits: seq<Splice<T>>)
    ensures Sorted(Ascending(edits)) && multiset(Ascending(edits)) == multiset(edits)
  {
    AscendingKeepsAll(edits);
    if edits != [] {
      AscendingSorts(edits[..|edits| - 1]);
      PlaceSorts(Ascending(edits[..|edits| - 1]), edits[|edits| - 1]);
    }
  }

  lemma {:induction false} TwiceInMultiset<T>(edits: seq<Splice<T>>, i: nat, j: nat)
    requires i < j < |edits| && edits[i] == edits[j]
    ensures multiset(edits)[edits[i]] >= 2
  {
    assert edits == edits[..i] + [edits[i]] + edits[i + 1..j] + [edits[j]] + edits[j + 1..];
  }

  /** Sorted disjoint replacements follow one another. */
  lemma {:induction false} AscendingIsOrdered<T>(edits: seq<Splice<T>>, to: nat)
    requires Disjoint(multiset(edits)) && forall e :: e in edits ==> e.End() <= to
    ensures Ordered(Ascending(edits), 0, to) && NonEmpty(Ascending(edits))
    ensures forall e :: e in Ascending(edits) <==> e in edits
  {
    AscendingSorts(edits);
    var sorted := Ascending(edits);
    forall e ensures e in sorted <==> e in edits {
      assert e in multiset(sorted) <==> e in sorted;
      assert e in multiset(edits) <==> e in edits;
    }
    forall i, j | 0 <= i < j < |sorted| ensures sorted[i].End() <= sorted[j].at {
      assert sorted[i] in multiset(edits) && sorted[j] in multiset(edits);
      if sorted[i] == sorted[j] {
        TwiceInMultiset(sorted, i, j);
      }
    }
    forall i | 0 <= i < |sorted| ensures 0 <= sorted[i].at && sorted[i].End() <= to && sorted[i].length > 0 {
      assert sorted[i] in sorted && sorted[i] in multiset(edits);
    }
    OrderedFromBounds(sorted, 0, to);
  }

  lemma {:induction false} SameOrderedList<T>(a: seq<Splice<T>>, b: seq<Splice<T>>, from: nat, to: nat)
    requires Ordered(a, from, to) && Ordered(b, from, to) && NonEmpty(a) && NonEmpty(b)
    requires forall e :: e in a <==> e in b
    ensures a == b
  {
    OrderedBounds(a, from, to);
    OrderedBounds(b, from, to);
    assert |b| == 0 || b[0] in b;
    assert |a| == 0 || a[0] in a;
    if a != [] {
      assert a[0] == b[0];
      forall e ensures e in a[1..] <==> e in b[1..] {
        if e in a[1..] { assert e in a && e.at >= a[0].End(); }
        if e in b[1..] { assert e in b && e.at >= b[0].End(); }
      }
      SameOrderedList(a[1..], b[1..], a[0].End(), to);
      assert a == [a[0]] + a[1..] && b == [b[0]] + b[1..];
    }
  }

  ghost function Bound<T>(edits: seq<Splice<T>>): (to: nat)
    ensures forall e :: e in edits ==> e.End() <= to
  {
    if edits == [] then 0 else
    assert edits == [edits[0]] + edits[1..];
    var rest := Bound(edits[1..]);
    if rest < edits[0].End() then edits[0].End() else rest
  }

  /** The listing of disjoint replacements does not matter. */
  lemma {:induction false} AscendingIgnoresListing<T>(a: seq<Splice<T>>, b: seq<Splice<T>>)
    requires multiset(a) == multiset(b) && Disjoint(multiset(a))
    ensures Ascending(a) == Ascending(b)
  {
    var to := Bound(a);
    forall e ensures e in a <==> e in b {
      assert e in a <==> e in multiset(a);
      assert e in b <==> e in multiset(b);
    }
    AscendingIsOrdered(a, to);
    AscendingIsOrdered(b, to);
    SameOrderedList(Ascending(a), Ascending(b), 0, to);
  }
}
