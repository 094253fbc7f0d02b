/** Scans that pick values out of a list, in its order. */
module Scans {
  import opened Options

  /** What a scan picks out of a list, in its order. */
  function Picked<S, T>(list: seq<S>, pick: S -> Option<T>): seq<T> {
    if list == [] then [] else
    var before, last := Picked(list[..|list| - 1], pick), pick(list[|list| - 1]);
    if last.Some? then before + [last.value] else before
  }

  function Latest<T>(list: seq<T>): Option<T> {
    if list == [] then None else Some(list[|list| - 1])
  }

  function OrElse<T>(found: Option<T>, otherwise: T): T {
    if found.Some? then found.value else otherwise
  }

  lemma {:induction false} PickedSnoc<S, T>(list: seq<S>, x: S, pick: S -> Option<T>)
    ensures Picked(list + [x], pick)
         == if pick(x).Some? then Picked(list, pick) + [pick(x).value] else Picked(list, pick)
  {
    assert (list + [x])[..|list|] == list;
  }

  lemma {:induction false} PickedConcat<S, T>(a: seq<S>, b: seq<S>, pick: S -> Option<T>)
    ensures Picked(a + b, pick) == Picked(a, pick) + Picked(b, pick)
  {
    if b == [] {
      assert a + b == a;
    } else {
      var front, last := b[..|b| - 1], b[|b| - 1];
      assert a + b == (a + front) + [last] && b == front + [last];
      hide Picked;
      PickedConcat(a, front, pick);
      PickedSnoc(a + front, last, pick);
      PickedSnoc(front, last, pick);
      if pick(last).Some? {
        assert Picked(a, pick) + Picked(front, pick) + [pick(last).value]
            == Picked(a, pick) + (Picked(front, pick) + [pick(last).value]);
      }
    }
  }
}
