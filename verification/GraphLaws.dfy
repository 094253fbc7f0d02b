/**
 The wave scheduler is sound, complete, of least depth and independent of the order in which the
 nodes are listed.
 */
module GraphLaws {
  import opened Options
  import opened AdvisorGraph

  // ---------------------------------------------------------------- layers

  ghost predicate SomewhereBelow(layers: seq<set<string>>, i: nat, d: string) {
    exists j :: 0 <= j < i && j < |layers| && d in layers[j]
  }

  ghost predicate DependsInto(g: Graph, n: string, layer: set<string>) {
    n in g && exists d :: d in g[n] && d in layer
  }

  /** The layers are non-empty, disjoint, and hold exactly the open nodes. */
  ghost predicate Partition(g: Graph, completed: set<string>, layers: seq<set<string>>) {
    && (forall i :: 0 <= i < |layers| ==> layers[i] != {} && layers[i] <= g.Keys - completed)
    && (forall i, j :: 0 <= i < j < |layers| ==> layers[i] !! layers[j])
    && (forall n :: n in g && n !in completed ==> SomewhereBelow(layers, |layers|, n))
  }

  ghost predicate DependsDown(g: Graph, completed: set<string>, layers: seq<set<string>>) {
    forall i, n, d :: 0 <= i < |layers| && n in layers[i] && n in g && d in g[n] ==>
      d in completed || SomewhereBelow(layers, i, d)
  }

  ghost predicate DependsOnPrevious(g: Graph, layers: seq<set<string>>) {
    forall i, n :: 1 <= i < |layers| && n in layers[i] ==> DependsInto(g, n, layers[i - 1])
  }

  /** Every open node is in exactly one layer, just after the last of its dependencies. */
  ghost predicate Layered(g: Graph, completed: set<string>, layers: seq<set<string>>) {
    Partition(g, completed, layers) && DependsDown(g, completed, layers) && DependsOnPrevious(g, layers)
  }

  lemma {:induction false} ShiftBelow(ready: set<string>, rest: seq<set<string>>, i: nat, d: string)
    requires i <= |rest|
    ensures SomewhereBelow([ready] + rest, i + 1, d) <==> d in ready || SomewhereBelow(rest, i, d)
  {
    var layers := [ready] + rest;
    assert layers[0] == ready;
    if SomewhereBelow(layers, i + 1, d) && d !in ready {
      var j :| 0 <= j < i + 1 && d in layers[j];
      assert d in rest[j - 1];
    }
    if SomewhereBelow(rest, i, d) {
      var j :| 0 <= j < i && d in rest[j];
      assert d in layers[j + 1];
    }
  }

  lemma {:induction false} PartitionCons(g: Graph, completed: set<string>, rest: seq<set<string>>)
    requires ReadySet(g, completed) != {} && Partition(g, completed + ReadySet(g, completed), rest)
    ensures Partition(g, completed, [ReadySet(g, completed)] + rest)
  {
    hide SomewhereBelow;
    var ready := ReadySet(g, completed);
    var layers := [ready] + rest;
    forall n | n in g && n !in completed ensures SomewhereBelow(layers, |layers|, n) {
      ShiftBelow(ready, rest, |rest|, n);
    }
  }

  lemma {:induction false} DependsDownCons(g: Graph, completed: set<string>, rest: seq<set<string>>)
    requires DependsDown(g, completed + ReadySet(g, completed), rest)
    ensures DependsDown(g, completed, [ReadySet(g, completed)] + rest)
  {
    hide SomewhereBelow;
    var ready := ReadySet(g, completed);
    var layers := [ready] + rest;
    forall i, n, d | 0 <= i < |layers| && n in layers[i] && n in g && d in g[n]
      ensures d in completed || SomewhereBelow(layers, i, d)
    {
      if i > 0 {
        assert n in rest[i - 1];
        ShiftBelow(ready, rest, i - 1, d);
      }
    }
  }

  /** A node of the next layer was kept back by a dependency that has just become ready. */
  lemma {:induction false} KeptBack(g: Graph, completed: set<string>, rest: seq<set<string>>, n: string)
    requires var later := completed + ReadySet(g, completed);
             Partition(g, later, rest) && DependsDown(g, later, rest)
    requires rest != [] && n in rest[0]
    ensures DependsInto(g, n, ReadySet(g, completed))
  {
    var ready := ReadySet(g, completed);
    assert n in g && n !in completed && n !in ready;
    var d :| d in g[n] && d !in completed;
    assert d in completed + ready || SomewhereBelow(rest, 0, d);
  }

  lemma {:induction false} DependsOnPreviousCons(g: Graph, completed: set<string>, rest: seq<set<string>>)
    requires Layered(g, completed + ReadySet(g, completed), rest)
    ensures DependsOnPrevious(g, [ReadySet(g, completed)] + rest)
  {
    hide DependsInto, SomewhereBelow, ReadySet, Partition, DependsDown;
    var ready := ReadySet(g, completed);
    var layers := [ready] + rest;
    forall i, n | 1 <= i < |layers| && n in layers[i] ensures DependsInto(g, n, layers[i - 1]) {
      assert n in rest[i - 1];
      if i == 1 {
        KeptBack(g, completed, rest, n);
      } else {
        assert DependsInto(g, n, rest[i - 2]);
      }
    }
  }

  lemma {:induction false} LayeredCons(g: Graph, completed: set<string>, rest: seq<set<string>>)
    requires ReadySet(g, completed) != {} && Layered(g, completed + ReadySet(g, completed), rest)
    ensures Layered(g, completed, [ReadySet(g, completed)] + rest)
  {
    hide Partition, DependsDown, DependsOnPrevious, ReadySet;
    PartitionCons(g, completed, rest);
    DependsDownCons(g, completed, rest);
    DependsOnPreviousCons(g, completed, rest);
  }

  lemma {:induction false} LayersAreLayered(g: Graph, completed: set<string>)
    requires Layers(g, completed).Some?
    ensures Layered(g, completed, Layers(g, completed).value)
    decreases |g.Keys - completed|
  {
    hide Layered;
    if g.Keys <= completed {
      NothingOpen(g, completed);
    } else {
      var ready := ReadySet(g, completed);
      OpenShrinks(g, completed);
      LayersAreLayered(g, completed + ready);
      LayeredCons(g, completed, Layers(g, completed + ready).value);
    }
  }

  lemma {:induction false} NothingOpen(g: Graph, completed: set<string>)
    requires g.Keys <= completed
    ensures Layered(g, completed, [])
  {
  }

  lemma {:induction false} OpenShrinks(g: Graph, completed: set<string>)
    requires ReadySet(g, completed) != {}
    ensures |g.Keys - (completed + ReadySet(g, completed))| < |g.Keys - completed|
  {
    var n :| n in ReadySet(g, completed);
    assert n in g.Keys - completed;
    SmallerSet(g.Keys - (completed + ReadySet(g, completed)), g.Keys - completed);
  }

  // ---------------------------------------------------------------- soundness

  function Flat(waves: seq<seq<string>>): seq<string> {
    if waves == [] then [] else waves[0] + Flat(waves[1..])
  }

  ghost predicate DependenciesEarlier(g: Graph, completed: set<string>, waves: seq<seq<string>>) {
    forall i, n, d :: 0 <= i < |waves| && n in waves[i] && n in g && d in g[n] ==>
      d in completed || exists j :: 0 <= j < i && d in waves[j]
  }

  /** Every node once, waves of size 1..width, every dependency in a strictly earlier wave. */
  ghost predicate Sound(g: Graph, waves: seq<seq<string>>, width: nat) {
    && Distinct(Flat(waves)) && Elements(Flat(waves)) == g.Keys
    && (forall w :: w in waves ==> 1 <= |w| <= width)
    && DependenciesEarlier(g, {}, waves)
  }

  lemma {:induction false} FlatConcat(a: seq<seq<string>>, b: seq<seq<string>>)
    ensures Flat(a + b) == Flat(a) + Flat(b)
  {
    if a == [] {
      assert a + b == b;
    } else {
      assert (a + b)[1..] == a[1..] + b;
      FlatConcat(a[1..], b);
    }
  }

  lemma {:induction false} FlatChunks(s: seq<string>, width: nat)
    requires width >= 1
    ensures Flat(Chunks(s, width)) == s
    decreases |s|
  {
    if |s| > width {
      var rest := Chunks(s[width..], width);
      assert ([s[..width]] + rest)[1..] == rest;
      FlatChunks(s[width..], width);
    } else if s != [] {
      assert [s][1..] == [];
    }
  }

  lemma {:induction false} FlatMember(waves: seq<seq<string>>, n: string)
    ensures n in Flat(waves) <==> exists i :: 0 <= i < |waves| && n in waves[i]
  {
    if waves != [] {
      FlatMember(waves[1..], n);
      if n in Flat(waves[1..]) {
        var i :| 0 <= i < |waves[1..]| && n in waves[1..][i];
        assert n in waves[i + 1];
      }
      if exists i :: 0 <= i < |waves| && n in waves[i] {
        var i :| 0 <= i < |waves| && n in waves[i];
        if i > 0 { assert n in waves[1..][i - 1]; }
      }
    }
  }

  lemma {:induction false} SortedIsDistinct(s: set<string>, leq: (string, string) -> bool)
    requires TotalOrder(leq)
    ensures Distinct(SortedOf(s, leq))
    decreases |s|
  {
    hide TotalOrder;
    if s != {} {
      var m := Least(s, leq);
      var rest := SortedOf(s - {m}, leq);
      SortedIsDistinct(s - {m}, leq);
      assert m !in Elements(rest);
      assert SortedOf(s, leq) == [m] + rest;
      hide SortedOf;
      PrependDistinct(m, rest);
    }
  }

  lemma {:induction false} PrependDistinct(m: string, rest: seq<string>)
    requires Distinct(rest) && m !in Elements(rest)
    ensures Distinct([m] + rest)
  {
    assert forall i :: 0 <= i < |rest| ==> rest[i] in Elements(rest);
  }

  lemma {:induction false} DistinctConcat(a: seq<string>, b: seq<string>)
    requires Distinct(a) && Distinct(b) && Elements(a) !! Elements(b)
    ensures Distinct(a + b)
  {
    forall i, j | 0 <= i < |a| && 0 <= j < |b| ensures a[i] != b[j] {
      assert a[i] in Elements(a) && b[j] in Elements(b);
    }
  }

  function Union(layers: seq<set<string>>): set<string> {
    if layers == [] then {} else layers[0] + Union(layers[1..])
  }

  lemma {:induction false} UnionMember(layers: seq<set<string>>, n: string)
    ensures n in Union(layers) <==> exists i :: 0 <= i < |layers| && n in layers[i]
  {
    if layers != [] {
      UnionMember(layers[1..], n);
      if n in Union(layers[1..]) {
        var i :| 0 <= i < |layers[1..]| && n in layers[1..][i];
        assert n in layers[i + 1];
      }
      if exists i :: 0 <= i < |layers| && n in layers[i] {
        var i :| 0 <= i < |layers| && n in layers[i];
        if i > 0 { assert n in layers[1..][i - 1]; }
      }
    }
  }

  /** The waves of disjoint layers list every member once. */
  lemma {:induction false} ChunksCover(layers: seq<set<string>>, width: nat, leq: (string, string) -> bool)
    requires width >= 1 && TotalOrder(leq)
    requires forall i, j :: 0 <= i < j < |layers| ==> layers[i] !! layers[j]
    ensures var waves := ChunkAll(layers, width, leq);
            && Elements(Flat(waves)) == Union(layers) && Distinct(Flat(waves))
            && forall w :: w in waves ==> 1 <= |w| <= width
  {
    hide TotalOrder, SortedOf, Chunks, Distinct;
    if layers == [] {
      assert Distinct([]) by { NothingTwice(); }
    } else {
      var sorted := SortedOf(layers[0], leq);
      var first, rest := Chunks(sorted, width), ChunkAll(layers[1..], width, leq);
      ChunksCover(layers[1..], width, leq);
      FlatConcat(first, rest);
      FlatChunks(sorted, width);
      SortedIsDistinct(layers[0], leq);
      assert layers[0] !! Union(layers[1..]) by {
        forall n | n in Union(layers[1..]) ensures n !in layers[0] {
          UnionMember(layers[1..], n);
        }
      }
      DistinctConcat(sorted, Flat(rest));
      ElementsConcat(sorted, Flat(rest));
    }
  }

  lemma {:induction false} NothingTwice()
    ensures Distinct([])
  {
  }

  lemma {:induction false} ReadyHasAll(g: Graph, completed: set<string>, n: string, d: string)
    requires n in ReadySet(g, completed) && n in g && d in g[n]
    ensures d in completed
  {
  }

  lemma {:induction false} DependsCons(g: Graph, completed: set<string>, first: seq<seq<string>>,
                                       rest: seq<seq<string>>)
    requires Elements(Flat(first)) == ReadySet(g, completed)
    requires DependenciesEarlier(g, completed + ReadySet(g, completed), rest)
    ensures DependenciesEarlier(g, completed, first + rest)
  {
    hide ReadySet, Flat;
    var ready := ReadySet(g, completed);
    var waves := first + rest;
    forall i, n, d | 0 <= i < |waves| && n in waves[i] && n in g && d in g[n]
      ensures d in completed || exists j :: 0 <= j < i && d in waves[j]
    {
      if i < |first| {
        FlatMember(first, n);
        assert n in Elements(Flat(first));
        ReadyHasAll(g, completed, n, d);
      } else if d !in completed {
        var k := i - |first|;
        assert n in rest[k];
        if d in ready {
          assert d in Elements(Flat(first));
          FlatMember(first, d);
          var j :| 0 <= j < |first| && d in first[j];
          assert d in waves[j];
        } else {
          assert d in completed + ready || exists j :: 0 <= j < k && d in rest[j];
          var j :| 0 <= j < k && d in rest[j];
          assert d in waves[j + |first|];
        }
      }
    }
  }

  /** Dependencies of one layer lie in completed nodes or in the waves of earlier layers. */
  lemma {:induction false} ChunksRespectDependencies(g: Graph, completed: set<string>, width: nat,
                                                     leq: (string, string) -> bool)
    requires width >= 1 && TotalOrder(leq) && Layers(g, completed).Some?
    ensures DependenciesEarlier(g, completed, ChunkAll(Layers(g, completed).value, width, leq))
    decreases |g.Keys - completed|
  {
    hide TotalOrder, SortedOf, Chunks, ReadySet, Flat, DependenciesEarlier;
    if g.Keys <= completed {
      NoWaves(g, completed);
    } else {
      var ready := ReadySet(g, completed);
      var later := Layers(g, completed + ready).value;
      var first, rest := Chunks(SortedOf(ready, leq), width), ChunkAll(later, width, leq);
      assert Layers(g, completed).value[1..] == later;
      OpenShrinks(g, completed);
      ChunksRespectDependencies(g, completed + ready, width, leq);
      FlatChunks(SortedOf(ready, leq), width);
      DependsCons(g, completed, first, rest);
    }
  }

  lemma {:induction false} NoWaves(g: Graph, completed: set<string>)
    ensures DependenciesEarlier(g, completed, [])
  {
  }

  lemma {:induction false} UnionIsAll(g: Graph, layers: seq<set<string>>)
    requires Partition(g, {}, layers)
    ensures Union(layers) == g.Keys
  {
    hide Union;
    forall n ensures n in Union(layers) <==> n in g {
      UnionMember(layers, n);
      if n in g { assert SomewhereBelow(layers, |layers|, n); }
    }
  }

  /** Whenever the scheduler answers, its waves list every node once, fit the width and respect dependencies. */
  lemma {:induction false} ScheduleIsSound(g: Graph, width: nat, leq: (string, string) -> bool)
    requires width >= 1 && TotalOrder(leq) && Schedule(g, width, leq).Waves?
    ensures Sound(g, Schedule(g, width, leq).waves, width)
  {
    hide TotalOrder, ChunkAll, Distinct, DependsDown, DependsOnPrevious, SomewhereBelow, DependenciesEarlier, Layers;
    var layers := Layers(g, {}).value;
    LayersAreLayered(g, {});
    ChunksCover(layers, width, leq);
    ChunksRespectDependencies(g, {}, width, leq);
    UnionIsAll(g, layers);
  }

  // ---------------------------------------------------------------- completeness

  /** A path that follows dependencies. */
  ghost predicate IsChain(g: Graph, p: seq<string>) {
    && p != [] && (forall i :: 0 <= i < |p| ==> p[i] in g)
    && forall i :: 0 <= i < |p| - 1 ==> p[i + 1] in g[p[i]]
  }

  ghost predicate HasCycle(g: Graph) {
    exists p :: IsChain(g, p) && p[0] in g[p[|p| - 1]]
  }

  lemma {:induction false} DistinctFits(p: seq<string>, s: set<string>)
    requires Distinct(p) && Elements(p) <= s
    ensures |p| <= |s|
    decreases |p|
  {
    if p != [] {
      TailElements(p);
      DistinctFits(p[1..], s - {p[0]});
    }
  }

  /** In a set where every node depends on another of the set, any walk runs into itself. */
  lemma {:induction false} StuckHasCycle(g: Graph, stuck: set<string>, p: seq<string>)
    requires stuck <= g.Keys && IsChain(g, p) && Distinct(p) && Elements(p) <= stuck
    requires forall n :: n in stuck ==> exists d :: d in g[n] && d in stuck
    ensures HasCycle(g)
    decreases |stuck| - |p|
  {
    hide Distinct;
    DistinctFits(p, stuck);
    var last := p[|p| - 1];
    assert last in Elements(p);
    var d :| d in g[last] && d in stuck;
    if d in p {
      LoopIsCycle(g, p, d);
    } else {
      var longer := p + [d];
      assert Distinct(longer) by { AppendDistinct(p, d); }
      assert Elements(longer) == Elements(p) + {d};
      LongerIsChain(g, p, d);
      hide IsChain, HasCycle;
      DistinctFits(longer, stuck);
      StuckHasCycle(g, stuck, longer);
    }
  }

  lemma {:induction false} LoopIsCycle(g: Graph, p: seq<string>, d: string)
    requires IsChain(g, p) && d in p && p[|p| - 1] in g && d in g[p[|p| - 1]]
    ensures HasCycle(g)
  {
    var i :| 0 <= i < |p| && p[i] == d;
    var loop := p[i..];
    assert IsChain(g, loop) && loop[0] in g[loop[|loop| - 1]];
  }

  lemma {:induction false} LongerIsChain(g: Graph, p: seq<string>, d: string)
    requires IsChain(g, p) && d in g && p[|p| - 1] in g && d in g[p[|p| - 1]]
    ensures IsChain(g, p + [d])
  {
  }

  lemma {:induction false} AppendDistinct(p: seq<string>, d: string)
    requires Distinct(p) && d !in p
    ensures Distinct(p + [d])
  {
  }

  lemma {:induction false} FailureMeansCycle(g: Graph, completed: set<string>)
    requires Closed(g) && Layers(g, completed).None?
    ensures HasCycle(g)
    decreases |g.Keys - completed|
  {
    hide HasCycle;
    var ready := ReadySet(g, completed);
    if ready != {} {
      OpenShrinks(g, completed);
      FailureMeansCycle(g, completed + ready);
    } else {
      var stuck := g.Keys - completed;
      var n :| n in g.Keys && n !in completed;
      forall m | m in stuck ensures exists d :: d in g[m] && d in stuck {
        assert m !in ready;
        var d :| d in g[m] && d !in completed;
        assert d in stuck;
      }
      StuckHasCycle(g, stuck, [n]);
    }
  }

  lemma {:induction false} LayerOf(g: Graph, layers: seq<set<string>>, n: string) returns (i: nat)
    requires Layered(g, {}, layers) && n in g
    ensures i < |layers| && n in layers[i]
  {
    hide DependsDown, DependsOnPrevious;
    assert SomewhereBelow(layers, |layers|, n);
    i :| 0 <= i < |layers| && n in layers[i];
  }

  lemma {:induction false} Apart(g: Graph, layers: seq<set<string>>, i: nat, j: nat)
    requires Layered(g, {}, layers) && i < j < |layers|
    ensures layers[i] !! layers[j]
  {
    hide DependsDown, DependsOnPrevious, SomewhereBelow;
  }

  lemma {:induction false} OneLayer(g: Graph, layers: seq<set<string>>, n: string, i: nat, j: nat)
    requires Layered(g, {}, layers) && i < |layers| && j < |layers| && n in layers[i] && n in layers[j]
    ensures i == j
  {
    hide Layered;
    if i < j {
      Apart(g, layers, i, j);
    } else if j < i {
      Apart(g, layers, j, i);
    }
  }

  lemma {:induction false} LayerBelow(g: Graph, layers: seq<set<string>>, n: string, i: nat, d: string) returns (j: nat)
    requires Layered(g, {}, layers) && i < |layers| && n in layers[i] && n in g && d in g[n]
    ensures j < i && d in layers[j]
  {
    hide Partition, DependsOnPrevious;
    assert SomewhereBelow(layers, i, d);
    j :| 0 <= j < i && d in layers[j];
  }

  /** Along a chain the layer falls by at least one per step. */
  lemma {:induction false} RankFalls(g: Graph, layers: seq<set<string>>, p: seq<string>, a: nat, b: nat, ra: nat,
                                     rb: nat)
    requires Layered(g, {}, layers) && IsChain(g, p) && a <= b < |p|
    requires ra < |layers| && rb < |layers| && p[a] in layers[ra] && p[b] in layers[rb]
    ensures rb + (b - a) <= ra
    decreases b - a
  {
    hide Layered;
    if a == b {
      OneLayer(g, layers, p[a], ra, rb);
    } else {
      assert p[a + 1] in g[p[a]];
      var r := LayerBelow(g, layers, p[a], ra, p[a + 1]);
      RankFalls(g, layers, p, a + 1, b, r, rb);
    }
  }

  lemma {:induction false} LayeredIsAcyclic(g: Graph, layers: seq<set<string>>, p: seq<string>)
    requires Layered(g, {}, layers) && IsChain(g, p)
    ensures p[0] !in g[p[|p| - 1]]
  {
    hide Layered;
    var last := |p| - 1;
    if p[0] in g[p[last]] {
      var r0 := LayerOf(g, layers, p[0]);
      var rl := LayerOf(g, layers, p[last]);
      RankFalls(g, layers, p, 0, last, r0, rl);
      var r := LayerBelow(g, layers, p[last], rl, p[0]);
      OneLayer(g, layers, p[0], r, r0);
    }
  }

  lemma {:induction false} CycleMeansFailure(g: Graph)
    requires HasCycle(g)
    ensures Layers(g, {}).None?
  {
    hide Layers, Layered;
    if Layers(g, {}).Some? {
      LayersAreLayered(g, {});
      var p :| IsChain(g, p) && p[0] in g[p[|p| - 1]];
      LayeredIsAcyclic(g, Layers(g, {}).value, p);
    }
  }

  /** The scheduler fails exactly on cyclic dependencies. */
  lemma {:induction false} ScheduleFailsIffCyclic(g: Graph, width: nat, leq: (string, string) -> bool)
    requires width >= 1 && TotalOrder(leq) && Closed(g)
    ensures Schedule(g, width, leq) == Cycle <==> HasCycle(g)
  {
    hide TotalOrder, HasCycle, Closed;
    if HasCycle(g) {
      CycleMeansFailure(g);
    } else if Layers(g, {}).None? {
      FailureMeansCycle(g, {});
    }
  }

  // ---------------------------------------------------------------- depth

  ghost predicate ChainFrom(g: Graph, p: seq<string>, n: string) {
    IsChain(g, p) && p[0] == n
  }

  /** The longest dependency chain from a node has k nodes. */
  ghost predicate LongestChain(g: Graph, n: string, k: nat) {
    && (exists p :: ChainFrom(g, p, n) && |p| == k)
    && (forall p :: ChainFrom(g, p, n) ==> |p| <= k)
  }

  /** From a node of layer k there is a dependency chain of k + 1 nodes. */
  lemma {:induction false} ChainDown(g: Graph, layers: seq<set<string>>, n: string, k: nat) returns (p: seq<string>)
    requires Layered(g, {}, layers) && k < |layers| && n in layers[k]
    ensures ChainFrom(g, p, n) && |p| == k + 1
    decreases k
  {
    hide DependsDown, SomewhereBelow;
    assert n in layers[k] && layers[k] <= g.Keys;
    if k == 0 {
      p := [n];
    } else {
      assert DependsInto(g, n, layers[k - 1]);
      var d :| d in g[n] && d in layers[k - 1];
      var rest := ChainDown(g, layers, d, k - 1);
      p := [n] + rest;
    }
  }

  /** The layer of a node is the length of its longest dependency chain, counted in steps. */
  lemma {:induction false} LayerIsLongestChain(g: Graph, n: string, k: nat)
    requires Layers(g, {}).Some? && k < |Layers(g, {}).value| && n in Layers(g, {}).value[k]
    ensures LongestChain(g, n, k + 1)
  {
    hide Layers, Layered;
    var layers := Layers(g, {}).value;
    LayersAreLayered(g, {});
    var longest := ChainDown(g, layers, n, k);
    assert ChainFrom(g, longest, n) && |longest| == k + 1;
    forall p | ChainFrom(g, p, n) ensures |p| <= k + 1 {
      var r := LayerOf(g, layers, p[|p| - 1]);
      RankFalls(g, layers, p, 0, |p| - 1, k, r);
    }
  }

  /** When nothing limits the width, each wave is one whole layer. */
  lemma {:induction false} WideWavesAreLayers(g: Graph, layers: seq<set<string>>, width: nat,
                                              leq: (string, string) -> bool)
    requires width >= 1 && TotalOrder(leq)
    requires forall i :: 0 <= i < |layers| ==> layers[i] != {} && |layers[i]| <= width
    ensures var waves := ChunkAll(layers, width, leq);
            && |waves| == |layers|
            && forall i :: 0 <= i < |layers| ==> waves[i] == SortedOf(layers[i], leq)
  {
    hide TotalOrder, SortedOf;
    if layers != [] {
      WideWavesAreLayers(g, layers[1..], width, leq);
      var sorted := SortedOf(layers[0], leq);
      assert |sorted| == |layers[0]| && sorted != [];
      var waves := ChunkAll(layers, width, leq);
      assert waves == [sorted] + ChunkAll(layers[1..], width, leq);
      forall i | 0 <= i < |layers| ensures waves[i] == SortedOf(layers[i], leq) {
        if i > 0 { assert layers[i] == layers[1..][i - 1]; }
      }
    }
  }

  lemma {:induction false} LayerFits(g: Graph, layers: seq<set<string>>)
    requires Layered(g, {}, layers)
    ensures forall i :: 0 <= i < |layers| ==> |layers[i]| <= |g|
  {
    hide DependsDown, DependsOnPrevious, SomewhereBelow;
    forall i | 0 <= i < |layers| ensures |layers[i]| <= |g| {
      var layer := layers[i];
      assert layer <= g.Keys;
      if layer != g.Keys { SmallerSet(layer, g.Keys); }
      assert |g.Keys| == |g|;
    }
  }

  lemma {:induction false} EarlierWave(g: Graph, waves: seq<seq<string>>, i: nat, n: string, d: string) returns (j: nat)
    requires DependenciesEarlier(g, {}, waves) && i < |waves| && n in waves[i] && n in g && d in g[n]
    ensures j < i && d in waves[j]
  {
    var none: set<string> := {};
    assert d in none || exists j :: 0 <= j < i && d in waves[j];
    j :| 0 <= j < i && d in waves[j];
  }

  /** The wave index of a node never falls below its distance down a chain. */
  lemma {:induction false} ChainNeedsWaves(g: Graph, waves: seq<seq<string>>, p: seq<string>, i: nat)
    requires IsChain(g, p) && DependenciesEarlier(g, {}, waves) && i < |waves| && p[0] in waves[i]
    ensures i + 1 >= |p|
    decreases |p|
  {
    if |p| > 1 {
      assert p[1] in g[p[0]];
      var j := EarlierWave(g, waves, i, p[0], p[1]);
      var rest := p[1..];
      assert IsChain(g, rest) by {
        assert forall k :: 0 <= k < |rest| ==> rest[k] == p[k + 1];
      }
      ChainNeedsWaves(g, waves, rest, j);
    }
  }

  /** The wave index of each node is its longest chain, and no legal schedule has fewer waves. */
  lemma {:induction false} WideScheduleIsShallowest(g: Graph, width: nat, leq: (string, string) -> bool,
                                                    other: seq<seq<string>>)
    requires width >= 1 && TotalOrder(leq) && width >= |g| && Schedule(g, width, leq).Waves?
    requires Elements(Flat(other)) == g.Keys && DependenciesEarlier(g, {}, other)
    ensures var waves := Schedule(g, width, leq).waves;
            && |waves| <= |other|
            && forall k, n :: 0 <= k < |waves| && n in waves[k] ==> LongestChain(g, n, k + 1)
  {
    hide TotalOrder, IsChain, LongestChain, DependenciesEarlier, Flat, Layers, SortedOf, DependsDown,
         DependsOnPrevious, SomewhereBelow, ChunkAll;
    var layers := Layers(g, {}).value;
    LayersAreLayered(g, {});
    LayerFits(g, layers);
    WideWavesAreLayers(g, layers, width, leq);
    var waves := Schedule(g, width, leq).waves;
    forall k, n | 0 <= k < |waves| && n in waves[k] ensures LongestChain(g, n, k + 1) {
      assert n in Elements(SortedOf(layers[k], leq));
      LayerIsLongestChain(g, n, k);
    }
    if layers != [] {
      var top := |layers| - 1;
      var n :| n in layers[top];
      var p := ChainDown(g, layers, n, top);
      assert n in Elements(Flat(other));
      FlatMember(other, n);
      var i :| 0 <= i < |other| && n in other[i];
      ChainNeedsWaves(g, other, p, i);
    }
  }

  // ---------------------------------------------------------------- canonical form

  lemma {:induction false} PermutationKeepsIds(nodes: seq<GraphNode>, other: seq<GraphNode>)
    requires DistinctIds(nodes) && multiset(nodes) == multiset(other)
    ensures DistinctIds(other)
  {
    forall i, j | 0 <= i < j < |other| ensures other[i].id != other[j].id {
      assert other[i] in multiset(nodes) && other[j] in multiset(nodes);
      assert other[i] in nodes && other[j] in nodes;
      if other[i].id == other[j].id {
        var a :| 0 <= a < |nodes| && nodes[a] == other[i];
        var b :| 0 <= b < |nodes| && nodes[b] == other[j];
        assert other == other[..i] + [other[i]] + other[i + 1..j] + [other[j]] + other[j + 1..];
        assert multiset(other)[other[i]] >= 2;
        NodeOnce(nodes, other[i]);
      }
    }
  }

  lemma {:induction false} NodeOnce(nodes: seq<GraphNode>, n: GraphNode)
    requires DistinctIds(nodes)
    ensures multiset(nodes)[n] <= 1
    ensures n !in nodes ==> multiset(nodes)[n] == 0
  {
    if nodes != [] {
      var rest := nodes[1..];
      assert nodes == [nodes[0]] + rest;
      NodeOnce(rest, n);
      assert nodes[0] !in rest by {
        forall k | 0 <= k < |rest| ensures rest[k] != nodes[0] { assert nodes[k + 1].id != nodes[0].id; }
      }
    }
  }

  /** Listing the nodes in another order changes nothing. */
  lemma {:induction false} ScheduleIgnoresListing(nodes: seq<GraphNode>, other: seq<GraphNode>, width: nat,
                                                 leq: (string, string) -> bool)
    requires width >= 1 && TotalOrder(leq) && DistinctIds(nodes) && multiset(nodes) == multiset(other)
    ensures DistinctIds(other)
    ensures Schedule(GraphOf(other), width, leq) == Schedule(GraphOf(nodes), width, leq)
  {
    hide TotalOrder, Schedule, DistinctIds, GraphOf;
    PermutationKeepsIds(nodes, other);
    GraphIsIndexed(nodes);
    GraphIsIndexed(other);
    assert forall n :: n in nodes <==> n in multiset(nodes);
    assert forall n :: n in other <==> n in multiset(other);
    var g, h := GraphOf(nodes), GraphOf(other);
    forall id | id in g ensures id in h && h[id] == g[id] {
      var j :| 0 <= j < |nodes| && nodes[j].id == id;
      assert nodes[j] in other;
      var k :| 0 <= k < |other| && other[k] == nodes[j];
    }
    forall id | id in h ensures id in g {
      var k :| 0 <= k < |other| && other[k].id == id;
      assert other[k] in nodes;
      var j :| 0 <= j < |nodes| && nodes[j] == other[k];
    }
    assert g == h;
  }

  // ---------------------------------------------------------------- admission

  /** A dependency that admission rejects: on the node itself, or on no node at all. */
  predicate BadDependency(g: Graph, id: string, dependency: string) {
    id in g && dependency in g[id] && (dependency == id || dependency !in g)
  }

  method ValidateDependencies(nodes: seq<GraphNode>) returns (failure: Option<Plan>)
    requires DistinctIds(nodes)
    ensures failure.None? <==> forall id, d :: !BadDependency(GraphOf(nodes), id, d)
    ensures failure.Some? ==>
              match failure.value
              case SelfDependency(id) => BadDependency(GraphOf(nodes), id, id)
              case Missing(id, d) => id != d && BadDependency(GraphOf(nodes), id, d)
              case _ => false
  {
    hide GraphOf, DistinctIds;
    var g := GraphOf(nodes);
    GraphIsIndexed(nodes);
    for i := 0 to |nodes|
      invariant forall j, d :: 0 <= j < i && d in nodes[j].dependsOn ==> !BadDependency(g, nodes[j].id, d)
    {
      var n := nodes[i];
      for k := 0 to |n.dependsOn|
        invariant forall m :: 0 <= m < k ==> !BadDependency(g, n.id, n.dependsOn[m])
      {
        var d := n.dependsOn[k];
        assert n.id in g && d in g[n.id];
        assert BadDependency(g, n.id, d) <==> d == n.id || d !in g;
        if d == n.id { return Some(SelfDependency(n.id)); }
        if d !in g { return Some(Missing(n.id, d)); }
      }
    }
    forall id, d | id in g && d in g[id] ensures !BadDependency(g, id, d) {
      var j :| 0 <= j < |nodes| && nodes[j].id == id;
      assert d in nodes[j].dependsOn;
    }
    failure := None;
  }

  /** Admission of a graph: it is scheduled exactly when it is well formed and acyclic, and then soundly. */
  method PlanGraph(nodes: seq<GraphNode>, maxParallel: nat, leq: (string, string) -> bool) returns (plan: Plan)
    requires TotalOrder(leq) && maxParallel >= 1
    ensures plan.Duplicate? <==> !DistinctIds(nodes)
    ensures plan.SelfDependency? || plan.Missing? <==>
              DistinctIds(nodes) && exists id, d :: BadDependency(GraphOf(nodes), id, d)
    ensures plan == Cycle <==>
              DistinctIds(nodes) && (forall id, d :: !BadDependency(GraphOf(nodes), id, d)) && HasCycle(GraphOf(nodes))
    ensures plan.Waves? ==> Sound(GraphOf(nodes), plan.waves, maxParallel)
  {
    hide TotalOrder, DistinctIds, GraphOf, HasCycle, Schedule, Sound;
    var byId, duplicate := NodeMap(nodes);
    if duplicate.Some? { return Duplicate(duplicate.value); }
    var failure := ValidateDependencies(nodes);
    if failure.Some? { return failure.value; }
    plan := ExecutionWaves(nodes, maxParallel, leq);
    ghost var g := GraphOf(nodes);
    assert Closed(g) by {
      forall n, d | n in g && d in g[n] ensures d in g { assert !BadDependency(g, n, d); }
    }
    ScheduleShape(g, maxParallel, leq);
    ScheduleFailsIffCyclic(g, maxParallel, leq);
    if plan.Waves? { ScheduleIsSound(g, maxParallel, leq); }
  }

  lemma {:induction false} ScheduleShape(g: Graph, width: nat, leq: (string, string) -> bool)
    requires width >= 1 && TotalOrder(leq)
    ensures Schedule(g, width, leq).Waves? || Schedule(g, width, leq) == Cycle
  {
  }
}
