/**
 The wave scheduler of an advisor graph: repeatedly take every node whose dependencies are done,
 in identifier order, and cut that list into waves of at most `maxParallel` nodes. Identifiers are
 compared by an arbitrary total order, which stands for the locale order of the source.
 */
module AdvisorGraph {
  import opened Options

  datatype GraphNode = GraphNode(id: string, dependsOn: seq<string>)

  /** The dependencies of each node. */
  type Graph = map<string, seq<string>>

  datatype Plan =
    | Waves(waves: seq<seq<string>>)
    | Duplicate(id: string)
    | SelfDependency(id: string)
    | Missing(id: string, dependency: string)
    | Cycle

  // ---------------------------------------------------------------- orders

  ghost predicate TotalOrder(leq: (string, string) -> bool) {
    && (forall a, b :: leq(a, b) || leq(b, a))
    && (forall a, b :: leq(a, b) && leq(b, a) ==> a == b)
    && (forall a, b, c :: leq(a, b) && leq(b, c) ==> leq(a, c))
  }

  ghost predicate Ascending(s: seq<string>, leq: (string, string) -> bool) {
    forall i, j :: 0 <= i < j < |s| ==> leq(s[i], s[j])
  }

  predicate Distinct(s: seq<string>) {
    forall i, j :: 0 <= i < j < |s| ==> s[i] != s[j]
  }

  function Elements(s: seq<string>): set<string> {
    set x | x in s
  }

  lemma {:induction false} Compare(leq: (string, string) -> bool, a: string, b: string)
    requires TotalOrder(leq)
    ensures leq(a, b) || leq(b, a)
    ensures leq(a, b) && leq(b, a) ==> a == b
  {
  }

  lemma {:induction false} Chain(leq: (string, string) -> bool, a: string, b: string, c: string)
    requires TotalOrder(leq) && leq(a, b) && leq(b, c)
    ensures leq(a, c)
  {
  }

  lemma {:induction false} LeastExists(s: set<string>, leq: (string, string) -> bool) returns (m: string)
    requires TotalOrder(leq) && s != {}
    ensures m in s && forall x :: x in s ==> leq(m, x)
    decreases |s|
  {
    hide TotalOrder;
    var y :| y in s;
    var rest := s - {y};
    m := y;
    if rest != {} {
      var l := LeastExists(rest, leq);
      Compare(leq, l, y);
      if leq(l, y) { m := l; }
      forall x | x in s ensures leq(m, x) {
        Compare(leq, x, x);
        if x != y && m == y {
          Chain(leq, y, l, x);
        }
      }
    } else {
      assert s == {y};
      Compare(leq, y, y);
    }
  }

  ghost function Least(s: set<string>, leq: (string, string) -> bool): (m: string)
    requires TotalOrder(leq) && s != {}
    ensures m in s && forall x :: x in s ==> leq(m, x)
  {
    assert exists m :: m in s && forall x :: x in s ==> leq(m, x) by { var _ := LeastExists(s, leq); }
    var m :| m in s && forall x :: x in s ==> leq(m, x);
    m
  }

  /** The elements of a set in ascending order. */
  ghost function SortedOf(s: set<string>, leq: (string, string) -> bool): (sorted: seq<string>)
    requires TotalOrder(leq)
    ensures Elements(sorted) == s && |sorted| == |s|
    decreases |s|
  {
    if s == {} then [] else
    var m := Least(s, leq);
    var rest := SortedOf(s - {m}, leq);
    assert s == {m} + (s - {m});
    assert forall x :: x in [m] + rest <==> x == m || x in rest;
    [m] + rest
  }

  lemma {:induction false} TailElements(q: seq<string>)
    requires Distinct(q) && q != []
    ensures Distinct(q[1..]) && Elements(q[1..]) == Elements(q) - {q[0]} && q[0] in Elements(q)
  {
    var rest := q[1..];
    forall x | x in Elements(q) - {q[0]} ensures x in Elements(rest) {
      var i :| 0 <= i < |q| && q[i] == x;
      assert rest[i - 1] == x;
    }
    forall x | x in Elements(rest) ensures x in Elements(q) - {q[0]} {
      var i :| 0 <= i < |rest| && rest[i] == x;
      assert q[i + 1] == x && q[0] != q[i + 1];
    }
  }

  /** A duplicate-free ascending list is determined by its elements. */
  lemma {:induction false} SortedIsUnique(q: seq<string>, leq: (string, string) -> bool)
    requires TotalOrder(leq) && Ascending(q, leq) && Distinct(q)
    ensures q == SortedOf(Elements(q), leq)
    decreases |q|
  {
    hide TotalOrder, Distinct, Least;
    var s := Elements(q);
    if q == [] {
      assert s == {};
    } else {
      TailElements(q);
      var m := Least(s, leq);
      var k :| 0 <= k < |q| && q[k] == m;
      Compare(leq, q[0], q[0]);
      Compare(leq, q[0], m);
      assert m == q[0];
      SortedIsUnique(q[1..], leq);
      assert q == [m] + q[1..];
    }
  }

  // ---------------------------------------------------------------- the specification

  predicate DistinctIds(nodes: seq<GraphNode>) {
    forall i, j :: 0 <= i < j < |nodes| ==> nodes[i].id != nodes[j].id
  }

  function GraphOf(nodes: seq<GraphNode>): Graph {
    if nodes == [] then map[] else GraphOf(nodes[..|nodes| - 1])[nodes[|nodes| - 1].id := nodes[|nodes| - 1].dependsOn]
  }

  predicate Closed(g: Graph) {
    forall n :: n in g ==> forall d :: d in g[n] ==> d in g
  }

  function ReadySet(g: Graph, completed: set<string>): set<string> {
    set n | n in g && n !in completed && forall d :: d in g[n] ==> d in completed
  }

  /** All ready nodes at once, then all nodes that become ready, and so on; none if this gets stuck. */
  function Layers(g: Graph, completed: set<string>): Option<seq<set<string>>>
    decreases |g.Keys - completed|
  {
    if g.Keys <= completed then Some([]) else
    var ready := ReadySet(g, completed);
    if ready == {} then None else
    assert g.Keys - (completed + ready) < g.Keys - completed by {
      var n :| n in ready;
      assert n in g.Keys - completed;
    }
    SmallerSet(g.Keys - (completed + ready), g.Keys - completed);
    var rest := Layers(g, completed + ready);
    if rest.None? then None else Some([ready] + rest.value)
  }

  lemma {:induction false} SmallerSet(a: set<string>, b: set<string>)
    requires a < b
    ensures |a| < |b|
  {
    assert b == a + (b - a);
    assert b - a != {};
  }

  function Chunks(s: seq<string>, width: nat): (chunks: seq<seq<string>>)
    requires width >= 1
    ensures forall c :: c in chunks ==> 1 <= |c| <= width
  {
    if s == [] then []
    else if |s| <= width then [s]
    else [s[..width]] + Chunks(s[width..], width)
  }

  ghost function ChunkAll(layers: seq<set<string>>, width: nat, leq: (string, string) -> bool): seq<seq<string>>
    requires width >= 1 && TotalOrder(leq)
  {
    if layers == [] then [] else Chunks(SortedOf(layers[0], leq), width) + ChunkAll(layers[1..], width, leq)
  }

  /** What the scheduler computes, as a function of the graph alone. */
  ghost function Schedule(g: Graph, width: nat, leq: (string, string) -> bool): Plan
    requires width >= 1 && TotalOrder(leq)
  {
    match Layers(g, {})
    case None => Cycle
    case Some(layers) => Waves(ChunkAll(layers, width, leq))
  }

  // ---------------------------------------------------------------- the scheduler

  /** The map holds exactly the first n nodes, each under its own identifier. */
  ghost predicate Indexes(byId: map<string, GraphNode>, nodes: seq<GraphNode>, n: nat)
    requires n <= |nodes|
  {
    && (forall j :: 0 <= j < n ==> nodes[j].id in byId && byId[nodes[j].id] == nodes[j])
    && (forall id :: id in byId ==> exists j :: 0 <= j < n && nodes[j].id == id)
  }

  lemma {:induction false} IndexOne(byId: map<string, GraphNode>, nodes: seq<GraphNode>, n: nat)
    requires n < |nodes| && Indexes(byId, nodes, n) && nodes[n].id !in byId
    ensures Indexes(byId[nodes[n].id := nodes[n]], nodes, n + 1)
    ensures DistinctIds(nodes[..n]) ==> DistinctIds(nodes[..n + 1])
  {
    var more := byId[nodes[n].id := nodes[n]];
    forall id | id in more ensures exists j :: 0 <= j < n + 1 && nodes[j].id == id {
      if id != nodes[n].id {
        var j :| 0 <= j < n && nodes[j].id == id;
        assert 0 <= j < n + 1;
      }
    }
    forall j | 0 <= j < n ensures nodes[j].id != nodes[n].id {}
  }

  method NodeMap(nodes: seq<GraphNode>) returns (byId: map<string, GraphNode>, duplicate: Option<string>)
    ensures duplicate.None? <==> DistinctIds(nodes)
    ensures duplicate.None? ==> Indexes(byId, nodes, |nodes|)
  {
    byId, duplicate := map[], None;
    for i := 0 to |nodes|
      invariant DistinctIds(nodes[..i]) && Indexes(byId, nodes, i)
    {
      if nodes[i].id in byId {
        ghost var j :| 0 <= j < i && nodes[j].id == nodes[i].id;
        assert nodes[j].id == nodes[i].id;
        return byId, Some(nodes[i].id);
      }
      IndexOne(byId, nodes, i);
      byId := byId[nodes[i].id := nodes[i]];
    }
    assert nodes[..|nodes|] == nodes;
  }

  /** The dependency map of a list with distinct identifiers. */
  lemma {:induction false} GraphIsIndexed(nodes: seq<GraphNode>)
    requires DistinctIds(nodes)
    ensures var g := GraphOf(nodes);
            && (forall j :: 0 <= j < |nodes| ==> nodes[j].id in g && g[nodes[j].id] == nodes[j].dependsOn)
            && (forall id :: id in g ==> exists j :: 0 <= j < |nodes| && nodes[j].id == id)
  {
    if nodes != [] {
      var early, last := nodes[..|nodes| - 1], nodes[|nodes| - 1];
      GraphIsIndexed(early);
      var g := GraphOf(nodes);
      assert g == GraphOf(early)[last.id := last.dependsOn];
      forall id | id in g ensures exists j :: 0 <= j < |nodes| && nodes[j].id == id {
        if id != last.id {
          assert id in GraphOf(early);
          var j :| 0 <= j < |early| && early[j].id == id;
          assert nodes[j].id == id;
        } else {
          assert nodes[|nodes| - 1].id == id;
        }
      }
    }
  }

  /** Inserts an identifier into an ascending list. */
  function Insert(id: string, sorted: seq<string>, leq: (string, string) -> bool): (r: seq<string>)
    ensures multiset(r) == multiset(sorted) + multiset{id}
  {
    if sorted == [] || leq(id, sorted[0]) then [id] + sorted
    else
      assert sorted == [sorted[0]] + sorted[1..];
      [sorted[0]] + Insert(id, sorted[1..], leq)
  }

  lemma {:induction false} InsertAscends(id: string, sorted: seq<string>, leq: (string, string) -> bool)
    requires TotalOrder(leq) && Ascending(sorted, leq)
    ensures Ascending(Insert(id, sorted, leq), leq)
    decreases |sorted|
  {
    hide TotalOrder;
    if sorted != [] {
      Compare(leq, id, sorted[0]);
      if leq(id, sorted[0]) {
        forall x | x in sorted ensures leq(id, x) {
          var k :| 0 <= k < |sorted| && sorted[k] == x;
          if k > 0 { Chain(leq, id, sorted[0], x); }
        }
      } else {
        var rest := Insert(id, sorted[1..], leq);
        InsertAscends(id, sorted[1..], leq);
        forall x | x in rest ensures leq(sorted[0], x) {
          assert x in multiset(rest);
          assert x == id || x in sorted[1..];
        }
      }
    }
  }

  predicate IsReady(n: GraphNode, remaining: set<string>, completed: set<string>) {
    n.id in remaining && forall d :: d in n.dependsOn ==> d in completed
  }

  /** The list holds exactly the ready identifiers of the first n nodes. */
  ghost predicate Collects(ready: seq<string>, nodes: seq<GraphNode>, n: nat, remaining: set<string>,
                           completed: set<string>)
    requires n <= |nodes|
  {
    && (forall j :: 0 <= j < n && IsReady(nodes[j], remaining, completed) ==> nodes[j].id in ready)
    && (forall x :: x in ready ==>
         exists j :: 0 <= j < n && nodes[j].id == x && IsReady(nodes[j], remaining, completed))
  }

  lemma {:induction false} InsertElements(id: string, sorted: seq<string>, leq: (string, string) -> bool)
    ensures forall x :: x in Insert(id, sorted, leq) <==> x in sorted || x == id
    ensures Distinct(sorted) && id !in sorted ==> Distinct(Insert(id, sorted, leq))
  {
    var next := Insert(id, sorted, leq);
    forall x ensures x in next <==> x in sorted || x == id {
      assert x in next <==> x in multiset(next);
      assert x in sorted <==> x in multiset(sorted);
    }
    if Distinct(sorted) && id !in sorted {
      forall x ensures multiset(next)[x] <= 1 {
        OnceEach(sorted, x);
      }
      forall i, j | 0 <= i < j < |next| ensures next[i] != next[j] {
        TwiceMeansEqual(next, i, j);
      }
    }
  }

  lemma {:induction false} OnceEach(s: seq<string>, x: string)
    requires Distinct(s)
    ensures multiset(s)[x] <= 1
    ensures multiset(s)[x] == 1 <==> x in s
  {
    if s != [] {
      assert s == [s[0]] + s[1..];
      OnceEach(s[1..], x);
    }
  }

  lemma {:induction false} TwiceMeansEqual(s: seq<string>, i: nat, j: nat)
    requires i < j < |s|
    ensures s[i] == s[j] ==> multiset(s)[s[i]] >= 2
  {
    assert s == s[..i] + [s[i]] + s[i + 1..j] + [s[j]] + s[j + 1..];
  }

  lemma {:induction false} CollectOne(ready: seq<string>, nodes: seq<GraphNode>, n: nat, remaining: set<string>,
                                      completed: set<string>, leq: (string, string) -> bool)
    requires DistinctIds(nodes) && n < |nodes| && Collects(ready, nodes, n, remaining, completed)
    requires TotalOrder(leq) && Ascending(ready, leq) && Distinct(ready)
    ensures var next := if IsReady(nodes[n], remaining, completed) then Insert(nodes[n].id, ready, leq) else ready;
            Collects(next, nodes, n + 1, remaining, completed) && Ascending(next, leq) && Distinct(next)
  {
    hide TotalOrder, IsReady, Insert;
    if IsReady(nodes[n], remaining, completed) {
      InsertAscends(nodes[n].id, ready, leq);
      InsertElements(nodes[n].id, ready, leq);
      assert nodes[n].id !in ready;
    }
    forall x | x in ready
      ensures exists j :: 0 <= j < n + 1 && nodes[j].id == x && IsReady(nodes[j], remaining, completed)
    {
      var j :| 0 <= j < n && nodes[j].id == x && IsReady(nodes[j], remaining, completed);
      assert 0 <= j < n + 1;
    }
  }

  /** The ready nodes in node order, then sorted by identifier. */
  method ReadyNodes(nodes: seq<GraphNode>, remaining: set<string>, completed: set<string>,
                    leq: (string, string) -> bool)
    returns (ready: seq<string>)
    requires TotalOrder(leq) && DistinctIds(nodes)
    ensures Ascending(ready, leq) && Distinct(ready)
    ensures Collects(ready, nodes, |nodes|, remaining, completed)
  {
    hide TotalOrder, Collects, Ascending, Distinct, DistinctIds;
    ready := [];
    NothingCollected(nodes, remaining, completed, leq);
    for i := 0 to |nodes|
      invariant Ascending(ready, leq) && Distinct(ready) && Collects(ready, nodes, i, remaining, completed)
    {
      CollectOne(ready, nodes, i, remaining, completed, leq);
      if nodes[i].id in remaining && forall d :: d in nodes[i].dependsOn ==> d in completed {
        ready := Insert(nodes[i].id, ready, leq);
      }
    }
  }

  lemma {:induction false} NothingCollected(nodes: seq<GraphNode>, remaining: set<string>, completed: set<string>,
                                            leq: (string, string) -> bool)
    ensures Ascending([], leq) && Distinct([]) && Collects([], nodes, 0, remaining, completed)
  {
  }

  lemma {:induction false} ReadyIsLayer(nodes: seq<GraphNode>, remaining: set<string>, completed: set<string>,
                                        ready: seq<string>)
    requires DistinctIds(nodes) && remaining == GraphOf(nodes).Keys - completed
    requires Collects(ready, nodes, |nodes|, remaining, completed)
    ensures Elements(ready) == ReadySet(GraphOf(nodes), completed) <= remaining
  {
    var g := GraphOf(nodes);
    GraphIsIndexed(nodes);
    forall x | x in ready ensures x in ReadySet(g, completed) {
      var j :| 0 <= j < |nodes| && nodes[j].id == x && IsReady(nodes[j], remaining, completed);
    }
    forall x | x in ReadySet(g, completed) ensures x in ready {
      var j :| 0 <= j < |nodes| && nodes[j].id == x;
      assert IsReady(nodes[j], remaining, completed);
    }
  }

  lemma {:induction false} IndexedKeys(byId: map<string, GraphNode>, nodes: seq<GraphNode>)
    requires DistinctIds(nodes) && Indexes(byId, nodes, |nodes|)
    ensures byId.Keys == GraphOf(nodes).Keys
  {
    GraphIsIndexed(nodes);
    forall id | id in byId ensures id in GraphOf(nodes) {
      var j :| 0 <= j < |nodes| && nodes[j].id == id;
    }
    forall id | id in GraphOf(nodes) ensures id in byId {
      var j :| 0 <= j < |nodes| && nodes[j].id == id;
    }
  }

  lemma {:induction false} NextChunk(ready: seq<string>, index: nat, end: nat, width: nat)
    requires width >= 1 && index < |ready|
    requires end == if index + width < |ready| then index + width else |ready|
    ensures Chunks(ready[index..], width) == [ready[index..end]] + Chunks(ready[end..], width)
  {
    var rest := ready[index..];
    if |rest| <= width {
      assert rest == ready[index..end] && ready[end..] == [];
    } else {
      assert rest[..width] == ready[index..end] && rest[width..] == ready[end..];
    }
  }

  /** Moves the nodes of one wave from the remaining to the completed ones. */
  method MarkDone(wave: seq<string>, remaining0: set<string>, completed0: set<string>)
    returns (remaining: set<string>, completed: set<string>)
    ensures completed == completed0 + Elements(wave) && remaining == remaining0 - Elements(wave)
  {
    remaining, completed := remaining0, completed0;
    for k := 0 to |wave|
      invariant completed == completed0 + Elements(wave[..k])
      invariant remaining == remaining0 - Elements(wave[..k])
    {
      remaining := remaining - {wave[k]};
      completed := completed + {wave[k]};
      ElementsConcat(wave[..k], [wave[k]]);
      assert wave[..k + 1] == wave[..k] + [wave[k]] && Elements([wave[k]]) == {wave[k]};
    }
    assert wave[..|wave|] == wave;
  }

  lemma {:induction false} ElementsConcat(a: seq<string>, b: seq<string>)
    ensures Elements(a + b) == Elements(a) + Elements(b)
  {
  }

  /** Cuts one ready list into waves, marking their nodes as done. */
  method CutWaves(ready: seq<string>, maxParallel: nat, remaining0: set<string>, completed0: set<string>,
                  waves0: seq<seq<string>>)
    returns (remaining: set<string>, completed: set<string>, waves: seq<seq<string>>)
    requires maxParallel >= 1
    ensures waves == waves0 + Chunks(ready, maxParallel)
    ensures completed == completed0 + Elements(ready) && remaining == remaining0 - Elements(ready)
  {
    hide Chunks, Elements;
    remaining, completed, waves := remaining0, completed0, waves0;
    var index := 0;
    ghost var cut: seq<seq<string>> := [];
    assert ready[0..] == ready;
    NothingCut(maxParallel);
    while index < |ready|
      invariant 0 <= index <= |ready|
      invariant waves == waves0 + cut && Chunks(ready, maxParallel) == cut + Chunks(ready[index..], maxParallel)
      invariant completed == completed0 + Elements(ready[..index])
      invariant remaining == remaining0 - Elements(ready[..index])
    {
      var end := if index + maxParallel < |ready| then index + maxParallel else |ready|;
      var wave := ready[index..end];
      NextChunk(ready, index, end, maxParallel);
      assert cut + ([wave] + Chunks(ready[end..], maxParallel)) == (cut + [wave]) + Chunks(ready[end..], maxParallel);
      cut, waves := cut + [wave], waves + [wave];
      ElementsConcat(ready[..index], wave);
      assert ready[..end] == ready[..index] + wave;
      remaining, completed := MarkDone(wave, remaining, completed);
      index := end;
    }
    assert ready[..index] == ready && ready[index..] == [];
  }

  lemma {:induction false} NothingCut(width: nat)
    requires width >= 1
    ensures Chunks([], width) == [] && Elements([]) == {}
  {
  }

  /** The waves still to come complete the schedule. */
  ghost predicate Remains(g: Graph, completed: set<string>, waves: seq<seq<string>>, width: nat,
                          leq: (string, string) -> bool)
    requires width >= 1 && TotalOrder(leq)
  {
    match Layers(g, completed)
    case None => Schedule(g, width, leq) == Cycle
    case Some(rest) => Schedule(g, width, leq) == Waves(waves + ChunkAll(rest, width, leq))
  }

  lemma {:induction false} RemainsAfter(g: Graph, completed: set<string>, waves: seq<seq<string>>, width: nat,
                                        leq: (string, string) -> bool)
    requires width >= 1 && TotalOrder(leq) && Remains(g, completed, waves, width, leq) && !(g.Keys <= completed)
    ensures ReadySet(g, completed) == {} ==> Schedule(g, width, leq) == Cycle
    ensures var ready := ReadySet(g, completed);
            ready != {} ==> Remains(g, completed + ready, waves + Chunks(SortedOf(ready, leq), width), width, leq)
  {
    hide TotalOrder, Schedule, SortedOf, Chunks;
    var ready := ReadySet(g, completed);
    var rest := Layers(g, completed + ready);
    if ready != {} && rest.Some? {
      var layers := [ready] + rest.value;
      assert layers[1..] == rest.value;
      var chunks := Chunks(SortedOf(ready, leq), width);
      assert waves + (chunks + ChunkAll(rest.value, width, leq)) == (waves + chunks) + ChunkAll(rest.value, width, leq);
    }
  }

  method ExecutionWaves(nodes: seq<GraphNode>, maxParallel: nat, leq: (string, string) -> bool) returns (plan: Plan)
    requires TotalOrder(leq) && maxParallel >= 1
    ensures !DistinctIds(nodes) <==> plan.Duplicate?
    ensures DistinctIds(nodes) ==> plan == Schedule(GraphOf(nodes), maxParallel, leq)
  {
    hide TotalOrder, DistinctIds, SortedOf, Chunks, Collects, Indexes, Ascending, Distinct, Remains, Schedule,
         ReadySet, GraphOf;
    var byId, duplicate := NodeMap(nodes);
    if duplicate.Some? { return Duplicate(duplicate.value); }
    ghost var g := GraphOf(nodes);
    var remaining := byId.Keys;
    var completed: set<string> := {};
    var waves: seq<seq<string>> := [];
    IndexedKeys(byId, nodes);
    AllRemains(g, maxParallel, leq);
    while remaining != {}
      invariant remaining == g.Keys - completed
      invariant Remains(g, completed, waves, maxParallel, leq)
      decreases |remaining|
    {
      var ready := ReadyNodes(nodes, remaining, completed, leq);
      ReadyIsLayer(nodes, remaining, completed, ready);
      RemainsAfter(g, completed, waves, maxParallel, leq);
      if |ready| == 0 { return Cycle; }
      assert ready[0] in Elements(ready);
      SortedIsUnique(ready, leq);
      ghost var before := remaining;
      remaining, completed, waves := CutWaves(ready, maxParallel, remaining, completed, waves);
      assert ready[0] in before && ready[0] !in remaining;
      SmallerSet(remaining, before);
    }
    NoneRemains(g, completed, waves, maxParallel, leq);
    plan := Waves(waves);
  }

  lemma {:induction false} AllRemains(g: Graph, width: nat, leq: (string, string) -> bool)
    requires width >= 1 && TotalOrder(leq)
    ensures Remains(g, {}, [], width, leq)
  {
    hide TotalOrder, Layers, ChunkAll;
    if Layers(g, {}).Some? {
      assert [] + ChunkAll(Layers(g, {}).value, width, leq) == ChunkAll(Layers(g, {}).value, width, leq);
    }
  }

  lemma {:induction false} NoneRemains(g: Graph, completed: set<string>, waves: seq<seq<string>>, width: nat,
                                       leq: (string, string) -> bool)
    requires width >= 1 && TotalOrder(leq) && Remains(g, completed, waves, width, leq) && g.Keys <= completed
    ensures Schedule(g, width, leq) == Waves(waves)
  {
    hide TotalOrder, Schedule;
    assert waves + [] == waves;
  }
}
