/** Everything a node depends on, directly or not, found with a work list. */
module GraphClosure {
  import opened AdvisorGraph
  import opened GraphLaws

  /** A chain of dependencies leads from the node to d; empty identifiers are not followed. */
  ghost predicate Reaches(g: Graph, node: string, d: string) {
    d != "" && exists p :: Leads(g, p, node, d)
  }

  ghost predicate Leads(g: Graph, p: seq<string>, node: string, d: string) {
    IsChain(g, p) && p[0] == node && d in g[p[|p| - 1]] && forall i :: 1 <= i < |p| ==> p[i] != ""
  }

  function DependenciesOf(g: Graph, id: string): seq<string> {
    if id in g then g[id] else []
  }

  /** All identifiers that are dependencies in the graph. */
  function Mentioned(g: Graph): set<string> {
    set n, d | n in g && d in g[n] :: d
  }

  lemma {:induction false} ReachesDirectly(g: Graph, node: string, d: string)
    requires node in g && d in g[node] && d != ""
    ensures Reaches(g, node, d)
  {
    assert Leads(g, [node], node, d);
  }

  lemma {:induction false} ReachesFurther(g: Graph, node: string, id: string, d: string)
    requires Reaches(g, node, id) && d in DependenciesOf(g, id) && d != ""
    ensures Reaches(g, node, d)
  {
    var p :| Leads(g, p, node, id);
    assert Leads(g, p + [id], node, d);
  }

  /** Whatever the set holds of the node's dependencies, it holds of theirs. */
  ghost predicate ClosedUnder(g: Graph, node: string, visited: set<string>, pending: seq<string>) {
    && (forall d :: d in DependenciesOf(g, node) ==> d == "" || d in visited || d in pending)
    && (forall id :: id in visited ==> Followed(g, id, visited, pending))
  }

  ghost predicate Followed(g: Graph, id: string, visited: set<string>, pending: seq<string>) {
    forall d :: d in DependenciesOf(g, id) ==> d == "" || d in visited || d in pending
  }

  lemma {:induction false} ClosedHasAll(g: Graph, node: string, visited: set<string>, p: seq<string>, d: string)
    requires ClosedUnder(g, node, visited, []) && Leads(g, p, node, d) && d != ""
    ensures d in visited
    decreases |p|
  {
    var last := p[|p| - 1];
    if |p| > 1 {
      var front := p[..|p| - 1];
      assert Leads(g, front, node, last) by {
        assert front[|front| - 1] == p[|p| - 2];
      }
      ClosedHasAll(g, node, visited, front, last);
      assert Followed(g, last, visited, []);
    }
  }

  ghost predicate OnlyReached(g: Graph, node: string, visited: set<string>, pending: seq<string>) {
    && (forall id :: id in visited ==> Reaches(g, node, id))
    && (forall id :: id in pending ==> id in Mentioned(g) && (id == "" || Reaches(g, node, id)))
  }

  /** Taking an identifier that is empty or visited off the list. */
  lemma {:induction false} Skipped(g: Graph, node: string, visited: set<string>, pending: seq<string>, id: string)
    requires ClosedUnder(g, node, visited, pending + [id]) && (id == "" || id in visited)
    ensures ClosedUnder(g, node, visited, pending)
  {
    forall other | other in visited ensures Followed(g, other, visited, pending) {
      assert Followed(g, other, visited, pending + [id]);
    }
  }

  /** Visiting an identifier and pushing its dependencies. */
  lemma {:induction false} Visited(g: Graph, node: string, visited: set<string>, pending: seq<string>, id: string)
    requires ClosedUnder(g, node, visited, pending + [id])
    ensures ClosedUnder(g, node, visited + {id}, pending + DependenciesOf(g, id))
  {
    var after, list := visited + {id}, pending + DependenciesOf(g, id);
    forall other | other in after ensures Followed(g, other, after, list) {
      if other != id {
        assert Followed(g, other, visited, pending + [id]);
      }
    }
  }

  lemma {:induction false} OnlyReachedAfter(g: Graph, node: string, visited: set<string>, pending: seq<string>,
                                            id: string)
    requires OnlyReached(g, node, visited, pending + [id]) && id != ""
    ensures OnlyReached(g, node, visited + {id}, pending + DependenciesOf(g, id))
  {
    hide Reaches;
    assert id in pending + [id];
    forall d | d in DependenciesOf(g, id) && d != "" ensures Reaches(g, node, d) {
      ReachesFurther(g, node, id, d);
    }
    forall other | other in pending ensures other in Mentioned(g) && (other == "" || Reaches(g, node, other)) {
      assert other in pending + [id];
    }
  }

  /** The work list visits exactly what the node reaches. */
  method DependencyClosure(g: Graph, node: string) returns (visited: set<string>)
    requires node in g
    ensures forall d :: d in visited <==> Reaches(g, node, d)
  {
    hide Reaches, ClosedUnder, Mentioned;
    visited := {};
    var pending := g[node];
    Started(g, node);
    while pending != []
      invariant visited <= Mentioned(g)
      invariant ClosedUnder(g, node, visited, pending) && OnlyReached(g, node, visited, pending)
      decreases |Mentioned(g) - visited|, |pending|
    {
      var id := pending[|pending| - 1];
      assert pending == pending[..|pending| - 1] + [id];
      pending := pending[..|pending| - 1];
      if id == "" || id in visited {
        Skipped(g, node, visited, pending, id);
        continue;
      }
      Visited(g, node, visited, pending, id);
      OnlyReachedAfter(g, node, visited, pending, id);
      assert Mentioned(g) - (visited + {id}) < Mentioned(g) - visited;
      FewerLeft(Mentioned(g), visited, id);
      visited := visited + {id};
      pending := pending + DependenciesOf(g, id);
    }
    Finished(g, node, visited);
  }

  lemma {:induction false} Started(g: Graph, node: string)
    requires node in g
    ensures ClosedUnder(g, node, {}, g[node]) && OnlyReached(g, node, {}, g[node])
  {
    forall d | d in g[node] && d != "" ensures Reaches(g, node, d) {
      ReachesDirectly(g, node, d);
    }
  }

  lemma {:induction false} FewerLeft(all: set<string>, visited: set<string>, id: string)
    requires id in all && id !in visited
    ensures |all - (visited + {id})| < |all - visited|
  {
    assert all - (visited + {id}) == all - visited - {id};
  }

  lemma {:induction false} Finished(g: Graph, node: string, visited: set<string>)
    requires ClosedUnder(g, node, visited, []) && OnlyReached(g, node, visited, [])
    ensures forall d :: d in visited <==> Reaches(g, node, d)
  {
    forall d | Reaches(g, node, d) ensures d in visited {
      var p :| Leads(g, p, node, d);
      ClosedHasAll(g, node, visited, p, d);
    }
  }

  /** With identifiers that are not empty, a cycle is a node that depends on itself, directly or not. */
  lemma {:induction false} CyclicIffSelfReaching(g: Graph)
    requires "" !in g
    ensures HasCycle(g) <==> exists n :: n in g && Reaches(g, n, n)
  {
    if HasCycle(g) {
      var p :| IsChain(g, p) && p[0] in g[p[|p| - 1]];
      assert Leads(g, p, p[0], p[0]);
      assert p[0] in g && Reaches(g, p[0], p[0]);
    }
  }
}
