/**
 Which launch the scan over all traces finds: the one with the latest time, the last one scanned
 among several of the same time.
 */
module Tracking {
  import opened Options
  import opened TraceEvents
  import opened TraceHistory
  import opened TraceWriter
  import opened HostModel

  /** Event j of the k-th listed trace is a launch that matches. */
  predicate IsMatch(traces: map<string, seq<Event>>, dir: seq<string>, match_: Match, k: nat, j: nat) {
    k < |dir| && j < |TraceOf(traces, dir[k])|
    && Matches(TraceOf(traces, dir[k]), TraceOf(traces, dir[k])[j], match_)
  }

  function EventAt(traces: map<string, seq<Event>>, dir: seq<string>, k: nat, j: nat): Event
    requires k < |dir| && j < |TraceOf(traces, dir[k])|
  {
    TraceOf(traces, dir[k])[j]
  }

  /** The launch at (k, j) is later than that at (k2, j2), or as late and scanned no earlier. */
  predicate NotBefore(traces: map<string, seq<Event>>, dir: seq<string>, k: nat, j: nat, k2: nat, j2: nat)
    requires k < |dir| && j < |TraceOf(traces, dir[k])| && k2 < |dir| && j2 < |TraceOf(traces, dir[k2])|
  {
    var at, at2 := EventAt(traces, dir, k, j).at, EventAt(traces, dir, k2, j2).at;
    at > at2 || (at == at2 && (k > k2 || (k == k2 && j >= j2)))
  }

  /** Among the matches in the first traces and the first n events of the k-th, (i, j) is the latest. */
  ghost predicate IsLatest(traces: map<string, seq<Event>>, dir: seq<string>, match_: Match, k: nat, n: nat,
                           i: nat, j: nat) {
    && IsMatch(traces, dir, match_, i, j) && (i < k || (i == k && j < n))
    && forall i2: nat, j2: nat :: IsMatch(traces, dir, match_, i2, j2) && (i2 < k || (i2 == k && j2 < n)) ==>
         NotBefore(traces, dir, i, j, i2, j2)
  }

  ghost predicate Describes(best: Latest, traces: map<string, seq<Event>>, dir: seq<string>, match_: Match,
                            k: nat, n: nat) {
    match best
    case Nothing =>
      forall i: nat, j: nat :: IsMatch(traces, dir, match_, i, j) ==> !(i < k || (i == k && j < n))
    case Latest(at, target) =>
      exists i: nat, j: nat ::
        && IsLatest(traces, dir, match_, k, n, i, j)
        && at == EventAt(traces, dir, i, j).at && target == TargetOf(EventAt(traces, dir, i, j))
  }

  lemma {:induction false} NextMatch(best: Latest, traces: map<string, seq<Event>>, dir: seq<string>, match_: Match,
                                     k: nat, n: nat)
    requires k < |dir| && n < |TraceOf(traces, dir[k])| && Describes(best, traces, dir, match_, k, n)
    requires IsMatch(traces, dir, match_, k, n)
    ensures Describes(Newer(best, EventAt(traces, dir, k, n)), traces, dir, match_, k, n + 1)
  {
    var e := EventAt(traces, dir, k, n);
    if best.Nothing? || e.at >= best.at {
      assert IsLatest(traces, dir, match_, k, n + 1, k, n);
    } else {
      var i: nat, j: nat :| && IsLatest(traces, dir, match_, k, n, i, j)
                            && best.at == EventAt(traces, dir, i, j).at
                            && best.target == TargetOf(EventAt(traces, dir, i, j));
      assert IsLatest(traces, dir, match_, k, n + 1, i, j);
    }
  }

  lemma {:induction false} NoMatch(best: Latest, traces: map<string, seq<Event>>, dir: seq<string>, match_: Match,
                                   k: nat, n: nat)
    requires k < |dir| && n < |TraceOf(traces, dir[k])| && Describes(best, traces, dir, match_, k, n)
    requires !IsMatch(traces, dir, match_, k, n)
    ensures Describes(best, traces, dir, match_, k, n + 1)
  {
    if best.Latest? {
      var i: nat, j: nat :| && IsLatest(traces, dir, match_, k, n, i, j)
                            && best.at == EventAt(traces, dir, i, j).at
                            && best.target == TargetOf(EventAt(traces, dir, i, j));
      assert IsLatest(traces, dir, match_, k, n + 1, i, j);
    }
  }

  lemma {:induction false} ScanOfTrace(best: Latest, traces: map<string, seq<Event>>, dir: seq<string>, match_: Match,
                                       k: nat, n: nat)
    requires k < |dir| && n <= |TraceOf(traces, dir[k])| && Describes(best, traces, dir, match_, k, 0)
    ensures Describes(LatestIn(TraceOf(traces, dir[k]), n, match_, best), traces, dir, match_, k, n)
    decreases n
  {
    hide Describes, Matches, Newer;
    if n > 0 {
      var events := TraceOf(traces, dir[k]);
      var sofar := LatestIn(events, n - 1, match_, best);
      ScanOfTrace(best, traces, dir, match_, k, n - 1);
      if Matches(events, events[n - 1], match_) {
        NextMatch(sofar, traces, dir, match_, k, n - 1);
      } else {
        NoMatch(sofar, traces, dir, match_, k, n - 1);
      }
    }
  }

  lemma {:induction false} NextTrace(best: Latest, traces: map<string, seq<Event>>, dir: seq<string>, match_: Match,
                                     k: nat)
    requires k < |dir| && Describes(best, traces, dir, match_, k, |TraceOf(traces, dir[k])|)
    ensures Describes(best, traces, dir, match_, k + 1, 0)
  {
    if best.Latest? {
      var i: nat, j: nat :| && IsLatest(traces, dir, match_, k, |TraceOf(traces, dir[k])|, i, j)
                            && best.at == EventAt(traces, dir, i, j).at
                            && best.target == TargetOf(EventAt(traces, dir, i, j));
      assert IsLatest(traces, dir, match_, k + 1, 0, i, j);
    }
  }

  lemma {:induction false} ScanOfTraces(traces: map<string, seq<Event>>, dir: seq<string>, match_: Match, k: nat)
    requires k <= |dir|
    ensures Describes(LatestAcross(traces, dir[..k], match_), traces, dir, match_, k, 0)
    decreases k
  {
    hide LatestIn, Matches, TraceOf;
    if k > 0 {
      assert Front(dir[..k]) == dir[..k - 1] && Last(dir[..k]) == dir[k - 1];
      var events := TraceOf(traces, dir[k - 1]);
      var before := LatestAcross(traces, dir[..k - 1], match_);
      ScanOfTraces(traces, dir, match_, k - 1);
      ScanOfTrace(before, traces, dir, match_, k - 1, |events|);
      NextTrace(LatestIn(events, |events|, match_, before), traces, dir, match_, k - 1);
    }
  }

  /**
   Nothing is found exactly when no listed trace has a matching launch. Otherwise the target is that of
   the matching launch which no other one is later than, and none of its time is scanned behind it.
   */
  lemma {:induction false} FindsTheLatest(traces: map<string, seq<Event>>, dir: seq<string>, match_: Match)
    ensures FindTracked(traces, dir, match_).None?
       <==> forall k: nat, j: nat :: !IsMatch(traces, dir, match_, k, j)
    ensures FindTracked(traces, dir, match_).Some? ==>
              exists k: nat, j: nat ::
                && IsMatch(traces, dir, match_, k, j)
                && (forall k2: nat, j2: nat :: IsMatch(traces, dir, match_, k2, j2) ==>
                      NotBefore(traces, dir, k, j, k2, j2))
                && FindTracked(traces, dir, match_) == Some(TargetOf(EventAt(traces, dir, k, j)))
  {
    assert dir[..|dir|] == dir;
    ScanOfTraces(traces, dir, match_, |dir|);
    var best := LatestAcross(traces, dir, match_);
    hide LatestAcross, Matches;
    if best.Latest? {
      var i: nat, j: nat :| && IsLatest(traces, dir, match_, |dir|, 0, i, j)
                            && best.at == EventAt(traces, dir, i, j).at
                            && best.target == TargetOf(EventAt(traces, dir, i, j));
    }
  }

  /** The target of a launch, as the trace has it. */
  function LaunchTarget(e: Event): Target
    requires e.body.Launched? && TruthyText(e.body.detachRun)
  {
    Target(e.run, e.body.node, e.body.parent, e.body.detachRun.value, e.body.agentName)
  }

  /** And the other way round: a matching launch that no other one is later than is the one found. */
  lemma {:induction false} LatestIsFound(traces: map<string, seq<Event>>, dir: seq<string>, match_: Match,
                                         k: nat, j: nat)
    requires IsMatch(traces, dir, match_, k, j)
    requires forall k2: nat, j2: nat :: IsMatch(traces, dir, match_, k2, j2) ==> NotBefore(traces, dir, k, j, k2, j2)
    ensures FindTracked(traces, dir, match_) == Some(LaunchTarget(EventAt(traces, dir, k, j)))
  {
    FindsTheLatest(traces, dir, match_);
    hide FindTracked;
    var k2: nat, j2: nat :|
      && IsMatch(traces, dir, match_, k2, j2)
      && (forall k3: nat, j3: nat :: IsMatch(traces, dir, match_, k3, j3) ==>
            NotBefore(traces, dir, k2, j2, k3, j3))
      && FindTracked(traces, dir, match_) == Some(TargetOf(EventAt(traces, dir, k2, j2)));
    assert NotBefore(traces, dir, k, j, k2, j2) && NotBefore(traces, dir, k2, j2, k, j);
  }

  // ---------------------------------------------------------------- a launch that was recorded

  /** Only the last draft of a first launch is a launch. */
  lemma {:induction false} LaunchIsLast(events: seq<Event>, req: LaunchRequest)
    requires req.Valid() && LaunchOf(events, req.node).None?
    ensures var drafts := LaunchDrafts(events, req);
            && drafts != []
            && Last(drafts) == Launched(req.node, ROOT_NODE, req.resultPath, Some(req.detachRun), req.agentName)
            && forall i :: 0 <= i < |drafts| - 1 ==> !drafts[i].Launched?
  {
  }

  /** A launch with this run, or this agent name. */
  predicate Names(b: Body, match_: Match) {
    b.Launched? && match match_
                   case ByRun(detachRun) => b.detachRun == Some(detachRun)
                   case ByName(agentName, _) => b.agentName == Some(agentName)
  }

  ghost predicate IsUnseen(traces: map<string, seq<Event>>, match_: Match) {
    forall run, e :: run in traces && e in traces[run] ==> !Names(e.body, match_)
  }

  /** What an append puts where. */
  lemma {:induction false} AppendedAt(events: seq<Event>, drafts: seq<Body>, now: int, run: string, j: nat)
    requires drafts != [] && j < |events| + |drafts|
    ensures var grown := Appended(events, drafts, now, run);
            && |grown| == |events| + |drafts|
            && (j < |events| ==> grown[j] == events[j])
            && (j >= |events| ==> grown[j].body == drafts[j - |events|] && grown[j].run == run)
  {
  }

  lemma {:induction false} UnseenAt(traces: map<string, seq<Event>>, match_: Match, run: string, j: nat)
    requires IsUnseen(traces, match_) && j < |TraceOf(traces, run)|
    ensures !Names(TraceOf(traces, run)[j].body, match_)
  {
    assert run in traces && TraceOf(traces, run)[j] in traces[run];
  }

  /** After the append the launch is the only event with its run or name. */
  lemma {:induction false} OnlyTheLaunch(traces: map<string, seq<Event>>, run: string, req: LaunchRequest, now: int,
                                         match_: Match, other: string, j: nat)
    requires req.Valid() && LaunchOf(TraceOf(traces, run), req.node).None? && IsUnseen(traces, match_)
    requires var later := Write(traces, run, LaunchDrafts(TraceOf(traces, run), req), now);
             j < |TraceOf(later, other)| && Names(TraceOf(later, other)[j].body, match_)
    ensures var events := TraceOf(traces, run);
            other == run && j == |events| + |LaunchDrafts(events, req)| - 1
  {
    var events := TraceOf(traces, run);
    var drafts := LaunchDrafts(events, req);
    LaunchIsLast(events, req);
    hide LaunchDrafts;
    if other == run && j < |events| + |drafts| { AppendedAt(events, drafts, now, run, j); }
    hide Appended;
    if other != run || j < |events| {
      UnseenAt(traces, match_, other, j);
    }
  }

  /** The first launch of a node, under a run or a name that is new, is found wherever its trace is listed. */
  lemma {:induction false} NewLaunchIsFound(traces: map<string, seq<Event>>, dir: seq<string>, run: string,
                                            req: LaunchRequest, now: int, match_: Match)
    requires req.Valid() && req.node != "" && req.detachRun != "" && run in dir
    requires LaunchOf(TraceOf(traces, run), req.node).None? && IsUnseen(traces, match_)
    requires match match_
             case ByRun(detachRun) => detachRun == req.detachRun
             case ByName(agentName, blocked) => Some(agentName) == req.agentName && !blocked
    ensures var later := Write(traces, run, LaunchDrafts(TraceOf(traces, run), req), now);
            FindTracked(later, dir, match_) == Some(Target(run, req.node, ROOT_NODE, req.detachRun, req.agentName))
  {
    var events := TraceOf(traces, run);
    var drafts := LaunchDrafts(events, req);
    LaunchIsLast(events, req);
    hide LaunchDrafts;
    var later, n := Write(traces, run, drafts, now), |events| + |drafts| - 1;
    AppendedAt(events, drafts, now, run, n);
    assert Matches(TraceOf(later, run), TraceOf(later, run)[n], match_);
    forall k: nat, j: nat | IsMatch(later, dir, match_, k, j) ensures dir[k] == run && j == n {
      OnlyTheLaunch(traces, run, req, now, match_, dir[k], j);
    }
    hide Write, FindTracked, Appended, Matches;
    LastListed(later, dir, match_, run, n);
  }

  /** If all matches are one event of one trace, that event is found. */
  lemma {:induction false} LastListed(traces: map<string, seq<Event>>, dir: seq<string>, match_: Match, run: string,
                                      n: nat)
    requires run in dir && n < |TraceOf(traces, run)|
    requires Matches(TraceOf(traces, run), TraceOf(traces, run)[n], match_)
    requires forall k: nat, j: nat :: IsMatch(traces, dir, match_, k, j) ==> dir[k] == run && j == n
    ensures FindTracked(traces, dir, match_) == Some(LaunchTarget(TraceOf(traces, run)[n]))
  {
    FindsTheLatest(traces, dir, match_);
    hide FindTracked, Matches;
    var k: nat :| k < |dir| && dir[k] == run;
    assert IsMatch(traces, dir, match_, k, n);
  }

  /** No two launches are each not before the other, so that launch is the only one. */
  lemma {:induction false} LatestIsUnique(traces: map<string, seq<Event>>, dir: seq<string>, k: nat, j: nat,
                                          k2: nat, j2: nat)
    requires k < |dir| && j < |TraceOf(traces, dir[k])| && k2 < |dir| && j2 < |TraceOf(traces, dir[k2])|
    requires NotBefore(traces, dir, k, j, k2, j2) && NotBefore(traces, dir, k2, j2, k, j)
    ensures k == k2 && j == j2
  {
  }
}
