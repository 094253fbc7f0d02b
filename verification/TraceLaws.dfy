/**
 What every accepted trace guarantees to its readers: wakes match settlements, the projection
 shows what the checker holds, and a trace read in the middle of an append is still legal.
 */
module TraceLaws {
  import opened Options
  import opened TraceEvents
  import opened TraceChecker
  import opened TraceHistory
  import opened TraceProjector

  // ---------------------------------------------------------------- envelopes

  ghost predicate OneRunInOrder(events: seq<Event>) {
    && (forall i :: 0 <= i < |events| ==> events[i].run == events[0].run)
    && (forall i, j :: 0 <= i < j < |events| ==> events[i].at <= events[j].at)
  }

  lemma {:induction false} LatestBounds(events: seq<Event>)
    requires events != []
    ensures forall i :: 0 <= i < |events| ==> events[i].at <= LatestTime(events)
    ensures exists i :: 0 <= i < |events| && events[i].at == LatestTime(events)
  {
    if |events| == 1 {
      assert events[0].at == LatestTime(events);
    } else {
      LatestBounds(Front(events));
      FrontLast(events);
      var i :| 0 <= i < |Front(events)| && Front(events)[i].at == LatestTime(Front(events));
      assert events[i] == Front(events)[i];
      assert Last(events) == events[|events| - 1];
    }
  }

  /** One more event keeps a trace well numbered and in order exactly when no envelope rule fires. */
  lemma {:induction false} EnvelopeStep(early: seq<Event>, e: Event)
    requires Numbered(early) && OneRunInOrder(early)
    ensures EnvelopeRules(early, e) == [] <==> Numbered(early + [e]) && OneRunInOrder(early + [e])
  {
    var events := early + [e];
    assert forall i :: 0 <= i < |early| ==> events[i] == early[i];
    assert events[|early|] == e;
    if early != [] {
      LatestBounds(early);
      assert OneRunInOrder(events) ==> forall i :: 0 <= i < |early| ==> events[i].at <= events[|early|].at;
    }
  }

  /** The envelope pass is silent exactly on traces numbered 1..n of one run with times that never decrease. */
  lemma {:induction false} EnvelopesClean(events: seq<Event>)
    ensures EnvelopeProblems(events) == [] <==> Numbered(events) && OneRunInOrder(events)
  {
    if events != [] {
      var early, e := Front(events), Last(events);
      FrontLast(events);
      EnvelopesClean(early);
      assert EnvelopeProblems(events) == [] <==> EnvelopeProblems(early) == [] && EnvelopeRules(early, e) == [];
      assert forall i :: 0 <= i < |early| ==> early[i] == events[i];
      assert Numbered(events) && OneRunInOrder(events) ==> Numbered(early) && OneRunInOrder(early);
      if Numbered(early) && OneRunInOrder(early) {
        EnvelopeStep(early, e);
      }
    }
  }

  ghost predicate AllAnswered(st: State) {
    forall node :: node in st.order && node in st.nodes ==> !TruthyNumber(st.nodes[node].pendingReply)
  }

  lemma {:induction false} DanglingEmpty(nodes: map<string, NodeState>, order: seq<string>)
    ensures Dangling(nodes, order) == []
       <==> forall node :: node in order && node in nodes ==> !TruthyNumber(nodes[node].pendingReply)
  {
    if order != [] {
      DanglingEmpty(nodes, order[1..]);
      assert order == [order[0]] + order[1..];
    }
  }

  lemma {:induction false} AcceptedParts(events: seq<Event>)
    ensures Accepted(events) <==> CleanSoFar(events) && OneRunInOrder(events) && AllAnswered(Run(events))
  {
    EnvelopesClean(events);
    if Created(events) {
      DanglingEmpty(Run(events).nodes, Run(events).order);
    }
  }

  // ---------------------------------------------------------------- wakes match settlements

  function SettlementsOf(events: seq<Event>, node: string): seq<Settlement> {
    if events == [] then [] else
    var rest, e := SettlementsOf(Front(events), node), Last(events);
    if IsAct(e.body, node, KSettled) then rest + [Settlement(e.body.act.outcome, e.no)] else rest
  }

  datatype Wake = Wake(parent: string, status: Status, no: int)

  function WakesOf(events: seq<Event>, child: string): seq<Wake> {
    if events == [] then [] else
    var rest, e := WakesOf(Front(events), child), Last(events);
    if e.body.Awakened? && e.body.child == child then rest + [Wake(e.body.node, e.body.childStatus, e.no)] else rest
  }

  function GenerationsTo(events: seq<Event>, parent: string): seq<int> {
    if events == [] then [] else
    var rest, e := GenerationsTo(Front(events), parent), Last(events);
    if e.body.Awakened? && e.body.node == parent then rest + [e.body.generation] else rest
  }

  /** Wake k answers settlement k: later, with its status, addressed to the launch parent. */
  ghost predicate Paired(wakes: seq<Wake>, settlements: seq<Settlement>, parent: string) {
    && |wakes| <= |settlements|
    && forall k :: 0 <= k < |wakes| ==>
         && wakes[k].no > settlements[k].no
         && wakes[k].status == settlements[k].status
         && wakes[k].parent == parent
  }

  ghost predicate WakesLinked(settlements: seq<Settlement>, wakes: seq<Wake>, length: nat, st: State, node: string) {
    if node in st.nodes then
      var s := st.nodes[node];
      && s.settlements == settlements
      && s.wakeCount == |wakes|
      && Paired(wakes, settlements, s.parent)
      && (forall k :: 0 <= k < |settlements| ==> settlements[k].no <= length)
    else
      settlements == [] && wakes == []
  }

  /** A wake that draws no complaint. */
  lemma {:induction false} CleanWake(st: State, e: Event)
    requires e.body.Awakened? && Step(st, e).problems == []
    ensures var c := e.body.child;
            && c in st.nodes && st.nodes[c].wakeCount < |st.nodes[c].settlements|
            && st.nodes[c].parent == e.body.node
            && st.nodes[c].settlements[st.nodes[c].wakeCount].status == e.body.childStatus
            && e.body.generation == Get(st.generations, e.body.node) + 1
            && Step(st, e).generations == st.generations[e.body.node := e.body.generation]
            && Step(st, e).nodes == st.nodes[c := st.nodes[c].(wakeCount := st.nodes[c].wakeCount + 1)]
  {
  }

  lemma {:induction false} WakesLinkAct(settlements: seq<Settlement>, wakes: seq<Wake>, st: State, e: Event)
    requires e.body.Lifecycle? && Step(st, e).problems == [] && e.no >= 1
    requires WakesLinked(settlements, wakes, e.no - 1, st, e.body.node)
    ensures WakesLinked(if e.body.act.Settled? then settlements + [Settlement(e.body.act.outcome, e.no)]
                        else settlements,
                        wakes, e.no, Step(st, e), e.body.node)
  {
    CleanLifecycle(st, e);
    CleanAct(st.nodes[e.body.node], e.no, e.body.parent, e.body.act);
  }

  lemma {:induction false} WakesLinkWake(settlements: seq<Settlement>, wakes: seq<Wake>, st: State, e: Event)
    requires e.body.Awakened? && Step(st, e).problems == [] && e.no >= 1
    requires WakesLinked(settlements, wakes, e.no - 1, st, e.body.child)
    ensures WakesLinked(settlements, wakes + [Wake(e.body.node, e.body.childStatus, e.no)], e.no,
                        Step(st, e), e.body.child)
  {
    CleanWake(st, e);
  }

  lemma {:induction false} WakesLinkOther(settlements: seq<Settlement>, wakes: seq<Wake>, st: State, e: Event,
                                          node: string)
    requires !(e.body.Lifecycle? && e.body.node == node) && !(e.body.Awakened? && e.body.child == node)
    requires Step(st, e).problems == [] && e.no >= 1
    requires WakesLinked(settlements, wakes, e.no - 1, st, node)
    ensures WakesLinked(settlements, wakes, e.no, Step(st, e), node)
  {
    if IsLaunch(e.body, node) {
      CleanLaunch(st, e);
    } else {
      UnrelatedEvent(st, e, node);
    }
  }

  lemma {:induction false} UnrelatedEvent(st: State, e: Event, node: string)
    requires !(e.body.Lifecycle? && e.body.node == node) && !IsLaunch(e.body, node)
    requires !(e.body.Awakened? && e.body.child == node)
    ensures node in st.nodes <==> node in Step(st, e).nodes
    ensures node in st.nodes ==> Step(st, e).nodes[node] == st.nodes[node]
  {
  }

  lemma {:induction false} WakesLinkNext(settlements: seq<Settlement>, wakes: seq<Wake>, st: State, e: Event,
                                         node: string)
    requires Step(st, e).problems == [] && e.no >= 1
    requires WakesLinked(settlements, wakes, e.no - 1, st, node)
    ensures WakesLinked(if IsAct(e.body, node, KSettled) then settlements + [Settlement(e.body.act.outcome, e.no)]
                        else settlements,
                        if e.body.Awakened? && e.body.child == node
                        then wakes + [Wake(e.body.node, e.body.childStatus, e.no)] else wakes,
                        e.no, Step(st, e), node)
  {
    hide Step, WakesLinked;
    if e.body.Lifecycle? && e.body.node == node {
      WakesLinkAct(settlements, wakes, st, e);
    } else if e.body.Awakened? && e.body.child == node {
      WakesLinkWake(settlements, wakes, st, e);
    } else {
      WakesLinkOther(settlements, wakes, st, e, node);
    }
  }

  lemma {:induction false} WakesLinkedThroughout(events: seq<Event>, node: string)
    requires CleanSoFar(events)
    ensures WakesLinked(SettlementsOf(events, node), WakesOf(events, node), |events|, Run(events), node)
  {
    if |events| == 1 {
      assert Front(events) == [];
    } else {
      CleanFront(events);
      WakesLinkedThroughout(Front(events), node);
      hide Step, WakesLinked;
      WakesLinkNext(SettlementsOf(Front(events), node), WakesOf(Front(events), node), Run(Front(events)), Last(events),
                    node);
    }
  }

  /** The k-th wake naming a child follows and repeats its k-th settlement and goes to its launch parent. */
  lemma {:induction false} WakesMatchSettlements(events: seq<Event>, child: string)
    requires Accepted(events)
    ensures |WakesOf(events, child)| <= |SettlementsOf(events, child)|
    ensures WakesOf(events, child) != [] ==>
              && LaunchOf(events, child).Some?
              && Paired(WakesOf(events, child), SettlementsOf(events, child),
                        LaunchOf(events, child).value.body.parent)
  {
    AcceptedParts(events);
    WakesLinkedThroughout(events, child);
    CheckerMatchesHistory(events, child);
  }

  ghost predicate Consecutive(generations: seq<int>) {
    forall k :: 0 <= k < |generations| ==> generations[k] == k + 1
  }

  lemma {:induction false} GenerationsLinked(events: seq<Event>, parent: string)
    requires CleanSoFar(events)
    ensures Consecutive(GenerationsTo(events, parent))
    ensures Get(Run(events).generations, parent) == |GenerationsTo(events, parent)|
  {
    if |events| == 1 {
      assert Front(events) == [];
    } else {
      var e := Last(events);
      CleanFront(events);
      GenerationsLinked(Front(events), parent);
      if e.body.Awakened? {
        CleanWake(Run(Front(events)), e);
      }
    }
  }

  /** The wakes of one parent are numbered 1, 2, 3, ... */
  lemma {:induction false} GenerationsAreConsecutive(events: seq<Event>, parent: string)
    requires Accepted(events)
    ensures Consecutive(GenerationsTo(events, parent))
  {
    AcceptedParts(events);
    GenerationsLinked(events, parent);
  }

  // ---------------------------------------------------------------- the projection agrees with the checker

  ghost predicate NodeAgrees(p: Projection, st: State, node: string) {
    && (node in p.nodes <==> node in st.nodes)
    && (node in st.nodes ==>
          var view, s := p.nodes[node], st.nodes[node];
          && view.parent == s.parent
          && (view.phase == Closed <==> s.settled.Some?)
          && view.attempts == |s.settlements|
          && view.settledStatus == (if s.settlements == [] then None else Some(Last(s.settlements).status))
          && (s.settled.Some? ==> s.settlements != [] && s.settled == Some(Last(s.settlements))))
  }

  lemma {:induction false} AgreeOnAct(p: Projection, st: State, e: Event)
    requires e.body.Lifecycle? && Step(st, e).problems == [] && NodeAgrees(p, st, e.body.node)
    ensures NodeAgrees(Reduce(p, e), Step(st, e), e.body.node)
  {
    CleanLifecycle(st, e);
    CleanAct(st.nodes[e.body.node], e.no, e.body.parent, e.body.act);
  }

  lemma {:induction false} AgreeOnOther(p: Projection, st: State, e: Event, node: string)
    requires NodeAgrees(p, st, node) && Step(st, e).problems == []
    requires !(e.body.Lifecycle? && e.body.node == node)
    ensures NodeAgrees(Reduce(p, e), Step(st, e), node)
  {
    if IsLaunch(e.body, node) {
      CleanLaunch(st, e);
    } else {
      OtherEvent(st, e, node);
    }
  }

  lemma {:induction false} ProjectionTracksChecker(events: seq<Event>, node: string)
    requires CleanSoFar(events)
    ensures NodeAgrees(Project(events), Run(events), node)
  {
    if |events| > 1 {
      var e := Last(events);
      CleanFront(events);
      ProjectionTracksChecker(Front(events), node);
      if e.body.Lifecycle? && e.body.node == node {
        AgreeOnAct(Project(Front(events)), Run(Front(events)), e);
      } else {
        AgreeOnOther(Project(Front(events)), Run(Front(events)), e, node);
      }
    }
  }

  ghost predicate WavesShow(views: seq<WaveView>, plan: seq<seq<string>>, started: set<int>, completed: set<int>) {
    && |views| == |plan|
    && (forall w :: w in started || w in completed ==> 1 <= w <= |plan|)
    && forall i :: 0 <= i < |plan| ==>
         && views[i].wave == i + 1
         && views[i].members == plan[i]
         && (views[i].startedAt.Some? <==> i + 1 in started)
         && (views[i].completedAt.Some? <==> i + 1 in completed)
  }

  ghost predicate WavesAgree(p: Projection, st: State) {
    WavesShow(p.waves, if st.plan.Some? then st.plan.value else [], st.started, st.completed)
  }

  /** A wave event that draws no complaint names a planned wave and its planned members. */
  lemma {:induction false} CleanWave(st: State, e: Event)
    requires e.body.WaveStarted? || e.body.WaveCompleted?
    requires Step(st, e).problems == []
    ensures st.plan.Some? && 1 <= e.body.wave <= |st.plan.value|
    ensures e.body.members == st.plan.value[e.body.wave - 1]
    ensures Step(st, e) == if e.body.WaveStarted? then st.(started := st.started + {e.body.wave})
                           else st.(completed := st.completed + {e.body.wave})
  {
    assert st.problems + [] == st.problems;
  }

  lemma {:induction false} MarkShows(views: seq<WaveView>, plan: seq<seq<string>>, started: set<int>,
                                     completed: set<int>, body: Body, at: int)
    requires body.WaveStarted? || body.WaveCompleted?
    requires WavesShow(views, plan, started, completed)
    requires 1 <= body.wave <= |plan| && body.members == plan[body.wave - 1]
    ensures WavesShow(Mark(views, body, at), plan,
                      if body.WaveStarted? then started + {body.wave} else started,
                      if body.WaveStarted? then completed else completed + {body.wave})
  {
    var i := body.wave - 1;
    assert views[i].wave == i + 1;
    var found := FindWave(views, body.wave);
    assert found == i by {
      assert found <= i;
      assert views[found].wave == found + 1;
    }
  }

  lemma {:induction false} AgreeOnWave(p: Projection, st: State, e: Event)
    requires e.body.WaveStarted? || e.body.WaveCompleted?
    requires WavesAgree(p, st) && Step(st, e).problems == []
    ensures WavesAgree(Reduce(p, e), Step(st, e))
  {
    CleanWave(st, e);
    MarkShows(p.waves, st.plan.value, st.started, st.completed, e.body, e.at);
  }

  lemma {:induction false} AgreeOnOtherEvent(p: Projection, st: State, e: Event)
    requires !e.body.WaveStarted? && !e.body.WaveCompleted?
    requires WavesAgree(p, st)
    ensures WavesAgree(Reduce(p, e), Step(st, e))
  {
    if !e.body.GraphPlanned? {
      assert Reduce(p, e).waves == p.waves;
      assert st
          == Step(st, e).(nodes := st.nodes, order := st.order, generations := st.generations, problems := st.problems);
    }
  }

  lemma {:induction false} WavesTrackChecker(events: seq<Event>)
    requires CleanSoFar(events)
    ensures WavesAgree(Project(events), Run(events))
  {
    if |events| > 1 {
      var p, st, e := Project(Front(events)), Run(Front(events)), Last(events);
      CleanFront(events);
      WavesTrackChecker(Front(events));
      if e.body.WaveStarted? || e.body.WaveCompleted? {
        AgreeOnWave(p, st, e);
      } else {
        AgreeOnOtherEvent(p, st, e);
      }
    }
  }

  /** On an accepted trace the projection and the checker hold the same open settlements, attempts and waves. */
  lemma {:induction false} ProjectionAgreesWithChecker(events: seq<Event>, node: string)
    requires Accepted(events)
    ensures NodeAgrees(Project(events), Run(events), node)
    ensures WavesAgree(Project(events), Run(events))
    ensures node in Project(events).nodes ==>
              && Project(events).nodes[node].attempts == |SettlementsOf(events, node)|
              && (Project(events).nodes[node].phase == Closed <==> Current(events, node, KSettled).Some?)
  {
    AcceptedParts(events);
    ProjectionTracksChecker(events, node);
    WavesTrackChecker(events);
    WakesLinkedThroughout(events, node);
    CheckerMatchesHistory(events, node);
  }

  // ---------------------------------------------------------------- prefixes

  /** The last act about a node is a reply that no resume has answered yet. */
  ghost predicate Unanswered(events: seq<Event>, node: string) {
    events != [] &&
    var e := Last(events);
    if e.body.Lifecycle? && e.body.node == node then e.body.act.ReplySent? else Unanswered(Front(events), node)
  }

  ghost predicate Awaits(st: State, node: string) {
    node in st.nodes && TruthyNumber(st.nodes[node].pendingReply)
  }

  lemma {:induction false} CleanPending(s: NodeState, no: int, parent: string, act: Act)
    requires StepAct(s, no, parent, act).rules == [] && no != 0
    ensures TruthyNumber(StepAct(s, no, parent, act).state.pendingReply) <==> act.ReplySent?
  {
  }

  lemma {:induction false} AwaitsStep(st: State, e: Event, node: string)
    requires Step(st, e).problems == [] && e.no != 0
    ensures Awaits(Step(st, e), node)
       <==> if e.body.Lifecycle? && e.body.node == node then e.body.act.ReplySent? else Awaits(st, node)
  {
    if e.body.Lifecycle? && e.body.node == node {
      CleanLifecycle(st, e);
      CleanPending(st.nodes[node], e.no, e.body.parent, e.body.act);
    } else if IsLaunch(e.body, node) {
      CleanLaunch(st, e);
    } else {
      OtherEvent(st, e, node);
    }
  }

  lemma {:induction false} PendingMeansUnanswered(events: seq<Event>, node: string)
    requires CleanSoFar(events)
    ensures Unanswered(events, node) <==> Awaits(Run(events), node)
  {
    if |events| == 1 {
      assert Front(events) == [];
    } else {
      CleanFront(events);
      PendingMeansUnanswered(Front(events), node);
      AwaitsStep(Run(Front(events)), Last(events), node);
    }
  }

  lemma {:induction false} OrderListsNodes(events: seq<Event>, node: string)
    requires Created(events)
    ensures node in Run(events).nodes <==> node in Run(events).order
  {
    if |events| > 1 {
      OrderListsNodes(Front(events), node);
    }
  }

  /** Some node's last act is a reply whose resume has not been seen. */
  ghost predicate AwaitsResume(events: seq<Event>) {
    exists node :: Unanswered(events, node)
  }

  lemma {:induction false} EveryReplyAnswered(events: seq<Event>)
    requires CleanSoFar(events)
    ensures AllAnswered(Run(events)) <==> !AwaitsResume(events)
  {
    var st := Run(events);
    if AllAnswered(st) {
      forall node ensures !Unanswered(events, node) {
        PendingMeansUnanswered(events, node);
        OrderListsNodes(events, node);
      }
    } else {
      var node :| node in st.order && node in st.nodes && TruthyNumber(st.nodes[node].pendingReply);
      PendingMeansUnanswered(events, node);
      assert Unanswered(events, node);
    }
  }

  lemma {:induction false} CleanPrefix(events: seq<Event>, n: nat)
    requires CleanSoFar(events) && OneRunInOrder(events) && 1 <= n <= |events|
    ensures CleanSoFar(events[..n]) && OneRunInOrder(events[..n])
    decreases |events| - n
  {
    if n < |events| {
      CleanPrefix(events, n + 1);
      assert Front(events[..n + 1]) == events[..n];
      CleanFront(events[..n + 1]);
    } else {
      assert events[..n] == events;
    }
  }

  lemma {:induction false} DanglingRule(nodes: map<string, NodeState>, order: seq<string>)
    ensures forall p :: p in Dangling(nodes, order) ==> p.rule == REPLY
  {
    if order != [] {
      DanglingRule(nodes, order[1..]);
    }
  }

  /**
   A reader that sees only the first n events of an accepted trace finds it accepted exactly when
   no reply in them still waits for its resume, and otherwise finds no other kind of problem.
   */
  lemma {:induction false} PrefixIsSafe(events: seq<Event>, n: nat)
    requires Accepted(events) && 1 <= n <= |events|
    ensures Accepted(events[..n]) <==> !AwaitsResume(events[..n])
    ensures forall p :: p in Problems(events[..n]) ==> p.rule == REPLY
  {
    var read := events[..n];
    AcceptedParts(events);
    CleanPrefix(events, n);
    AcceptedParts(read);
    EnvelopesClean(read);
    DanglingRule(Run(read).nodes, Run(read).order);
    EveryReplyAnswered(read);
  }
}
