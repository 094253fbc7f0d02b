/**
 The writer's view of a trace: backward scans over the whole history. The linking lemmas
 show that on a trace without problems these scans give exactly the per-node records
 that the checker keeps incrementally.
 */
module TraceHistory {
  import opened Options
  import opened TraceEvents
  import opened TraceChecker

  datatype Kind = KBlocked | KWritten | KDeviation | KValidated | KSettled | KCancel | KResumed | KOther

  function KindOf(act: Act): Kind {
    match act
    case BlockedOn(_) => KBlocked
    case ResultWritten(_) => KWritten
    case Deviation(_) => KDeviation
    case ResultValidated(_, _, _, _) => KValidated
    case Settled(_, _, _) => KSettled
    case CancelRequested => KCancel
    case Resumed(_) => KResumed
    case _ => KOther
  }

  predicate IsAct(b: Body, node: string, kind: Kind) {
    b.Lifecycle? && b.node == node && KindOf(b.act) == kind
  }

  predicate IsLaunch(b: Body, node: string) {
    b.Launched? && b.node == node
  }

  /** The last event of one kind about one node, if any. */
  function LastAct(events: seq<Event>, node: string, kind: Kind): (found: Option<Event>)
    ensures found.Some? ==> found.value in events && IsAct(found.value.body, node, kind)
  {
    if events == [] then None
    else if IsAct(Last(events).body, node, kind) then Some(Last(events))
    else LastAct(Front(events), node, kind)
  }

  /** The first launch of a node, if any. */
  function LaunchOf(events: seq<Event>, node: string): (found: Option<Event>)
    ensures found.Some? ==> found.value in events && IsLaunch(found.value.body, node)
  {
    if events == [] then None
    else if IsLaunch(events[0].body, node) then Some(events[0])
    else LaunchOf(events[1..], node)
  }

  function NoOf(found: Option<Event>): Option<int> {
    if found.Some? then Some(found.value.no) else None
  }

  predicate Later(found: Option<Event>, than: Event) {
    found.Some? && found.value.no > than.no
  }

  /** The last event of a kind, unless the node was resumed after it. */
  function Current(events: seq<Event>, node: string, kind: Kind): (found: Option<Event>)
    ensures found.Some? ==> IsAct(found.value.body, node, kind)
  {
    var last := LastAct(events, node, kind);
    if last.Some? && !Later(LastAct(events, node, KResumed), last.value) then last else None
  }

  /** The status of the settlement in force, if the node is settled. */
  function Outcome(events: seq<Event>, node: string): Option<Status> {
    var settled := Current(events, node, KSettled);
    if settled.None? then None else Some(settled.value.body.act.outcome)
  }

  /** Sequence numbers run 1, 2, 3, ... */
  predicate Numbered(events: seq<Event>) {
    forall i :: 0 <= i < |events| ==> events[i].no == i + 1
  }

  predicate CleanSoFar(events: seq<Event>) {
    Created(events) && Numbered(events) && Run(events).problems == []
  }

  // ---------------------------------------------------------------- the fold, one event at a time

  lemma {:induction false} Snoc(events: seq<Event>, e: Event)
    ensures Front(events + [e]) == events && Last(events + [e]) == e
    ensures Created(events) ==> Created(events + [e]) && Run(events + [e]) == Step(Run(events), e)
  {
    assert Front(events + [e]) == events;
  }

  lemma {:induction false} StepKeepsProblems(st: State, e: Event)
    ensures |Step(st, e).problems| >= |st.problems|
    ensures Step(st, e).problems == [] ==> st.problems == []
  {
  }

  lemma {:induction false} CleanFront(events: seq<Event>)
    requires CleanSoFar(events) && |events| > 1
    ensures CleanSoFar(Front(events))
  {
    StepKeepsProblems(Run(Front(events)), Last(events));
  }

  lemma {:induction false} LastActNumber(events: seq<Event>, node: string, kind: Kind)
    requires Numbered(events)
    ensures LastAct(events, node, kind).Some? ==> 1 <= LastAct(events, node, kind).value.no <= |events|
  {
    if events != [] {
      LastActNumber(Front(events), node, kind);
    }
  }

  lemma {:induction false} CurrentSnoc(events: seq<Event>, e: Event, node: string, kind: Kind)
    requires Numbered(events + [e]) && kind != KResumed
    ensures Current(events + [e], node, kind)
         == if IsAct(e.body, node, kind) then Some(e)
            else if IsAct(e.body, node, KResumed) then None
            else Current(events, node, kind)
  {
    Snoc(events, e);
    assert Numbered(events) by {
      forall i | 0 <= i < |events| ensures events[i].no == i + 1 { assert (events + [e])[i] == events[i]; }
    }
    assert e.no == |events| + 1 by { assert (events + [e])[|events|] == e; }
    LastActNumber(events, node, kind);
    LastActNumber(events, node, KResumed);
  }

  lemma {:induction false} LaunchOfSnoc(events: seq<Event>, e: Event, node: string)
    ensures LaunchOf(events + [e], node)
         == if LaunchOf(events, node).Some? then LaunchOf(events, node)
            else if IsLaunch(e.body, node) then Some(e) else None
  {
    if events != [] {
      assert (events + [e])[1..] == events[1..] + [e];
      LaunchOfSnoc(events[1..], e, node);
    } else {
      assert (events + [e])[1..] == [];
    }
  }

  // ---------------------------------------------------------------- linking

  /** Everything that the backward scans find about one node in its current attempt. */
  datatype Scan = Scan(launch: Option<Event>, settled: Option<Event>, blocked: Option<Event>,
                       deviation: Option<Event>, cancel: Option<Event>)

  function ScanOf(events: seq<Event>, node: string): Scan {
    Scan(LaunchOf(events, node), Current(events, node, KSettled), Current(events, node, KBlocked),
         Current(events, node, KDeviation), Current(events, node, KCancel))
  }

  function Renew(found: Option<Event>, e: Event, node: string, kind: Kind): Option<Event> {
    if IsAct(e.body, node, kind) then Some(e)
    else if IsAct(e.body, node, KResumed) then None
    else found
  }

  function NextScan(scan: Scan, e: Event, node: string): Scan {
    Scan(if scan.launch.None? && IsLaunch(e.body, node) then Some(e) else scan.launch,
         Renew(scan.settled, e, node, KSettled), Renew(scan.blocked, e, node, KBlocked),
         Renew(scan.deviation, e, node, KDeviation), Renew(scan.cancel, e, node, KCancel))
  }

  lemma {:induction false} ScanSnoc(events: seq<Event>, e: Event, node: string)
    requires Numbered(events + [e])
    ensures ScanOf(events + [e], node) == NextScan(ScanOf(events, node), e, node)
  {
    LaunchOfSnoc(events, e, node);
    CurrentSnoc(events, e, node, KSettled);
    CurrentSnoc(events, e, node, KBlocked);
    CurrentSnoc(events, e, node, KDeviation);
    CurrentSnoc(events, e, node, KCancel);
  }

  predicate SameSettlement(found: Option<Event>, settled: Option<Settlement>) {
    if found.None? then settled.None?
    else
      && found.value.body.Lifecycle? && found.value.body.act.Settled?
      && settled == Some(Settlement(found.value.body.act.outcome, found.value.no))
  }

  /** The checker's record of a node is what the scans find. */
  predicate Linked(scan: Scan, st: State, node: string) {
    if node in st.nodes then
      var s := st.nodes[node];
      && scan.launch.Some? && scan.launch.value.body.Launched?
      && s.parent == scan.launch.value.body.parent
      && SameSettlement(scan.settled, s.settled)
      && s.blockedNo == NoOf(scan.blocked)
      && s.deviationNo == NoOf(scan.deviation)
      && s.cancelNo == NoOf(scan.cancel)
    else scan == Scan(None, None, None, None, None)
  }

  /** What an act that draws no complaint does to the record of its node. */
  lemma {:induction false} CleanAct(s: NodeState, no: int, parent: string, act: Act)
    requires StepAct(s, no, parent, act).rules == []
    ensures var t := StepAct(s, no, parent, act).state;
            && parent == s.parent == t.parent
            && t.settled == (if act.Settled? then Some(Settlement(act.outcome, no))
                             else if act.Resumed? then None else s.settled)
            && t.blockedNo == (if act.BlockedOn? then Some(no) else if act.Resumed? then None else s.blockedNo)
            && t.deviationNo == (if act.Deviation? then Some(no) else if act.Resumed? then None else s.deviationNo)
            && t.cancelNo == (if act.CancelRequested? then Some(no) else if act.Resumed? then None else s.cancelNo)
            && t.settlements == (if act.Settled? then s.settlements + [Settlement(act.outcome, no)] else s.settlements)
            && t.wakeCount == s.wakeCount
  {
  }

  lemma {:induction false} WaveKeepsNodes(st: State, no: int, body: Body)
    requires body.WaveStarted? || body.WaveCompleted?
    ensures StepWave(st, no, body).nodes == st.nodes
  {
  }

  /** An event that is not about a node leaves the fields of its record that the scans recover. */
  lemma {:induction false} OtherEvent(st: State, e: Event, node: string)
    requires !(e.body.Lifecycle? && e.body.node == node) && !IsLaunch(e.body, node)
    ensures node in st.nodes <==> node in Step(st, e).nodes
    ensures node in st.nodes ==> Step(st, e).nodes[node].(wakeCount := 0) == st.nodes[node].(wakeCount := 0)
  {
    hide StepWave, StepAct;
    if e.body.WaveStarted? || e.body.WaveCompleted? {
      WaveKeepsNodes(st, e.no, e.body);
    }
  }

  lemma {:induction false} CleanLifecycle(st: State, e: Event)
    requires e.body.Lifecycle? && Step(st, e).problems == []
    ensures e.body.node in st.nodes
    ensures var v := StepAct(st.nodes[e.body.node], e.no, e.body.parent, e.body.act);
            v.rules == [] && Step(st, e) == st.(nodes := st.nodes[e.body.node := v.state])
  {
    var v := StepAct(st.nodes[e.body.node], e.no, e.body.parent, e.body.act);
    assert |At(e.no, v.rules)| == |v.rules|;
    assert st.problems + At(e.no, []) == st.problems;
  }

  lemma {:induction false} CleanLaunch(st: State, e: Event)
    requires e.body.Launched? && Step(st, e).problems == []
    ensures e.body.node !in st.nodes
    ensures Step(st, e).nodes == st.nodes[e.body.node := Fresh(e.body.parent)]
  {
  }

  lemma {:induction false} LinkStep(scan: Scan, st: State, e: Event, node: string)
    requires Step(st, e).problems == [] && Linked(scan, st, node)
    ensures Linked(NextScan(scan, e, node), Step(st, e), node)
  {
    if e.body.Lifecycle? && e.body.node == node {
      CleanLifecycle(st, e);
      CleanAct(st.nodes[node], e.no, e.body.parent, e.body.act);
    } else if IsLaunch(e.body, node) {
      CleanLaunch(st, e);
    } else {
      OtherEvent(st, e, node);
    }
  }

  /** On a clean trace the incremental checker and the backward scans agree on every node. */
  lemma {:induction false} CheckerMatchesHistory(events: seq<Event>, node: string)
    requires CleanSoFar(events)
    ensures Linked(ScanOf(events, node), Run(events), node)
  {
    if |events| == 1 {
      assert Front(events) == [];
      assert events[1..] == [];
    } else {
      FrontLast(events);
      CleanFront(events);
      CheckerMatchesHistory(Front(events), node);
      ScanSnoc(Front(events), Last(events), node);
      LinkStep(ScanOf(Front(events), node), Run(Front(events)), Last(events), node);
    }
  }

  /** A node that was never launched has no events of its own. */
  lemma {:induction false} UnlaunchedIsSilent(events: seq<Event>, node: string, kind: Kind)
    requires CleanSoFar(events) && node !in Run(events).nodes
    ensures LastAct(events, node, kind).None?
  {
    if |events| == 1 {
      assert Front(events) == [];
    } else {
      var st, e := Run(Front(events)), Last(events);
      CleanFront(events);
      if e.body.Lifecycle? {
        CleanLifecycle(st, e);
      }
      if IsLaunch(e.body, node) {
        CleanLaunch(st, e);
      } else if !(e.body.Lifecycle? && e.body.node == node) {
        OtherEvent(st, e, node);
      }
      UnlaunchedIsSilent(Front(events), node, kind);
    }
  }
}
