/**
 The reducer that folds a trace into what a reader sees: one record per node, the waves of
 the latest plan, and the list of wakes.
 */
module TraceProjector {
  import opened Options
  import opened TraceEvents
  import opened TraceChecker

  datatype Phase = Running | Waiting | Written | Valid | Invalid | Closed

  datatype NodeView = NodeView(
    parent: string,
    phase: Phase,
    launchedAt: int,
    settledAt: Option<int>,
    attempts: nat,
    replies: seq<string>,
    cancelRequested: bool,
    progress: seq<string>,
    deviations: seq<seq<string>>,
    request: Option<string>,
    resultPath: Option<string>,
    resultValid: Option<bool>,
    resultStatus: Option<string>,
    settledStatus: Option<Status>,
    surfaceClosed: Option<bool>)

  datatype WaveView = WaveView(wave: int, members: seq<string>, startedAt: Option<int>, completedAt: Option<int>)

  datatype WakeView = WakeView(parent: string, child: string, status: Status, generation: int, at: int)

  datatype Projection = Projection(
    root: string,
    waves: seq<WaveView>,
    nodes: map<string, NodeView>,
    order: seq<string>,
    wakes: seq<WakeView>)

  function Launch(parent: string, at: int, resultPath: Option<string>): NodeView {
    NodeView(parent, Running, at, None, 0, [], false, [], [], None, resultPath, None, None, None, None)
  }

  function ReduceAct(n: NodeView, at: int, act: Act): NodeView {
    match act
    case Progress(note) => n.(progress := n.progress + [note])
    case BlockedOn(text) => n.(phase := Waiting, request := Some(text))
    case ReplySent(text, _) => n.(replies := n.replies + [text])
    case CancelRequested => n.(cancelRequested := true)
    case Resumed(_) => n.(phase := Running)
    case ResultWritten(path) => n.(phase := Written, resultPath := Some(path))
    case Deviation(items) => n.(deviations := n.deviations + [items])
    case ResultValidated(path, valid, _, status) =>
      n.(phase := if valid then Valid else Invalid, resultPath := Some(path), resultValid := Some(valid),
         resultStatus := status)
    case Settled(outcome, resultStatus, surfaceClosed) =>
      n.(phase := Closed, attempts := n.attempts + 1, settledAt := Some(at), settledStatus := Some(outcome),
         resultStatus := if resultStatus.Some? then resultStatus else n.resultStatus,
         surfaceClosed := surfaceClosed)
  }

  function Planned(plan: seq<seq<string>>): (views: seq<WaveView>)
    ensures |views| == |plan|
  {
    seq(|plan|, i requires 0 <= i < |plan| => WaveView(i + 1, plan[i], None, None))
  }

  /** The position of the first view of a wave, or the length of the list. */
  function FindWave(views: seq<WaveView>, wave: int): (i: nat)
    ensures i <= |views|
    ensures forall j :: 0 <= j < i ==> views[j].wave != wave
    ensures i < |views| ==> views[i].wave == wave
  {
    if views == [] || views[0].wave == wave then 0 else 1 + FindWave(views[1..], wave)
  }

  function Mark(views: seq<WaveView>, body: Body, at: int): seq<WaveView>
    requires body.WaveStarted? || body.WaveCompleted?
  {
    var i := FindWave(views, body.wave);
    var all := if i < |views| then views else views + [WaveView(body.wave, body.members, None, None)];
    var view := all[i].(members := body.members);
    all[i := if body.WaveStarted? then view.(startedAt := Some(at)) else view.(completedAt := Some(at))]
  }

  function Reduce(p: Projection, e: Event): Projection {
    match e.body
    case RunCreated(_) => p
    case GraphPlanned(plan) => p.(waves := Planned(plan))
    case WaveStarted(_, _) => p.(waves := Mark(p.waves, e.body, e.at))
    case WaveCompleted(_, _) => p.(waves := Mark(p.waves, e.body, e.at))
    case Launched(node, parent, resultPath, _, _) =>
      p.(nodes := p.nodes[node := Launch(parent, e.at, resultPath)],
         order := if node in p.nodes then p.order else p.order + [node])
    case Awakened(node, child, status, generation) =>
      p.(wakes := p.wakes + [WakeView(node, child, status, generation, e.at)])
    case Lifecycle(node, _, act) =>
      if node in p.nodes then p.(nodes := p.nodes[node := ReduceAct(p.nodes[node], e.at, act)]) else p
  }

  function Project(events: seq<Event>): Projection
    requires Created(events)
  {
    if |events| == 1 then Projection(events[0].body.root, [], map[], [], [])
    else Reduce(Project(Front(events)), Last(events))
  }

  // ---------------------------------------------------------------- the loop

  /** The switch over acts, updating one node record. */
  method ReduceLifecycle(node: NodeView, at: int, act: Act) returns (n: NodeView)
    ensures n == ReduceAct(node, at, act)
  {
    n := node;
    match act {
      case Progress(note) => n := n.(progress := n.progress + [note]);
      case BlockedOn(text) =>
        n := n.(phase := Waiting);
        n := n.(request := Some(text));
      case ReplySent(text, _) => n := n.(replies := n.replies + [text]);
      case CancelRequested => n := n.(cancelRequested := true);
      case Resumed(_) => n := n.(phase := Running);
      case ResultWritten(path) =>
        n := n.(phase := Written);
        n := n.(resultPath := Some(path));
      case Deviation(items) => n := n.(deviations := n.deviations + [items]);
      case ResultValidated(path, valid, _, status) =>
        n := n.(phase := if valid then Valid else Invalid);
        n := n.(resultPath := Some(path));
        n := n.(resultValid := Some(valid));
        n := n.(resultStatus := status);
      case Settled(outcome, resultStatus, surfaceClosed) =>
        n := n.(phase := Closed);
        n := n.(attempts := n.attempts + 1);
        n := n.(settledAt := Some(at));
        n := n.(settledStatus := Some(outcome));
        if resultStatus.Some? { n := n.(resultStatus := resultStatus); }
        n := n.(surfaceClosed := surfaceClosed);
    }
  }

  method ProjectTrace(events: seq<Event>) returns (p: Projection)
    requires Created(events)
    ensures p == Project(events)
  {
    var waves: seq<WaveView> := [];
    var nodes: map<string, NodeView> := map[];
    var order: seq<string> := [];
    var wakes: seq<WakeView> := [];
    for i := 1 to |events|
      invariant Projection(events[0].body.root, waves, nodes, order, wakes) == Project(events[..i])
    {
      var e := events[i];
      assert Front(events[..i + 1]) == events[..i] && Last(events[..i + 1]) == e;
      match e.body {
        case RunCreated(_) =>
        case GraphPlanned(plan) => waves := Planned(plan);
        case WaveStarted(wave, members) =>
          var at := FindWave(waves, wave);
          if at == |waves| { waves := waves + [WaveView(wave, members, None, None)]; }
          waves := waves[at := waves[at].(members := members, startedAt := Some(e.at))];
        case WaveCompleted(wave, members) =>
          var at := FindWave(waves, wave);
          if at == |waves| { waves := waves + [WaveView(wave, members, None, None)]; }
          waves := waves[at := waves[at].(members := members, completedAt := Some(e.at))];
        case Launched(node, parent, resultPath, _, _) =>
          if node !in nodes { order := order + [node]; }
          nodes := nodes[node := Launch(parent, e.at, resultPath)];
        case Awakened(node, child, status, generation) =>
          wakes := wakes + [WakeView(node, child, status, generation, e.at)];
        case Lifecycle(node, _, act) =>
          if node in nodes {
            var n := ReduceLifecycle(nodes[node], e.at, act);
            nodes := nodes[node := n];
          }
      }
    }
    assert events[..|events|] == events;
    p := Projection(events[0].body.root, waves, nodes, order, wakes);
  }
}
