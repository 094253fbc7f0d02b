/**
 What a reader is shown, field by field, as scans of the trace: of the acts about a node since its last
 launch, of the waves since the last plan, and of all wakes. It holds of every trace that a run begins.
 */
module ProjectionMeaning {
  import opened Options
  import opened TraceEvents
  import opened TraceChecker
  import opened TraceHistory
  import opened TraceProjector
  import opened Scans

  // ---------------------------------------------------------------- scans

  /** An act about a node and its time. */
  datatype Entry = Entry(at: int, act: Act)

  /** The acts about the node since its last launch. */
  function Log(events: seq<Event>, node: string): seq<Entry> {
    if events == [] then [] else
    var e := Last(events);
    if IsLaunch(e.body, node) then []
    else if e.body.Lifecycle? && e.body.node == node then Log(Front(events), node) + [Entry(e.at, e.body.act)]
    else Log(Front(events), node)
  }

  function LastLaunch(events: seq<Event>, node: string): (launch: Option<Event>)
    ensures launch.Some? ==> IsLaunch(launch.value.body, node)
  {
    if events == [] then None
    else if IsLaunch(Last(events).body, node) then Some(Last(events))
    else LastLaunch(Front(events), node)
  }

  // ---------------------------------------------------------------- what the scans of a node pick

  /** The phase into which an act brings its node, if any. */
  function PhaseIn(x: Entry): Option<Phase> {
    if x.act.BlockedOn? then Some(Waiting)
    else if x.act.Resumed? then Some(Running)
    else if x.act.ResultWritten? then Some(Written)
    else if x.act.ResultValidated? then (if x.act.valid then Some(Valid) else Some(Invalid))
    else if x.act.Settled? then Some(Closed)
    else None
  }

  function OutcomeIn(x: Entry): Option<Status> {
    if x.act.Settled? then Some(x.act.outcome) else None
  }

  function EndTimeIn(x: Entry): Option<int> {
    if x.act.Settled? then Some(x.at) else None
  }

  function SurfaceIn(x: Entry): Option<Option<bool>> {
    if x.act.Settled? then Some(x.act.surfaceClosed) else None
  }

  function ReplyIn(x: Entry): Option<string> {
    if x.act.ReplySent? then Some(x.act.text) else None
  }

  function NoteIn(x: Entry): Option<string> {
    if x.act.Progress? then Some(x.act.note) else None
  }

  function DeviationIn(x: Entry): Option<seq<string>> {
    if x.act.Deviation? then Some(x.act.items) else None
  }

  function CancelIn(x: Entry): Option<Act> {
    if x.act.CancelRequested? then Some(x.act) else None
  }

  function RequestIn(x: Entry): Option<string> {
    if x.act.BlockedOn? then Some(x.act.text) else None
  }

  function PathIn(x: Entry): Option<string> {
    if x.act.ResultWritten? || x.act.ResultValidated? then Some(x.act.path) else None
  }

  function ValidityIn(x: Entry): Option<bool> {
    if x.act.ResultValidated? then Some(x.act.valid) else None
  }

  /** The status of a result: what a validation says, and a settlement if it says anything. */
  function StatusIn(x: Entry): Option<Option<string>> {
    if x.act.ResultValidated? then Some(x.act.status)
    else if x.act.Settled? && x.act.resultStatus.Some? then Some(x.act.resultStatus)
    else None
  }

  /** The record of a node that was launched, from the log since then. */
  ghost predicate Shows(view: NodeView, launch: Event, log: seq<Entry>)
    requires launch.body.Launched?
  {
    && view.parent == launch.body.parent
    && view.launchedAt == launch.at
    && view.phase == OrElse(Latest(Picked(log, PhaseIn)), Running)
    && view.attempts == |Picked(log, OutcomeIn)|
    && view.replies == Picked(log, ReplyIn)
    && view.progress == Picked(log, NoteIn)
    && view.deviations == Picked(log, DeviationIn)
    && (view.cancelRequested <==> Picked(log, CancelIn) != [])
    && view.request == Latest(Picked(log, RequestIn))
    && view.resultPath == (if Picked(log, PathIn) == [] then launch.body.resultPath else Latest(Picked(log, PathIn)))
    && view.resultValid == Latest(Picked(log, ValidityIn))
    && view.resultStatus == OrElse(Latest(Picked(log, StatusIn)), None)
    && view.settledAt == Latest(Picked(log, EndTimeIn))
    && view.settledStatus == Latest(Picked(log, OutcomeIn))
    && view.surfaceClosed == OrElse(Latest(Picked(log, SurfaceIn)), None)
  }

  lemma {:induction false} ShowsNextAct(view: NodeView, launch: Event, log: seq<Entry>, x: Entry)
    requires launch.body.Launched? && Shows(view, launch, log)
    ensures Shows(ReduceAct(view, x.at, x.act), launch, log + [x])
  {
    PickedSnoc(log, x, PhaseIn);
    PickedSnoc(log, x, OutcomeIn);
    PickedSnoc(log, x, EndTimeIn);
    PickedSnoc(log, x, SurfaceIn);
    PickedSnoc(log, x, ReplyIn);
    PickedSnoc(log, x, NoteIn);
    PickedSnoc(log, x, DeviationIn);
    PickedSnoc(log, x, CancelIn);
    PickedSnoc(log, x, RequestIn);
    PickedSnoc(log, x, PathIn);
    PickedSnoc(log, x, ValidityIn);
    PickedSnoc(log, x, StatusIn);
    hide Picked;
  }

  lemma {:induction false} ShowsLaunch(launch: Event)
    requires launch.body.Launched?
    ensures Shows(Launch(launch.body.parent, launch.at, launch.body.resultPath), launch, [])
  {
  }

  ghost predicate NodeShown(p: Projection, events: seq<Event>, node: string) {
    var launch := LastLaunch(events, node);
    && (node in p.nodes <==> launch.Some?)
    && (launch.Some? ==> Shows(p.nodes[node], launch.value, Log(events, node)))
  }

  /** Every launched node is shown, with the record that the scans of its log find. */
  lemma {:induction false} ProjectionShows(events: seq<Event>, node: string)
    requires Created(events)
    ensures NodeShown(Project(events), events, node)
  {
    if |events| == 1 {
      assert Front(events) == [];
    } else {
      ProjectionShows(Front(events), node);
      ShowsNextEvent(Project(Front(events)), Front(events), Last(events), node);
      FrontLast(events);
    }
  }

  lemma {:induction false} ShowsNextEvent(p: Projection, events: seq<Event>, e: Event, node: string)
    requires NodeShown(p, events, node)
    ensures NodeShown(Reduce(p, e), events + [e], node)
  {
    assert Front(events + [e]) == events && Last(events + [e]) == e;
    hide Shows, ReduceAct, Launch, Mark;
    if IsLaunch(e.body, node) {
      ShowsLaunch(e);
    } else if e.body.Lifecycle? && e.body.node == node && node in p.nodes {
      ShowsNextAct(p.nodes[node], LastLaunch(events, node).value, Log(events, node), Entry(e.at, e.body.act));
    }
  }

  // ---------------------------------------------------------------- wakes, root and order

  function WakeIn(e: Event): Option<WakeView> {
    if e.body.Awakened? then
      Some(WakeView(e.body.node, e.body.child, e.body.childStatus, e.body.generation, e.at))
    else None
  }

  /** The wakes are the wake events of the trace, and the root is the one that the run was created with. */
  lemma {:induction false} WakesAreShown(events: seq<Event>)
    requires Created(events)
    ensures Project(events).wakes == Picked(events, WakeIn)
    ensures Project(events).root == events[0].body.root
  {
    hide Mark, ReduceAct, Launch;
    if |events| == 1 {
      assert Front(events) == [];
    } else {
      WakesAreShown(Front(events));
    }
  }

  /** The position of the first launch of a node, or the length of the trace. */
  function FirstLaunchAt(events: seq<Event>, node: string): (i: nat)
    ensures i <= |events|
    ensures i < |events| ==> IsLaunch(events[i].body, node)
    ensures forall j :: 0 <= j < i ==> !IsLaunch(events[j].body, node)
  {
    if events == [] || IsLaunch(events[0].body, node) then 0 else
    assert forall j :: 1 <= j < |events| ==> events[j] == events[1..][j - 1];
    1 + FirstLaunchAt(events[1..], node)
  }

  /** The nodes are listed once each, in the order of their first launches. */
  ghost predicate ListsLaunches(order: seq<string>, events: seq<Event>) {
    && (forall node :: node in order <==> FirstLaunchAt(events, node) < |events|)
    && forall k, l :: 0 <= k < l < |order| ==> FirstLaunchAt(events, order[k]) < FirstLaunchAt(events, order[l])
  }

  lemma {:induction false} FirstLaunchSnoc(events: seq<Event>, e: Event, node: string)
    ensures FirstLaunchAt(events + [e], node)
         == if FirstLaunchAt(events, node) < |events| then FirstLaunchAt(events, node)
            else if IsLaunch(e.body, node) then |events| else |events| + 1
  {
    var all, i, j := events + [e], FirstLaunchAt(events, node), FirstLaunchAt(events + [e], node);
    assert forall k :: 0 <= k < |events| ==> all[k] == events[k];
    assert all[|events|] == e;
  }

  lemma {:induction false} ListsNextLaunch(order: seq<string>, events: seq<Event>, e: Event)
    requires ListsLaunches(order, events)
    ensures ListsLaunches(if e.body.Launched? && e.body.node !in order then order + [e.body.node] else order,
                          events + [e])
  {
    forall node
      ensures FirstLaunchAt(events + [e], node)
           == if FirstLaunchAt(events, node) < |events| then FirstLaunchAt(events, node)
              else if IsLaunch(e.body, node) then |events| else |events| + 1
    {
      FirstLaunchSnoc(events, e, node);
    }
    var all, next := events + [e], if e.body.Launched? && e.body.node !in order then order + [e.body.node] else order;
    hide FirstLaunchAt;
    forall node ensures node in next <==> FirstLaunchAt(all, node) < |all| {
      assert node in next <==> node in order || (e.body.Launched? && node == e.body.node);
    }
    forall k, l | 0 <= k < l < |next| ensures FirstLaunchAt(all, next[k]) < FirstLaunchAt(all, next[l]) {
      assert next[k] == order[k] && order[k] in order;
      if l < |order| { assert next[l] == order[l] && order[l] in order; }
    }
  }

  lemma {:induction false} OrderIsShown(events: seq<Event>)
    requires Created(events)
    ensures ListsLaunches(Project(events).order, events)
    ensures forall node :: node in Project(events).order <==> node in Project(events).nodes
  {
    hide Mark, ReduceAct, Launch, ListsLaunches;
    if |events| == 1 {
      NothingListed(events[0]);
      assert events == [events[0]];
    } else {
      OrderIsShown(Front(events));
      FrontLast(events);
      ListsNextLaunch(Project(Front(events)).order, Front(events), Last(events));
    }
  }

  lemma {:induction false} NothingListed(e: Event)
    requires !e.body.Launched?
    ensures ListsLaunches([], [e])
  {
    forall node ensures FirstLaunchAt([e], node) == 1 {
      assert [e][0] == e;
    }
  }

  // ---------------------------------------------------------------- waves

  /** The plan in force: the last one, or none. */
  function PlanShown(events: seq<Event>): seq<seq<string>> {
    if events == [] then []
    else if Last(events).body.GraphPlanned? then Last(events).body.waves
    else PlanShown(Front(events))
  }

  /** The events about one wave since the last plan. */
  function WaveLog(events: seq<Event>, wave: int): seq<Event> {
    if events == [] || Last(events).body.GraphPlanned? then [] else
    var e := Last(events);
    if (e.body.WaveStarted? || e.body.WaveCompleted?) && e.body.wave == wave then WaveLog(Front(events), wave) + [e]
    else WaveLog(Front(events), wave)
  }

  function StartIn(e: Event): Option<int> {
    if e.body.WaveStarted? then Some(e.at) else None
  }

  function EndIn(e: Event): Option<int> {
    if e.body.WaveCompleted? then Some(e.at) else None
  }

  function MembersIn(e: Event): Option<seq<string>> {
    if e.body.WaveStarted? || e.body.WaveCompleted? then Some(e.body.members) else None
  }

  /** The waves shown: those of the plan, and behind them any others in the order in which they were first named. */
  function WavesNamed(events: seq<Event>): seq<int> {
    if events == [] then [] else
    var e, before := Last(events), WavesNamed(Front(events));
    if e.body.GraphPlanned? then seq(|e.body.waves|, i => i + 1)
    else if (e.body.WaveStarted? || e.body.WaveCompleted?) && e.body.wave !in before then before + [e.body.wave]
    else before
  }

  /** One wave: its latest members, and when it last started and ended, since the plan in force. */
  ghost predicate WaveShown(view: WaveView, events: seq<Event>) {
    var log, plan, w := WaveLog(events, view.wave), PlanShown(events), view.wave;
    && Some(view.members) == (if log != [] then Latest(Picked(log, MembersIn))
                              else if 1 <= w <= |plan| then Some(plan[w - 1]) else None)
    && view.startedAt == Latest(Picked(log, StartIn))
    && view.completedAt == Latest(Picked(log, EndIn))
  }

  /** One view for each of the waves, in their order. */
  ghost predicate Lists(views: seq<WaveView>, waves: seq<int>) {
    && |views| == |waves|
    && (forall i :: 0 <= i < |views| ==> views[i].wave == waves[i])
    && forall i, j :: 0 <= i < j < |waves| ==> waves[i] != waves[j]
  }

  ghost predicate WavesShown(views: seq<WaveView>, events: seq<Event>) {
    Lists(views, WavesNamed(events)) && forall i :: 0 <= i < |views| ==> WaveShown(views[i], events)
  }

  lemma {:induction false} WavesAreShown(events: seq<Event>)
    requires Created(events)
    ensures WavesShown(Project(events).waves, events)
  {
    hide WavesShown, Mark, Planned, ReduceAct, Launch;
    if |events| == 1 {
      NoWaves(events[0]);
      assert events == [events[0]];
    } else {
      var before, e := Front(events), Last(events);
      WavesAreShown(before);
      FrontLast(events);
      if e.body.GraphPlanned? {
        PlanIsShown(before, e);
      } else if e.body.WaveStarted? || e.body.WaveCompleted? {
        MarkIsShown(Project(before).waves, before, e);
      } else {
        OthersShowNoWave(Project(before).waves, before, e);
      }
    }
  }

  lemma {:induction false} NoWaves(e: Event)
    requires e.body.RunCreated?
    ensures WavesShown([], [e])
  {
    assert Front([e]) == [] && Last([e]) == e;
  }

  lemma {:induction false} PlanIsShown(events: seq<Event>, e: Event)
    requires e.body.GraphPlanned?
    ensures WavesShown(Planned(e.body.waves), events + [e])
  {
    assert Front(events + [e]) == events && Last(events + [e]) == e;
  }

  lemma {:induction false} OthersShowNoWave(views: seq<WaveView>, events: seq<Event>, e: Event)
    requires WavesShown(views, events)
    requires !e.body.GraphPlanned? && !e.body.WaveStarted? && !e.body.WaveCompleted?
    ensures WavesShown(views, events + [e])
  {
    assert Front(events + [e]) == events && Last(events + [e]) == e;
    hide Picked;
  }

  lemma {:induction false} UnnamedIsSilent(events: seq<Event>, wave: int)
    requires wave !in WavesNamed(events)
    ensures WaveLog(events, wave) == []
  {
    if events != [] && !Last(events).body.GraphPlanned? {
      UnnamedIsSilent(Front(events), wave);
    }
  }

  lemma {:induction false} NamedIsFound(views: seq<WaveView>, waves: seq<int>, wave: int)
    requires Lists(views, waves)
    ensures wave in waves <==> FindWave(views, wave) < |views|
  {
    var i := FindWave(views, wave);
    if wave in waves {
      var j :| 0 <= j < |views| && waves[j] == wave;
      assert views[j].wave == wave;
    }
  }

  lemma {:induction false} MarkLists(views: seq<WaveView>, waves: seq<int>, body: Body, at: int)
    requires Lists(views, waves) && (body.WaveStarted? || body.WaveCompleted?)
    ensures Lists(Mark(views, body, at), if body.wave in waves then waves else waves + [body.wave])
  {
    NamedIsFound(views, waves, body.wave);
  }

  lemma {:induction false} NextInLog(log: seq<Event>, e: Event)
    requires e.body.WaveStarted? || e.body.WaveCompleted?
    ensures Latest(Picked(log + [e], MembersIn)) == Some(e.body.members)
    ensures Latest(Picked(log + [e], StartIn))
         == if e.body.WaveStarted? then Some(e.at) else Latest(Picked(log, StartIn))
    ensures Latest(Picked(log + [e], EndIn))
         == if e.body.WaveCompleted? then Some(e.at) else Latest(Picked(log, EndIn))
  {
    PickedSnoc(log, e, MembersIn);
    PickedSnoc(log, e, StartIn);
    PickedSnoc(log, e, EndIn);
    hide Picked;
  }

  /** Times of a wave that has been named or is new. */
  lemma {:induction false} TimesSoFar(view: WaveView, events: seq<Event>)
    requires WaveShown(view, events) || (view.wave !in WavesNamed(events) && view.startedAt == view.completedAt == None)
    ensures view.startedAt == Latest(Picked(WaveLog(events, view.wave), StartIn))
    ensures view.completedAt == Latest(Picked(WaveLog(events, view.wave), EndIn))
  {
    if view.wave !in WavesNamed(events) { UnnamedIsSilent(events, view.wave); }
  }

  /** The record of a wave after one more event about it. */
  lemma {:induction false} MarkedIsShown(view: WaveView, events: seq<Event>, e: Event)
    requires WaveShown(view, events) || (view.wave !in WavesNamed(events) && view.startedAt == view.completedAt == None)
    requires (e.body.WaveStarted? || e.body.WaveCompleted?) && e.body.wave == view.wave
    ensures var marked := view.(members := e.body.members);
            WaveShown(if e.body.WaveStarted? then marked.(startedAt := Some(e.at))
                      else marked.(completedAt := Some(e.at)), events + [e])
  {
    var log := WaveLog(events, view.wave);
    TimesSoFar(view, events);
    assert WaveLog(events + [e], view.wave) == log + [e] by {
      assert Front(events + [e]) == events && Last(events + [e]) == e;
    }
    hide WaveLog, WavesNamed, PlanShown, Picked;
    NextInLog(log, e);
  }

  lemma {:induction false} OtherWaveIsShown(view: WaveView, events: seq<Event>, e: Event)
    requires WaveShown(view, events) && !e.body.GraphPlanned?
    requires (e.body.WaveStarted? || e.body.WaveCompleted?) ==> e.body.wave != view.wave
    ensures WaveShown(view, events + [e])
  {
    assert Front(events + [e]) == events && Last(events + [e]) == e;
    hide Picked;
  }

  lemma {:induction false} MarkShowsEach(views: seq<WaveView>, events: seq<Event>, e: Event, k: nat)
    requires WavesShown(views, events) && (e.body.WaveStarted? || e.body.WaveCompleted?)
    requires k < |Mark(views, e.body, e.at)|
    ensures WaveShown(Mark(views, e.body, e.at)[k], events + [e])
  {
    var i := FindWave(views, e.body.wave);
    NamedIsFound(views, WavesNamed(events), e.body.wave);
    hide WaveShown, WavesNamed;
    if k == i {
      MarkedIsShown(if i < |views| then views[i] else WaveView(e.body.wave, e.body.members, None, None), events, e);
    } else {
      assert views[k].wave != e.body.wave;
      OtherWaveIsShown(views[k], events, e);
    }
  }

  lemma {:induction false} MarkIsShown(views: seq<WaveView>, events: seq<Event>, e: Event)
    requires WavesShown(views, events) && (e.body.WaveStarted? || e.body.WaveCompleted?)
    ensures WavesShown(Mark(views, e.body, e.at), events + [e])
  {
    assert Front(events + [e]) == events && Last(events + [e]) == e;
    var waves, named := WavesNamed(events), WavesNamed(events + [e]);
    assert named == if e.body.wave in waves then waves else waves + [e.body.wave];
    hide Mark, WaveShown, Lists, WavesNamed;
    MarkLists(views, waves, e.body, e.at);
    forall k | 0 <= k < |Mark(views, e.body, e.at)| ensures WaveShown(Mark(views, e.body, e.at)[k], events + [e]) {
      MarkShowsEach(views, events, e, k);
    }
  }
}
