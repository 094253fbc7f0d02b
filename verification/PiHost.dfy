/**
 The host adapter as the repository runs it: a trace store on disk and an object whose handlers
 update its maps. Each handler is proved to perform the corresponding step of the host model.
 */
module PiHost {
  import opened Options
  import opened TraceEvents
  import opened TraceHistory
  import opened TraceWriter
  import opened HostModel

  /** The traces directory; an update of one run reads, stamps and appends while holding the run. */
  class TraceStore {
    var traces: map<string, seq<Event>>

    constructor ()
      ensures traces == map[]
    {
      traces := map[];
    }

    method Update(run: string, drafts: seq<Body>, now: int)
      modifies this
      ensures traces == Write(old(traces), run, drafts, now)
    {
      if |drafts| == 0 { return; }
      var events := TraceOf(traces, run);
      var at := if events != [] && events[|events| - 1].at > now then events[|events| - 1].at else now;
      var no := if events == [] then 0 else events[|events| - 1].no;
      var appended: seq<Event> := [];
      for i := 0 to |drafts|
        invariant no == LastNo(events) + i
        invariant appended == Stamp(drafts[..i], LastNo(events) + 1, at, run)
      {
        no := no + 1;
        appended := appended + [Event(no, at, run, drafts[i])];
      }
      assert drafts[..|drafts|] == drafts;
      traces := traces[run := events + appended];
    }
  }

  /** The drafts of one settlement, pushed one by one. */
  method BuildSettlement(events: seq<Event>, s: Evidence, artifact: Artifact, node: string) returns (drafts: seq<Body>)
    ensures drafts == SettlementDrafts(events, s, artifact, node)
  {
    var launch := LaunchOf(events, node);
    if launch.None? || node == "" || launch.value.body.parent == "" { return []; }
    var parent := launch.value.body.parent;
    var native := NativeStatus(s);
    var lastSettlement := LastAct(events, node, KSettled);
    var lastResume := LastAct(events, node, KResumed);
    var openAttempt := lastSettlement.None? || Later(lastResume, lastSettlement.value);
    var blockedCancellation := native == Cancelled && lastSettlement.Some?
                               && lastSettlement.value.body.act.outcome == Blocked
                               && NoOr0(LastAct(events, node, KCancel)) > lastSettlement.value.no;
    if !openAttempt && !blockedCancellation { return []; }
    var acts := BuildActs(events, s, artifact, node, lastResume, blockedCancellation);
    var status := if (native == Done || native == Blocked) && !artifact.valid then Stalled else native;
    drafts := About(node, parent, acts);
    drafts := drafts + [Awakened(parent, node, status, NextGeneration(events, parent))];
    var plan := FirstPlan(events);
    if plan.Some? {
      var i := WaveIndex(plan.value, node);
      if i < |plan.value| && WaveStartedIn(events, i + 1) && !WaveCompletedIn(events, i + 1)
         && forall c :: c in plan.value[i] ==> NodeIsSettled(Bodies(events) + drafts, c)
      {
        drafts := drafts + [WaveCompleted(i + 1, plan.value[i])];
      }
    }
  }

  method BuildActs(events: seq<Event>, s: Evidence, artifact: Artifact, node: string,
                   lastResume: Option<Event>, blockedCancellation: bool) returns (acts: seq<Act>)
    requires lastResume == LastAct(events, node, KResumed)
    requires blockedCancellation == BlockedCancellation(events, s, node)
    ensures acts == SettlementActs(events, s, artifact, node)
  {
    acts := [];
    var native := NativeStatus(s);
    var priorBlocked := LastAct(events, node, KBlocked);
    if native == Blocked && (priorBlocked.None? || Later(lastResume, priorBlocked.value)) {
      acts := acts + [BlockedOn(RequestText(s, artifact))];
    }
    ghost var asked := acts;
    if !blockedCancellation && artifact.present && TruthyText(artifact.path) {
      var path := artifact.path.value;
      var evidence := [ResultWritten(path)];
      var priorDeviation := LastAct(events, node, KDeviation);
      if artifact.deviations != [] && (priorDeviation.None? || Later(lastResume, priorDeviation.value)) {
        evidence := evidence + [Deviation(artifact.deviations)];
      }
      evidence := evidence + [ResultValidated(path, artifact.valid,
                                              if artifact.valid then artifact.notes else artifact.problems,
                                              if artifact.valid then artifact.status else None)];
      acts := acts + evidence;
      assert evidence == ResultActs(events, artifact, node);
    }
    var status := if (native == Done || native == Blocked) && !artifact.valid then Stalled else native;
    acts := acts + [Settled(status, if artifact.valid then artifact.status else None, SurfaceClosed(s))];
  }

  /** Scans the traces in directory order for the latest matching launch. */
  method FindTrackedNode(traces: map<string, seq<Event>>, dir: seq<string>, match_: Match)
    returns (found: Option<Target>)
    ensures found == FindTracked(traces, dir, match_)
  {
    var latest := Nothing;
    for i := 0 to |dir|
      invariant latest == LatestAcross(traces, dir[..i], match_)
    {
      assert Front(dir[..i + 1]) == dir[..i] && Last(dir[..i + 1]) == dir[i];
      var events := TraceOf(traces, dir[i]);
      for j := 0 to |events|
        invariant latest == LatestIn(events, j, match_, LatestAcross(traces, dir[..i], match_))
      {
        var e := events[j];
        if Matches(events, e, match_) && (latest.Nothing? || e.at >= latest.at) {
          latest := Latest(e.at, TargetOf(e));
        }
      }
    }
    assert dir[..|dir|] == dir;
    found := if latest.Nothing? then None else Some(latest.target);
  }

  class Adapter {
    const store: TraceStore
    var pending: map<string, LaunchInput>
    var pendingStops: map<string, Stop>
    var earlySettlements: map<string, Delivery>
    var heldSettlements: map<string, Delivery>
    var detachTargets: map<string, Target>
    var finishing: multiset<(string, Stop)>
    var serial: nat
    ghost var applied: seq<Application>

    ghost function View(): Host
      reads this, store
    {
      Host(store.traces, pending, pendingStops, earlySettlements, heldSettlements, detachTargets, finishing, serial,
           applied)
    }

    constructor ()
      ensures View() == Idle && fresh(store)
    {
      store := new TraceStore();
      pending, pendingStops, earlySettlements, heldSettlements := map[], map[], map[], map[];
      detachTargets, finishing, serial, applied := map[], multiset{}, 0, [];
    }

    method ResolveRun(runId: string, env: Env) returns (target: Option<Target>)
      ensures target == StopTarget(View(), runId, env)
    {
      if runId in detachTargets {
        target := Some(detachTargets[runId]);
      } else {
        target := FindTrackedNode(store.traces, env.dir, ByRun(runId));
      }
    }

    method ResolveTarget(d: Delivery, env: Env) returns (target: Option<Target>)
      ensures target == Resolve(View(), d, env)
    {
      target := ResolveRun(d.evidence.runId, env);
      if target.None? && d.byName && d.evidence.agentName.Some? {
        target := FindTrackedNode(store.traces, env.dir, ByName(d.evidence.agentName.value, false));
      }
    }

    /** Applies evidence to its node; tells whether anything was written. */
    method SettleNow(d: Delivery, env: Env) returns (observed: bool)
      modifies this`applied, store
      ensures View() == Settle(old(View()), d, env)
      ensures observed == Applies(old(View()), d, env)
    {
      var target := ResolveTarget(d, env);
      if target.None? { return false; }
      var run, node := target.value.run, target.value.node;
      var events := TraceOf(store.traces, run);
      var artifact := ArtifactFor(events, d.evidence, env.files, node);
      var drafts := BuildSettlement(events, d.evidence, artifact, node);
      observed := |drafts| > 0;
      if observed { applied := applied + [Application(d.evidence.token, run, |events|)]; }
      store.Update(run, drafts, env.now);
    }

    method ObserveSettlement(d: Delivery, env: Env)
      modifies this`applied, this`heldSettlements, this`earlySettlements, store
      ensures View() == Observe(old(View()), d, env)
    {
      var key := d.evidence.runId;
      if exists call :: call in pendingStops && pendingStops[call].runId == key {
        if key !in heldSettlements || d.evidence.killed {
          heldSettlements := heldSettlements[key := d];
        }
        return;
      }
      var observed := SettleNow(d, env);
      if !observed && |pending| > 0 {
        earlySettlements := earlySettlements[key := d];
      }
    }

    method ReleaseHeldSettlement(runId: string, env: Env)
      modifies this`applied, this`heldSettlements, this`earlySettlements, store
      ensures View() == Release(old(View()), runId, env)
    {
      if runId !in heldSettlements { return; }
      var held := heldSettlements[runId];
      heldSettlements := heldSettlements - {runId};
      ObserveSettlement(held, env);
    }

    method OnLaunchCall(call: string, input: LaunchInput)
      modifies this`pending
      ensures forall env :: View() == Handle(old(View()), LaunchCall(call, input), env)
    {
      pending := pending[call := input];
    }

    method OnStopCall(call: string, runId: Option<string>)
      modifies this`pendingStops, this`serial
      ensures forall env :: View() == Handle(old(View()), StopCall(call, runId), env)
    {
      if TruthyText(runId) {
        pendingStops := pendingStops[call := Stop(serial, runId.value)];
        serial := serial + 1;
      }
    }

    /** The first half of a stop result, up to its append. */
    method OnStopResult(call: string, stopped: bool, reported: Option<string>, env: Env)
      modifies this`finishing, store
      ensures View() == Handle(old(View()), StopResult(call, stopped, reported), env)
    {
      if call !in pendingStops { return; }
      var captured := pendingStops[call];
      if stopped && TruthyText(reported) && reported.value == captured.runId {
        var target := ResolveRun(captured.runId, env);
        if target.Some? {
          var t := target.value;
          store.Update(t.run, CancelDrafts(TraceOf(store.traces, t.run), t.node, t.parent), env.now);
        }
      }
      finishing := finishing + multiset{(call, captured)};
    }

    /** The second half: the clean-up that runs whatever happened to the append. */
    method OnStopFinish(call: string, captured: Stop, env: Env)
      modifies this`finishing, this`pendingStops, this`applied, this`heldSettlements, this`earlySettlements, store
      ensures View() == Handle(old(View()), StopFinish(call, captured), env)
    {
      hide Observe, Release, BeginStopResult, HandleLaunchResult, CallStop;
      if (call, captured) !in finishing { return; }
      finishing := finishing - multiset{(call, captured)};
      if call in pendingStops && pendingStops[call] == captured {
        pendingStops := pendingStops - {call};
      }
      ReleaseHeldSettlement(captured.runId, env);
    }

    method SettleAfterLaunch(runId: string, details: LaunchDetails, env: Env)
      modifies this`applied, this`earlySettlements, store
      ensures View() == SettleEarly(old(View()), runId, details, env)
    {
      if runId in earlySettlements {
        var early := earlySettlements[runId];
        earlySettlements := earlySettlements - {runId};
        var _ := SettleNow(early, env);
      } else if details.promoted == Some(false) {
        var _ := SettleNow(Delivery(details.inline.(runId := runId), true), env);
      }
    }

    method OnLaunchResult(call: string, details: LaunchDetails, env: Env)
      modifies this`pending, this`applied, this`earlySettlements, this`detachTargets, store
      ensures View() == Handle(old(View()), LaunchResult(call, details), env)
    {
      if call !in pending { return; }
      var input := pending[call];
      pending := pending - {call};
      if !TruthyText(details.runId) { return; }
      var runId := details.runId.value;
      if details.existing && TruthyText(details.agentName) && TruthyText(input.prompt) {
        var reply := FindTrackedNode(store.traces, env.dir, ByName(details.agentName.value, true));
        if reply.Some? {
          var t := reply.value;
          store.Update(t.run, ReplyDrafts(TraceOf(store.traces, t.run), t.node, t.parent, input.prompt.value), env.now);
          detachTargets := detachTargets[runId := t.(detachRun := runId)];
          SettleAfterLaunch(runId, details, env);
          return;
        }
      }
      if !details.identified { return; }
      var run, req := LogicalRun(input, runId, env), RequestFor(input, details, runId, env);
      store.Update(run, LaunchDrafts(TraceOf(store.traces, run), req), env.now);
      detachTargets := detachTargets[runId := Target(run, req.node, ROOT_NODE, runId, details.agentName)];
      SettleAfterLaunch(runId, details, env);
    }

    method ClearRuntimeState()
      modifies this
      ensures forall env :: View() == Handle(old(View()), Reset, env)
    {
      pending, pendingStops, earlySettlements, heldSettlements, detachTargets := map[], map[], map[], map[], map[];
    }
  }
}
