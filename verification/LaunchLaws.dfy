/** Launches meet the checker exactly when the wave they start is planned and in turn. */
module LaunchLaws {
  import opened Options
  import opened TraceEvents
  import opened TraceChecker
  import opened TraceHistory
  import opened TraceWriter
  import opened WriterReplay
  import opened WriterLaws

  /** The wave is the first one, or the wave before it has been completed. */
  predicate InTurn(events: seq<Event>, wave: int) {
    wave == 1 || WaveCompletedIn(events, wave - 1)
  }

  /** The manifest's wave is the planned one; before a plan exists the manifest becomes the plan. */
  predicate AsPlanned(events: seq<Event>, req: LaunchRequest)
    requires req.Valid() && req.manifest.Some?
  {
    var plan := FirstPlan(events);
    plan.None? || (req.wave <= |plan.value| && plan.value[req.wave - 1] == req.manifest.value.waves[req.wave - 1])
  }

  /** What a launcher has to check before it launches. */
  predicate LaunchGuard(events: seq<Event>, req: LaunchRequest)
    requires req.Valid()
  {
    req.manifest.Some? && !WaveStartedIn(events, req.wave) ==> AsPlanned(events, req) && InTurn(events, req.wave)
  }

  lemma {:induction false} StartStage(st: State, no: int, wave: int, members: seq<string>)
    requires Tidy(st) && st.problems == [] && st.plan.Some? && wave !in st.started && wave >= 1
    ensures var t := StepBody(st, no, WaveStarted(wave, members));
            && (t.problems == [] <==> wave <= |st.plan.value| && members == st.plan.value[wave - 1]
                                      && (wave == 1 || wave - 1 in st.completed))
            && t == st.(started := st.started + {wave}, problems := t.problems)
            && (t.problems == [] ==> Tidy(t))
  {
    var t := StepBody(st, no, WaveStarted(wave, members));
    if wave == 1 || wave - 1 in st.completed {
      assert wave == |st.started| + 1 by {
        if wave > 1 {
          assert wave - 1 in st.started;
        }
        assert wave in st.started <==> 1 <= wave <= |st.started|;
      }
      assert |t.started| == wave;
    }
  }

  lemma {:induction false} PlanStage(st: State, no: int, waves: seq<seq<string>>)
    requires Tidy(st) && st.plan.None?
    ensures StepBody(st, no, GraphPlanned(waves)) == st.(plan := Some(waves))
    ensures Tidy(StepBody(st, no, GraphPlanned(waves)))
  {
    assert st.completed == {};
  }

  lemma {:induction false} NodeStage(st: State, no: int, launch: Body)
    requires Tidy(st) && launch.Launched? && launch.parent == ROOT_NODE && launch.node !in st.nodes
    ensures var t := StepBody(st, no, launch);
            && t.problems == st.problems
            && t == st.(nodes := st.nodes[launch.node := Fresh(ROOT_NODE)], order := t.order, problems := t.problems)
            && Tidy(t)
  {
    assert st.problems + At(no, []) == st.problems;
  }

  lemma {:induction false} ReplayOne(st: State, no: int, b: Body)
    ensures Replay(st, no, [b]) == StepBody(st, no, b)
  {
    assert [b][1..] == [];
  }

  lemma {:induction false} WaveLaunchReplay(events: seq<Event>, st: State, no: int, req: LaunchRequest)
    requires Mirror(events, st) && Tidy(st) && st.problems == [] && req.Valid()
    ensures var after := Replay(st, no, WaveLaunchDrafts(events, req));
            && (after.problems == [] <==> LaunchGuard(events, req))
            && after.nodes == st.nodes
            && (after.problems == [] ==> Tidy(after))
  {
    if req.manifest.Some? {
      var waves := req.manifest.value.waves;
      var plan := if st.plan.None? then [GraphPlanned(waves)] else [];
      var planned := if st.plan.None? then st.(plan := Some(waves)) else st;
      assert Replay(st, no, plan) == planned && Tidy(planned) by {
        if st.plan.None? {
          PlanStage(st, no, waves);
          ReplayOne(st, no, GraphPlanned(waves));
        }
      }
      var start := WaveStarted(req.wave, waves[req.wave - 1]);
      if WaveStartedIn(events, req.wave) {
        assert WaveLaunchDrafts(events, req) == plan;
      } else {
        assert WaveLaunchDrafts(events, req) == plan + [start];
        ReplayConcat(st, no, plan, [start]);
        ReplayOne(planned, no + |plan|, start);
        StartStage(planned, no + |plan|, req.wave, waves[req.wave - 1]);
      }
    }
  }

  /** The drafts of a launch on an existing trace. */
  function LaunchRest(events: seq<Event>, req: LaunchRequest): seq<Body>
    requires req.Valid()
  {
    WaveLaunchDrafts(events, req) + NodeLaunchDrafts(events, req)
  }

  lemma {:induction false} LaunchReplay(events: seq<Event>, st: State, no: int, req: LaunchRequest)
    requires Mirror(events, st) && Tidy(st) && st.problems == [] && req.Valid()
    requires req.node in st.nodes <==> LaunchOf(events, req.node).Some?
    ensures var after := Replay(st, no, LaunchRest(events, req));
            && (after.problems == [] <==> LaunchGuard(events, req))
            && (after.problems == [] ==> Tidy(after))
    ensures PlansOnce(st, LaunchRest(events, req))
  {
    hide StepBody, LaunchGuard;
    var waves, nodes := WaveLaunchDrafts(events, req), NodeLaunchDrafts(events, req);
    WaveLaunchReplay(events, st, no, req);
    var mid := Replay(st, no, waves);
    ReplayConcat(st, no, waves, nodes);
    if nodes != [] {
      ReplayOne(mid, no + |waves|, nodes[0]);
      if mid.problems == [] {
        NodeStage(mid, no + |waves|, nodes[0]);
      } else {
        StepKeepsProblems(mid, Event(no + |waves|, 0, "", nodes[0]));
      }
    }
    assert st.completed <= st.started;
  }

  lemma {:induction false} LaunchOnTrace(events: seq<Event>, req: LaunchRequest, now: int, run: string)
    requires WriterInv(events, run) && events != [] && req.Valid()
    ensures var after := Appended(events, LaunchRest(events, req), now, run);
            && (Accepted(after) <==> LaunchGuard(events, req))
            && (Accepted(after) ==> WriterInv(after, run))
  {
    hide Replay, LaunchGuard, LaunchRest;
    CheckerMatchesHistory(events, req.node);
    LaunchReplay(events, Run(events), |events| + 1, req);
    var drafts := LaunchRest(events, req);
    if LaunchGuard(events, req) {
      AppendKeepsInv(events, drafts, now, run);
    } else {
      AppendRejected(events, drafts, now, run);
    }
  }

  /** The first launch creates the run; everything else then happens as on a one-event trace. */
  lemma {:induction false} LaunchOnEmpty(req: LaunchRequest, now: int, run: string)
    requires req.Valid()
    ensures var created := [Event(1, now, run, RunCreated(ROOT_NODE))];
            && WriterInv(created, run)
            && (LaunchGuard([], req) <==> LaunchGuard(created, req))
            && Appended([], LaunchDrafts([], req), now, run) == Appended(created, LaunchRest(created, req), now, run)
  {
    var created := [Event(1, now, run, RunCreated(ROOT_NODE))];
    var none: seq<Event> := [];
    assert created[1..] == none;
    assert FirstPlan(created) == FirstPlan(none) && LaunchOf(created, req.node) == LaunchOf(none, req.node);
    assert forall w :: WaveStartedIn(created, w) <==> WaveStartedIn(none, w);
    assert forall w :: WaveCompletedIn(created, w) <==> WaveCompletedIn(none, w);
    var rest := LaunchRest(created, req);
    assert LaunchDrafts(none, req) == [RunCreated(ROOT_NODE)] + rest;
    assert Stamp([RunCreated(ROOT_NODE)] + rest, 1, now, run) == created + Stamp(rest, 2, now, run);
  }

  /** A launch yields an accepted trace exactly when the wave that it starts is planned and in turn. */
  lemma {:induction false} LaunchAcceptedIff(events: seq<Event>, req: LaunchRequest, now: int, run: string)
    requires WriterInv(events, run) && req.Valid()
    ensures var after := Appended(events, LaunchDrafts(events, req), now, run);
            && (Accepted(after) <==> LaunchGuard(events, req))
            && (Accepted(after) ==> WriterInv(after, run))
            && LaunchOf(after, req.node).Some?
  {
    if events == [] {
      var created := [Event(1, now, run, RunCreated(ROOT_NODE))];
      LaunchOnEmpty(req, now, run);
      LaunchOnTrace(created, req, now, run);
      LaunchRecorded(created, req, now, run);
    } else {
      assert LaunchDrafts(events, req) == LaunchRest(events, req);
      LaunchOnTrace(events, req, now, run);
      LaunchRecorded(events, req, now, run);
    }
  }

  lemma {:induction false} LaunchPersists(events: seq<Event>, more: seq<Event>, node: string)
    ensures LaunchOf(events, node).Some? ==> LaunchOf(events + more, node) == LaunchOf(events, node)
    ensures LaunchOf(events, node).None? ==> LaunchOf(events + more, node) == LaunchOf(more, node)
  {
    if events == [] {
      assert events + more == more;
    } else {
      assert (events + more)[1..] == events[1..] + more;
      LaunchPersists(events[1..], more, node);
    }
  }

  lemma {:induction false} LaunchFound(events: seq<Event>, node: string, i: nat)
    requires i < |events| && IsLaunch(events[i].body, node)
    ensures LaunchOf(events, node).Some?
  {
    if i > 0 && !IsLaunch(events[0].body, node) {
      LaunchFound(events[1..], node, i - 1);
    }
  }

  lemma {:induction false} LaunchRecorded(events: seq<Event>, req: LaunchRequest, now: int, run: string)
    requires req.Valid()
    ensures LaunchOf(Appended(events, LaunchRest(events, req), now, run), req.node).Some?
  {
    hide WaveLaunchDrafts;
    var drafts := LaunchRest(events, req);
    if LaunchOf(events, req.node).Some? {
      if drafts != [] {
        LaunchPersists(events, Stamp(drafts, LastNo(events) + 1, AppendTime(events, now), run), req.node);
      }
    } else {
      var after := Appended(events, drafts, now, run);
      assert IsLaunch(drafts[|drafts| - 1], req.node);
      LaunchFound(after, req.node, |after| - 1);
    }
  }

  /** Whatever the trace, after a launch its node has a launch event. */
  lemma {:induction false} LaunchLeavesLaunch(events: seq<Event>, req: LaunchRequest, now: int, run: string)
    requires req.Valid()
    ensures LaunchOf(Appended(events, LaunchDrafts(events, req), now, run), req.node).Some?
  {
    hide WaveLaunchDrafts;
    var drafts := LaunchDrafts(events, req);
    if LaunchOf(events, req.node).Some? {
      if drafts != [] {
        LaunchPersists(events, Stamp(drafts, LastNo(events) + 1, AppendTime(events, now), run), req.node);
      }
    } else {
      var after := Appended(events, drafts, now, run);
      assert IsLaunch(drafts[|drafts| - 1], req.node);
      LaunchFound(after, req.node, |after| - 1);
    }
  }
}
