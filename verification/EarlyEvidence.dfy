/**
 The buffer of early evidence, which arrives between a launch call and its result. An entry stays
 until later evidence of its run replaces it or a launch result takes it; it is then applied exactly
 when the recorded node has an attempt to settle, whatever stops are pending.
 */
module EarlyEvidence {
  import opened Options
  import opened TraceEvents
  import opened TraceHistory
  import opened TraceWriter
  import opened WriterReplay
  import opened WriterLaws
  import opened WriterRuns
  import opened WriterDiscipline
  import opened HostModel
  import opened HostLaws
  import opened ParkedEvidence

  // ---------------------------------------------------------------- what disturbs an entry

  /** Observing the delivery puts it into the buffer: no stop, nothing to settle, and a launch pending. */
  predicate BecomesEarly(h: Host, d: Delivery, env: Env) {
    !StopPending(h, d.evidence.runId) && !Applies(h, d, env) && |h.pending| > 0
  }

  /** The host at the end of a stop, with the evidence of its run taken out of the held buffer. */
  function Cleared(h: Host, call: string, stop: Stop): Host {
    h.(finishing := h.finishing - multiset{(call, stop)},
       stops := if call in h.stops && h.stops[call] == stop then h.stops - {call} else h.stops,
       held := h.held - {stop.runId})
  }

  /** The input replaces the early entry of the run or takes it out. */
  predicate Disturbs(h: Host, input: Input, env: Env, runId: string)
    requires runId in h.early
  {
    match input
    case Observed(d) => d.evidence.runId == runId && d != h.early[runId] && BecomesEarly(h, d, env)
    case StopFinish(call, stop) =>
      && (call, stop) in h.finishing && stop.runId == runId && runId in h.held && h.held[runId] != h.early[runId]
      && BecomesEarly(Cleared(h, call, stop), h.held[runId], env)
    case LaunchResult(call, details) => details.runId == Some(runId) && Recorded(h, call, details, env).Some?
    case Reset => true
    case _ => false
  }

  ghost predicate SameEntry(h: Host, later: Host, runId: string)
    requires runId in h.early
  {
    runId in later.early && later.early[runId] == h.early[runId]
  }

  lemma {:induction false} ObservedEarly(h: Host, d: Delivery, env: Env)
    ensures Observe(h, d, env).early == if BecomesEarly(h, d, env) then h.early[d.evidence.runId := d] else h.early
  {
    hide Settle, Applies;
    SettleApplies(h, d, env);
  }

  /** An early entry is replaced by later evidence of its run exactly when that evidence becomes early itself. */
  lemma {:induction false} EarlyReplacedIff(h: Host, d: Delivery, env: Env)
    requires d.evidence.runId in h.early && h.early[d.evidence.runId] != d
    ensures var later, runId := Handle(h, Observed(d), env), d.evidence.runId;
            && runId in later.early
            && (later.early[runId] == d <==> !StopPending(h, runId) && !Applies(h, d, env) && |h.pending| > 0)
            && (later.early[runId] != d ==> later.early == h.early)
  {
    hide Observe, Applies, StopPending;
    ObservedEarly(h, d, env);
  }

  /** An early entry survives an input exactly unless the input disturbs it. */
  lemma {:induction false} EarlyStaysIff(h: Host, input: Input, env: Env, runId: string)
    requires Filed(h) && runId in h.early
    ensures SameEntry(h, Handle(h, input, env), runId) <==> !Disturbs(h, input, env, runId)
  {
    hide Observe, HandleLaunchResult, BeginStopResult, Recorded, BecomesEarly;
    match input
    case Observed(d) => ObservedEarly(h, d, env);
    case LaunchResult(call, details) =>
      LaunchAppliesIff(h, call, details, env);
      RecordedIs(h, call, details, env);
    case StopResult(call, stopped, reported) => BeginStopWrites(h, call, stopped, reported, env);
    case StopFinish(call, stop) =>
      if (call, stop) in h.finishing && stop.runId in h.held {
        ObservedEarly(Cleared(h, call, stop), h.held[stop.runId], env);
      }
    case _ =>
  }

  /** No input of the interleaving disturbs the entry at the time when it is handled. */
  ghost predicate Undisturbed(h: Host, inputs: seq<Occurrence>, runId: string)
    decreases |inputs|
  {
    inputs != [] ==>
      && runId in h.early && !Disturbs(h, inputs[0].input, inputs[0].env, runId)
      && Undisturbed(Handle(h, inputs[0].input, inputs[0].env), inputs[1..], runId)
  }

  lemma {:induction false} EarlyWaitsThrough(h: Host, inputs: seq<Occurrence>, runId: string)
    requires Filed(h) && runId in h.early && Undisturbed(h, inputs, runId)
    ensures SameEntry(h, HandleAll(h, inputs), runId)
    decreases |inputs|
  {
    hide Handle, Filed, Disturbs;
    if inputs != [] {
      EarlyStaysIff(h, inputs[0].input, inputs[0].env, runId);
      HandlerFiles(h, inputs[0].input, inputs[0].env);
      EarlyWaitsThrough(Handle(h, inputs[0].input, inputs[0].env), inputs[1..], runId);
    }
  }

  // ---------------------------------------------------------------- applying at the launch

  /** The target under which a launch result settles, once recorded. */
  function RecordedTarget(h: Host, call: string, details: LaunchDetails, env: Env): Target
    requires Recorded(h, call, details, env).Some?
  {
    RecordedIs(h, call, details, env);
    Recorded(h, call, details, env).value.targets[details.runId.value]
  }

  /** The trace of that target with the drafts of the launch result, but before any settlement. */
  function RecordedTrace(h: Host, call: string, details: LaunchDetails, env: Env): seq<Event>
    requires Recorded(h, call, details, env).Some?
  {
    TraceOf(Recorded(h, call, details, env).value.traces, RecordedTarget(h, call, details, env).run)
  }

  lemma {:induction false} RecordedKeeps(h: Host, call: string, details: LaunchDetails, env: Env)
    requires HostInv(h, false) && Recorded(h, call, details, env).Some?
    ensures HostInv(Recorded(h, call, details, env).value, false)
  {
    hide HostInv, ReplyTo, RecordLaunch, FindTracked, KnownTarget, TracesInv;
    var input, cleared, runId := h.pending[call], h.(pending := h.pending - {call}), details.runId.value;
    SameWritten(h, cleared, false);
    var reply := ReplyTarget(cleared, input, details, env);
    if reply.Some? {
      InvHasTraces(cleared);
      FindIsKnown(cleared.traces, env.dir, ByName(details.agentName.value, true), false);
      ReplyKeeps(cleared, reply.value, input.prompt.value, runId, env, false);
    } else {
      RecordKeeps(cleared, input, details, runId, env, false);
    }
  }

  lemma {:induction false} InvHasTraces(h: Host)
    requires HostInv(h, false)
    ensures TracesInv(h.traces, false)
  {
  }

  /** A remembered target has a trace that the host wrote and that launches its node. */
  lemma {:induction false} RememberedIsWritten(h: Host, runId: string)
    requires HostInv(h, false) && runId in h.targets
    ensures var t := h.targets[runId]; var events := TraceOf(h.traces, t.run);
            Written(events, t.run, false) && Known(events, t.node, ROOT_NODE)
  {
    hide Disciplined, ActsAreLaunched, BlocksAreAsked;
    var t := h.targets[runId];
    assert KnownTarget(h.traces, t);
    var events := TraceOf(h.traces, t.run);
    assert t.run in h.traces;
    WrittenParts(events, t.run, false);
    LaunchIsByRoot(events, t.node);
  }

  /** Evidence about a remembered target settles exactly when the target's trace allows it. */
  lemma {:induction false} RememberedAppliesIff(h: Host, d: Delivery, env: Env)
    requires HostInv(h, false) && d.evidence.runId in h.targets
    ensures var t := h.targets[d.evidence.runId]; var events := TraceOf(h.traces, t.run);
            && Resolve(h, d, env) == Some(t)
            && (Applies(h, d, env) <==> Settles(events, d.evidence, t.node))
            && (Applies(h, d, env) ==>
                  Settle(h, d, env).applied == h.applied + [Application(d.evidence.token, t.run, |events|)]
                  && Outcome(TraceOf(Settle(h, d, env).traces, t.run), t.node)
                     == Some(SettledStatus(d.evidence, ArtifactFor(events, d.evidence, env.files, t.node))))
  {
    hide Written, HostInv, Settles, SettledStatus, ArtifactFor, WaveDrafts, CoreDrafts, Outcome;
    var t := h.targets[d.evidence.runId];
    var events := TraceOf(h.traces, t.run);
    var artifact := ArtifactFor(events, d.evidence, env.files, t.node);
    var drafts := SettlementDrafts(events, d.evidence, artifact, t.node);
    RememberedIsWritten(h, d.evidence.runId);
    WrittenParts(events, t.run, false);
    CoreIsNotEmpty(events, d.evidence, artifact, t.node);
    if Settles(events, d.evidence, t.node) {
      AppendedIsOrderly(events, drafts, env.now, t.run);
      SettlesAtEnd(events, d.evidence, artifact, t.node, env.now, t.run);
    }
  }

  lemma {:induction false} CoreIsNotEmpty(events: seq<Event>, s: Evidence, artifact: Artifact, node: string)
    ensures CoreDrafts(events, s, artifact, node, ROOT_NODE) != []
  {
  }

  /**
   A launch result that is recorded takes the early evidence of its run out of the buffer and applies it
   exactly when the trace, with the drafts of the launch result, has an attempt for it to settle.
   */
  lemma {:induction false} EarlyAppliedIff(h: Host, call: string, details: LaunchDetails, env: Env)
    requires HostInv(h, false) && Filed(h) && Recorded(h, call, details, env).Some? && details.runId.value in h.early
    ensures var d := h.early[details.runId.value];
            var later, t := HandleLaunchResult(h, call, details, env), RecordedTarget(h, call, details, env);
            var events := RecordedTrace(h, call, details, env);
            && details.runId.value !in later.early && later.stops == h.stops
            && (later.applied != h.applied <==> Settles(events, d.evidence, t.node))
            && (later.applied != h.applied ==>
                  later.applied == h.applied + [Application(d.evidence.token, t.run, |events|)]
                  && Outcome(TraceOf(later.traces, t.run), t.node).Some?)
  {
    hide Settles, Settle, Applies, Recorded, HostInv, Outcome, Resolve, SettledStatus, ArtifactFor;
    RecordedIs(h, call, details, env);
    var runId := details.runId.value;
    var d, recorded := h.early[runId], Recorded(h, call, details, env).value;
    RecordedKeeps(h, call, details, env);
    var ready := recorded.(early := recorded.early - {runId});
    SameWritten(recorded, ready, false);
    RememberedAppliesIff(ready, d, env);
    SettleApplies(ready, d, env);
    LaunchAppliesIff(h, call, details, env);
    assert HandleLaunchResult(h, call, details, env) == Settle(ready, d, env);
  }

  // ---------------------------------------------------------------- replies and new nodes

  /** The launch result resumes a blocked node, or its node is new to the trace that it goes to. */
  predicate OpensAttempt(h: Host, call: string, details: LaunchDetails, env: Env)
    requires Recorded(h, call, details, env).Some?
  {
    var input, runId := h.pending[call], details.runId.value;
    ReplyTarget(h, input, details, env).Some?
    || (var node := RequestFor(input, details, runId, env).node;
        node != "" && LaunchOf(TraceOf(h.traces, LogicalRun(input, runId, env)), node).None?)
  }

  lemma {:induction false} ReplyOpens(events: seq<Event>, node: string, parent: string, text: string, now: int,
                                      run: string)
    requires Orderly(events, run) && AwaitsReply(events, node)
    ensures OpenAttempt(Appended(events, ReplyDrafts(events, node, parent, text), now, run), node)
  {
    hide LastAct;
    var drafts := ReplyDrafts(events, node, parent, text);
    var after := Appended(events, drafts, now, run);
    AppendedIsOrderly(events, drafts, now, run);
    assert |after| == |events| + 2;
    assert after[|events| + 1].body == drafts[1] && IsAct(drafts[1], node, KResumed);
    LastActPosition(after, node, KResumed, |events| + 1);
    LastActIsIndexed(after, node, KSettled);
    assert !IsAct(after[|events| + 1].body, node, KSettled);
  }

  lemma {:induction false} NewNodeIsOpen(events: seq<Event>, req: LaunchRequest, now: int, run: string)
    requires ActsAreLaunched(events) && req.Valid() && LaunchOf(events, req.node).None?
    ensures OpenAttempt(Appended(events, LaunchDrafts(events, req), now, run), req.node)
  {
    hide LaunchDrafts;
    var drafts := LaunchDrafts(events, req);
    UnlaunchedHasNoActs(events, req.node, KSettled);
    LaunchConcernsNone(events, req, req.node);
    if drafts != [] {
      var more := AppendedIs(events, drafts, now, run);
      LastActUnchanged(events, more, req.node, KSettled);
    }
  }

  /** A blocked node found by agent name has an identifier and waits for a reply. */
  lemma {:induction false} FoundIsBlocked(events: seq<Event>, n: nat, match_: Match, best: Latest, run: string)
    requires n <= |events| && match_.ByName? && match_.blocked && Orderly(events, run)
    ensures var found := LatestIn(events, n, match_, best);
            found == best
            || (found.Latest? && found.target.run == run && found.target.node != ""
                && Outcome(events, found.target.node) == Some(Blocked))
  {
    if n > 0 {
      FoundIsBlocked(events, n - 1, match_, best, run);
    }
  }

  lemma {:induction false} FoundAcrossIsBlocked(traces: map<string, seq<Event>>, dir: seq<string>, match_: Match)
    requires TracesInv(traces, false) && match_.ByName? && match_.blocked
    ensures var found := LatestAcross(traces, dir, match_);
            found.Latest? ==> found.target.node != "" && found.target.run in traces
                              && Outcome(TraceOf(traces, found.target.run), found.target.node) == Some(Blocked)
  {
    hide Matches, Written, Outcome;
    if dir != [] {
      FoundAcrossIsBlocked(traces, Front(dir), match_);
      if Last(dir) in traces {
        var events := traces[Last(dir)];
        WrittenParts(events, Last(dir), false);
        FoundIsBlocked(events, |events|, match_, LatestAcross(traces, Front(dir), match_), Last(dir));
      }
    }
  }

  lemma {:induction false} ReplyTargetAwaits(h: Host, input: LaunchInput, details: LaunchDetails, env: Env)
    requires HostInv(h, false) && ReplyTarget(h, input, details, env).Some?
    ensures var t := ReplyTarget(h, input, details, env).value;
            && t.node != "" && t.run in h.traces && AwaitsReply(TraceOf(h.traces, t.run), t.node)
            && Orderly(TraceOf(h.traces, t.run), t.run)
  {
    hide LatestAcross, Written, AwaitsReply, TargetsKnown, Outcome;
    FoundAcrossIsBlocked(h.traces, env.dir, ByName(details.agentName.value, true));
    var t := ReplyTarget(h, input, details, env).value;
    WrittenParts(TraceOf(h.traces, t.run), t.run, false);
    BlockedAwaitsReply(TraceOf(h.traces, t.run), t.node);
  }

  /** After a reply, and after the launch of a new node, the attempt is open. */
  lemma {:induction false} RecordedIsOpen(h: Host, call: string, details: LaunchDetails, env: Env)
    requires HostInv(h, false) && Recorded(h, call, details, env).Some? && OpensAttempt(h, call, details, env)
    ensures OpenAttempt(RecordedTrace(h, call, details, env), RecordedTarget(h, call, details, env).node)
    ensures RecordedTarget(h, call, details, env).node != ""
  {
    hide FindTracked, LogicalRun, RequestFor, OpenAttempt, ReplyDrafts, LaunchDrafts, HostInv, AwaitsReply;
    var input, cleared, runId := h.pending[call], h.(pending := h.pending - {call}), details.runId.value;
    var reply := ReplyTarget(cleared, input, details, env);
    if reply.Some? {
      var t := reply.value;
      ReplyTargetAwaits(h, input, details, env);
      ReplyOpens(TraceOf(h.traces, t.run), t.node, t.parent, input.prompt.value, env.now, t.run);
    } else {
      var run, req := LogicalRun(input, runId, env), RequestFor(input, details, runId, env);
      TraceKnowsActs(h, run);
      NewNodeIsOpen(TraceOf(h.traces, run), req, env.now, run);
    }
  }

  lemma {:induction false} TraceKnowsActs(h: Host, run: string)
    requires HostInv(h, false)
    ensures ActsAreLaunched(TraceOf(h.traces, run))
  {
    hide Disciplined, BlocksAreAsked;
  }

  /** Early evidence is always applied when a reply resumes its node or its node is launched for the first time. */
  lemma {:induction false} EarlyEvidenceIsApplied(h: Host, call: string, details: LaunchDetails, env: Env)
    requires HostInv(h, false) && Filed(h) && Recorded(h, call, details, env).Some? && details.runId.value in h.early
    requires OpensAttempt(h, call, details, env)
    ensures var d := h.early[details.runId.value];
            var later, t := HandleLaunchResult(h, call, details, env), RecordedTarget(h, call, details, env);
            && details.runId.value !in later.early && later.stops == h.stops
            && later.applied
               == h.applied + [Application(d.evidence.token, t.run, |RecordedTrace(h, call, details, env)|)]
            && Outcome(TraceOf(later.traces, t.run), t.node).Some?
  {
    hide HostInv, Filed, Recorded, HandleLaunchResult, OpensAttempt, OpenAttempt, Outcome, RecordedTarget,
         RecordedTrace;
    EarlyAppliedIff(h, call, details, env);
    RecordedIsOpen(h, call, details, env);
  }

  /**
   Evidence that finds nothing to settle while a launch is pending waits through any interleaving that
   does not disturb it, and is then applied exactly when the recorded launch leaves an attempt to settle.
   */
  lemma {:induction false} EvidenceSeenEarlyIsApplied(h: Host, d: Delivery, seen: Env, between: seq<Occurrence>,
                                                     call: string, details: LaunchDetails, env: Env)
    requires HostInv(h, false) && Filed(h) && BecomesEarly(h, d, seen) && details.runId == Some(d.evidence.runId)
    requires Undisturbed(Handle(h, Observed(d), seen), between, d.evidence.runId)
    requires Recorded(HandleAll(Handle(h, Observed(d), seen), between), call, details, env).Some?
    ensures var waiting := HandleAll(Handle(h, Observed(d), seen), between);
            var later := Handle(waiting, LaunchResult(call, details), env);
            var t := RecordedTarget(waiting, call, details, env);
            var events := RecordedTrace(waiting, call, details, env);
            && d.evidence.runId !in later.early
            && (Settles(events, d.evidence, t.node) <==>
                  later.applied == waiting.applied + [Application(d.evidence.token, t.run, |events|)])
            && (!Settles(events, d.evidence, t.node) ==> later.applied == waiting.applied)
  {
    hide HandleAll, HandleLaunchResult, HostInv, Recorded, RecordedTarget, RecordedTrace, Settles, Filed, Undisturbed;
    hide Observe, BecomesEarly;
    var first := Handle(h, Observed(d), seen);
    ObservedEarly(h, d, seen);
    HandlerFiles(h, Observed(d), seen);
    EarlyWaitsThrough(first, between, d.evidence.runId);
    RunFiles(first, between);
    HandlerKeepsInv(h, Observed(d), seen, false);
    InterleavingKeepsInv(first, between, false);
    EarlyAppliedIff(HandleAll(first, between), call, details, env);
  }

  // ---------------------------------------------------------------- limits

  const QUIET := Env(0, map[], [], map[])

  const EARLY_KILL := Delivery(Evidence(0, "1", true, AgentOther, None, None, None, "", None, None), false)

  const EARLY_DONE := Delivery(Evidence(1, "1", false, AgentDone, None, None, None, "", None, None), false)

  const PLAIN_LAUNCH := LaunchDetails(Some("1"), false, None, "builder", true, None, Some(true), EARLY_KILL.evidence)

  const WAITING := Idle.(pending := map["c" := LaunchInput(None, None)], early := map["1" := EARLY_KILL])

  lemma {:induction false} KillIsEarly()
    ensures Handle(Handle(Idle, LaunchCall("c", LaunchInput(None, None)), QUIET), Observed(EARLY_KILL), QUIET)
         == WAITING
    ensures !Applies(WAITING, EARLY_DONE, QUIET)
  {
    var start := Idle.(pending := map["c" := LaunchInput(None, None)]);
    assert Handle(Idle, LaunchCall("c", LaunchInput(None, None)), QUIET) == start;
    assert !Applies(start, EARLY_KILL, QUIET);
  }

  /** A kill that waits for its launch is replaced by weaker evidence of its run. */
  lemma {:induction false} EarlyKillIsDisplaced()
    ensures HandleAll(Idle, [Occurrence(LaunchCall("c", LaunchInput(None, None)), QUIET),
                             Occurrence(Observed(EARLY_KILL), QUIET), Occurrence(Observed(EARLY_DONE), QUIET)])
         == WAITING.(early := map["1" := EARLY_DONE])
  {
    hide HandleAll, Observe;
    KillIsEarly();
    ThreeInputs(Idle, [Occurrence(LaunchCall("c", LaunchInput(None, None)), QUIET),
                       Occurrence(Observed(EARLY_KILL), QUIET), Occurrence(Observed(EARLY_DONE), QUIET)]);
    DoneReplacesKill();
  }

  lemma {:induction false} DoneReplacesKill()
    ensures Handle(WAITING, Observed(EARLY_DONE), QUIET) == WAITING.(early := map["1" := EARLY_DONE])
  {
    hide Applies;
    KillIsEarly();
    NothingApplied(WAITING, EARLY_DONE, QUIET);
    assert WAITING.early["1" := EARLY_DONE] == map["1" := EARLY_DONE];
  }

  /** A launch is pending, its run was killed before the result came, and a stop of it is pending. */
  const RACE := WAITING.(stops := map["s" := Stop(0, "1")], serial := 1)

  const RACE_INPUTS := [Occurrence(LaunchCall("c", LaunchInput(None, None)), QUIET),
                        Occurrence(Observed(EARLY_KILL), QUIET), Occurrence(StopCall("s", Some("1")), QUIET)]

  lemma {:induction false} RaceIsReachable()
    ensures HandleAll(Idle, RACE_INPUTS) == RACE
  {
    hide HandleAll, Observe;
    KillIsEarly();
    ThreeInputs(Idle, RACE_INPUTS);
    assert Handle(WAITING, StopCall("s", Some("1")), QUIET) == RACE;
  }

  lemma {:induction false} RaceRecords()
    ensures HostInv(RACE, false) && Filed(RACE)
    ensures Recorded(RACE, "c", PLAIN_LAUNCH, QUIET).Some? && OpensAttempt(RACE, "c", PLAIN_LAUNCH, QUIET)
  {
    hide RecordLaunch;
  }

  /** Early evidence does not wait for stops: a run in which it is applied while one is pending. */
  lemma {:induction false} EarlyEvidenceIgnoresStops()
    ensures exists inputs :: |HandleAll(Idle, inputs).applied| == 1 && StopPending(HandleAll(Idle, inputs), "1")
  {
    hide HandleLaunchResult, HandleAll, Recorded, OpensAttempt, HostInv, Filed, RecordedTrace, RecordedTarget;
    RaceIsReachable();
    RaceRecords();
    EarlyEvidenceIsApplied(RACE, "c", PLAIN_LAUNCH, QUIET);
    HandleOneMore(Idle, RACE_INPUTS, Occurrence(LaunchResult("c", PLAIN_LAUNCH), QUIET));
    var later := HandleLaunchResult(RACE, "c", PLAIN_LAUNCH, QUIET);
    assert "s" in later.stops && later.stops["s"].runId == "1";
    assert HandleAll(Idle, RACE_INPUTS + [Occurrence(LaunchResult("c", PLAIN_LAUNCH), QUIET)]) == later;
  }
}
