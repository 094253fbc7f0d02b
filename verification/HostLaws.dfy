/**
 What every interleaving of host inputs keeps. Traces are always disciplined, grow only at their ends
 and are about launched nodes; they are legal as well when the inputs respect the guards.
 */
module HostLaws {
  import opened Options
  import opened TraceEvents
  import opened TraceChecker
  import opened TraceHistory
  import opened TraceWriter
  import opened WriterReplay
  import opened WriterLaws
  import opened LaunchLaws
  import opened WriterRuns
  import opened WriterDiscipline
  import opened HostModel

  // ---------------------------------------------------------------- invariants

  /** A trace that the host may have written; a legal one is accepted by the checker, too. */
  ghost predicate Written(events: seq<Event>, run: string, legal: bool) {
    && Disciplined(events, run) && ActsAreLaunched(events) && BlocksAreAsked(events)
    && (legal ==> WriterInv(events, run))
  }

  ghost predicate TracesInv(traces: map<string, seq<Event>>, legal: bool) {
    forall run :: run in traces ==> traces[run] != [] && Written(traces[run], run, legal)
  }

  ghost predicate KnownTarget(traces: map<string, seq<Event>>, t: Target) {
    Known(TraceOf(traces, t.run), t.node, t.parent)
  }

  ghost predicate Grows(traces: map<string, seq<Event>>, later: map<string, seq<Event>>) {
    forall run :: run in traces ==> run in later && traces[run] <= later[run]
  }

  ghost predicate TargetsKnown(h: Host) {
    forall k :: k in h.targets ==> KnownTarget(h.traces, h.targets[k])
  }

  ghost predicate HostInv(h: Host, legal: bool) {
    TracesInv(h.traces, legal) && TargetsKnown(h)
  }

  // ---------------------------------------------------------------- correlation finds only launched nodes

  lemma {:induction false} LaunchIsKnown(events: seq<Event>, i: nat)
    requires LaunchesByRoot(events) && i < |events| && events[i].body.Launched?
    ensures Known(events, events[i].body.node, events[i].body.parent)
  {
    LaunchFound(events, events[i].body.node, i);
    LaunchIsByRoot(events, events[i].body.node);
  }

  ghost predicate KnownLatest(traces: map<string, seq<Event>>, found: Latest) {
    found.Latest? ==> KnownTarget(traces, found.target)
  }

  lemma {:induction false} LatestInIsKnown(traces: map<string, seq<Event>>, run: string, n: nat, match_: Match,
                                           best: Latest, legal: bool)
    requires TracesInv(traces, legal) && run in traces && n <= |traces[run]|
    requires KnownLatest(traces, best)
    ensures KnownLatest(traces, LatestIn(traces[run], n, match_, best))
  {
    if n > 0 {
      var e := traces[run][n - 1];
      LatestInIsKnown(traces, run, n - 1, match_, best, legal);
      if Matches(traces[run], e, match_) {
        LaunchIsKnown(traces[run], n - 1);
        assert e.run == run;
      }
    }
  }

  lemma {:induction false} FoundIsKnown(traces: map<string, seq<Event>>, dir: seq<string>, match_: Match, legal: bool)
    requires TracesInv(traces, legal)
    ensures KnownLatest(traces, LatestAcross(traces, dir, match_))
  {
    if dir != [] {
      FoundIsKnown(traces, Front(dir), match_, legal);
      if Last(dir) in traces {
        LatestInIsKnown(traces, Last(dir), |traces[Last(dir)]|, match_,
                        LatestAcross(traces, Front(dir), match_), legal);
      }
    }
  }

  lemma {:induction false} FindIsKnown(traces: map<string, seq<Event>>, dir: seq<string>, match_: Match, legal: bool)
    requires TracesInv(traces, legal)
    ensures FindTracked(traces, dir, match_).Some? ==> KnownTarget(traces, FindTracked(traces, dir, match_).value)
  {
    hide LatestAcross, TracesInv, Known;
    FoundIsKnown(traces, dir, match_, legal);
  }

  lemma {:induction false} StopTargetIsKnown(h: Host, runId: string, env: Env, legal: bool)
    requires HostInv(h, legal)
    ensures StopTarget(h, runId, env).Some? ==> KnownTarget(h.traces, StopTarget(h, runId, env).value)
  {
    hide TracesInv, FindTracked, KnownTarget;
    FindIsKnown(h.traces, env.dir, ByRun(runId), legal);
  }

  // ---------------------------------------------------------------- one write

  lemma {:induction false} GrowsKeepsTargets(h: Host, later: map<string, seq<Event>>)
    requires TargetsKnown(h) && Grows(h.traces, later)
    ensures TargetsKnown(h.(traces := later))
  {
    forall k | k in h.targets ensures KnownTarget(later, h.targets[k]) {
      KnownPersists(h.traces, later, h.targets[k]);
    }
  }

  lemma {:induction false} KnownPersists(traces: map<string, seq<Event>>, later: map<string, seq<Event>>, t: Target)
    requires KnownTarget(traces, t) && Grows(traces, later)
    ensures KnownTarget(later, t)
  {
    var events := TraceOf(traces, t.run);
    var more := TraceOf(later, t.run)[|events|..];
    assert TraceOf(later, t.run) == events + more;
    LaunchPersists(events, more, t.node);
  }

  lemma {:induction false} WriteKeeps(traces: map<string, seq<Event>>, run: string, step: WriterStep, now: int,
                                      legal: bool)
    requires TracesInv(traces, legal) && step.Valid() && Targeted(TraceOf(traces, run), step)
    requires legal ==> Guard(TraceOf(traces, run), step)
    ensures var later := Write(traces, run, Drafts(TraceOf(traces, run), step), now);
            TracesInv(later, legal) && Grows(traces, later)
  {
    hide WriterInv, Drafts, Guard, Disciplined, ActsAreLaunched, BlocksAreAsked, Targeted;
    var events := TraceOf(traces, run);
    assert Written(events, run, legal) by {
      if run !in traces { EmptyIsFine(run); }
    }
    StepIsWritten(events, step, now, run, legal);
    var after := Appended(events, Drafts(events, step), now, run);
    assert events <= after;
  }

  lemma {:induction false} StepIsWritten(events: seq<Event>, step: WriterStep, now: int, run: string, legal: bool)
    requires Written(events, run, legal) && step.Valid() && Targeted(events, step) && (legal ==> Guard(events, step))
    ensures Written(After(events, step, now, run), run, legal)
  {
    hide WriterInv, Drafts, Guard, Disciplined, ActsAreLaunched, BlocksAreAsked, Targeted, Accepted;
    StepKeepsDiscipline(events, step, now, run);
    StepKeepsActsLaunched(events, step, now, run);
    WrittenParts(events, run, legal);
    StepKeepsBlocksAsked(events, step, now, run);
    if legal { StepAcceptedIff(events, step, now, run); }
  }

  lemma {:induction false} WrittenParts(events: seq<Event>, run: string, legal: bool)
    requires Written(events, run, legal)
    ensures Disciplined(events, run) && Orderly(events, run) && Numbered(events) && LaunchesByRoot(events)
    ensures ActsAreLaunched(events) && BlocksAreAsked(events)
  {
  }

  lemma {:induction false} EmptyIsFine(run: string)
    ensures Written([], run, true)
  {
    NothingIsDisciplined(run);
  }

  // ---------------------------------------------------------------- guards

  /** Every readable result file carries a Status line. */
  predicate Labelled(files: map<string, File>) {
    forall p :: p in files && files[p].Text? && !files[p].blank ==> TruthyText(files[p].status)
  }

  lemma {:induction false} LabelledIsGuarded(events: seq<Event>, node: string, s: Evidence, files: map<string, File>)
    requires Labelled(files)
    ensures Guard(events, SettleStep(node, s, files))
  {
  }

  predicate LaunchesInTurn(h: Host, call: string, details: LaunchDetails, env: Env) {
    call in h.pending && TruthyText(details.runId) && ReplyTarget(h, h.pending[call], details, env).None?
    && details.identified
    ==> LaunchGuard(TraceOf(h.traces, LogicalRun(h.pending[call], details.runId.value, env)),
                    RequestFor(h.pending[call], details, details.runId.value, env))
  }

  /** What the surroundings have to provide: labelled results and launches that respect wave order. */
  predicate InputGuard(h: Host, input: Input, env: Env) {
    Labelled(env.files) && (input.LaunchResult? ==> LaunchesInTurn(h, input.call, input.details, env))
  }

  // ---------------------------------------------------------------- handlers keep the invariant

  ghost predicate Keeps(h: Host, later: Host, legal: bool) {
    HostInv(later, legal) && Grows(h.traces, later.traces)
  }

  lemma {:induction false} SettleKeeps(h: Host, d: Delivery, env: Env, legal: bool)
    requires HostInv(h, legal) && (legal ==> Labelled(env.files))
    ensures Keeps(h, Settle(h, d, env), legal)
    ensures Settle(h, d, env).targets == h.targets
  {
    hide Resolve, Guard, TracesInv, SettlementDrafts, Labelled;
    if Applies(h, d, env) {
      var target := Resolve(h, d, env).value;
      var step := SettleStep(target.node, d.evidence, env.files);
      if legal { LabelledIsGuarded(TraceOf(h.traces, target.run), target.node, d.evidence, env.files); }
      WriteKeeps(h.traces, target.run, step, env.now, legal);
      assert Settle(h, d, env).traces
          == Write(h.traces, target.run, Drafts(TraceOf(h.traces, target.run), step), env.now);
      GrowsKeepsTargets(h, Settle(h, d, env).traces);
    }
  }

  lemma {:induction false} ObserveKeeps(h: Host, d: Delivery, env: Env, legal: bool)
    requires HostInv(h, legal) && (legal ==> Labelled(env.files))
    ensures Keeps(h, Observe(h, d, env), legal)
  {
    hide Settle, TracesInv;
    SettleKeeps(h, d, env, legal);
  }

  /** Writing the drafts of one known target keeps the invariant. */
  lemma {:induction false} WriteForTarget(h: Host, later: Host, run: string, step: WriterStep, now: int, legal: bool)
    requires HostInv(h, legal) && step.Valid() && Targeted(TraceOf(h.traces, run), step)
    requires legal ==> Guard(TraceOf(h.traces, run), step)
    requires later.traces == Write(h.traces, run, Drafts(TraceOf(h.traces, run), step), now)
    requires later.targets == h.targets
    ensures Keeps(h, later, legal)
  {
    hide TracesInv, Drafts, Guard, Targeted, Write, KnownTarget;
    WriteKeeps(h.traces, run, step, now, legal);
    GrowsKeepsTargets(h, later.traces);
  }

  lemma {:induction false} BeginStopKeeps(h: Host, call: string, stopped: bool, reported: Option<string>, env: Env,
                                          legal: bool)
    requires HostInv(h, legal)
    ensures Keeps(h, BeginStopResult(h, call, stopped, reported, env), legal)
  {
    hide TracesInv, TargetsKnown, CancelDrafts, Write, StopTarget, StopAccepted, Known;
    if call in h.stops {
      var stop := h.stops[call];
      var target := StopTarget(h, stop.runId, env);
      if StopAccepted(stop, stopped, reported) && target.Some? {
        StopTargetIsKnown(h, stop.runId, env, legal);
        var step := StopStep(target.value.node, target.value.parent);
        WriteForTarget(h, BeginStopResult(h, call, stopped, reported, env), target.value.run, step, env.now, legal);
      } else {
        SameWritten(h, BeginStopResult(h, call, stopped, reported, env), legal);
      }
    }
  }

  lemma {:induction false} ReleaseKeeps(h: Host, runId: string, env: Env, legal: bool)
    requires HostInv(h, legal) && (legal ==> Labelled(env.files))
    ensures Keeps(h, Release(h, runId, env), legal)
  {
    hide TracesInv, TargetsKnown, Observe, Labelled;
    if runId in h.held {
      SameWritten(h, h.(held := h.held - {runId}), legal);
      ObserveKeeps(h.(held := h.held - {runId}), h.held[runId], env, legal);
    }
  }

  lemma {:induction false} SameWritten(h: Host, later: Host, legal: bool)
    requires HostInv(h, legal) && later.traces == h.traces && later.targets == h.targets
    ensures HostInv(later, legal)
  {
    hide TracesInv, KnownTarget;
  }

  lemma {:induction false} FinishStopKeeps(h: Host, call: string, stop: Stop, env: Env, legal: bool)
    requires HostInv(h, legal) && (legal ==> Labelled(env.files))
    ensures Keeps(h, FinishStopResult(h, call, stop, env), legal)
  {
    hide HostInv, Release, Labelled;
    if (call, stop) in h.finishing {
      var cleared := h.(finishing := h.finishing - multiset{(call, stop)},
                        stops := if call in h.stops && h.stops[call] == stop then h.stops - {call} else h.stops);
      SameWritten(h, cleared, legal);
      ReleaseKeeps(cleared, stop.runId, env, legal);
    }
  }

  lemma {:induction false} GrowsTransitive(a: map<string, seq<Event>>, b: map<string, seq<Event>>,
                                           c: map<string, seq<Event>>)
    requires Grows(a, b) && Grows(b, c)
    ensures Grows(a, c)
  {
  }

  lemma {:induction false} SettleEarlyKeeps(h: Host, runId: string, details: LaunchDetails, env: Env, legal: bool)
    requires HostInv(h, legal) && (legal ==> Labelled(env.files))
    ensures Keeps(h, SettleEarly(h, runId, details, env), legal)
  {
    hide TracesInv, TargetsKnown, Settle, Labelled;
    if runId in h.early {
      SameWritten(h, h.(early := h.early - {runId}), legal);
      SettleKeeps(h.(early := h.early - {runId}), h.early[runId], env, legal);
    } else if details.promoted == Some(false) {
      SettleKeeps(h, Delivery(details.inline.(runId := runId), true), env, legal);
    }
  }

  /** Remembering a known target keeps the invariant. */
  lemma {:induction false} RememberKeeps(h: Host, runId: string, target: Target, legal: bool)
    requires HostInv(h, legal) && KnownTarget(h.traces, target)
    ensures Keeps(h, h.(targets := h.targets[runId := target]), legal)
  {
    hide TracesInv, KnownTarget;
  }

  lemma {:induction false} ReplyKeeps(h: Host, target: Target, prompt: string, runId: string, env: Env, legal: bool)
    requires HostInv(h, legal) && KnownTarget(h.traces, target)
    ensures Keeps(h, ReplyTo(h, target, prompt, runId, env), legal)
  {
    hide TracesInv, TargetsKnown, ReplyDrafts, Write, Known, Grows;
    var step := ReplyStep(target.node, target.parent, prompt);
    var written := h.(traces := ReplyTo(h, target, prompt, runId, env).traces);
    WriteForTarget(h, written, target.run, step, env.now, legal);
    KnownPersists(h.traces, written.traces, target);
    RememberKeeps(written, runId, target.(detachRun := runId), legal);
    GrowsTransitive(h.traces, written.traces, ReplyTo(h, target, prompt, runId, env).traces);
  }

  lemma {:induction false} RecordKeeps(h: Host, input: LaunchInput, details: LaunchDetails, runId: string, env: Env,
                                       legal: bool)
    requires HostInv(h, legal)
    requires legal ==>
               LaunchGuard(TraceOf(h.traces, LogicalRun(input, runId, env)), RequestFor(input, details, runId, env))
    ensures Keeps(h, RecordLaunch(h, input, details, runId, env), legal)
  {
    hide TracesInv, TargetsKnown, LaunchDrafts, LaunchGuard, RequestFor, LogicalRun, Known, Grows;
    var run, req := LogicalRun(input, runId, env), RequestFor(input, details, runId, env);
    var after := RecordLaunch(h, input, details, runId, env);
    var written := h.(traces := after.traces);
    WriteForTarget(h, written, run, LaunchStep(req), env.now, legal);
    LaunchedIsKnown(h.traces, run, req, env.now, legal);
    RememberKeeps(written, runId, Target(run, req.node, ROOT_NODE, runId, details.agentName), legal);
    GrowsTransitive(h.traces, written.traces, after.traces);
  }

  lemma {:induction false} LaunchedIsKnown(traces: map<string, seq<Event>>, run: string, req: LaunchRequest, now: int,
                                           legal: bool)
    requires TracesInv(traces, legal) && req.Valid()
    ensures Known(TraceOf(Write(traces, run, LaunchDrafts(TraceOf(traces, run), req), now), run), req.node, ROOT_NODE)
  {
    hide WriterInv, LaunchDrafts, Lawful, Woken, LaunchesByRoot, Known, ActsAreLaunched, BlocksAreAsked;
    var events := TraceOf(traces, run);
    if run !in traces { EmptyIsFine(run); }
    LaunchLeavesLaunch(events, req, now, run);
    StepKeepsDiscipline(events, LaunchStep(req), now, run);
    LaunchIsByRoot(Appended(events, LaunchDrafts(events, req), now, run), req.node);
  }

  lemma {:induction false} LaunchResultKeeps(h0: Host, call: string, details: LaunchDetails, env: Env, legal: bool)
    requires HostInv(h0, legal) && (legal ==> Labelled(env.files) && LaunchesInTurn(h0, call, details, env))
    ensures Keeps(h0, HandleLaunchResult(h0, call, details, env), legal)
  {
    hide TracesInv, TargetsKnown, Labelled, SettleEarly, ReplyTo, RecordLaunch, FindTracked, LaunchGuard, Known, Grows;
    if call in h0.pending && TruthyText(details.runId) {
      var input, h, runId := h0.pending[call], h0.(pending := h0.pending - {call}), details.runId.value;
      SameWritten(h0, h, legal);
      var reply := ReplyTarget(h, input, details, env);
      if reply.Some? {
        FindIsKnown(h.traces, env.dir, ByName(details.agentName.value, true), legal);
        var replied := ReplyTo(h, reply.value, input.prompt.value, runId, env);
        ReplyKeeps(h, reply.value, input.prompt.value, runId, env, legal);
        SettleEarlyKeeps(replied, runId, details, env, legal);
        GrowsTransitive(h.traces, replied.traces, SettleEarly(replied, runId, details, env).traces);
      } else if details.identified {
        var recorded := RecordLaunch(h, input, details, runId, env);
        RecordKeeps(h, input, details, runId, env, legal);
        SettleEarlyKeeps(recorded, runId, details, env, legal);
        GrowsTransitive(h.traces, recorded.traces, SettleEarly(recorded, runId, details, env).traces);
      } else {
        GrowsReflexive(h0.traces);
      }
    } else {
      GrowsReflexive(h0.traces);
      if call in h0.pending { SameWritten(h0, h0.(pending := h0.pending - {call}), legal); }
    }
  }

  lemma {:induction false} GrowsReflexive(traces: map<string, seq<Event>>)
    ensures Grows(traces, traces)
  {
  }

  /**
   Every handler appends only, and leaves every trace disciplined and every remembered target launched;
   guarded inputs leave every trace legal.
   */
  lemma {:induction false} HandlerKeepsInv(h: Host, input: Input, env: Env, legal: bool)
    requires HostInv(h, legal) && (legal ==> InputGuard(h, input, env))
    ensures Keeps(h, Handle(h, input, env), legal)
  {
    hide TracesInv, KnownTarget, Labelled, LaunchesInTurn, Observe, HandleLaunchResult, BeginStopResult,
         FinishStopResult;
    GrowsReflexive(h.traces);
    match input
    case LaunchCall(call, launch) => SameWritten(h, Handle(h, input, env), legal);
    case StopCall(call, runId) => SameWritten(h, Handle(h, input, env), legal);
    case Observed(delivery) => ObserveKeeps(h, delivery, env, legal);
    case LaunchResult(call, details) => LaunchResultKeeps(h, call, details, env, legal);
    case StopResult(call, stopped, reported) => BeginStopKeeps(h, call, stopped, reported, env, legal);
    case StopFinish(call, stop) => FinishStopKeeps(h, call, stop, env, legal);
    case Reset =>
  }

  ghost predicate GuardedInputs(h: Host, inputs: seq<Occurrence>)
    decreases |inputs|
  {
    inputs != [] ==>
      && InputGuard(h, inputs[0].input, inputs[0].env)
      && GuardedInputs(Handle(h, inputs[0].input, inputs[0].env), inputs[1..])
  }

  lemma {:induction false} InterleavingKeepsInv(h: Host, inputs: seq<Occurrence>, legal: bool)
    requires HostInv(h, legal) && (legal ==> GuardedInputs(h, inputs))
    ensures Keeps(h, HandleAll(h, inputs), legal)
    decreases |inputs|
  {
    hide HostInv, InputGuard, Handle, Grows;
    if inputs == [] {
      GrowsReflexive(h.traces);
    } else {
      var next := Handle(h, inputs[0].input, inputs[0].env);
      HandlerKeepsInv(h, inputs[0].input, inputs[0].env, legal);
      InterleavingKeepsInv(next, inputs[1..], legal);
      GrowsTransitive(h.traces, next.traces, HandleAll(next, inputs[1..]).traces);
    }
  }

  /** Under any interleaving of guarded inputs, every trace on disk is one that the checker accepts. */
  lemma {:induction false} HostMeetsChecker(inputs: seq<Occurrence>)
    requires GuardedInputs(Idle, inputs)
    ensures forall run :: run in HandleAll(Idle, inputs).traces ==> Accepted(HandleAll(Idle, inputs).traces[run])
  {
    hide Accepted, HandleAll, GuardedInputs, WriterInv, Disciplined, ActsAreLaunched, BlocksAreAsked;
    InterleavingKeepsInv(Idle, inputs, true);
    var traces := HandleAll(Idle, inputs).traces;
    forall run | run in traces ensures Accepted(traces[run]) {
      WriterInvAccepts(traces[run], run);
    }
  }

  /**
   Under any interleaving of any inputs, every trace on disk wakes each settlement of a node once, in
   order and without gaps, and settles an attempt twice only to cancel a blocked one.
   */
  lemma {:induction false} HostIsDisciplined(inputs: seq<Occurrence>)
    ensures forall run :: run in HandleAll(Idle, inputs).traces ==>
              Disciplined(HandleAll(Idle, inputs).traces[run], run)
  {
    hide HandleAll, Disciplined, ActsAreLaunched, BlocksAreAsked;
    InterleavingKeepsInv(Idle, inputs, false);
  }

  // ---------------------------------------------------------------- runs of handlers

  lemma {:induction false} HandleOneMore(h: Host, inputs: seq<Occurrence>, last: Occurrence)
    ensures HandleAll(h, inputs + [last]) == Handle(HandleAll(h, inputs), last.input, last.env)
    decreases |inputs|
  {
    hide Handle;
    var all := inputs + [last];
    if inputs == [] {
      assert all[1..] == [];
    } else {
      assert all[1..] == inputs[1..] + [last];
      HandleOneMore(Handle(h, inputs[0].input, inputs[0].env), inputs[1..], last);
    }
  }

  lemma {:induction false} ThreeInputs(h: Host, inputs: seq<Occurrence>)
    requires |inputs| == 3
    ensures HandleAll(h, inputs)
         == Handle(Handle(Handle(h, inputs[0].input, inputs[0].env), inputs[1].input, inputs[1].env),
                   inputs[2].input, inputs[2].env)
  {
    hide Handle;
    var one := Handle(h, inputs[0].input, inputs[0].env);
    var two := Handle(one, inputs[1].input, inputs[1].env);
    var three := Handle(two, inputs[2].input, inputs[2].env);
    assert HandleAll(h, inputs) == HandleAll(one, inputs[1..]);
    assert inputs[1..][0] == inputs[1] && inputs[1..][1..] == [inputs[2]];
    assert HandleAll(one, inputs[1..]) == HandleAll(two, [inputs[2]]);
    assert [inputs[2]][1..] == [];
    assert HandleAll(two, [inputs[2]]) == HandleAll(three, []);
  }
}
