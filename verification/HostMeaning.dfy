/**
 What each kind of input does, in terms of what the host is told: where a launch is recorded and under
 which name, which blocked agent a launch replies to, which evidence it settles, and whom a stop concerns.
 */
module HostMeaning {
  import opened Options
  import opened TraceEvents
  import opened TraceHistory
  import opened TraceWriter
  import opened HostModel
  import opened Tracking

  // ---------------------------------------------------------------- launches

  /** The prompt names a graph whose manifest is there, belongs to it, and lists the node in the named wave. */
  predicate IsGraphLaunch(input: LaunchInput, env: Env) {
    && input.prompt.Some? && input.block.Some? && input.block.value.graph in env.manifests
    && var block, raw := input.block.value, env.manifests[input.block.value.graph];
       && raw.graphId == block.graph && raw.maxParallel >= 1 && raw.maxRepairLoops >= 0
       && 1 <= block.wave <= |raw.waves| && block.node in raw.waves[block.wave - 1]
  }

  /** The run that a launch is written to, and what is written about it. */
  lemma {:induction false} RequestIs(input: LaunchInput, details: LaunchDetails, runId: string, env: Env)
    ensures var req, run := RequestFor(input, details, runId, env), LogicalRun(input, runId, env);
            && req.resultPath == details.resultPath && req.detachRun == runId && req.agentName == details.agentName
            && if IsGraphLaunch(input, env) then
                 var block := input.block.value;
                 && run == "graph-" + block.graph && req.node == block.node && req.wave == block.wave
                 && req.manifest == Some(Manifest(env.manifests[block.graph].waves))
               else run == runId && req.node == details.role + "-" + runId && req.manifest.None?
  {
  }

  /** A launch is recorded in the trace of its run alone, and remembered under its run id. */
  lemma {:induction false} LaunchIsRecorded(h: Host, input: LaunchInput, details: LaunchDetails, runId: string,
                                            env: Env)
    ensures var later, req := RecordLaunch(h, input, details, runId, env), RequestFor(input, details, runId, env);
            var run := LogicalRun(input, runId, env);
            && later.targets == h.targets[runId := Target(run, req.node, "advisor", runId, details.agentName)]
            && TraceOf(later.traces, run)
               == Appended(TraceOf(h.traces, run), LaunchDrafts(TraceOf(h.traces, run), req), env.now, run)
            && (forall other :: other != run ==> TraceOf(later.traces, other) == TraceOf(h.traces, other))
            && later == h.(traces := later.traces, targets := later.targets)
  {
    hide LaunchDrafts, RequestFor, LogicalRun, Appended;
    WriteIs(h.traces, LogicalRun(input, runId, env), LaunchDrafts(TraceOf(h.traces, LogicalRun(input, runId, env)),
            RequestFor(input, details, runId, env)), env.now);
  }

  lemma {:induction false} WriteIs(traces: map<string, seq<Event>>, run: string, drafts: seq<Body>, now: int)
    ensures TraceOf(Write(traces, run, drafts, now), run) == Appended(TraceOf(traces, run), drafts, now, run)
    ensures forall other :: other != run ==> TraceOf(Write(traces, run, drafts, now), other) == TraceOf(traces, other)
  {
  }

  /**
   The first launch of a node under a new run id is found again by a session that remembers nothing, as the
   target that was remembered.
   */
  lemma {:induction false} LaunchIsFoundAgain(h: Host, input: LaunchInput, details: LaunchDetails, runId: string,
                                              env: Env, d: Delivery, later: Env)
    requires var run, node := LogicalRun(input, runId, env), RequestFor(input, details, runId, env).node;
             runId != "" && node != "" && LaunchOf(TraceOf(h.traces, run), node).None?
    requires IsUnseen(h.traces, ByRun(runId)) && LogicalRun(input, runId, env) in later.dir
    requires d.evidence.runId == runId
    ensures var recorded := RecordLaunch(h, input, details, runId, env);
            && Resolve(recorded, d, later) == Some(recorded.targets[runId])
            && Resolve(Clear(recorded), d, later) == Some(recorded.targets[runId])
  {
    var run, req := LogicalRun(input, runId, env), RequestFor(input, details, runId, env);
    NewLaunchIsFound(h.traces, later.dir, run, req, env.now, ByRun(runId));
    hide FindTracked, LaunchDrafts, LogicalRun, RequestFor, LaunchOf, IsUnseen, Write;
  }

  // ---------------------------------------------------------------- replies

  /** A launch that continues an agent replies if that agent is blocked in some trace. */
  lemma {:induction false} ReplyTargetIs(h: Host, input: LaunchInput, details: LaunchDetails, env: Env)
    ensures var target := ReplyTarget(h, input, details, env);
            target.Some? <==>
              && details.existing && details.agentName.Some? && details.agentName != Some("")
              && input.prompt.Some? && input.prompt != Some("")
              && exists k: nat, j: nat :: IsMatch(h.traces, env.dir, ByName(details.agentName.value, true), k, j)
    ensures var target := ReplyTarget(h, input, details, env);
            target.Some? ==> target == FindTracked(h.traces, env.dir, ByName(details.agentName.value, true))
  {
    if details.agentName.Some? { FindsTheLatest(h.traces, env.dir, ByName(details.agentName.value, true)); }
    hide FindTracked, IsMatch;
  }

  /** The reply is written to the trace of the blocked node, which is remembered under the new run id. */
  lemma {:induction false} ReplyIsRecorded(h: Host, target: Target, prompt: string, runId: string, env: Env)
    ensures var later := ReplyTo(h, target, prompt, runId, env);
            && later.targets
            == h.targets[runId := Target(target.run, target.node, target.parent, runId, target.agentName)]
            && TraceOf(later.traces, target.run)
               == Appended(TraceOf(h.traces, target.run),
                           ReplyDrafts(TraceOf(h.traces, target.run), target.node, target.parent, prompt), env.now,
                           target.run)
            && (forall other :: other != target.run ==> TraceOf(later.traces, other) == TraceOf(h.traces, other))
            && later == h.(traces := later.traces, targets := later.targets)
  {
    hide ReplyDrafts, Appended;
    WriteIs(h.traces, target.run,
            ReplyDrafts(TraceOf(h.traces, target.run), target.node, target.parent, prompt), env.now);
  }

  // ---------------------------------------------------------------- launch results

  /** What a launch result does: nothing, a reply, or a launch, and then the evidence for its run. */
  lemma {:induction false} LaunchResultIs(h: Host, call: string, details: LaunchDetails, env: Env)
    ensures var later, taken := HandleLaunchResult(h, call, details, env), h.(pending := h.pending - {call});
            if call !in h.pending then later == h
            else if details.runId.None? || details.runId == Some("") then later == taken
            else
              var input, runId := h.pending[call], details.runId.value;
              var reply := ReplyTarget(taken, input, details, env);
              if reply.Some? then
                later == SettleEarly(ReplyTo(taken, reply.value, input.prompt.value, runId, env), runId, details, env)
              else if details.identified then
                later == SettleEarly(RecordLaunch(taken, input, details, runId, env), runId, details, env)
              else later == taken
  {
    hide ReplyTo, RecordLaunch, SettleEarly, FindTracked;
  }

  /** Which evidence is settled then: what came early, else the inline result of an agent that was not promoted. */
  lemma {:induction false} EarlyOrInline(h: Host, runId: string, details: LaunchDetails, env: Env)
    ensures var later := SettleEarly(h, runId, details, env);
            && (runId in h.early ==> later == Settle(h.(early := h.early - {runId}), h.early[runId], env))
            && (runId !in h.early && details.promoted == Some(false) ==>
                  exists d: Delivery ::
                    d.evidence == details.inline.(runId := runId) && d.byName && later == Settle(h, d, env))
            && (runId !in h.early && details.promoted != Some(false) ==> later == h)
  {
    hide Settle;
    if runId !in h.early && details.promoted == Some(false) {
      var d := Delivery(details.inline.(runId := runId), true);
      assert d.evidence == details.inline.(runId := runId) && d.byName;
    }
  }

  // ---------------------------------------------------------------- correlation and stops

  /**
   Evidence is for the target remembered under its run, else for the launch of its run, else, where that is
   allowed, for a launch under its name.
   */
  lemma {:induction false} ResolutionIs(h: Host, d: Delivery, env: Env)
    ensures var runId, target := d.evidence.runId, Resolve(h, d, env);
            var byRun := FindTracked(h.traces, env.dir, ByRun(runId));
            && (runId in h.targets ==> target == Some(h.targets[runId]))
            && (runId !in h.targets && byRun.Some? ==> target == byRun)
            && (runId !in h.targets && byRun.None? && d.byName && d.evidence.agentName.Some? ==>
                  target == FindTracked(h.traces, env.dir, ByName(d.evidence.agentName.value, false)))
            && (runId !in h.targets && byRun.None? && !(d.byName && d.evidence.agentName.Some?) ==> target.None?)
  {
    hide FindTracked;
  }

  /** A stop call with a run id is pending under its call, as an entry of its own; one without is ignored. */
  lemma {:induction false} StopCallIs(h: Host, call: string, runId: Option<string>)
    ensures var later := CallStop(h, call, runId);
            if runId.None? || runId == Some("") then later == h
            else
              && later.stops == h.stops[call := Stop(h.serial, runId.value)]
              && later.serial > h.serial && later == h.(stops := later.stops, serial := later.serial)
  {
  }

  /** A stop result asks for the cancellation of the stopped node only if the stop succeeded for the run asked for. */
  lemma {:induction false} StopResultIs(h: Host, call: string, stopped: bool, reported: Option<string>, env: Env)
    ensures var later := BeginStopResult(h, call, stopped, reported, env);
            if call !in h.stops then later == h
            else
              var runId := h.stops[call].runId;
              var target := if runId in h.targets then Some(h.targets[runId])
                            else FindTracked(h.traces, env.dir, ByRun(runId));
              && later == h.(traces := later.traces, finishing := h.finishing + multiset{(call, h.stops[call])})
              && if stopped && runId != "" && reported == Some(runId) && target.Some? then
                   var t := target.value;
                   && TraceOf(later.traces, t.run)
                      == Appended(TraceOf(h.traces, t.run), CancelDrafts(TraceOf(h.traces, t.run), t.node, t.parent),
                                  env.now, t.run)
                   && forall other :: other != t.run ==> TraceOf(later.traces, other) == TraceOf(h.traces, other)
                 else later.traces == h.traces
  {
    hide FindTracked, CancelDrafts, Appended;
    if call in h.stops {
      var target := StopTarget(h, h.stops[call].runId, env);
      if target.Some? {
        var t := target.value;
        WriteIs(h.traces, t.run, CancelDrafts(TraceOf(h.traces, t.run), t.node, t.parent), env.now);
      }
    }
  }
}
