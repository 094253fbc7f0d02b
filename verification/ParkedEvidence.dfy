/**
 The two buffers of out-of-order evidence. Evidence held under a stop is applied only once no stop of
 its run is pending; early evidence is applied under a pending stop exactly when a launch result
 applies it; and no delivery is applied twice.
 */
module ParkedEvidence {
  import opened Options
  import opened TraceEvents
  import opened TraceWriter
  import opened HostModel
  import opened HostLaws

  // ---------------------------------------------------------------- what one handler applies

  /** The input justifies applying a delivery: nothing parked under a pending stop qualifies. */
  predicate Justified(h: Host, input: Input, later: Host, token: nat) {
    match input
    case Observed(d) => token == d.evidence.token && !StopPending(h, d.evidence.runId)
    case StopFinish(_, stop) =>
      stop.runId in h.held && token == h.held[stop.runId].evidence.token && !StopPending(later, stop.runId)
    case LaunchResult(_, details) =>
      TruthyText(details.runId) &&
      if details.runId.value in h.early then token == h.early[details.runId.value].evidence.token
      else details.promoted == Some(false) && token == details.inline.token
    case _ => false
  }

  /** Either nothing is applied, or one delivery is, at the end of its trace. */
  ghost predicate AppliesOne(h: Host, later: Host, token: nat) {
    later.applied == h.applied
    || exists a :: later.applied == h.applied + [a] && a.token == token && a.at >= |TraceOf(h.traces, a.run)|
  }

  lemma {:induction false} SettleApplies(h: Host, d: Delivery, env: Env)
    ensures var later := Settle(h, d, env);
            && (Applies(h, d, env) <==> later.applied != h.applied)
            && AppliesOne(h, later, d.evidence.token)
            && later == h.(traces := later.traces, applied := later.applied)
            && Grows(h.traces, later.traces)
  {
    hide Resolve, EvidenceDrafts;
    var target := Resolve(h, d, env);
    if Applies(h, d, env) {
      var a := Application(d.evidence.token, target.value.run, |TraceOf(h.traces, target.value.run)|);
      assert Settle(h, d, env).applied == h.applied + [a];
      assert |Settle(h, d, env).applied| == |h.applied| + 1;
      WriteGrows(h.traces, target.value.run, EvidenceDrafts(h, d, target.value, env), env.now);
    }
  }

  lemma {:induction false} WriteGrows(traces: map<string, seq<Event>>, run: string, drafts: seq<Body>, now: int)
    ensures Grows(traces, Write(traces, run, drafts, now))
  {
    assert TraceOf(traces, run) <= Appended(TraceOf(traces, run), drafts, now, run);
  }

  lemma {:induction false} ObserveApplies(h: Host, d: Delivery, env: Env)
    ensures var later := Observe(h, d, env);
            && AppliesOne(h, later, d.evidence.token)
            && (later.applied != h.applied ==> !StopPending(h, d.evidence.runId))
            && later.stops == h.stops && Grows(h.traces, later.traces)
  {
    hide Settle, Applies;
    SettleApplies(h, d, env);
  }

  lemma {:induction false} LaunchApplies(h0: Host, call: string, details: LaunchDetails, env: Env)
    ensures var later := HandleLaunchResult(h0, call, details, env);
            && Grows(h0.traces, later.traces)
            && (later.applied == h0.applied
                || exists token ::
                     Justified(h0, LaunchResult(call, details), later, token) && AppliesOne(h0, later, token))
  {
    hide Settle, Applies, ReplyTo, RecordLaunch, FindTracked;
    if call in h0.pending && TruthyText(details.runId) {
      var input, h, runId := h0.pending[call], h0.(pending := h0.pending - {call}), details.runId.value;
      var reply := ReplyTarget(h, input, details, env);
      if reply.Some? {
        ReplyWrites(h, reply.value, input.prompt.value, runId, env);
        EarlyApplies(h0, ReplyTo(h, reply.value, input.prompt.value, runId, env), call, runId, details, env);
      } else if details.identified {
        RecordWrites(h, input, details, runId, env);
        EarlyApplies(h0, RecordLaunch(h, input, details, runId, env), call, runId, details, env);
      }
    }
  }

  lemma {:induction false} ReplyWrites(h: Host, target: Target, prompt: string, runId: string, env: Env)
    ensures var later := ReplyTo(h, target, prompt, runId, env);
            Grows(h.traces, later.traces) && later == h.(traces := later.traces, targets := later.targets)
  {
    hide ReplyDrafts;
    WriteGrows(h.traces, target.run,
               ReplyDrafts(TraceOf(h.traces, target.run), target.node, target.parent, prompt), env.now);
  }

  lemma {:induction false} RecordWrites(h: Host, input: LaunchInput, details: LaunchDetails, runId: string, env: Env)
    ensures var later := RecordLaunch(h, input, details, runId, env);
            Grows(h.traces, later.traces) && later == h.(traces := later.traces, targets := later.targets)
  {
    hide LaunchDrafts, LogicalRun, RequestFor;
    var run := LogicalRun(input, runId, env);
    WriteGrows(h.traces, run, LaunchDrafts(TraceOf(h.traces, run), RequestFor(input, details, runId, env)), env.now);
  }

  lemma {:induction false} EarlyApplies(h0: Host, h: Host, call: string, runId: string, details: LaunchDetails,
                                        env: Env)
    requires h.applied == h0.applied && h.early == h0.early && Grows(h0.traces, h.traces)
    requires details.runId == Some(runId) && runId != ""
    ensures var later := SettleEarly(h, runId, details, env);
            && Grows(h0.traces, later.traces)
            && (later.applied == h0.applied
                || exists token ::
                     Justified(h0, LaunchResult(call, details), later, token) && AppliesOne(h0, later, token))
  {
    hide Settle, Applies;
    var later := SettleEarly(h, runId, details, env);
    var d := if runId in h.early then h.early[runId] else Delivery(details.inline.(runId := runId), true);
    var cleared := if runId in h.early then h.(early := h.early - {runId}) else h;
    if runId in h.early || details.promoted == Some(false) {
      SettleApplies(cleared, d, env);
      GrowsTransitive(h0.traces, h.traces, later.traces);
      GrowsKeepsLength(h0.traces, h.traces);
      assert Justified(h0, LaunchResult(call, details), later, d.evidence.token);
    }
  }

  lemma {:induction false} GrowsKeepsLength(traces: map<string, seq<Event>>, later: map<string, seq<Event>>)
    requires Grows(traces, later)
    ensures forall run :: |TraceOf(traces, run)| <= |TraceOf(later, run)|
  {
    forall run ensures |TraceOf(traces, run)| <= |TraceOf(later, run)| {
      if run in traces {
        assert traces[run] <= later[run];
      }
    }
  }

  lemma {:induction false} BeginStopWrites(h: Host, call: string, stopped: bool, reported: Option<string>, env: Env)
    ensures var later := BeginStopResult(h, call, stopped, reported, env);
            && Grows(h.traces, later.traces)
            && later == h.(traces := later.traces, finishing := later.finishing)
  {
    hide CancelDrafts, StopTarget, StopAccepted, Write;
    GrowsReflexive(h.traces);
    if call in h.stops && StopTarget(h, h.stops[call].runId, env).Some? {
      var t := StopTarget(h, h.stops[call].runId, env).value;
      WriteGrows(h.traces, t.run, CancelDrafts(TraceOf(h.traces, t.run), t.node, t.parent), env.now);
    }
  }

  // ---------------------------------------------------------------- applying under a pending stop

  /** The delivery that an input may apply. */
  function Candidate(h: Host, input: Input): Option<Delivery> {
    match input
    case Observed(d) => Some(d)
    case StopFinish(_, stop) => if stop.runId in h.held then Some(h.held[stop.runId]) else None
    case LaunchResult(_, details) =>
      if !TruthyText(details.runId) then None
      else if details.runId.value in h.early then Some(h.early[details.runId.value])
      else if details.promoted == Some(false) then Some(Delivery(details.inline.(runId := details.runId.value), true))
      else None
    case _ => None
  }

  /** The host once a launch result has resumed a blocked node or recorded its launch. */
  function Recorded(h0: Host, call: string, details: LaunchDetails, env: Env): Option<Host> {
    if call !in h0.pending || !TruthyText(details.runId) then None else
    var input, h, runId := h0.pending[call], h0.(pending := h0.pending - {call}), details.runId.value;
    var reply := ReplyTarget(h, input, details, env);
    if reply.Some? then Some(ReplyTo(h, reply.value, input.prompt.value, runId, env))
    else if details.identified then Some(RecordLaunch(h, input, details, runId, env))
    else None
  }

  /** The launch result is recorded, and the early or inline evidence then has something to write. */
  predicate AppliesAtLaunch(h: Host, call: string, details: LaunchDetails, env: Env) {
    var recorded, candidate := Recorded(h, call, details, env), Candidate(h, LaunchResult(call, details));
    recorded.Some? && candidate.Some? &&
    Applies(recorded.value.(early := recorded.value.early - {details.runId.value}), candidate.value, env)
  }

  lemma {:induction false} RecordedIs(h: Host, call: string, details: LaunchDetails, env: Env)
    ensures var recorded := Recorded(h, call, details, env);
            recorded.Some? ==>
              && call in h.pending && TruthyText(details.runId) && Grows(h.traces, recorded.value.traces)
              && details.runId.value in recorded.value.targets
              && recorded.value == h.(pending := h.pending - {call}, traces := recorded.value.traces,
                                      targets := recorded.value.targets)
              && HandleLaunchResult(h, call, details, env)
                 == SettleEarly(recorded.value, details.runId.value, details, env)
    ensures var recorded := Recorded(h, call, details, env);
            recorded.None? ==> HandleLaunchResult(h, call, details, env)
                                 == h.(pending := HandleLaunchResult(h, call, details, env).pending)
  {
    hide SettleEarly, FindTracked, ReplyDrafts, LaunchDrafts, LogicalRun, RequestFor;
    if call in h.pending && TruthyText(details.runId) {
      var input, cleared, runId := h.pending[call], h.(pending := h.pending - {call}), details.runId.value;
      var reply := ReplyTarget(cleared, input, details, env);
      if reply.Some? {
        ReplyWrites(cleared, reply.value, input.prompt.value, runId, env);
      } else if details.identified {
        RecordWrites(cleared, input, details, runId, env);
      }
    }
  }

  lemma {:induction false} WithoutEarly(h: Host, d: Delivery, env: Env)
    requires d.evidence.runId !in h.early
    ensures h.(early := h.early - {d.evidence.runId}) == h
  {
  }

  /** What a launch result does to the buffers and the log. */
  lemma {:induction false} LaunchAppliesIff(h: Host, call: string, details: LaunchDetails, env: Env)
    requires Filed(h)
    ensures var later := HandleLaunchResult(h, call, details, env);
            && (later.applied != h.applied <==> AppliesAtLaunch(h, call, details, env))
            && later.stops == h.stops && later.held == h.held
            && later.early
               == (if Recorded(h, call, details, env).Some? then h.early - {details.runId.value} else h.early)
  {
    hide Settle, Applies, ReplyTo, RecordLaunch, FindTracked, Recorded;
    RecordedIs(h, call, details, env);
    var recorded := Recorded(h, call, details, env);
    if recorded.Some? {
      var candidate := Candidate(h, LaunchResult(call, details));
      var cleared := recorded.value.(early := recorded.value.early - {details.runId.value});
      if candidate.Some? {
        SettleApplies(cleared, candidate.value, env);
        if details.runId.value !in h.early { WithoutEarly(recorded.value, candidate.value, env); }
      } else {
        assert h.early - {details.runId.value} == h.early;
      }
    }
  }

  /**
   A handler applies evidence while a stop of its run stays pending exactly when it is a launch result
   whose run has a pending stop and whose early or inline evidence has something to write.
   */
  lemma {:induction false} AppliedUnderStopIff(h: Host, input: Input, env: Env)
    requires Filed(h)
    ensures var later, candidate := Handle(h, input, env), Candidate(h, input);
            && (later.applied != h.applied ==> candidate.Some?)
            && (later.applied != h.applied && StopPending(later, candidate.value.evidence.runId)
                <==> input.LaunchResult? && AppliesAtLaunch(h, input.call, input.details, env)
                     && StopPending(h, input.details.runId.value))
  {
    hide Observe, HandleLaunchResult, BeginStopResult, FinishStopResult, AppliesOne, AppliesAtLaunch;
    match input
    case Observed(d) => ObserveApplies(h, d, env);
    case LaunchResult(call, details) =>
      LaunchAppliesIff(h, call, details, env);
      if AppliesAtLaunch(h, call, details, env) { AppliesAtLaunchHasCandidate(h, call, details, env); }
    case StopResult(call, stopped, reported) => BeginStopWrites(h, call, stopped, reported, env);
    case StopFinish(call, stop) => FinishApplies(h, call, stop, env);
    case _ =>
  }

  lemma {:induction false} AppliesAtLaunchHasCandidate(h: Host, call: string, details: LaunchDetails, env: Env)
    requires Filed(h) && AppliesAtLaunch(h, call, details, env)
    ensures var candidate := Candidate(h, LaunchResult(call, details));
            TruthyText(details.runId) && candidate.Some? && candidate.value.evidence.runId == details.runId.value
  {
    hide Applies, Recorded;
  }

  /** Parked evidence is filed under its own run. */
  predicate Filed(h: Host) {
    && (forall k :: k in h.held ==> h.held[k].evidence.runId == k)
    && (forall k :: k in h.early ==> h.early[k].evidence.runId == k)
  }

  lemma {:induction false} FinishApplies(h: Host, call: string, stop: Stop, env: Env)
    requires Filed(h)
    ensures var later := FinishStopResult(h, call, stop, env);
            && Grows(h.traces, later.traces)
            && (later.applied == h.applied
                || (stop.runId in h.held && !StopPending(later, stop.runId)
                    && AppliesOne(h, later, h.held[stop.runId].evidence.token)))
  {
    hide Observe;
    GrowsReflexive(h.traces);
    if (call, stop) in h.finishing && stop.runId in h.held {
      var cleared := h.(finishing := h.finishing - multiset{(call, stop)},
                        stops := if call in h.stops && h.stops[call] == stop then h.stops - {call} else h.stops,
                        held := h.held - {stop.runId});
      ObserveApplies(cleared, h.held[stop.runId], env);
      var later := Observe(cleared, h.held[stop.runId], env);
      assert FinishStopResult(h, call, stop, env) == later;
      assert later.stops == cleared.stops;
    }
  }

  /** One handler applies at most one delivery, appends at the end, and only what its input justifies. */
  lemma {:induction false} HandlerApplies(h: Host, input: Input, env: Env)
    requires Filed(h)
    ensures var later := Handle(h, input, env);
            && Grows(h.traces, later.traces)
            && (later.applied == h.applied
                || exists token :: Justified(h, input, later, token) && AppliesOne(h, later, token))
  {
    hide Observe, HandleLaunchResult, BeginStopResult, FinishStopResult, AppliesOne;
    GrowsReflexive(h.traces);
    match input
    case Observed(d) => ObserveApplies(h, d, env);
    case LaunchResult(call, details) => LaunchApplies(h, call, details, env);
    case StopResult(call, stopped, reported) => BeginStopWrites(h, call, stopped, reported, env);
    case StopFinish(call, stop) => FinishApplies(h, call, stop, env);
    case _ =>
  }

  lemma {:induction false} ObserveFiles(h: Host, d: Delivery, env: Env)
    requires Filed(h)
    ensures Filed(Observe(h, d, env))
  {
    hide Settle, Applies;
    SettleApplies(h, d, env);
  }

  lemma {:induction false} EarlyFiles(h: Host, runId: string, details: LaunchDetails, env: Env)
    requires Filed(h)
    ensures Filed(SettleEarly(h, runId, details, env))
  {
    hide Settle, Applies;
    if runId in h.early {
      SettleApplies(h.(early := h.early - {runId}), h.early[runId], env);
    } else if details.promoted == Some(false) {
      SettleApplies(h, Delivery(details.inline.(runId := runId), true), env);
    }
  }

  lemma {:induction false} LaunchFiles(h0: Host, call: string, details: LaunchDetails, env: Env)
    requires Filed(h0)
    ensures Filed(HandleLaunchResult(h0, call, details, env))
  {
    hide SettleEarly, ReplyTo, RecordLaunch, FindTracked;
    if call in h0.pending && TruthyText(details.runId) {
      var input, h, runId := h0.pending[call], h0.(pending := h0.pending - {call}), details.runId.value;
      var reply := ReplyTarget(h, input, details, env);
      if reply.Some? {
        ReplyWrites(h, reply.value, input.prompt.value, runId, env);
        EarlyFiles(ReplyTo(h, reply.value, input.prompt.value, runId, env), runId, details, env);
      } else if details.identified {
        RecordWrites(h, input, details, runId, env);
        EarlyFiles(RecordLaunch(h, input, details, runId, env), runId, details, env);
      }
    }
  }

  lemma {:induction false} HandlerFiles(h: Host, input: Input, env: Env)
    requires Filed(h)
    ensures Filed(Handle(h, input, env))
  {
    hide Observe, HandleLaunchResult, BeginStopResult;
    match input
    case Observed(d) => ObserveFiles(h, d, env);
    case LaunchResult(call, details) => LaunchFiles(h, call, details, env);
    case StopResult(call, stopped, reported) => BeginStopWrites(h, call, stopped, reported, env);
    case StopFinish(call, stop) =>
      if (call, stop) in h.finishing && stop.runId in h.held {
        var cleared := h.(finishing := h.finishing - multiset{(call, stop)},
                          stops := if call in h.stops && h.stops[call] == stop then h.stops - {call} else h.stops,
                          held := h.held - {stop.runId});
        ObserveFiles(cleared, h.held[stop.runId], env);
      }
    case _ =>
  }

  lemma {:induction false} RunFiles(h: Host, inputs: seq<Occurrence>)
    requires Filed(h)
    ensures Filed(HandleAll(h, inputs))
    decreases |inputs|
  {
    hide Filed, Handle;
    if inputs != [] {
      HandlerFiles(h, inputs[0].input, inputs[0].env);
      RunFiles(Handle(h, inputs[0].input, inputs[0].env), inputs[1..]);
    }
  }

  /**
   After any interleaving, the next handler applies at most one delivery: held evidence only when it
   finishes a stop of that run, and with no stop of its run left pending unless it is a launch result
   whose run is being stopped.
   */
  lemma {:induction false} ParkedEvidenceWaits(inputs: seq<Occurrence>, next: Occurrence)
    ensures var h := HandleAll(Idle, inputs);
            var later := Handle(h, next.input, next.env);
            later.applied != h.applied ==>
              && |later.applied| == |h.applied| + 1 && h.applied < later.applied
              && Justified(h, next.input, later, Last(later.applied).token)
              && Candidate(h, next.input).Some?
              && (StopPending(later, Candidate(h, next.input).value.evidence.runId) <==>
                  next.input.LaunchResult? && StopPending(h, next.input.details.runId.value))
  {
    hide HandleAll, Handle, Justified, Filed, Grows;
    assert Filed(Idle) by { IdleIsFiled(); }
    RunFiles(Idle, inputs);
    HandlerApplies(HandleAll(Idle, inputs), next.input, next.env);
    AppliedUnderStopIff(HandleAll(Idle, inputs), next.input, next.env);
    if next.input.LaunchResult? {
      LaunchResultApplies(HandleAll(Idle, inputs), next.input, next.env);
    }
  }

  lemma {:induction false} LaunchResultApplies(h: Host, input: Input, env: Env)
    requires Filed(h) && input.LaunchResult?
    ensures Handle(h, input, env).applied != h.applied <==> AppliesAtLaunch(h, input.call, input.details, env)
  {
    hide HandleLaunchResult, AppliesAtLaunch;
    LaunchAppliesIff(h, input.call, input.details, env);
  }

  lemma {:induction false} IdleIsFiled()
    ensures Filed(Idle)
  {
  }

  // ---------------------------------------------------------------- at most once

  function AppliedTokens(applied: seq<Application>): set<nat> {
    set a | a in applied :: a.token
  }

  function ParkedTokens(parked: map<string, Delivery>): set<nat> {
    set k | k in parked :: parked[k].evidence.token
  }

  function Used(h: Host): set<nat> {
    AppliedTokens(h.applied) + ParkedTokens(h.held) + ParkedTokens(h.early)
  }

  predicate DistinctTokens(applied: seq<Application>) {
    forall i, j :: 0 <= i < j < |applied| ==> applied[i].token != applied[j].token
  }

  predicate ParkedOnce(parked: map<string, Delivery>) {
    forall k, l :: k in parked && l in parked && k != l ==> parked[k].evidence.token != parked[l].evidence.token
  }

  /** Each delivery is in one place: applied once or parked once. */
  ghost predicate OncePlaced(h: Host) {
    && DistinctTokens(h.applied) && ParkedOnce(h.held) && ParkedOnce(h.early)
    && AppliedTokens(h.applied) !! ParkedTokens(h.held)
    && AppliedTokens(h.applied) !! ParkedTokens(h.early)
    && ParkedTokens(h.held) !! ParkedTokens(h.early)
  }

  lemma {:induction false} Park(parked: map<string, Delivery>, k: string, d: Delivery)
    requires ParkedOnce(parked) && d.evidence.token !in ParkedTokens(parked)
    ensures ParkedOnce(parked[k := d])
    ensures ParkedTokens(parked[k := d]) <= ParkedTokens(parked) + {d.evidence.token}
  {
    forall l | l in parked ensures parked[l].evidence.token in ParkedTokens(parked) {}
  }

  lemma {:induction false} Unpark(parked: map<string, Delivery>, k: string)
    requires ParkedOnce(parked) && k in parked
    ensures ParkedOnce(parked - {k})
    ensures ParkedTokens(parked) == ParkedTokens(parked - {k}) + {parked[k].evidence.token}
    ensures parked[k].evidence.token !in ParkedTokens(parked - {k})
  {
    var rest := parked - {k};
    forall t | t in ParkedTokens(parked) ensures t in ParkedTokens(rest) + {parked[k].evidence.token} {
      var l :| l in parked && parked[l].evidence.token == t;
      if l != k { assert l in rest && rest[l] == parked[l]; }
    }
  }

  lemma {:induction false} AppendToken(applied: seq<Application>, a: Application)
    requires DistinctTokens(applied) && a.token !in AppliedTokens(applied)
    ensures DistinctTokens(applied + [a])
    ensures AppliedTokens(applied + [a]) == AppliedTokens(applied) + {a.token}
  {
    var all := applied + [a];
    forall i | 0 <= i < |applied| ensures applied[i].token in AppliedTokens(applied) { assert applied[i] in applied; }
    forall t | t in AppliedTokens(applied) + {a.token} ensures t in AppliedTokens(all) {
      if t == a.token {
        assert all[|applied|] == a && a in all;
      } else {
        var b :| b in applied && b.token == t;
        assert b in all;
      }
    }
  }

  /** The later state has each delivery in one place and has used at most one more. */
  ghost predicate StaysOnce(h: Host, later: Host, more: set<nat>) {
    OncePlaced(later) && Used(later) <= Used(h) + more
  }

  lemma {:induction false} SettlePlaces(h: Host, d: Delivery, env: Env)
    requires OncePlaced(h) && d.evidence.token !in Used(h)
    ensures StaysOnce(h, Settle(h, d, env), {d.evidence.token})
  {
    hide Applies, Settle, AppliedTokens, ParkedTokens, ParkedOnce, DistinctTokens;
    SettleApplies(h, d, env);
    var later := Settle(h, d, env);
    if later.applied != h.applied {
      var a :| later.applied == h.applied + [a] && a.token == d.evidence.token && a.at >= |TraceOf(h.traces, a.run)|;
      AppendToken(h.applied, a);
    }
  }

  lemma {:induction false} ObservePlaces(h: Host, d: Delivery, env: Env)
    requires OncePlaced(h) && d.evidence.token !in Used(h)
    ensures StaysOnce(h, Observe(h, d, env), {d.evidence.token})
  {
    hide Applies, Settle, AppliedTokens, ParkedTokens, ParkedOnce, DistinctTokens;
    Park(h.held, d.evidence.runId, d);
    Park(h.early, d.evidence.runId, d);
    if !StopPending(h, d.evidence.runId) {
      SettlePlaces(h, d, env);
      if !Applies(h, d, env) { NothingApplied(h, d, env); }
    }
  }

  lemma {:induction false} NothingApplied(h: Host, d: Delivery, env: Env)
    requires !Applies(h, d, env)
    ensures Settle(h, d, env) == h
  {
  }

  lemma {:induction false} ReleasePlaces(h: Host, runId: string, env: Env)
    requires OncePlaced(h)
    ensures StaysOnce(h, Release(h, runId, env), {})
  {
    hide Observe, AppliedTokens, ParkedTokens, ParkedOnce, DistinctTokens;
    if runId in h.held {
      Unpark(h.held, runId);
      ObservePlaces(h.(held := h.held - {runId}), h.held[runId], env);
    }
  }

  lemma {:induction false} EarlyPlaces(h: Host, runId: string, details: LaunchDetails, env: Env)
    requires OncePlaced(h) && details.inline.token !in Used(h)
    ensures StaysOnce(h, SettleEarly(h, runId, details, env), {details.inline.token})
  {
    hide Settle, AppliedTokens, ParkedTokens, ParkedOnce, DistinctTokens;
    if runId in h.early {
      Unpark(h.early, runId);
      SettlePlaces(h.(early := h.early - {runId}), h.early[runId], env);
    } else if details.promoted == Some(false) {
      SettlePlaces(h, Delivery(details.inline.(runId := runId), true), env);
    }
  }

  lemma {:induction false} LaunchPlaces(h0: Host, call: string, details: LaunchDetails, env: Env)
    requires OncePlaced(h0) && details.inline.token !in Used(h0)
    ensures StaysOnce(h0, HandleLaunchResult(h0, call, details, env), {details.inline.token})
  {
    hide SettleEarly, ReplyTo, RecordLaunch, FindTracked, AppliedTokens, ParkedTokens, ParkedOnce, DistinctTokens;
    if call in h0.pending && TruthyText(details.runId) {
      var input, h, runId := h0.pending[call], h0.(pending := h0.pending - {call}), details.runId.value;
      var reply := ReplyTarget(h, input, details, env);
      if reply.Some? {
        ReplyWrites(h, reply.value, input.prompt.value, runId, env);
        EarlyPlaces(ReplyTo(h, reply.value, input.prompt.value, runId, env), runId, details, env);
      } else if details.identified {
        RecordWrites(h, input, details, runId, env);
        EarlyPlaces(RecordLaunch(h, input, details, runId, env), runId, details, env);
      }
    }
  }

  /** The token that an input brings in, if any. */
  function Brings(input: Input): set<nat> {
    match input
    case Observed(d) => {d.evidence.token}
    case LaunchResult(_, details) => {details.inline.token}
    case _ => {}
  }

  lemma {:induction false} HandlerPlacesOnce(h: Host, input: Input, env: Env)
    requires OncePlaced(h) && Brings(input) !! Used(h)
    ensures StaysOnce(h, Handle(h, input, env), Brings(input))
  {
    hide Observe, HandleLaunchResult, Release, BeginStopResult, AppliedTokens, ParkedTokens, ParkedOnce, DistinctTokens;
    match input
    case Observed(d) => ObservePlaces(h, d, env);
    case LaunchResult(call, details) => LaunchPlaces(h, call, details, env);
    case StopResult(call, stopped, reported) => BeginStopWrites(h, call, stopped, reported, env);
    case StopFinish(call, stop) =>
      if (call, stop) in h.finishing {
        var cleared := h.(finishing := h.finishing - multiset{(call, stop)},
                          stops := if call in h.stops && h.stops[call] == stop then h.stops - {call} else h.stops);
        ReleasePlaces(cleared, stop.runId, env);
      }
    case Reset => ClearPlaces(h);
    case _ =>
  }

  lemma {:induction false} ClearPlaces(h: Host)
    requires OncePlaced(h)
    ensures StaysOnce(h, Clear(h), {})
  {
  }

  /** Every delivery of the run is a new object. */
  ghost predicate DistinctDeliveries(inputs: seq<Occurrence>) {
    forall i, j :: 0 <= i < j < |inputs| ==> Brings(inputs[i].input) !! Brings(inputs[j].input)
  }

  lemma {:induction false} RunPlacesOnce(h: Host, inputs: seq<Occurrence>)
    requires OncePlaced(h) && DistinctDeliveries(inputs)
    requires forall i :: 0 <= i < |inputs| ==> Brings(inputs[i].input) !! Used(h)
    ensures OncePlaced(HandleAll(h, inputs))
    decreases |inputs|
  {
    hide OncePlaced, Handle, Used, Brings;
    if inputs != [] {
      var next := Handle(h, inputs[0].input, inputs[0].env);
      HandlerPlacesOnce(h, inputs[0].input, inputs[0].env);
      forall i | 0 <= i < |inputs[1..]| ensures Brings(inputs[1..][i].input) !! Used(next) {
        assert inputs[1..][i] == inputs[i + 1];
        assert Brings(inputs[0].input) !! Brings(inputs[i + 1].input);
      }
      RunPlacesOnce(next, inputs[1..]);
    }
  }

  /** In every interleaving, no delivery is applied twice. */
  lemma {:induction false} AppliedAtMostOnce(inputs: seq<Occurrence>)
    requires DistinctDeliveries(inputs)
    ensures DistinctTokens(HandleAll(Idle, inputs).applied)
  {
    hide HandleAll, Handle, Brings;
    assert Used(Idle) == {};
    RunPlacesOnce(Idle, inputs);
  }
}
