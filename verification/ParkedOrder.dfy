/**
 Evidence held under a stop: a held kill stays until its release, the cancel request of an accepted
 stop precedes the settlement that the stop parked, and the arrival order of evidence and the stop
 result is irrelevant. The other buffer is the subject of EarlyEvidence.
 */
module ParkedOrder {
  import opened Options
  import opened TraceEvents
  import opened TraceHistory
  import opened TraceWriter
  import opened WriterReplay
  import opened WriterLaws
  import opened LaunchLaws
  import opened WriterRuns
  import opened WriterDiscipline
  import opened HostModel
  import opened HostLaws
  import opened ParkedEvidence

  // ---------------------------------------------------------------- held kills are not displaced

  predicate HoldsKill(h: Host, runId: string) {
    runId in h.held && h.held[runId].evidence.killed
  }

  /** The input finishes a stop of the run, and no other stop of the run stays pending. */
  predicate Releases(h: Host, input: Input, env: Env, runId: string) {
    && input.StopFinish? && (input.call, input.stop) in h.finishing && input.stop.runId == runId
    && !StopPending(Handle(h, input, env), runId)
  }

  /** A held kill leaves its buffer exactly by release or by a reset; nothing weaker replaces it. */
  lemma {:induction false} KillStaysIff(h: Host, input: Input, env: Env, runId: string)
    requires HoldsKill(h, runId) && Filed(h)
    ensures HoldsKill(Handle(h, input, env), runId) <==> !input.Reset? && !Releases(h, input, env, runId)
  {
    hide Observe, HandleLaunchResult, BeginStopResult, FinishStopResult, StopPending, Filed;
    match input
    case Observed(d) => ObserveLeavesOthers(h, d, env, runId);
    case LaunchResult(call, details) => LaunchLeavesHeld(h, call, details, env);
    case StopResult(call, stopped, reported) => BeginStopWrites(h, call, stopped, reported, env);
    case StopFinish(call, stop) =>
      if stop.runId != runId {
        FinishLeavesOthers(h, call, stop, env, runId);
      } else {
        FinishReleasesIff(h, call, stop, env);
      }
    case _ =>
  }

  /** The end of a stop keeps a held kill of its run exactly while another stop of the run is pending. */
  lemma {:induction false} FinishReleasesIff(h: Host, call: string, stop: Stop, env: Env)
    requires HoldsKill(h, stop.runId) && Filed(h)
    ensures HoldsKill(FinishStopResult(h, call, stop, env), stop.runId)
       <==> (call, stop) !in h.finishing || StopPending(FinishStopResult(h, call, stop, env), stop.runId)
  {
    hide Observe, StopPending;
    if (call, stop) in h.finishing {
      var cleared := h.(finishing := h.finishing - multiset{(call, stop)},
                        stops := if call in h.stops && h.stops[call] == stop then h.stops - {call} else h.stops,
                        held := h.held - {stop.runId});
      ReleasedIsHeldIff(cleared, h.held[stop.runId], env);
      assert FinishStopResult(h, call, stop, env) == Observe(cleared, h.held[stop.runId], env);
    }
  }

  lemma {:induction false} ReleasedIsHeldIff(h: Host, d: Delivery, env: Env)
    requires d.evidence.runId !in h.held && d.evidence.killed
    ensures HoldsKill(Observe(h, d, env), d.evidence.runId) <==> StopPending(Observe(h, d, env), d.evidence.runId)
  {
    hide Settle, Applies, StopPending;
    SettleApplies(h, d, env);
    SameStops(h, Observe(h, d, env), d.evidence.runId);
  }

  lemma {:induction false} SameStops(h: Host, later: Host, runId: string)
    requires h.stops == later.stops
    ensures StopPending(h, runId) <==> StopPending(later, runId)
  {
  }

  /** Input k lets go of the evidence held under the run. */
  ghost predicate LetsGo(h: Host, inputs: seq<Occurrence>, k: nat, runId: string)
    requires k < |inputs|
  {
    inputs[k].input.Reset? || Releases(HandleAll(h, inputs[..k]), inputs[k].input, inputs[k].env, runId)
  }

  /** Through every interleaving a held kill stays held until it is released with no stop left, or a reset. */
  lemma {:induction false} KillIsNotDisplaced(h: Host, inputs: seq<Occurrence>, runId: string)
    requires HoldsKill(h, runId) && Filed(h)
    ensures HoldsKill(HandleAll(h, inputs), runId) || exists k :: 0 <= k < |inputs| && LetsGo(h, inputs, k, runId)
    decreases |inputs|
  {
    hide Handle, Filed, HoldsKill;
    if inputs != [] {
      var next := Handle(h, inputs[0].input, inputs[0].env);
      assert inputs[..0] == [];
      KillStaysIff(h, inputs[0].input, inputs[0].env, runId);
      HandlerFiles(h, inputs[0].input, inputs[0].env);
      if LetsGo(h, inputs, 0, runId) {
      } else {
        KillIsNotDisplaced(next, inputs[1..], runId);
        if k :| 0 <= k < |inputs[1..]| && LetsGo(next, inputs[1..], k, runId) {
          assert inputs[..k + 1][0] == inputs[0] && inputs[..k + 1][1..] == inputs[1..][..k];
          assert LetsGo(h, inputs, k + 1, runId);
        }
      }
    }
  }

  lemma {:induction false} FinishLeavesOthers(h: Host, call: string, stop: Stop, env: Env, runId: string)
    requires HoldsKill(h, runId) && stop.runId != runId
    ensures HoldsKill(FinishStopResult(h, call, stop, env), runId)
  {
    hide Observe;
    if (call, stop) in h.finishing && stop.runId in h.held {
      var cleared := h.(finishing := h.finishing - multiset{(call, stop)},
                        stops := if call in h.stops && h.stops[call] == stop then h.stops - {call} else h.stops,
                        held := h.held - {stop.runId});
      ObserveLeavesOthers(cleared, h.held[stop.runId], env, runId);
    }
  }

  lemma {:induction false} ObserveLeavesOthers(h: Host, d: Delivery, env: Env, runId: string)
    requires HoldsKill(h, runId)
    ensures HoldsKill(Observe(h, d, env), runId)
  {
    hide Settle, Applies;
    SettleApplies(h, d, env);
  }

  lemma {:induction false} EarlyLeavesHeld(h: Host, runId: string, details: LaunchDetails, env: Env)
    ensures SettleEarly(h, runId, details, env).held == h.held
  {
    hide Settle, Applies;
    if runId in h.early {
      SettleApplies(h.(early := h.early - {runId}), h.early[runId], env);
    } else if details.promoted == Some(false) {
      SettleApplies(h, Delivery(details.inline.(runId := runId), true), env);
    }
  }

  lemma {:induction false} LaunchLeavesHeld(h0: Host, call: string, details: LaunchDetails, env: Env)
    ensures HandleLaunchResult(h0, call, details, env).held == h0.held
  {
    hide SettleEarly, FindTracked;
    if call in h0.pending && TruthyText(details.runId) {
      var input, h, runId := h0.pending[call], h0.(pending := h0.pending - {call}), details.runId.value;
      var reply := ReplyTarget(h, input, details, env);
      if reply.Some? {
        EarlyLeavesHeld(ReplyTo(h, reply.value, input.prompt.value, runId, env), runId, details, env);
      } else if details.identified {
        EarlyLeavesHeld(RecordLaunch(h, input, details, runId, env), runId, details, env);
      }
    }
  }

  // ---------------------------------------------------------------- the request precedes the settlement

  /** The trace asks to cancel the node's current attempt, at position p. */
  ghost predicate AsksToCancel(events: seq<Event>, node: string, p: nat) {
    && p < |events| && IsAct(events[p].body, node, KCancel)
    && NoActBetween(events, node, KResumed, p, |events|) && NoActBetween(events, node, KSettled, p, |events|)
  }

  lemma {:induction false} LaterThan(events: seq<Event>, node: string, kind: Kind, p: nat)
    requires Numbered(events) && p < |events|
    requires NoOr0(LastAct(events, node, kind)) <= p + 1
    requires !IsAct(events[p].body, node, kind)
    ensures NoActBetween(events, node, kind, p, |events|)
  {
    forall k | p < k < |events| ensures !IsAct(events[k].body, node, kind) {
      if IsAct(events[k].body, node, kind) {
        LastActPosition(events, node, kind, k);
      }
    }
  }

  /** Once the drafts of an accepted stop are written, a node that could be cancelled has its request. */
  lemma {:induction false} RequestIsWritten(events: seq<Event>, node: string, parent: string, now: int, run: string)
    returns (p: nat)
    requires Numbered(events) && NodeCanCancel(events, node)
    ensures AsksToCancel(Appended(events, CancelDrafts(events, node, parent), now, run), node, p)
  {
    var drafts := CancelDrafts(events, node, parent);
    if drafts == [] {
      p := RequestStands(events, node);
    } else {
      hide LastAct, NodeCanCancel, IsAct;
      p := |events|;
      assert drafts == [Lifecycle(node, parent, CancelRequested)];
      var e := Event(LastNo(events) + 1, AppendTime(events, now), run, drafts[0]);
      assert Appended(events, drafts, now, run) == events + [e];
      NewRequest(events, e, node);
    }
  }

  lemma {:induction false} RequestStands(events: seq<Event>, node: string) returns (p: nat)
    requires Numbered(events)
    requires NoOr0(LastAct(events, node, KCancel))
           > Max(NoOr0(LastAct(events, node, KResumed)), NoOr0(LastAct(events, node, KSettled)))
    ensures AsksToCancel(events, node, p)
  {
    LastActIsIndexed(events, node, KCancel);
    LastActIsIndexed(events, node, KResumed);
    p := LastAct(events, node, KCancel).value.no - 1;
    LaterThan(events, node, KResumed, p);
    LaterThan(events, node, KSettled, p);
  }

  lemma {:induction false} NewRequest(events: seq<Event>, e: Event, node: string)
    requires IsAct(e.body, node, KCancel)
    ensures AsksToCancel(events + [e], node, |events|)
  {
  }

  /** Applications logged after a moment stand behind everything written before it. */
  lemma {:induction false} LaterApplicationsStandBehind(h: Host, inputs: seq<Occurrence>)
    requires Filed(h)
    ensures var later := HandleAll(h, inputs);
            && Grows(h.traces, later.traces)
            && h.applied <= later.applied
            && forall i :: |h.applied| <= i < |later.applied| ==>
                 later.applied[i].at >= |TraceOf(h.traces, later.applied[i].run)|
    decreases |inputs|
  {
    hide Handle, Filed, Justified, Grows;
    if inputs == [] {
      GrowsReflexive(h.traces);
    } else {
      var next := Handle(h, inputs[0].input, inputs[0].env);
      HandlerApplies(h, inputs[0].input, inputs[0].env);
      HandlerFiles(h, inputs[0].input, inputs[0].env);
      LaterApplicationsStandBehind(next, inputs[1..]);
      GrowsTransitive(h.traces, next.traces, HandleAll(next, inputs[1..]).traces);
      GrowsKeepsLength(h.traces, next.traces);
    }
  }

  /**
   When an accepted stop is processed, the cancel request of a still cancellable node is in the trace
   before any settlement that is applied later, in particular before the one parked under the stop.
   */
  lemma {:induction false} RequestPrecedesParkedSettlement(h: Host, call: string, stopped: bool,
                                                           reported: Option<string>,
                                                           env: Env, inputs: seq<Occurrence>) returns (p: nat)
    requires HostInv(h, false) && Filed(h) && call in h.stops && StopAccepted(h.stops[call], stopped, reported)
    requires StopTarget(h, h.stops[call].runId, env).Some?
    requires var t := StopTarget(h, h.stops[call].runId, env).value; NodeCanCancel(TraceOf(h.traces, t.run), t.node)
    ensures var t := StopTarget(h, h.stops[call].runId, env).value;
            var asked := BeginStopResult(h, call, stopped, reported, env);
            var later := HandleAll(asked, inputs);
            && AsksToCancel(TraceOf(asked.traces, t.run), t.node, p)
            && TraceOf(asked.traces, t.run) <= TraceOf(later.traces, t.run)
            && asked.applied == h.applied <= later.applied
            && forall i :: |h.applied| <= i < |later.applied| && later.applied[i].run == t.run ==>
                 later.applied[i].at > p
  {
    hide HandleAll, StopTarget, CancelDrafts, NodeCanCancel, AsksToCancel;
    var t := StopTarget(h, h.stops[call].runId, env).value;
    var asked := BeginStopResult(h, call, stopped, reported, env);
    var events := TraceOf(h.traces, t.run);
    StopTargetIsKnown(h, h.stops[call].runId, env, false);
    KnownIsNumbered(h, t);
    p := RequestIsWritten(events, t.node, t.parent, env.now, t.run);
    assert TraceOf(asked.traces, t.run) == Appended(events, CancelDrafts(events, t.node, t.parent), env.now, t.run);
    AsksWithin(TraceOf(asked.traces, t.run), t.node, p);
    LaterApplicationsStandBehind(asked, inputs);
  }

  lemma {:induction false} KnownIsNumbered(h: Host, t: Target)
    requires HostInv(h, false) && KnownTarget(h.traces, t)
    ensures t.run in h.traces && Written(TraceOf(h.traces, t.run), t.run, false)
    ensures Numbered(TraceOf(h.traces, t.run))
  {
  }

  lemma {:induction false} AsksWithin(events: seq<Event>, node: string, p: nat)
    requires AsksToCancel(events, node, p)
    ensures p < |events|
  {
  }

  // ---------------------------------------------------------------- arrival order

  /** Exactly one stop of the run is pending, and nothing is parked under it. */
  predicate OnlyStop(h: Host, call: string) {
    && call in h.stops
    && h.stops[call].runId !in h.held
    && forall other :: other in h.stops && other != call ==> h.stops[other].runId != h.stops[call].runId
  }

  /** The state in which a sole stop of the run has been processed and nothing was parked. */
  function Stopped(h: Host, call: string, stopped: bool, reported: Option<string>, env: Env): Host
    requires call in h.stops
  {
    BeginStopResult(h, call, stopped, reported, env).(finishing := h.finishing, stops := h.stops - {call})
  }

  lemma {:induction false} StopThenDelivery(h: Host, d: Delivery, call: string, stopped: bool, reported: Option<string>,
                                            asked: Env, late: Env)
    requires OnlyStop(h, call) && d.evidence.runId == h.stops[call].runId
    ensures FinishStopResult(BeginStopResult(h, call, stopped, reported, asked), call, h.stops[call], asked)
         == Stopped(h, call, stopped, reported, asked)
  {
    hide Write, CancelDrafts, StopTarget, StopAccepted;
    var begun := BeginStopResult(h, call, stopped, reported, asked);
    assert begun.finishing - multiset{(call, h.stops[call])} == h.finishing;
  }

  lemma {:induction false} DeliveryThenStop(h: Host, d: Delivery, call: string, stopped: bool, reported: Option<string>,
                                            asked: Env, late: Env)
    requires OnlyStop(h, call) && d.evidence.runId == h.stops[call].runId
    ensures FinishStopResult(BeginStopResult(h.(held := h.held[d.evidence.runId := d]), call, stopped, reported, asked),
                             call, h.stops[call], late)
         == Observe(Stopped(h, call, stopped, reported, asked), d, late)
  {
    hide Write, CancelDrafts, StopAccepted, FindTracked, Observe, TraceOf;
    var parked := h.(held := h.held[d.evidence.runId := d]);
    var begun := BeginStopResult(parked, call, stopped, reported, asked);
    assert begun.finishing - multiset{(call, h.stops[call])} == h.finishing;
    assert parked.held - {d.evidence.runId} == h.held;
    assert begun == BeginStopResult(h, call, stopped, reported, asked).(held := parked.held);
  }

  /** A delivery before the stop result and the same delivery after it lead to the same state. */
  lemma {:induction false} ParkingMakesOrderIrrelevant(h: Host, d: Delivery, call: string, stopped: bool,
                                                       reported: Option<string>, early: Env, asked: Env, late: Env)
    requires OnlyStop(h, call) && d.evidence.runId == h.stops[call].runId
    ensures var stop := h.stops[call];
            HandleAll(h, [Occurrence(Observed(d), early),
                          Occurrence(StopResult(call, stopped, reported), asked),
                          Occurrence(StopFinish(call, stop), late)])
            == HandleAll(h, [Occurrence(StopResult(call, stopped, reported), asked),
                             Occurrence(StopFinish(call, stop), asked),
                             Occurrence(Observed(d), late)])
  {
    hide Settle, Applies, HandleAll, BeginStopResult, FinishStopResult, Stopped;
    var stop := h.stops[call];
    ThreeInputs(h, [Occurrence(Observed(d), early), Occurrence(StopResult(call, stopped, reported), asked),
                    Occurrence(StopFinish(call, stop), late)]);
    ThreeInputs(h, [Occurrence(StopResult(call, stopped, reported), asked), Occurrence(StopFinish(call, stop), asked),
                    Occurrence(Observed(d), late)]);
    assert Handle(h, Observed(d), early) == h.(held := h.held[d.evidence.runId := d]);
    StopThenDelivery(h, d, call, stopped, reported, asked, late);
    DeliveryThenStop(h, d, call, stopped, reported, asked, late);
  }

  /** A kill of a blocked node closes it once an accepted stop has asked for it. */
  lemma {:induction false} RequestedKillCancels(events: seq<Event>, s: Evidence, node: string, p: nat)
    requires Numbered(events) && AsksToCancel(events, node, p)
    requires Outcome(events, node) == Some(Blocked) && s.killed
    ensures BlockedCancellation(events, s, node)
  {
    LastActPosition(events, node, KCancel, p);
    LastActIsIndexed(events, node, KSettled);
  }

  /** A kill of a blocked node appends something exactly when a cancel request came after its settlement. */
  lemma {:induction false} KillOfBlockedAppliesIff(h: Host, d: Delivery, env: Env)
    requires HostInv(h, false) && d.evidence.killed && Resolve(h, d, env).Some?
    requires var t := Resolve(h, d, env).value;
             Outcome(TraceOf(h.traces, t.run), t.node) == Some(Blocked) && t.node != ""
    ensures var t := Resolve(h, d, env).value;
            var events := TraceOf(h.traces, t.run);
            && LastAct(events, t.node, KSettled).Some?
            && (Applies(h, d, env) <==>
                NoOr0(LastAct(events, t.node, KCancel)) > LastAct(events, t.node, KSettled).value.no)
    ensures !Applies(h, d, env) ==> Settle(h, d, env) == h
  {
    hide Resolve, Disciplined, BlocksAreAsked, WaveDrafts, CoreDrafts;
    var t := Resolve(h, d, env).value;
    var events := TraceOf(h.traces, t.run);
    SettledIsLaunched(events, t.run, t.node);
    CoreIsWritten(events, d.evidence, ArtifactFor(events, d.evidence, env.files, t.node), t.node);
  }

  lemma {:induction false} SettledIsLaunched(events: seq<Event>, run: string, node: string)
    requires (events == [] || Written(events, run, false)) && LastAct(events, node, KSettled).Some?
    ensures Known(events, node, ROOT_NODE)
  {
    hide Lawful, Woken, BlocksAreAsked;
    LaunchIsByRoot(events, node);
  }

  lemma {:induction false} CoreIsWritten(events: seq<Event>, s: Evidence, artifact: Artifact, node: string)
    ensures forall parent :: CoreDrafts(events, s, artifact, node, parent) != []
  {
  }

  /**
   A blocked node whose run is stopped and killed ends cancelled, whether the kill arrives before or
   after the stop result.
   */
  lemma {:induction false} StoppedBlockedNodeIsCancelled(h: Host, d: Delivery, call: string, stopped: bool,
                                                         reported: Option<string>, early: Env, asked: Env, late: Env)
    requires HostInv(h, false) && OnlyStop(h, call) && d.evidence.runId == h.stops[call].runId && d.evidence.killed
    requires StopAccepted(h.stops[call], stopped, reported) && StopTarget(h, h.stops[call].runId, asked).Some?
    requires var t := StopTarget(h, h.stops[call].runId, asked).value;
             && Outcome(TraceOf(h.traces, t.run), t.node) == Some(Blocked) && t.node != ""
             && Resolve(Stopped(h, call, stopped, reported, asked), d, late) == Some(t)
    ensures var t := StopTarget(h, h.stops[call].runId, asked).value;
            var later := HandleAll(h, [Occurrence(Observed(d), early),
                                       Occurrence(StopResult(call, stopped, reported), asked),
                                       Occurrence(StopFinish(call, h.stops[call]), late)]);
            Outcome(TraceOf(later.traces, t.run), t.node) == Some(Cancelled)
  {
    hide HandleAll, BeginStopResult, FinishStopResult, Stopped, StopTarget, Resolve, HostInv, Outcome, Settle;
    ParkingMakesOrderIrrelevant(h, d, call, stopped, reported, early, asked, late);
    ThreeInputs(h, [Occurrence(StopResult(call, stopped, reported), asked),
                    Occurrence(StopFinish(call, h.stops[call]), asked), Occurrence(Observed(d), late)]);
    StopThenDelivery(h, d, call, stopped, reported, asked, late);
    KillSettles(h, d, call, stopped, reported, asked, late);
    NoStopLeft(h, call, stopped, reported, asked);
  }

  lemma {:induction false} NoStopLeft(h: Host, call: string, stopped: bool, reported: Option<string>, asked: Env)
    requires OnlyStop(h, call)
    ensures !StopPending(Stopped(h, call, stopped, reported, asked), h.stops[call].runId)
  {
    hide Write, CancelDrafts, StopTarget, StopAccepted;
  }

  lemma {:induction false} KillSettles(h: Host, d: Delivery, call: string, stopped: bool, reported: Option<string>,
                                       asked: Env, late: Env)
    requires HostInv(h, false) && call in h.stops && d.evidence.killed
    requires StopAccepted(h.stops[call], stopped, reported) && StopTarget(h, h.stops[call].runId, asked).Some?
    requires var t := StopTarget(h, h.stops[call].runId, asked).value;
             && Outcome(TraceOf(h.traces, t.run), t.node) == Some(Blocked) && t.node != ""
             && Resolve(Stopped(h, call, stopped, reported, asked), d, late) == Some(t)
    ensures var t := StopTarget(h, h.stops[call].runId, asked).value;
            var later := Settle(Stopped(h, call, stopped, reported, asked), d, late);
            Outcome(TraceOf(later.traces, t.run), t.node) == Some(Cancelled)
  {
    hide StopTarget, Resolve, CancelDrafts, Written, Known, SettlementDrafts, ArtifactFor, AsksToCancel,
         BlockedCancellation;
    var t := StopTarget(h, h.stops[call].runId, asked).value;
    var events := TraceOf(h.traces, t.run);
    StopTargetIsKnown(h, h.stops[call].runId, asked, false);
    var ready := Stopped(h, call, stopped, reported, asked);
    var after := TraceOf(ready.traces, t.run);
    assert after == Appended(events, CancelDrafts(events, t.node, t.parent), asked.now, t.run);
    CancelledTrace(events, d.evidence, t.node, t.parent, asked.now, late, t.run);
  }

  /** Once an accepted stop of a blocked node is traced, a kill may cancel it. */
  lemma {:induction false} RequestedTrace(events: seq<Event>, s: Evidence, node: string, parent: string, now: int,
                                          run: string)
    requires Written(events, run, false) && Known(events, node, parent)
    requires Outcome(events, node) == Some(Blocked) && s.killed
    ensures var after := Appended(events, CancelDrafts(events, node, parent), now, run);
            Written(after, run, false) && Known(after, node, ROOT_NODE) && BlockedCancellation(after, s, node)
  {
    hide CancelDrafts, AsksToCancel, BlockedCancellation, Outcome, Written, NodeCanCancel, LastAct;
    var after := Appended(events, CancelDrafts(events, node, parent), now, run);
    WrittenParts(events, run, false);
    StepIsWritten(events, StopStep(node, parent), now, run, false);
    WrittenParts(after, run, false);
    BlockedCanCancel(events, node);
    var p := RequestIsWritten(events, node, parent, now, run);
    StillBlocked(events, node, parent, now, run);
    RequestedKillCancels(after, s, node, p);
    LaunchPersists(events, after[|events|..], node);
    assert after == events + after[|events|..];
    LaunchIsByRoot(after, node);
  }

  lemma {:induction false} CancelledTrace(events: seq<Event>, s: Evidence, node: string, parent: string, now: int,
                                          late: Env, run: string)
    requires Written(events, run, false) && Known(events, node, parent)
    requires Outcome(events, node) == Some(Blocked) && node != "" && s.killed
    ensures var after := Appended(events, CancelDrafts(events, node, parent), now, run);
            var drafts := SettlementDrafts(after, s, ArtifactFor(after, s, late.files, node), node);
            && drafts != []
            && Outcome(Appended(after, drafts, late.now, run), node) == Some(Cancelled)
  {
    hide SettlementDrafts, ArtifactFor, CancelDrafts, BlockedCancellation, Outcome, Written, Known;
    var after := Appended(events, CancelDrafts(events, node, parent), now, run);
    RequestedTrace(events, s, node, parent, now, run);
    WrittenParts(after, run, false);
    var artifact := ArtifactFor(after, s, late.files, node);
    AppendedIsOrderly(after, SettlementDrafts(after, s, artifact, node), late.now, run);
    SettlesAtEnd(after, s, artifact, node, late.now, run);
  }

  lemma {:induction false} BlockedCanCancel(events: seq<Event>, node: string)
    requires Outcome(events, node) == Some(Blocked)
    ensures NodeCanCancel(events, node)
  {
  }

  lemma {:induction false} StillBlocked(events: seq<Event>, node: string, parent: string, now: int, run: string)
    requires Outcome(events, node) == Some(Blocked)
    ensures Outcome(Appended(events, CancelDrafts(events, node, parent), now, run), node) == Some(Blocked)
  {
    var drafts := CancelDrafts(events, node, parent);
    if drafts != [] {
      var e := Event(LastNo(events) + 1, AppendTime(events, now), run, drafts[0]);
      assert Appended(events, drafts, now, run) == events + [e];
      assert Front(events + [e]) == events;
    }
  }
}
