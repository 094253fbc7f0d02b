/**
 Whole runs of the writer on one trace: every guarded run is accepted by the checker, and every
 settlement that is not a blocked one is final.
 */
module WriterRuns {
  import opened Options
  import opened TraceEvents
  import opened TraceChecker
  import opened TraceHistory
  import opened TraceWriter
  import opened WriterReplay
  import opened WriterLaws
  import opened LaunchLaws

  datatype WriterStep =
    | LaunchStep(req: LaunchRequest)
    | SettleStep(node: string, s: Evidence, files: map<string, File>)
    | StopStep(node: string, parent: string)
    | ReplyStep(node: string, parent: string, text: string)
  {
    predicate Valid() {
      LaunchStep? ==> req.Valid()
    }
  }

  function Drafts(events: seq<Event>, step: WriterStep): seq<Body>
    requires step.Valid()
  {
    match step
    case LaunchStep(req) => LaunchDrafts(events, req)
    case SettleStep(node, s, files) => SettlementDrafts(events, s, ArtifactFor(events, s, files, node), node)
    case StopStep(node, parent) => CancelDrafts(events, node, parent)
    case ReplyStep(node, parent, text) => ReplyDrafts(events, node, parent, text)
  }

  /** The node that a stop or a reply names was launched in this trace by this parent. */
  ghost predicate Targeted(events: seq<Event>, step: WriterStep) {
    match step
    case StopStep(node, parent) => Known(events, node, parent)
    case ReplyStep(node, parent, _) => Known(events, node, parent)
    case _ => true
  }

  /** The condition under which a step keeps the trace legal. */
  predicate Guard(events: seq<Event>, step: WriterStep)
    requires step.Valid()
  {
    match step
    case LaunchStep(req) => LaunchGuard(events, req)
    case SettleStep(node, s, files) =>
      LaunchOf(events, node).Some? ==> !Unlabelled(events, s, ArtifactFor(events, s, files, node), node)
    case _ => true
  }

  function After(events: seq<Event>, step: WriterStep, now: int, run: string): seq<Event>
    requires step.Valid()
  {
    Appended(events, Drafts(events, step), now, run)
  }

  lemma {:induction false} LaunchedByRoot(events: seq<Event>, node: string, run: string)
    requires WriterInv(events, run) && LaunchOf(events, node).Some?
    ensures events != [] && Known(events, node, ROOT_NODE)
  {
    if events != [] {
      CheckerMatchesHistory(events, node);
    }
  }

  /** A host step leads from a legal trace to a legal trace exactly when its guard holds. */
  lemma {:induction false} StepAcceptedIff(events: seq<Event>, step: WriterStep, now: int, run: string)
    requires WriterInv(events, run) && step.Valid() && Targeted(events, step)
    ensures var after := After(events, step, now, run);
            && (Accepted(after) || after == [] <==> Guard(events, step))
            && (Guard(events, step) ==> WriterInv(after, run))
  {
    hide WriterInv, Accepted, LaunchGuard, Unlabelled;
    match step
    case LaunchStep(req) =>
      LaunchAcceptedIff(events, req, now, run);
    case SettleStep(node, s, files) =>
      if LaunchOf(events, node).Some? {
        LaunchedByRoot(events, node, run);
        SettlementAcceptedIff(events, s, ArtifactFor(events, s, files, node), node, now, run);
      } else if events != [] {
        WriterInvAccepts(events, run);
      }
    case StopStep(node, parent) =>
      StopIsAccepted(events, node, parent, now, run);
    case ReplyStep(node, parent, text) =>
      ReplyIsAccepted(events, node, parent, text, now, run);
  }

  // ---------------------------------------------------------------- runs

  datatype Timed = Timed(step: WriterStep, now: int)

  predicate AllValid(steps: seq<Timed>) {
    forall t :: t in steps ==> t.step.Valid()
  }

  function Extend(events: seq<Event>, steps: seq<Timed>, run: string): seq<Event>
    requires AllValid(steps)
    decreases |steps|
  {
    if steps == [] then events
    else Extend(After(events, steps[0].step, steps[0].now, run), steps[1..], run)
  }

  ghost predicate Guarded(events: seq<Event>, steps: seq<Timed>, run: string)
    requires AllValid(steps)
    decreases |steps|
  {
    steps != [] ==>
      && Targeted(events, steps[0].step) && Guard(events, steps[0].step)
      && Guarded(After(events, steps[0].step, steps[0].now, run), steps[1..], run)
  }

  lemma {:induction false} RunsKeepInv(events: seq<Event>, steps: seq<Timed>, run: string)
    requires AllValid(steps) && WriterInv(events, run) && Guarded(events, steps, run)
    ensures WriterInv(Extend(events, steps, run), run)
    decreases |steps|
  {
    hide WriterInv, Drafts;
    if steps != [] {
      assert steps[0] in steps;
      StepAcceptedIff(events, steps[0].step, steps[0].now, run);
      RunsKeepInv(After(events, steps[0].step, steps[0].now, run), steps[1..], run);
    }
  }

  /** From the empty trace, every sequence of guarded host steps writes a trace that the checker accepts. */
  lemma {:induction false} WriterMeetsChecker(steps: seq<Timed>, run: string)
    requires AllValid(steps) && Guarded([], steps, run)
    ensures var trace := Extend([], steps, run);
            trace != [] ==> Accepted(trace)
  {
    RunsKeepInv([], steps, run);
    if Extend([], steps, run) != [] {
      WriterInvAccepts(Extend([], steps, run), run);
    }
  }

  // ---------------------------------------------------------------- settling an attempt twice

  ghost predicate NoActBetween(events: seq<Event>, node: string, kind: Kind, i: nat, j: nat)
    requires j <= |events|
  {
    forall k :: i < k < j ==> !IsAct(events[k].body, node, kind)
  }

  lemma {:induction false} LastActPosition(events: seq<Event>, node: string, kind: Kind, i: nat)
    requires Numbered(events) && i < |events| && IsAct(events[i].body, node, kind)
    ensures var last := LastAct(events, node, kind);
            last.Some? && i + 1 <= last.value.no <= |events| && events[last.value.no - 1] == last.value
  {
    if !IsAct(Last(events).body, node, kind) {
      LastActPosition(Front(events), node, kind, i);
    }
  }

  lemma {:induction false} LastActIsIndexed(events: seq<Event>, node: string, kind: Kind)
    requires Numbered(events)
    ensures var last := LastAct(events, node, kind);
            last.Some? ==> 1 <= last.value.no <= |events| && events[last.value.no - 1] == last.value
  {
    if events != [] && !IsAct(Last(events).body, node, kind) {
      LastActIsIndexed(Front(events), node, kind);
    }
  }

  lemma {:induction false} NoneAfterLast(events: seq<Event>, node: string, kind: Kind, i: nat)
    requires Numbered(events) && i < |events|
    requires LastAct(events, node, kind).Some? && LastAct(events, node, kind).value.no == i + 1
    ensures NoActBetween(events, node, kind, i, |events|)
  {
    forall k | i < k < |events| ensures !IsAct(events[k].body, node, kind) {
      if IsAct(events[k].body, node, kind) {
        LastActPosition(events, node, kind, k);
      }
    }
  }

  // ---------------------------------------------------------------- final settlements

  /** The node's last settlement is in force and is not a blocked one. */
  predicate Final(events: seq<Event>, node: string) {
    Outcome(events, node).Some? && Outcome(events, node) != Some(Blocked)
  }

  /** Everything the trace says about a node: its own acts and the wakes that name it. */
  predicate Concerns(b: Body, node: string) {
    (b.Lifecycle? && b.node == node) || (b.Awakened? && b.child == node)
  }

  function HistoryOf(events: seq<Event>, node: string): seq<Event> {
    if events == [] then []
    else HistoryOf(Front(events), node) + (if Concerns(Last(events).body, node) then [Last(events)] else [])
  }

  lemma {:induction false} AppendElsewhere(events: seq<Event>, more: seq<Event>, node: string)
    requires forall e :: e in more ==> !Concerns(e.body, node)
    ensures HistoryOf(events + more, node) == HistoryOf(events, node)
    ensures forall kind :: LastAct(events + more, node, kind) == LastAct(events, node, kind)
    decreases |more|
  {
    if more == [] {
      assert events + more == events;
    } else {
      var all := events + more;
      assert Last(all) == Last(more) && Last(more) in more;
      assert Front(all) == events + Front(more);
      AppendElsewhere(events, Front(more), node);
    }
  }

  /** No step drafts anything about a finally settled node. */
  lemma {:induction false} FinalDraftsNothing(events: seq<Event>, step: WriterStep, node: string)
    requires step.Valid() && Final(events, node)
    ensures forall b :: b in Drafts(events, step) ==> !Concerns(b, node)
  {
    hide WaveLaunchDrafts, NodeLaunchDrafts, SettlementDrafts, CancelDrafts, ReplyDrafts;
    match step
    case LaunchStep(req) => LaunchConcernsNone(events, req, node);
    case SettleStep(other, s, files) => SettleConcernsOne(events, s, ArtifactFor(events, s, files, other), other, node);
    case StopStep(other, parent) => StopConcernsOne(events, other, parent, node);
    case ReplyStep(other, parent, text) => ReplyConcernsOne(events, other, parent, text, node);
  }

  lemma {:induction false} LaunchConcernsNone(events: seq<Event>, req: LaunchRequest, node: string)
    requires req.Valid()
    ensures forall b :: b in LaunchDrafts(events, req) ==> !Concerns(b, node)
  {
  }

  lemma {:induction false} SettleConcernsOne(events: seq<Event>, s: Evidence, artifact: Artifact, other: string,
                                             node: string)
    requires Final(events, node)
    ensures forall b :: b in SettlementDrafts(events, s, artifact, other) ==> !Concerns(b, node)
  {
    hide SettlementActs, WaveDrafts, NextGeneration;
    if LaunchOf(events, other).Some? {
      var core := CoreDrafts(events, s, artifact, other, LaunchOf(events, other).value.body.parent);
      WaveDraftsShape(events, core, other);
      assert other != node ==> forall b :: b in core ==> !Concerns(b, node);
    }
  }

  lemma {:induction false} StopConcernsOne(events: seq<Event>, other: string, parent: string, node: string)
    requires Final(events, node)
    ensures forall b :: b in CancelDrafts(events, other, parent) ==> !Concerns(b, node)
  {
  }

  lemma {:induction false} ReplyConcernsOne(events: seq<Event>, other: string, parent: string, text: string,
                                            node: string)
    requires Final(events, node)
    ensures forall b :: b in ReplyDrafts(events, other, parent, text) ==> !Concerns(b, node)
  {
  }

  lemma {:induction false} FinalStep(events: seq<Event>, step: WriterStep, now: int, run: string, node: string)
    requires step.Valid() && Final(events, node)
    ensures var after := After(events, step, now, run);
            Final(after, node) && HistoryOf(after, node) == HistoryOf(events, node)
  {
    hide Drafts;
    var drafts := Drafts(events, step);
    FinalDraftsNothing(events, step, node);
    if drafts != [] {
      var more := Stamp(drafts, LastNo(events) + 1, AppendTime(events, now), run);
      forall e | e in more ensures !Concerns(e.body, node) {
        var i :| 0 <= i < |more| && more[i] == e;
        assert e.body == drafts[i];
      }
      AppendElsewhere(events, more, node);
    }
  }

  /** Whatever the host does afterwards, the record of a finally settled node never changes. */
  lemma {:induction false} FinalIsAbsorbing(events: seq<Event>, steps: seq<Timed>, run: string, node: string)
    requires AllValid(steps) && Final(events, node)
    ensures Final(Extend(events, steps, run), node)
    ensures HistoryOf(Extend(events, steps, run), node) == HistoryOf(events, node)
    decreases |steps|
  {
    if steps != [] {
      assert steps[0] in steps;
      FinalStep(events, steps[0].step, steps[0].now, run, node);
      FinalIsAbsorbing(After(events, steps[0].step, steps[0].now, run), steps[1..], run, node);
    }
  }

  lemma {:induction false} SettlesAtEnd(events: seq<Event>, s: Evidence, artifact: Artifact, node: string, now: int,
                                        run: string)
    requires Orderly(events, run) && LastNo(events) == |events|
    requires Known(events, node, ROOT_NODE) && Settles(events, s, node)
    requires Numbered(Appended(events, SettlementDrafts(events, s, artifact, node), now, run))
    ensures var after := Appended(events, SettlementDrafts(events, s, artifact, node), now, run);
            && |after| > |events|
            && Current(after, node, KSettled).Some? && Current(after, node, KSettled).value.no > |events|
            && Outcome(after, node) == Some(SettledStatus(s, artifact))
  {
    hide WaveDrafts, SettlementActs;
    var drafts := SettlementDrafts(events, s, artifact, node);
    var after := Appended(events, drafts, now, run);
    var i := SettlementPosition(events, s, artifact, node);
    assert forall k :: |events| <= k < |after| ==> after[k].body == drafts[k - |events|];
    assert after[|events| + i].body == drafts[i];
    LastActPosition(after, node, KSettled, |events| + i);
    LastActIsIndexed(after, node, KResumed);
  }

  lemma {:induction false} SettlementPosition(events: seq<Event>, s: Evidence, artifact: Artifact, node: string)
    returns (i: nat)
    requires Known(events, node, ROOT_NODE) && Settles(events, s, node)
    ensures var drafts := SettlementDrafts(events, s, artifact, node);
            && i < |drafts| && IsAct(drafts[i], node, KSettled)
            && (forall k :: 0 <= k < |drafts| ==> !IsAct(drafts[k], node, KResumed))
            && forall k :: 0 <= k < |drafts| && IsAct(drafts[k], node, KSettled) ==>
                 drafts[k].act.outcome == SettledStatus(s, artifact)
  {
    hide NextGeneration, NodeIsSettled, SettlementActs, SettledStatus, Settles, WaveDrafts;
    var acts := SettlementActs(events, s, artifact, node);
    var core := CoreDrafts(events, s, artifact, node, ROOT_NODE);
    var drafts := SettlementDrafts(events, s, artifact, node);
    ActsShape(events, s, artifact, node);
    WaveDraftsShape(events, core, node);
    i := |acts| - 1;
    assert drafts == core + WaveDrafts(events, core, node);
    forall k | 0 <= k < |drafts|
      ensures drafts[k].Lifecycle? ==> k < |acts| && drafts[k].act == acts[k] && acts[k] in acts
    {
      if k >= |core| {
        assert drafts[k] == WaveDrafts(events, core, node)[k - |core|];
        assert drafts[k] in WaveDrafts(events, core, node);
      } else if k == |acts| {
        assert drafts[k] == core[k] && core[k].Awakened?;
      } else {
        assert drafts[k] == core[k] == Lifecycle(node, ROOT_NODE, acts[k]);
      }
    }
    assert drafts[i] == Lifecycle(node, ROOT_NODE, acts[i]);
  }

  lemma {:induction false} WaveDraftsShape(events: seq<Event>, core: seq<Body>, node: string)
    ensures forall b :: b in WaveDrafts(events, core, node) ==> b.WaveCompleted?
  {
  }

  lemma {:induction false} ActsShape(events: seq<Event>, s: Evidence, artifact: Artifact, node: string)
    ensures forall act :: act in SettlementActs(events, s, artifact, node) ==>
              && !act.Resumed?
              && (act.Settled? ==> act.outcome == SettledStatus(s, artifact))
    ensures var acts := SettlementActs(events, s, artifact, node); acts != [] && Last(acts).Settled?
  {
  }
}
