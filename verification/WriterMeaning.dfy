/**
 What a trace shows after a host step, in terms of what the host was told: the status of a settlement and
 what is written with it, the completion of its wave, and what a reply, a stop and a launch leave behind.
 */
module WriterMeaning {
  import opened Options
  import opened TraceEvents
  import opened TraceHistory
  import opened TraceWriter
  import opened WriterReplay
  import opened WriterLaws
  import opened WriterRuns

  // ---------------------------------------------------------------- the result file

  /** The path that evidence names, or else the one that the node was launched with. */
  function ResultPath(events: seq<Event>, s: Evidence, node: string): Option<string> {
    var launch := LaunchOf(events, node);
    if s.resultPath.None? && launch.Some? then launch.value.body.resultPath else s.resultPath
  }

  /** The result that is there: a readable file under that path that is not blank. */
  function Result(events: seq<Event>, s: Evidence, files: map<string, File>, node: string): (result: Option<File>)
    ensures result.Some? ==> result.value.Text? && !result.value.blank
    ensures result.Some? ==>
              var path := ResultPath(events, s, node);
              path.Some? && path != Some("") && path.value in files && files[path.value] == result.value
  {
    var path := ResultPath(events, s, node);
    if path.Some? && path != Some("") && path.value in files && files[path.value].Text? && !files[path.value].blank
    then Some(files[path.value]) else None
  }

  /** What the host makes of the file. */
  lemma {:induction false} ArtifactIs(events: seq<Event>, s: Evidence, files: map<string, File>, node: string)
    ensures var artifact, result := ArtifactFor(events, s, files, node), Result(events, s, files, node);
            && (artifact.present <==> result.Some?) && (artifact.valid <==> result.Some?)
            && (result.Some? ==>
                  && artifact.path == ResultPath(events, s, node)
                  && artifact.status == (if result.value.status == Some("") then None else result.value.status)
                  && artifact.statusBody == result.value.statusBody
                  && artifact.deviations == result.value.deviations
                  && artifact.notes == result.value.notes)
            && (result.None? ==> artifact.status.None? && artifact.statusBody.None?)
  {
  }

  // ---------------------------------------------------------------- scanning appended drafts

  function LastOf(acts: seq<Act>, kind: Kind): (found: Option<Act>)
    ensures found.Some? ==> KindOf(found.value) == kind
  {
    if acts == [] then None
    else if KindOf(Last(acts)) == kind then Some(Last(acts))
    else LastOf(Front(acts), kind)
  }

  function ActOf(found: Option<Event>): Option<Act> {
    if found.Some? && found.value.body.Lifecycle? then Some(found.value.body.act) else None
  }

  lemma {:induction false} LastOfConcat(a: seq<Act>, b: seq<Act>, kind: Kind)
    ensures LastOf(a + b, kind) == if LastOf(b, kind).Some? then LastOf(b, kind) else LastOf(a, kind)
  {
    if b == [] {
      assert a + b == a;
    } else {
      assert Last(a + b) == Last(b) && Front(a + b) == a + Front(b);
      LastOfConcat(a, Front(b), kind);
    }
  }

  lemma {:induction false} LastOfOne(act: Act, kind: Kind)
    ensures LastOf([act], kind) == if KindOf(act) == kind then Some(act) else None
  {
    assert Front([act]) == [];
  }

  /** The drafts about a node, and others behind them that are not acts. */
  lemma {:induction false} StampedActs(acts: seq<Act>, rest: seq<Body>, node: string, parent: string, first: int,
                                       at: int, run: string, kind: Kind)
    requires forall b :: b in rest ==> !b.Lifecycle?
    ensures var more := Stamp(About(node, parent, acts) + rest, first, at, run);
            && ActOf(LastAct(more, node, kind)) == LastOf(acts, kind)
            && (LastAct(more, node, kind).Some? ==> LastAct(more, node, kind).value.no >= first)
    decreases |acts| + |rest|
  {
    var drafts := About(node, parent, acts) + rest;
    var more := Stamp(drafts, first, at, run);
    if drafts != [] {
      assert Front(more) == Stamp(Front(drafts), first, at, run);
      assert Last(more).body == Last(drafts);
      if rest != [] {
        assert Last(drafts) == Last(rest) && Last(rest) in rest;
        assert Front(drafts) == About(node, parent, acts) + Front(rest);
        StampedActs(acts, Front(rest), node, parent, first, at, run, kind);
      } else {
        assert Last(drafts) == Lifecycle(node, parent, Last(acts));
        assert Front(drafts) == About(node, parent, Front(acts)) + [];
        StampedActs(Front(acts), [], node, parent, first, at, run, kind);
      }
    }
  }

  lemma {:induction false} CurrentConcat(events: seq<Event>, more: seq<Event>, node: string, kind: Kind)
    requires Numbered(events + more) && kind != KResumed
    requires forall e :: e in more ==> !IsAct(e.body, node, KResumed)
    ensures Current(events + more, node, kind)
         == if LastAct(more, node, kind).Some? then LastAct(more, node, kind) else Current(events, node, kind)
    decreases |more|
  {
    if more == [] {
      assert events + more == events;
    } else {
      assert events + more == (events + Front(more)) + [Last(more)];
      assert Last(more) in more;
      assert forall e :: e in Front(more) ==> e in more;
      var shorter := events + Front(more);
      assert forall i :: 0 <= i < |shorter| ==> shorter[i] == (events + more)[i];
      CurrentConcat(events, Front(more), node, kind);
      CurrentSnoc(shorter, Last(more), node, kind);
      hide Current;
    }
  }

  /** The acts in force about a node after acts other than resumes were appended about it. */
  lemma {:induction false} ActsInForce(events: seq<Event>, acts: seq<Act>, rest: seq<Body>, node: string,
                                       parent: string, now: int, run: string, kind: Kind)
    requires Orderly(events, run) && kind != KResumed
    requires forall b :: b in rest ==> !b.Lifecycle?
    requires forall act :: act in acts ==> !act.Resumed?
    ensures var after := Appended(events, About(node, parent, acts) + rest, now, run);
            if LastOf(acts, kind).Some? then
              && Current(after, node, kind).Some? && Current(after, node, kind).value.no > |events|
              && ActOf(Current(after, node, kind)) == LastOf(acts, kind)
            else Current(after, node, kind) == Current(events, node, kind)
  {
    var drafts := About(node, parent, acts) + rest;
    AppendedIsOrderly(events, drafts, now, run);
    var more := StampedMore(events, drafts, now, run);
    StampedActs(acts, rest, node, parent, |events| + 1, AppendTime(events, now), run, kind);
    forall e | e in more ensures !IsAct(e.body, node, KResumed) {
      NoResumes(acts, rest, node, parent, |events| + 1, AppendTime(events, now), run, e);
    }
    hide Current, Stamp, Appended, LastAct, About, LastOf;
    CurrentConcat(events, more, node, kind);
  }

  lemma {:induction false} StampedMore(events: seq<Event>, drafts: seq<Body>, now: int, run: string)
    returns (more: seq<Event>)
    requires LastNo(events) == |events|
    ensures more == Stamp(drafts, |events| + 1, AppendTime(events, now), run)
    ensures Appended(events, drafts, now, run) == events + more
  {
    more := Stamp(drafts, |events| + 1, AppendTime(events, now), run);
    if drafts == [] { assert events + more == events; }
  }

  lemma {:induction false} NoResumes(acts: seq<Act>, rest: seq<Body>, node: string, parent: string, first: int,
                                     at: int, run: string, e: Event)
    requires forall b :: b in rest ==> !b.Lifecycle?
    requires forall act :: act in acts ==> !act.Resumed?
    requires e in Stamp(About(node, parent, acts) + rest, first, at, run)
    ensures !IsAct(e.body, node, KResumed)
  {
    var drafts := About(node, parent, acts) + rest;
    var i :| 0 <= i < |drafts| && Stamp(drafts, first, at, run)[i] == e;
    if i < |acts| {
      assert e.body == Lifecycle(node, parent, acts[i]) && acts[i] in acts;
    } else {
      assert e.body == rest[i - |acts|] && rest[i - |acts|] in rest;
    }
  }

  // ---------------------------------------------------------------- a settlement

  /** A kill that was asked for after the blocked settlement in force closes it without a result. */
  predicate ClosesBlocked(events: seq<Event>, s: Evidence, node: string) {
    var settled, cancel := LastAct(events, node, KSettled), LastAct(events, node, KCancel);
    && s.killed && ActOf(settled).Some? && ActOf(settled).value.Settled?
    && ActOf(settled).value.outcome == Blocked && Later(cancel, settled.value)
  }

  /** The host asks for a decision. */
  predicate Asks(s: Evidence) {
    !s.killed && s.agentState == AgentBlocked
  }

  lemma {:induction false} ResultActsByKind(events: seq<Event>, artifact: Artifact, node: string)
    requires artifact.path.Some?
    ensures var acts, path := ResultActs(events, artifact, node), artifact.path.value;
            && LastOf(acts, KWritten) == Some(ResultWritten(path))
            && LastOf(acts, KDeviation) == (if artifact.deviations != [] && Current(events, node, KDeviation).None?
                                            then Some(Deviation(artifact.deviations)) else None)
            && LastOf(acts, KValidated)
               == Some(ResultValidated(path, artifact.valid,
                                       if artifact.valid then artifact.notes else artifact.problems,
                                       if artifact.valid then artifact.status else None))
            && LastOf(acts, KBlocked).None? && LastOf(acts, KSettled).None?
            && forall act :: act in acts ==> !act.Resumed?
  {
    var path := artifact.path.value;
    var written := ResultWritten(path);
    var validated := ResultValidated(path, artifact.valid, if artifact.valid then artifact.notes else artifact.problems,
                                     if artifact.valid then artifact.status else None);
    var deviations := if artifact.deviations != [] && Current(events, node, KDeviation).None?
                      then [Deviation(artifact.deviations)] else [];
    assert ResultActs(events, artifact, node) == [written] + deviations + [validated];
    hide ResultActs, Current;
    forall kind
      ensures LastOf([written] + deviations + [validated], kind)
           == if kind == KValidated then Some(validated)
              else if kind == KDeviation && deviations != [] then Some(deviations[0])
              else if kind == KWritten then Some(written) else None
    {
      LastOfConcat([written] + deviations, [validated], kind);
      LastOfConcat([written], deviations, kind);
      LastOfOne(validated, kind);
      LastOfOne(written, kind);
      if deviations != [] { LastOfOne(deviations[0], kind); }
    }
  }

  /** The acts of a settlement, by kind. */
  lemma {:induction false} SettlementActsByKind(events: seq<Event>, s: Evidence, artifact: Artifact, node: string)
    ensures var acts, writes := SettlementActs(events, s, artifact, node), WritesEvidence(events, s, artifact, node);
            && LastOf(acts, KSettled)
               == Some(Settled(SettledStatus(s, artifact), if artifact.valid then artifact.status else None,
                               SurfaceClosed(s)))
            && LastOf(acts, KBlocked) == (if NativeStatus(s) == Blocked && Current(events, node, KBlocked).None?
                                          then Some(BlockedOn(RequestText(s, artifact))) else None)
            && (forall kind | kind in {KWritten, KDeviation, KValidated} ::
                  LastOf(acts, kind) == if writes then LastOf(ResultActs(events, artifact, node), kind) else None)
            && forall act :: act in acts ==> !act.Resumed?
  {
    var writes := WritesEvidence(events, s, artifact, node);
    var blocked := if NativeStatus(s) == Blocked && Current(events, node, KBlocked).None?
                   then [BlockedOn(RequestText(s, artifact))] else [];
    var results := if writes then ResultActs(events, artifact, node) else [];
    var settled := Settled(SettledStatus(s, artifact), if artifact.valid then artifact.status else None,
                           SurfaceClosed(s));
    if writes { ResultActsByKind(events, artifact, node); }
    assert SettlementActs(events, s, artifact, node) == blocked + results + [settled];
    hide SettlementActs, ResultActs, Current, WritesEvidence, SettledStatus, NativeStatus, SurfaceClosed, RequestText;
    forall kind
      ensures LastOf(blocked + results + [settled], kind)
           == if kind == KSettled then Some(settled)
              else if LastOf(results, kind).Some? then LastOf(results, kind)
              else if kind == KBlocked && blocked != [] then Some(blocked[0]) else None
    {
      LastOfConcat(blocked + results, [settled], kind);
      LastOfConcat(blocked, results, kind);
      LastOfOne(settled, kind);
      if blocked != [] { LastOfOne(blocked[0], kind); }
    }
  }

  /** The drafts of a settlement: its acts, and the wake and the end of the wave behind them. */
  lemma {:induction false} SettlementParts(events: seq<Event>, s: Evidence, artifact: Artifact, node: string)
    returns (rest: seq<Body>)
    requires Known(events, node, ROOT_NODE) && Settles(events, s, node)
    ensures SettlementDrafts(events, s, artifact, node)
         == About(node, ROOT_NODE, SettlementActs(events, s, artifact, node)) + rest
    ensures forall b :: b in rest ==> !b.Lifecycle?
  {
    var core := CoreDrafts(events, s, artifact, node, ROOT_NODE);
    var wave := WaveDrafts(events, core, node);
    rest := [Awakened(ROOT_NODE, node, SettledStatus(s, artifact), NextGeneration(events, ROOT_NODE))] + wave;
    WaveDraftsShape(events, core, node);
    hide WaveDrafts, SettlementActs, SettledStatus, NextGeneration, Settles;
  }

  /** The act of a kind in force about the node after evidence was applied. */
  function ActAfter(events: seq<Event>, node: string, kind: Kind): Option<Act> {
    ActOf(Current(events, node, kind))
  }

  predicate IsNew(events: seq<Event>, after: seq<Event>, node: string, kind: Kind) {
    Current(after, node, kind).Some? && Current(after, node, kind).value.no > |events|
  }

  /** What is written with a settlement. */
  lemma {:induction false} SettlementWrites(events: seq<Event>, s: Evidence, files: map<string, File>, node: string,
                                            now: int, run: string, kind: Kind)
    requires Orderly(events, run) && Known(events, node, ROOT_NODE) && Settles(events, s, node)
    requires kind != KResumed
    ensures var artifact := ArtifactFor(events, s, files, node);
            var after := After(events, SettleStep(node, s, files), now, run);
            var last := LastOf(SettlementActs(events, s, artifact, node), kind);
            if last.Some? then IsNew(events, after, node, kind) && ActAfter(after, node, kind) == last
            else Current(after, node, kind) == Current(events, node, kind)
  {
    var artifact := ArtifactFor(events, s, files, node);
    var acts := SettlementActs(events, s, artifact, node);
    var rest := SettlementParts(events, s, artifact, node);
    SettlementActsByKind(events, s, artifact, node);
    hide SettlementActs, SettlementDrafts, Current, ArtifactFor, Settles, Appended, About;
    ActsInForce(events, acts, rest, node, ROOT_NODE, now, run, kind);
  }

  /** The status with which evidence settles a node. */
  lemma {:induction false} StatusMeans(events: seq<Event>, s: Evidence, files: map<string, File>, node: string,
                                       now: int, run: string)
    requires Orderly(events, run) && Known(events, node, ROOT_NODE) && Settles(events, s, node)
    ensures var outcome := Outcome(After(events, SettleStep(node, s, files), now, run), node);
            var result, ends := Result(events, s, files, node), s.agentState in {AgentDone, AgentIdle};
            && (outcome == Some(Cancelled) <==> s.killed)
            && (outcome == Some(Done) <==> !s.killed && ends && result.Some?)
            && (outcome == Some(Blocked) <==> Asks(s) && result.Some?)
            && (outcome == Some(Stalled) <==>
                  !s.killed && (s.agentState == AgentStalled || ((ends || Asks(s)) && result.None?)))
            && (outcome == Some(Failed) <==> !s.killed && s.agentState == AgentOther)
            && outcome.Some?
  {
    var artifact := ArtifactFor(events, s, files, node);
    ArtifactIs(events, s, files, node);
    SettlementActsByKind(events, s, artifact, node);
    SettlementWrites(events, s, files, node, now, run, KSettled);
    hide ArtifactFor, Result, SettlementActs, Current, After, Settles, LastOf;
  }

  /** What the settlement says about the result and the surface of the agent. */
  lemma {:induction false} SettlementSays(events: seq<Event>, s: Evidence, files: map<string, File>, node: string,
                                          now: int, run: string)
    requires Orderly(events, run) && Known(events, node, ROOT_NODE) && Settles(events, s, node)
    ensures var after := After(events, SettleStep(node, s, files), now, run);
            var settled, result := ActAfter(after, node, KSettled), Result(events, s, files, node);
            && IsNew(events, after, node, KSettled) && settled.Some? && settled.value.Settled?
            && (forall status :: settled.value.resultStatus == Some(status) <==>
                  result.Some? && status != "" && result.value.status == Some(status))
            && (settled.value.surfaceClosed.None? <==> s.closeOnSettle.None? && s.reusable.None?)
            && (settled.value.surfaceClosed == Some(true) <==>
                  && s.agentState in {AgentDone, AgentIdle}
                  && (s.closeOnSettle == Some(true) || (s.closeOnSettle.None? && s.reusable == Some(false))))
  {
    var artifact := ArtifactFor(events, s, files, node);
    ArtifactIs(events, s, files, node);
    SettlementActsByKind(events, s, artifact, node);
    SettlementWrites(events, s, files, node, now, run, KSettled);
    hide ArtifactFor, Result, SettlementActs, Current, After, Settles, LastOf, SettledStatus;
  }

  lemma {:induction false} RequestTextIs(s: Evidence, artifact: Artifact)
    ensures NativeStatus(s) == Blocked <==> Asks(s)
    ensures artifact.statusBody.Some? ==> RequestText(s, artifact) == artifact.statusBody.value
    ensures artifact.statusBody.None? && s.note.Some? ==> RequestText(s, artifact) == s.note.value
    ensures artifact.statusBody.None? && s.note.None? && s.tail != "" ==> RequestText(s, artifact) == s.tail
    ensures artifact.statusBody.None? && s.note.None? && s.tail == "" ==>
              RequestText(s, artifact) == "Agent is blocked and needs a decision."
  {
  }

  /** A request is written when the agent is blocked and has not asked in this attempt yet; this is what it says. */
  lemma {:induction false} RequestMeans(events: seq<Event>, s: Evidence, files: map<string, File>, node: string,
                                        now: int, run: string)
    requires Orderly(events, run) && Known(events, node, ROOT_NODE) && Settles(events, s, node)
    ensures var after := After(events, SettleStep(node, s, files), now, run);
            var request, result := ActAfter(after, node, KBlocked), Result(events, s, files, node);
            var body := if result.Some? then result.value.statusBody else None;
            if !Asks(s) || Current(events, node, KBlocked).Some? then
              Current(after, node, KBlocked) == Current(events, node, KBlocked)
            else
              && IsNew(events, after, node, KBlocked) && request.Some? && request.value.BlockedOn?
              && (body.Some? ==> request.value.text == body.value)
              && (body.None? && s.note.Some? ==> request.value.text == s.note.value)
              && (body.None? && s.note.None? && s.tail != "" ==> request.value.text == s.tail)
              && (body.None? && s.note.None? && s.tail == "" ==>
                    request.value.text == "Agent is blocked and needs a decision.")
  {
    var artifact := ArtifactFor(events, s, files, node);
    ArtifactIs(events, s, files, node);
    SettlementActsByKind(events, s, artifact, node);
    RequestTextIs(s, artifact);
    hide ArtifactFor, Result, SettlementActs, Current, After, Settles, LastOf, SettledStatus, SurfaceClosed,
         RequestText, NativeStatus, Orderly, Known;
    SettlementWrites(events, s, files, node, now, run, KBlocked);
  }

  /** A result that is there is written with its settlement, unless that only closes a blocked node. */
  lemma {:induction false} ResultIsWritten(events: seq<Event>, s: Evidence, files: map<string, File>, node: string,
                                           now: int, run: string)
    requires Orderly(events, run) && Known(events, node, ROOT_NODE) && Settles(events, s, node)
    ensures var after := After(events, SettleStep(node, s, files), now, run);
            var result := Result(events, s, files, node);
            if result.None? || ClosesBlocked(events, s, node) then
              && Current(after, node, KWritten) == Current(events, node, KWritten)
              && Current(after, node, KValidated) == Current(events, node, KValidated)
              && Current(after, node, KDeviation) == Current(events, node, KDeviation)
            else
              var path, status := ResultPath(events, s, node).value, result.value.status;
              && IsNew(events, after, node, KWritten) && ActAfter(after, node, KWritten) == Some(ResultWritten(path))
              && IsNew(events, after, node, KValidated)
              && ActAfter(after, node, KValidated)
                 == Some(ResultValidated(path, true, result.value.notes, if status == Some("") then None else status))
              && (if result.value.deviations != [] && Current(events, node, KDeviation).None? then
                    && IsNew(events, after, node, KDeviation)
                    && ActAfter(after, node, KDeviation) == Some(Deviation(result.value.deviations))
                  else Current(after, node, KDeviation) == Current(events, node, KDeviation))
  {
    var artifact := ArtifactFor(events, s, files, node);
    ArtifactIs(events, s, files, node);
    SettlementActsByKind(events, s, artifact, node);
    if artifact.path.Some? { ResultActsByKind(events, artifact, node); }
    SettlementWrites(events, s, files, node, now, run, KWritten);
    SettlementWrites(events, s, files, node, now, run, KValidated);
    SettlementWrites(events, s, files, node, now, run, KDeviation);
    ClosingIs(events, s, node);
    hide ArtifactFor, Result, SettlementActs, Current, After, Settles, LastOf, ResultActs, ClosesBlocked,
         BlockedCancellation;
  }

  lemma {:induction false} ClosingIs(events: seq<Event>, s: Evidence, node: string)
    requires Numbered(events)
    ensures BlockedCancellation(events, s, node) <==> ClosesBlocked(events, s, node)
  {
    LastActNumber(events, node, KSettled);
  }

  // ---------------------------------------------------------------- the end of a wave

  /** The first plan of the trace. */
  ghost predicate IsFirstPlan(events: seq<Event>, waves: seq<seq<string>>) {
    exists i :: && 0 <= i < |events| && events[i].body == GraphPlanned(waves)
                && forall j :: 0 <= j < i ==> !events[j].body.GraphPlanned?
  }

  lemma {:induction false} FirstPlanIs(events: seq<Event>)
    ensures forall waves :: FirstPlan(events) == Some(waves) <==> IsFirstPlan(events, waves)
  {
    if events != [] && !events[0].body.GraphPlanned? {
      var rest := events[1..];
      FirstPlanIs(rest);
      forall waves ensures IsFirstPlan(rest, waves) <==> IsFirstPlan(events, waves) {
        PlanBehind(events, waves);
      }
    } else if events != [] {
      assert IsFirstPlan(events, events[0].body.waves);
    }
  }

  lemma {:induction false} PlanBehind(events: seq<Event>, waves: seq<seq<string>>)
    requires events != [] && !events[0].body.GraphPlanned?
    ensures IsFirstPlan(events[1..], waves) <==> IsFirstPlan(events, waves)
  {
    var rest := events[1..];
    assert forall i :: 0 <= i < |rest| ==> rest[i] == events[i + 1];
    if IsFirstPlan(rest, waves) {
      var i :| && 0 <= i < |rest| && rest[i].body == GraphPlanned(waves)
               && forall j :: 0 <= j < i ==> !rest[j].body.GraphPlanned?;
      forall j | 0 <= j < i + 1 ensures !events[j].body.GraphPlanned? {
        assert j > 0 ==> events[j] == rest[j - 1];
      }
      assert events[i + 1].body == GraphPlanned(waves);
    }
    if IsFirstPlan(events, waves) {
      var i :| && 0 <= i < |events| && events[i].body == GraphPlanned(waves)
               && forall j :: 0 <= j < i ==> !events[j].body.GraphPlanned?;
      assert rest[i - 1].body == GraphPlanned(waves);
    }
  }

  /** The first wave of a plan that lists the node. */
  predicate IsWaveOf(waves: seq<seq<string>>, node: string, i: nat) {
    i < |waves| && node in waves[i] && forall j :: 0 <= j < i ==> node !in waves[j]
  }

  lemma {:induction false} WaveIndexIs(waves: seq<seq<string>>, node: string, i: nat)
    ensures IsWaveOf(waves, node, i) <==> i == WaveIndex(waves, node) < |waves|
  {
    if waves != [] && node !in waves[0] {
      assert forall j :: 1 <= j < |waves| ==> waves[j] == waves[1..][j - 1];
      if i > 0 { WaveIndexIs(waves[1..], node, i - 1); }
    }
  }

  /** Wave i of the plan is that of the node, it runs, and all its members are settled behind the settlement. */
  ghost predicate EndsWave(events: seq<Event>, after: seq<Event>, node: string, waves: seq<seq<string>>, i: nat) {
    && IsFirstPlan(events, waves) && IsWaveOf(waves, node, i)
    && WaveStartedIn(events, i + 1) && !WaveCompletedIn(events, i + 1)
    && forall m :: m in waves[i] ==> Outcome(after, m).Some?
  }

  lemma {:induction false} SettledOnNumbered(events: seq<Event>, node: string)
    requires Numbered(events)
    ensures NodeIsSettled(Bodies(events), node) <==> Outcome(events, node).Some?
  {
    if events != [] {
      FrontLast(events);
      assert Front(Bodies(events)) == Bodies(Front(events)) && Last(Bodies(events)) == Last(events).body;
      SettledOnNumbered(Front(events), node);
      CurrentSnoc(Front(events), Last(events), node, KSettled);
    }
  }

  lemma {:induction false} SettledBehind(bodies: seq<Body>, more: seq<Body>, node: string)
    requires forall b :: b in more ==> !b.Lifecycle?
    ensures NodeIsSettled(bodies + more, node) <==> NodeIsSettled(bodies, node)
  {
    if more == [] {
      assert bodies + more == bodies;
    } else {
      assert Front(bodies + more) == bodies + Front(more) && Last(bodies + more) == Last(more);
      assert Last(more) in more;
      SettledBehind(bodies, Front(more), node);
    }
  }

  lemma {:induction false} WaveDraftsMean(events: seq<Event>, core: seq<Body>, node: string, waves: seq<seq<string>>,
                                          i: nat)
    requires FirstPlan(events) == Some(waves)
    ensures i < |waves| && WaveDrafts(events, core, node) == [WaveCompleted(i + 1, waves[i])]
       <==> && i == WaveIndex(waves, node) < |waves|
            && WaveStartedIn(events, i + 1) && !WaveCompletedIn(events, i + 1)
            && forall m :: m in waves[i] ==> NodeIsSettled(Bodies(events) + core, m)
  {
    hide NodeIsSettled, WaveStartedIn, WaveCompletedIn, FirstPlan;
  }

  /** What stands where behind a settlement. */
  lemma {:induction false} SettlementAt(events: seq<Event>, s: Evidence, files: map<string, File>, node: string,
                                        now: int, run: string)
    requires Known(events, node, ROOT_NODE) && Settles(events, s, node)
    ensures var after := After(events, SettleStep(node, s, files), now, run);
            var core := CoreDrafts(events, s, ArtifactFor(events, s, files, node), node, ROOT_NODE);
            var wave := WaveDrafts(events, core, node);
            && SettlementDrafts(events, s, ArtifactFor(events, s, files, node), node) == core + wave
            && core != [] && !Last(core).WaveCompleted? && |wave| <= 1 && (forall b :: b in wave ==> b.WaveCompleted?)
            && |after| == |events| + |core| + |wave|
            && Bodies(after) == Bodies(events) + core + wave
            && (forall b :: b in core ==> !b.WaveCompleted?)
            && Last(after).body == if wave == [] then Last(core) else wave[0]
  {
    var artifact := ArtifactFor(events, s, files, node);
    var acts := SettlementActs(events, s, artifact, node);
    var core := CoreDrafts(events, s, artifact, node, ROOT_NODE);
    var wave := WaveDrafts(events, core, node);
    var drafts := core + wave;
    var after := Appended(events, drafts, now, run);
    assert core == About(node, ROOT_NODE, acts)
                   + [Awakened(ROOT_NODE, node, SettledStatus(s, artifact), NextGeneration(events, ROOT_NODE))];
    forall k | |events| <= k < |after| ensures after[k].body == drafts[k - |events|] {}
    forall k | 0 <= k < |events| ensures after[k] == events[k] {}
    hide SettlementActs, SettledStatus, NextGeneration, NodeIsSettled, FirstPlan, Settles, ArtifactFor;
    assert Bodies(after) == Bodies(events) + core + wave;
  }

  /** The wave of a settled node is completed behind its wake exactly when the node was the last of it to settle. */
  lemma {:induction false} WaveEndsIff(events: seq<Event>, s: Evidence, files: map<string, File>, node: string,
                                       now: int, run: string)
    requires Orderly(events, run) && Known(events, node, ROOT_NODE) && Settles(events, s, node)
    ensures var after := After(events, SettleStep(node, s, files), now, run);
            forall waves, i: nat ::
              EndsWave(events, after, node, waves, i) <==>
                IsFirstPlan(events, waves) && i < |waves| && after != [] &&
                Last(after).body == WaveCompleted(i + 1, waves[i])
  {
    var after := After(events, SettleStep(node, s, files), now, run);
    forall waves, i: nat
      ensures EndsWave(events, after, node, waves, i) <==>
                IsFirstPlan(events, waves) && i < |waves| && after != [] &&
                Last(after).body == WaveCompleted(i + 1, waves[i])
    {
      if IsFirstPlan(events, waves) { OneWaveEndsIff(events, s, files, node, now, run, waves, i); }
    }
  }

  lemma {:induction false} OneWaveEndsIff(events: seq<Event>, s: Evidence, files: map<string, File>, node: string,
                                          now: int, run: string, waves: seq<seq<string>>, i: nat)
    requires Orderly(events, run) && Known(events, node, ROOT_NODE) && Settles(events, s, node)
    requires IsFirstPlan(events, waves)
    ensures var after := After(events, SettleStep(node, s, files), now, run);
            after != [] &&
            (EndsWave(events, after, node, waves, i) <==>
               i < |waves| && Last(after).body == WaveCompleted(i + 1, waves[i]))
  {
    var after := After(events, SettleStep(node, s, files), now, run);
    var core := CoreDrafts(events, s, ArtifactFor(events, s, files, node), node, ROOT_NODE);
    var wave := WaveDrafts(events, core, node);
    SettlementAt(events, s, files, node, now, run);
    AppendedIsOrderly(events, core + wave, now, run);
    FirstPlanIs(events);
    WaveIndexIs(waves, node, i);
    WaveDraftsMean(events, core, node, waves, i);
    forall m ensures NodeIsSettled(Bodies(events) + core, m) <==> Outcome(after, m).Some? {
      SettledOnNumbered(after, m);
      SettledBehind(Bodies(events) + core, wave, m);
    }
    hide CoreDrafts, WaveDrafts, ArtifactFor, Settles, Outcome, NodeIsSettled, After, WaveStartedIn, WaveCompletedIn,
         IsFirstPlan, IsWaveOf, WaveIndex, Bodies, Orderly;
  }

  // ---------------------------------------------------------------- appends, replies, stops and launches

  /** Appended events: the drafts, numbered on, of the run, at the later of now and the last time. */
  lemma {:induction false} AppendShows(events: seq<Event>, drafts: seq<Body>, now: int, run: string)
    requires Orderly(events, run)
    ensures var after := Appended(events, drafts, now, run);
            && |after| == |events| + |drafts|
            && (forall k :: 0 <= k < |events| ==> after[k] == events[k])
            && forall k :: |events| <= k < |after| ==>
                 && after[k].body == drafts[k - |events|] && after[k].no == k + 1 && after[k].run == run
                 && after[k].at >= now && (events != [] ==> after[k].at >= Last(events).at)
                 && (after[k].at == now || (events != [] && after[k].at == Last(events).at))
  {
    AppendedIsOrderly(events, drafts, now, run);
    var more := StampedMore(events, drafts, now, run);
    hide Orderly, Appended;
  }

  lemma {:induction false} AppendAct(events: seq<Event>, node: string, parent: string, acts: seq<Act>, now: int,
                                     run: string)
    requires Orderly(events, run)
    ensures var after := Appended(events, About(node, parent, acts), now, run);
            && |after| == |events| + |acts|
            && forall k :: 0 <= k < |acts| ==> after[|events| + k].body == Lifecycle(node, parent, acts[k])
  {
    AppendShows(events, About(node, parent, acts), now, run);
    hide Appended;
    var after := Appended(events, About(node, parent, acts), now, run);
    forall k | 0 <= k < |acts| ensures after[|events| + k].body == Lifecycle(node, parent, acts[k]) {
      assert About(node, parent, acts)[k] == Lifecycle(node, parent, acts[k]);
    }
  }

  /** A reply is written to a blocked node that asked, quotes its last request, and resumes it. */
  lemma {:induction false} ReplyShows(events: seq<Event>, node: string, parent: string, text: string, now: int,
                                      run: string)
    requires Orderly(events, run)
    ensures var after, asked := After(events, ReplyStep(node, parent, text), now, run), LastAct(events, node, KBlocked);
            if Outcome(events, node) != Some(Blocked) || asked.None? then after == events
            else
              && |after| == |events| + 2
              && after[|events|].body == Lifecycle(node, parent, ReplySent(text, Some(asked.value.no)))
              && after[|events| + 1].body == Lifecycle(node, parent, Resumed(Reply))
              && Outcome(after, node).None?
  {
    hide Outcome, LastAct;
    if AwaitsReply(events, node) {
      var acts := ReplyActs(events, node, text);
      var after := Appended(events, About(node, parent, acts), now, run);
      AppendAct(events, node, parent, acts, now, run);
      AppendedIsOrderly(events, About(node, parent, acts), now, run);
      hide Appended, About, ReplyActs;
      FrontLast(after);
      CurrentSnocIsNone(Front(after), Last(after), node);
    }
  }

  lemma {:induction false} CurrentSnocIsNone(events: seq<Event>, e: Event, node: string)
    requires Numbered(events + [e]) && IsAct(e.body, node, KResumed)
    ensures Outcome(events + [e], node).None?
  {
    CurrentSnoc(events, e, node, KSettled);
  }

  /** A cancel request is written for a node that may be cancelled, once per attempt and settlement. */
  lemma {:induction false} StopShows(events: seq<Event>, node: string, parent: string, now: int, run: string)
    requires Orderly(events, run)
    ensures var after, asked := After(events, StopStep(node, parent), now, run), LastAct(events, node, KCancel);
            if (Outcome(events, node).None? || Outcome(events, node) == Some(Blocked))
               && (asked.None? || Later(LastAct(events, node, KResumed), asked.value)
                   || Later(LastAct(events, node, KSettled), asked.value))
            then |after| == |events| + 1 && Last(after).body == Lifecycle(node, parent, CancelRequested)
            else after == events
  {
    LastActNumber(events, node, KCancel);
    LastActNumber(events, node, KResumed);
    LastActNumber(events, node, KSettled);
    OneNumberEach(events, node, KCancel, KResumed);
    OneNumberEach(events, node, KCancel, KSettled);
    if CancelDrafts(events, node, parent) != [] {
      AppendAct(events, node, parent, [CancelRequested], now, run);
    }
    hide LastAct, Appended, About;
  }

  /** Acts of different kinds have different numbers. */
  lemma {:induction false} OneNumberEach(events: seq<Event>, node: string, a: Kind, b: Kind)
    requires Numbered(events) && a != b
    ensures var x, y := LastAct(events, node, a), LastAct(events, node, b);
            x.Some? && y.Some? ==> x.value.no != y.value.no
  {
    LastActIsIndexed(events, node, a);
    LastActIsIndexed(events, node, b);
  }

  lemma {:induction false} DraftsOfLaunch(events: seq<Event>, req: LaunchRequest)
    requires req.Valid()
    ensures var drafts := LaunchDrafts(events, req);
            && (events == [] ==> drafts != [] && drafts[0] == RunCreated("advisor"))
            && (LaunchOf(events, req.node).None? ==>
                  drafts != [] && Last(drafts) == Launched(req.node, "advisor", req.resultPath, Some(req.detachRun),
                                                           req.agentName))
            && (forall k :: 0 <= k < |drafts| && drafts[k].Launched? ==>
                  k == |drafts| - 1 && LaunchOf(events, req.node).None?)
            && (forall k :: 0 <= k < |drafts| && drafts[k].GraphPlanned? ==>
                  FirstPlan(events).None? && req.manifest.Some? && drafts[k].waves == req.manifest.value.waves)
            && (forall k :: 0 <= k < |drafts| && drafts[k].WaveStarted? ==>
                  && !WaveStartedIn(events, req.wave) && req.manifest.Some? && drafts[k].wave == req.wave
                  && drafts[k].members == req.manifest.value.waves[req.wave - 1])
  {
    hide LaunchOf, FirstPlan, WaveStartedIn, LaunchDrafts;
    var a, b, c, d := LaunchParts(events, req);
    InFour(a, b, c, d);
  }

  lemma {:induction false} PlanAndStartDrafted(events: seq<Event>, req: LaunchRequest)
    requires req.Valid() && req.manifest.Some?
    ensures var drafts := LaunchDrafts(events, req);
            && (FirstPlan(events).Some? || exists b :: b in drafts && b.GraphPlanned?)
            && (WaveStartedIn(events, req.wave) || exists b :: b in drafts && b.WaveStarted? && b.wave == req.wave)
  {
    hide *;
    var a, b, c, d := LaunchParts(events, req);
    assert b != [] ==> b[0] in a + b + c + d;
    assert c != [] ==> c[0] in a + b + c + d;
  }

  /** The parts of the drafts of a launch, of at most one draft each. */
  lemma {:induction false} LaunchParts(events: seq<Event>, req: LaunchRequest)
    returns (a: seq<Body>, b: seq<Body>, c: seq<Body>, d: seq<Body>)
    requires req.Valid()
    ensures LaunchDrafts(events, req) == a + b + c + d
    ensures a == if events == [] then [RunCreated("advisor")] else []
    ensures b == if req.manifest.Some? && FirstPlan(events).None? then [GraphPlanned(req.manifest.value.waves)] else []
    ensures c == if req.manifest.Some? && !WaveStartedIn(events, req.wave)
                 then [WaveStarted(req.wave, req.manifest.value.waves[req.wave - 1])] else []
    ensures d == if LaunchOf(events, req.node).None?
                 then [Launched(req.node, "advisor", req.resultPath, Some(req.detachRun), req.agentName)] else []
  {
    hide LaunchOf, FirstPlan, WaveStartedIn;
    a := if events == [] then [RunCreated("advisor")] else [];
    b := if req.manifest.Some? && FirstPlan(events).None? then [GraphPlanned(req.manifest.value.waves)] else [];
    c := if req.manifest.Some? && !WaveStartedIn(events, req.wave)
         then [WaveStarted(req.wave, req.manifest.value.waves[req.wave - 1])] else [];
    d := if LaunchOf(events, req.node).None?
         then [Launched(req.node, "advisor", req.resultPath, Some(req.detachRun), req.agentName)] else [];
    assert WaveLaunchDrafts(events, req) == b + c;
    assert NodeLaunchDrafts(events, req) == d;
    hide WaveLaunchDrafts, NodeLaunchDrafts;
    assert a + (b + c) + d == a + b + c + d;
  }

  lemma {:induction false} InFour<T>(a: seq<T>, b: seq<T>, c: seq<T>, d: seq<T>)
    requires |a| <= 1 && |b| <= 1 && |c| <= 1 && |d| <= 1
    ensures var all := a + b + c + d;
            && (forall k :: 0 <= k < |all| ==>
                  || (a != [] && k == 0 && all[k] == a[0]) || (b != [] && all[k] == b[0])
                  || (c != [] && all[k] == c[0]) || (d != [] && k == |all| - 1 && all[k] == d[0]))
            && (a != [] ==> all != [] && all[0] == a[0])
            && (d != [] ==> all != [] && all[|all| - 1] == d[0])
  {
  }

  lemma {:induction false} PlanIsFound(events: seq<Event>, k: nat)
    requires k < |events| && events[k].body.GraphPlanned?
    ensures FirstPlan(events).Some?
  {
    if !events[0].body.GraphPlanned? { PlanIsFound(events[1..], k - 1); }
  }

  lemma {:induction false} PlanStays(events: seq<Event>, after: seq<Event>)
    requires |events| <= |after| && (forall k :: 0 <= k < |events| ==> after[k] == events[k]) && FirstPlan(events).Some?
    ensures FirstPlan(after).Some?
  {
    if !events[0].body.GraphPlanned? { PlanStays(events[1..], after[1..]); }
  }

  /** What a launch leaves in the trace of its run. */
  lemma {:induction false} LaunchShows(events: seq<Event>, req: LaunchRequest, now: int, run: string)
    requires Orderly(events, run) && req.Valid()
    ensures var after := After(events, LaunchStep(req), now, run);
            && (events == [] ==> after != [] && after[0].body == RunCreated("advisor"))
            && (LaunchOf(events, req.node).None? ==>
                  after != [] && Last(after).body == Launched(req.node, "advisor", req.resultPath, Some(req.detachRun),
                                                              req.agentName))
            && (forall k :: |events| <= k < |after| && after[k].body.Launched? ==>
                  k == |after| - 1 && LaunchOf(events, req.node).None?)
            && (forall k :: |events| <= k < |after| && after[k].body.GraphPlanned? ==>
                  && FirstPlan(events).None? && req.manifest.Some?
                  && after[k].body.waves == req.manifest.value.waves)
            && (forall k :: |events| <= k < |after| && after[k].body.WaveStarted? ==>
                  && !WaveStartedIn(events, req.wave) && req.manifest.Some? && after[k].body.wave == req.wave
                  && after[k].body.members == req.manifest.value.waves[req.wave - 1])
            && (req.manifest.Some? ==> FirstPlan(after).Some? && WaveStartedIn(after, req.wave))
  {
    var drafts := LaunchDrafts(events, req);
    var after := Appended(events, drafts, now, run);
    AppendShows(events, drafts, now, run);
    DraftsOfLaunch(events, req);
    hide LaunchDrafts, Appended, LaunchOf, FirstPlan, Orderly;
    if req.manifest.Some? {
      PlanAndStartDrafted(events, req);
      PlanAndStartShow(events, drafts, after, req);
    }
    hide WaveStartedIn;
  }

  lemma {:induction false} PlanAndStartShow(events: seq<Event>, drafts: seq<Body>, after: seq<Event>,
                                            req: LaunchRequest)
    requires |after| == |events| + |drafts| && forall k :: 0 <= k < |events| ==> after[k] == events[k]
    requires forall k :: |events| <= k < |after| ==> after[k].body == drafts[k - |events|]
    requires FirstPlan(events).Some? || exists b :: b in drafts && b.GraphPlanned?
    requires WaveStartedIn(events, req.wave) || exists b :: b in drafts && b.WaveStarted? && b.wave == req.wave
    ensures FirstPlan(after).Some? && WaveStartedIn(after, req.wave)
  {
    hide FirstPlan;
    if FirstPlan(events).Some? {
      PlanStays(events, after);
    } else {
      var k :| 0 <= k < |drafts| && drafts[k].GraphPlanned?;
      assert after[|events| + k].body == drafts[k];
      PlanIsFound(after, |events| + k);
    }
    if WaveStartedIn(events, req.wave) {
      var e :| e in events && e.body.WaveStarted? && e.body.wave == req.wave;
      var k :| 0 <= k < |events| && events[k] == e;
      assert after[k] in after;
    } else {
      var k :| 0 <= k < |drafts| && drafts[k].WaveStarted? && drafts[k].wave == req.wave;
      assert after[|events| + k] in after && after[|events| + k].body == drafts[k];
    }
  }
}
