/**
 The writer meets the checker. Each host step, taken on a trace that this writer produced,
 yields an accepted trace exactly when a condition that can be read off beforehand holds.
 */
module WriterLaws {
  import opened Options
  import opened TraceEvents
  import opened TraceChecker
  import opened TraceHistory
  import opened TraceLaws
  import opened TraceWriter
  import opened WriterReplay

  // ---------------------------------------------------------------- the invariant

  /** A node as this writer leaves it between two appends. */
  ghost predicate TidyNode(s: NodeState) {
    && s.parent == ROOT_NODE
    && s.wakeCount == |s.settlements|
    && s.pendingReply.None?
    && (s.settled.None? ==> Untouched(s))
    && (SettledAs(s, {Blocked}) ==> TruthyNumber(s.blockedNo))
  }

  ghost predicate Tidy(st: State) {
    && st.root == ROOT_NODE
    && (forall n :: n in st.nodes ==> TidyNode(st.nodes[n]))
    && (forall w :: w in st.started <==> 1 <= w <= |st.started|)
    && st.completed <= st.started
    && (st.plan.None? ==> st.started == {})
  }

  /** The wave scans over the history agree with the checker's wave sets. */
  ghost predicate Mirror(events: seq<Event>, st: State) {
    && st.plan == FirstPlan(events)
    && (forall w :: w in st.started <==> WaveStartedIn(events, w))
    && (forall w :: w in st.completed <==> WaveCompletedIn(events, w))
  }

  ghost predicate WriterInv(events: seq<Event>, run: string) {
    && Orderly(events, run)
    && (events != [] ==> CleanSoFar(events) && Tidy(Run(events)) && Mirror(events, Run(events)))
  }

  lemma {:induction false} WriterInvAccepts(events: seq<Event>, run: string)
    requires WriterInv(events, run) && events != []
    ensures Accepted(events)
  {
    AcceptedParts(events);
  }

  // ---------------------------------------------------------------- one more event in the wave scans

  lemma {:induction false} FirstPlanSnoc(events: seq<Event>, e: Event)
    ensures FirstPlan(events + [e]) == if FirstPlan(events).Some? then FirstPlan(events)
                                       else if e.body.GraphPlanned? then Some(e.body.waves) else None
  {
    if events == [] {
      assert (events + [e])[1..] == [];
    } else {
      assert (events + [e])[1..] == events[1..] + [e];
      FirstPlanSnoc(events[1..], e);
    }
  }

  lemma {:induction false} WavesInSnoc(events: seq<Event>, e: Event, w: int)
    ensures WaveStartedIn(events + [e], w) <==> WaveStartedIn(events, w) || (e.body.WaveStarted? && e.body.wave == w)
    ensures WaveCompletedIn(events + [e], w)
       <==> WaveCompletedIn(events, w) || (e.body.WaveCompleted? && e.body.wave == w)
  {
    assert forall x :: x in events + [e] <==> x in events || x == e;
    if e.body.WaveStarted? && e.body.wave == w {
      assert e in events + [e];
    }
    if e.body.WaveCompleted? && e.body.wave == w {
      assert e in events + [e];
    }
    if WaveStartedIn(events, w) {
      var x :| x in events && x.body.WaveStarted? && x.body.wave == w;
      assert x in events + [e];
    }
    if WaveCompletedIn(events, w) {
      var x :| x in events && x.body.WaveCompleted? && x.body.wave == w;
      assert x in events + [e];
    }
  }

  lemma {:induction false} WaveSetsStep(st: State, e: Event)
    requires Step(st, e).problems == [] && !e.body.GraphPlanned?
    ensures var t := Step(st, e);
            && t.plan == st.plan
            && t.started == (if e.body.WaveStarted? then st.started + {e.body.wave} else st.started)
            && t.completed == (if e.body.WaveCompleted? then st.completed + {e.body.wave} else st.completed)
  {
    if e.body.WaveStarted? || e.body.WaveCompleted? {
      CleanWave(st, e);
    }
  }

  lemma {:induction false} MirrorStep(events: seq<Event>, st: State, e: Event)
    requires Mirror(events, st) && Step(st, e).problems == []
    requires e.body.GraphPlanned? ==> st.plan.None? && st.started == {} && st.completed == {}
    ensures Mirror(events + [e], Step(st, e))
  {
    FirstPlanSnoc(events, e);
    forall w ensures w in Step(st, e).started <==> WaveStartedIn(events + [e], w) {
      WavesInSnoc(events, e, w);
      if !e.body.GraphPlanned? { WaveSetsStep(st, e); }
    }
    forall w ensures w in Step(st, e).completed <==> WaveCompletedIn(events + [e], w) {
      WavesInSnoc(events, e, w);
      if !e.body.GraphPlanned? { WaveSetsStep(st, e); }
    }
  }

  predicate PlansOnce(st: State, drafts: seq<Body>) {
    forall i :: 0 <= i < |drafts| && drafts[i].GraphPlanned? ==>
      i == 0 && st.plan.None? && st.started == {} && st.completed == {}
  }

  lemma {:induction false} MirrorAppended(events: seq<Event>, st: State, drafts: seq<Body>, at: int, run: string)
    requires Mirror(events, st) && PlansOnce(st, drafts)
    requires Replay(st, |events| + 1, drafts).problems == []
    ensures Mirror(events + Stamp(drafts, |events| + 1, at, run), Replay(st, |events| + 1, drafts))
    decreases |drafts|
  {
    var stamped := Stamp(drafts, |events| + 1, at, run);
    if drafts == [] {
      assert events + stamped == events;
    } else {
      var e := stamped[0];
      assert stamped == [e] + Stamp(drafts[1..], |events| + 2, at, run);
      assert events + stamped == (events + [e]) + Stamp(drafts[1..], |events + [e]| + 1, at, run);
      ReplayKeepsProblems(Step(st, e), |events| + 2, drafts[1..]);
      MirrorStep(events, st, e);
      MirrorAppended(events + [e], Step(st, e), drafts[1..], at, run);
    }
  }

  /** A clean append to a checked history: what it does to the checker and to the scans. */
  lemma {:induction false} AppendToRun(events: seq<Event>, drafts: seq<Body>, now: int, run: string)
    requires WriterInv(events, run) && events != []
    ensures var after := Appended(events, drafts, now, run);
            var st := Replay(Run(events), |events| + 1, drafts);
            && Orderly(after, run)
            && Created(after) && Run(after) == st
            && (CleanSoFar(after) <==> st.problems == [])
            && (PlansOnce(Run(events), drafts) && st.problems == [] ==> Mirror(after, st))
  {
    AppendedIsOrderly(events, drafts, now, run);
    if drafts != [] {
      var at := AppendTime(events, now);
      RunAppended(events, drafts, at, run);
      if PlansOnce(Run(events), drafts) && Replay(Run(events), |events| + 1, drafts).problems == [] {
        MirrorAppended(events, Run(events), drafts, at, run);
      }
    }
  }

  lemma {:induction false} AppendKeepsInv(events: seq<Event>, drafts: seq<Body>, now: int, run: string)
    requires WriterInv(events, run) && events != []
    requires PlansOnce(Run(events), drafts)
    requires var st := Replay(Run(events), |events| + 1, drafts); st.problems == [] && Tidy(st)
    ensures WriterInv(Appended(events, drafts, now, run), run)
    ensures Accepted(Appended(events, drafts, now, run))
  {
    AppendToRun(events, drafts, now, run);
    WriterInvAccepts(Appended(events, drafts, now, run), run);
  }

  lemma {:induction false} AppendRejected(events: seq<Event>, drafts: seq<Body>, now: int, run: string)
    requires WriterInv(events, run) && events != []
    requires Replay(Run(events), |events| + 1, drafts).problems != []
    ensures !Accepted(Appended(events, drafts, now, run))
  {
    AppendToRun(events, drafts, now, run);
    AcceptedParts(Appended(events, drafts, now, run));
  }

  // ---------------------------------------------------------------- stop requests and replies

  lemma {:induction false} StopOnNode(events: seq<Event>, st: State, no: int, node: string)
    requires node in st.nodes && TidyNode(st.nodes[node]) && Linked(ScanOf(events, node), st, node)
    requires NodeCanCancel(events, node) && no >= 1
    ensures var v := StepAct(st.nodes[node], no, ROOT_NODE, CancelRequested);
            v.rules == [] && TidyNode(v.state)
  {
  }

  ghost predicate Known(events: seq<Event>, node: string, parent: string) {
    var launch := LaunchOf(events, node);
    launch.Some? && launch.value.body.parent == parent
  }

  /** Drafts about one known node that leave its record tidy keep the invariant. */
  lemma {:induction false} ActsKeepInv(events: seq<Event>, node: string, acts: seq<Act>, now: int, run: string)
    requires WriterInv(events, run) && events != [] && node in Run(events).nodes
    requires var v := ReplayActs(Run(events).nodes[node], |events| + 1, ROOT_NODE, acts);
             v.rules == [] && TidyNode(v.state)
    ensures WriterInv(Appended(events, About(node, ROOT_NODE, acts), now, run), run)
    ensures Accepted(Appended(events, About(node, ROOT_NODE, acts), now, run))
  {
    LiftActs(Run(events), |events| + 1, node, ROOT_NODE, acts);
    AppendKeepsInv(events, About(node, ROOT_NODE, acts), now, run);
  }

  lemma {:induction false} KnownNode(events: seq<Event>, node: string, parent: string, run: string)
    requires WriterInv(events, run) && events != [] && Known(events, node, parent)
    ensures Created(events) && node in Run(events).nodes && parent == ROOT_NODE
    ensures TidyNode(Run(events).nodes[node])
    ensures Linked(ScanOf(events, node), Run(events), node)
  {
    CheckerMatchesHistory(events, node);
  }

  /** An accepted stop on a node known to the trace always extends it legally. */
  lemma {:induction false} StopIsAccepted(events: seq<Event>, node: string, parent: string, now: int, run: string)
    requires WriterInv(events, run) && events != []
    requires Known(events, node, parent)
    ensures WriterInv(Appended(events, CancelDrafts(events, node, parent), now, run), run)
    ensures Accepted(Appended(events, CancelDrafts(events, node, parent), now, run))
  {
    var drafts := CancelDrafts(events, node, parent);
    KnownNode(events, node, parent, run);
    if drafts == [] {
      WriterInvAccepts(events, run);
    } else {
      var s := Run(events).nodes[node];
      StopOnNode(events, Run(events), |events| + 1, node);
      ReplaySingle(s, |events| + 1, ROOT_NODE, CancelRequested);
      ActsKeepInv(events, node, [CancelRequested], now, run);
    }
  }

  lemma {:induction false} ReplyOnNode(events: seq<Event>, st: State, no: int, node: string, text: string)
    requires node in st.nodes && TidyNode(st.nodes[node]) && Linked(ScanOf(events, node), st, node)
    requires AwaitsReply(events, node) && no >= 1
    ensures var v := ReplayActs(st.nodes[node], no, ROOT_NODE, ReplyActs(events, node, text));
            v.rules == [] && v.state == NewAttempt(st.nodes[node]) && TidyNode(v.state)
  {
    var s, blocked := st.nodes[node], LastAct(events, node, KBlocked);
    var reply := ReplySent(text, Some(blocked.value.no));
    assert s.blockedNo == Some(blocked.value.no);
    var replied := s.(pendingReply := Some(no));
    assert StepAct(s, no, ROOT_NODE, reply) == Verdict(replied, []);
    ReplaySingle(s, no, ROOT_NODE, reply);
    ReplaySingle(replied, no + 1, ROOT_NODE, Resumed(Reply));
    ReplayActsConcat(s, no, ROOT_NODE, [reply], [Resumed(Reply)]);
    assert [reply] + [Resumed(Reply)] == ReplyActs(events, node, text);
  }

  lemma {:induction false} ReplyVerdict(events: seq<Event>, node: string, parent: string, text: string, run: string)
    requires WriterInv(events, run) && events != []
    requires Known(events, node, parent) && AwaitsReply(events, node)
    ensures Created(events) && node in Run(events).nodes && parent == ROOT_NODE
    ensures var v := ReplayActs(Run(events).nodes[node], |events| + 1, ROOT_NODE, ReplyActs(events, node, text));
            v.rules == [] && TidyNode(v.state)
  {
    KnownNode(events, node, parent, run);
    ReplyOnNode(events, Run(events), |events| + 1, node, text);
  }

  /** A reply to a blocked node always extends the trace legally. */
  lemma {:induction false} ReplyIsAccepted(events: seq<Event>, node: string, parent: string, text: string, now: int,
                                           run: string)
    requires WriterInv(events, run) && events != []
    requires Known(events, node, parent)
    ensures WriterInv(Appended(events, ReplyDrafts(events, node, parent, text), now, run), run)
    ensures Accepted(Appended(events, ReplyDrafts(events, node, parent, text), now, run))
  {
    if AwaitsReply(events, node) {
      ReplyVerdict(events, node, parent, text, run);
      ActsKeepInv(events, node, ReplyActs(events, node, text), now, run);
    } else {
      WriterInvAccepts(events, run);
    }
  }

  // ---------------------------------------------------------------- settlements

  predicate FromDisk(artifact: Artifact) {
    && (artifact.present <==> artifact.valid)
    && (artifact.present ==> TruthyText(artifact.path))
    && (artifact.status.Some? ==> TruthyText(artifact.status))
  }

  /** The record that a settlement leaves behind, before its wake. */
  ghost predicate SettledAgain(s: NodeState, t: NodeState, status: Status) {
    && t.settled.Some? && t.settled.value.status == status
    && t.settlements == s.settlements + [t.settled.value]
    && t.wakeCount == s.wakeCount && t.parent == s.parent && t.pendingReply.None?
    && (status == Blocked ==> TruthyNumber(t.blockedNo))
  }

  lemma {:induction false} EvidenceActs(events: seq<Event>, n: NodeState, no: int, s: Evidence, artifact: Artifact,
                                        node: string)
    requires Untouched(n.(blockedNo := None)) && FromDisk(artifact) && no >= 1
    requires Current(events, node, KDeviation).None?
    ensures var evidence :=
              if WritesEvidence(events, s, artifact, node) then ResultActs(events, artifact, node) else [];
            var v := ReplayActs(n, no, ROOT_NODE, evidence);
            && (v.rules == [] <==> !(WritesEvidence(events, s, artifact, node) && artifact.status.None?))
            && v.state.(written := None, validated := false, deviationNo := None) == n
  {
    if WritesEvidence(events, s, artifact, node) {
      var deviations := if artifact.deviations != [] then [Deviation(artifact.deviations)] else [];
      var validation := ResultValidated(artifact.path.value, true, artifact.notes, artifact.status);
      assert ResultActs(events, artifact, node) == [ResultWritten(artifact.path.value)] + deviations + [validation];
      EvidenceStage(n, no, artifact.path.value, deviations, validation);
    }
  }

  /** Running attempt: clean exactly when evidence, if any is written, carries its status. */
  lemma {:induction false} OpenSettlement(events: seq<Event>, st: State, no: int, s: Evidence, artifact: Artifact,
                                          node: string)
    requires node in st.nodes && TidyNode(st.nodes[node]) && Linked(ScanOf(events, node), st, node)
    requires OpenAttempt(events, node) && FromDisk(artifact) && no >= 1
    ensures var v := ReplayActs(st.nodes[node], no, ROOT_NODE, SettlementActs(events, s, artifact, node));
            && (v.rules == [] <==> !(WritesEvidence(events, s, artifact, node) && artifact.status.None?))
            && SettledAgain(st.nodes[node], v.state, SettledStatus(s, artifact))
  {
    var n := st.nodes[node];
    var ask := if NativeStatus(s) == Blocked then [BlockedOn(RequestText(s, artifact))] else [];
    var evidence := if WritesEvidence(events, s, artifact, node) then ResultActs(events, artifact, node) else [];
    var settle := Settled(SettledStatus(s, artifact), if artifact.valid then artifact.status else None,
                          SurfaceClosed(s));
    assert SettlementActs(events, s, artifact, node) == ask + evidence + [settle];
    var asked := if ask == [] then n else n.(blockedNo := Some(no));
    assert ReplayActs(n, no, ROOT_NODE, ask) == Verdict(asked, []) by {
      if ask != [] { BlockStage(n, no, RequestText(s, artifact)); }
    }
    var v := ReplayActs(asked, no + |ask|, ROOT_NODE, evidence);
    EvidenceActs(events, asked, no + |ask|, s, artifact, node);
    SettleStage(v.state, no + |ask| + |evidence|, settle);
    ReplayActsConcat(n, no, ROOT_NODE, ask, evidence);
    ReplayActsConcat(n, no, ROOT_NODE, ask + evidence, [settle]);
  }

  /** Blocked settlement with a later cancel request: the kill is always clean. */
  lemma {:induction false} CancelSettlement(events: seq<Event>, st: State, no: int, s: Evidence, artifact: Artifact,
                                            node: string)
    requires node in st.nodes && TidyNode(st.nodes[node]) && Linked(ScanOf(events, node), st, node)
    requires !OpenAttempt(events, node) && BlockedCancellation(events, s, node) && no >= 1 && Numbered(events)
    ensures var v := ReplayActs(st.nodes[node], no, ROOT_NODE, SettlementActs(events, s, artifact, node));
            && v.rules == []
            && SettledAgain(st.nodes[node], v.state, Cancelled)
  {
    var settle := Settled(Cancelled, if artifact.valid then artifact.status else None, SurfaceClosed(s));
    assert SettlementActs(events, s, artifact, node) == [settle];
    LastActNumber(events, node, KSettled);
    assert LastAct(events, node, KCancel) == Current(events, node, KCancel);
    SettleStage(st.nodes[node], no, settle);
  }

  /** A valid result without a status is about to be written. */
  predicate Unlabelled(events: seq<Event>, s: Evidence, artifact: Artifact, node: string) {
    Settles(events, s, node) && WritesEvidence(events, s, artifact, node) && artifact.status.None?
  }

  lemma {:induction false} NodeSettlement(events: seq<Event>, st: State, no: int, s: Evidence, artifact: Artifact,
                                          node: string)
    requires node in st.nodes && TidyNode(st.nodes[node]) && Linked(ScanOf(events, node), st, node)
    requires Settles(events, s, node) && FromDisk(artifact) && no >= 1 && Numbered(events)
    ensures var v := ReplayActs(st.nodes[node], no, ROOT_NODE, SettlementActs(events, s, artifact, node));
            && (v.rules == [] <==> !Unlabelled(events, s, artifact, node))
            && SettledAgain(st.nodes[node], v.state, SettledStatus(s, artifact))
  {
    if OpenAttempt(events, node) {
      OpenSettlement(events, st, no, s, artifact, node);
    } else {
      CancelSettlement(events, st, no, s, artifact, node);
    }
  }

  lemma {:induction false} GenerationScan(events: seq<Event>, parent: string)
    requires CleanSoFar(events)
    ensures LatestGeneration(events, parent) == Get(Run(events).generations, parent) >= 0
  {
    if |events| == 1 {
      assert Front(events) == [];
    } else {
      var e := Last(events);
      CleanFront(events);
      GenerationScan(Front(events), parent);
      if e.body.Awakened? {
        CleanWake(Run(Front(events)), e);
      }
    }
  }

  /** The wake after a settlement is clean and makes the node's record tidy again. */
  lemma {:induction false} WakeStage(st: State, no: int, node: string, status: Status)
    requires node in st.nodes && st.root == ROOT_NODE
    requires var t := st.nodes[node];
             && t.parent == ROOT_NODE && t.pendingReply.None? && t.settled.Some? && t.settled.value.status == status
             && |t.settlements| == t.wakeCount + 1 && t.settlements[t.wakeCount].status == status
             && (status == Blocked ==> TruthyNumber(t.blockedNo))
    ensures var r := StepBody(st, no, Awakened(ROOT_NODE, node, status, Get(st.generations, ROOT_NODE) + 1));
            var t := st.nodes[node].(wakeCount := st.nodes[node].wakeCount + 1);
            && r.problems == st.problems
            && r == st.(generations := r.generations, nodes := st.nodes[node := t], problems := r.problems)
            && TidyNode(t)
  {
    assert st.problems + At(no, []) == st.problems;
  }

  lemma {:induction false} NoPlans(st: State, drafts: seq<Body>)
    requires forall b :: b in drafts ==> !b.GraphPlanned?
    ensures PlansOnce(st, drafts)
  {
  }

  /** What the settlement of one node and its wake do to the checker. */
  ghost predicate CoreEffect(st: State, after: State, node: string, status: Status, clean: bool) {
    && (after.problems == [] <==> clean)
    && after == st.(nodes := after.nodes, generations := after.generations, problems := after.problems)
    && node in st.nodes && node in after.nodes
    && after.nodes == st.nodes[node := after.nodes[node]]
    && (clean ==> TidyNode(after.nodes[node]))
    && after.nodes[node].settled.Some? && after.nodes[node].settled.value.status == status
  }

  lemma {:induction false} ActsThenWake(st: State, no: int, node: string, acts: seq<Act>, status: Status)
    requires node in st.nodes && st.root == ROOT_NODE && st.problems == []
    requires TidyNode(st.nodes[node])
    requires SettledAgain(st.nodes[node], ReplayActs(st.nodes[node], no, ROOT_NODE, acts).state, status)
    ensures var wake := Awakened(ROOT_NODE, node, status, Get(st.generations, ROOT_NODE) + 1);
            CoreEffect(st, Replay(st, no, About(node, ROOT_NODE, acts) + [wake]), node, status,
                       ReplayActs(st.nodes[node], no, ROOT_NODE, acts).rules == [])
  {
    var wake := Awakened(ROOT_NODE, node, status, Get(st.generations, ROOT_NODE) + 1);
    LiftActs(st, no, node, ROOT_NODE, acts);
    var mid := Replay(st, no, About(node, ROOT_NODE, acts));
    WakeStage(mid, no + |acts|, node, status);
    ReplayConcat(st, no, About(node, ROOT_NODE, acts), [wake]);
    assert [wake][1..] == [];
    assert Replay(mid, no + |acts|, [wake]) == StepBody(mid, no + |acts|, wake);
  }

  /** Settlement and wake together: clean exactly when no valid result lacks its status. */
  lemma {:induction false} CoreSettlement(events: seq<Event>, st: State, s: Evidence, artifact: Artifact, node: string)
    requires CleanSoFar(events) && st == Run(events) && st.root == ROOT_NODE
    requires node in st.nodes && TidyNode(st.nodes[node]) && Linked(ScanOf(events, node), st, node)
    requires Settles(events, s, node) && FromDisk(artifact)
    ensures CoreEffect(st, Replay(st, |events| + 1, CoreDrafts(events, s, artifact, node, ROOT_NODE)), node,
                       SettledStatus(s, artifact), !Unlabelled(events, s, artifact, node))
  {
    hide Replay, StepBody, StepLifecycle, StepAct, Run;
    var no := |events| + 1;
    NodeSettlement(events, st, no, s, artifact, node);
    GenerationScan(events, ROOT_NODE);
    ActsThenWake(st, no, node, SettlementActs(events, s, artifact, node), SettledStatus(s, artifact));
  }

  lemma {:induction false} SettledScan(events: seq<Event>, node: string)
    requires CleanSoFar(events)
    ensures NodeIsSettled(Bodies(events), node) <==> SettledIn(Run(events), node)
  {
    if |events| == 1 {
      assert Front(Bodies(events)) == [];
    } else {
      var st, e := Run(Front(events)), Last(events);
      CleanFront(events);
      SettledScan(Front(events), node);
      assert Front(Bodies(events)) == Bodies(Front(events));
      if e.body.Lifecycle? && e.body.node == node {
        CleanLifecycle(st, e);
        CleanAct(st.nodes[node], e.no, e.body.parent, e.body.act);
      } else if IsLaunch(e.body, node) {
        CleanLaunch(st, e);
      } else {
        OtherEvent(st, e, node);
      }
    }
  }

  lemma {:induction false} BodiesAppended(events: seq<Event>, drafts: seq<Body>, now: int, run: string)
    ensures Bodies(Appended(events, drafts, now, run)) == Bodies(events) + drafts
  {
  }

  lemma {:induction false} AllSettled(st: State, members: seq<string>)
    requires forall c :: c in members ==> SettledIn(st, c)
    ensures Unsettled(st, members) == []
  {
    if members != [] {
      AllSettled(st, members[1..]);
    }
  }

  /** Completing a wave whose members are all settled is clean. */
  lemma {:induction false} WaveStage(st: State, no: int, wave: int, members: seq<string>)
    requires Tidy(st) && st.problems == []
    requires st.plan.Some? && 1 <= wave <= |st.plan.value| && members == st.plan.value[wave - 1]
    requires wave in st.started && wave !in st.completed
    requires forall c :: c in members ==> SettledIn(st, c)
    ensures StepBody(st, no, WaveCompleted(wave, members)) == st.(completed := st.completed + {wave})
    ensures Tidy(StepBody(st, no, WaveCompleted(wave, members)))
  {
    AllSettled(st, members);
    assert st.problems + At(no, []) == st.problems;
  }

  lemma {:induction false} MembersSettled(events: seq<Event>, core: seq<Body>, members: seq<string>, now: int,
                                          run: string)
    requires CleanSoFar(Appended(events, core, now, run))
    requires forall c :: c in members ==> NodeIsSettled(Bodies(events) + core, c)
    ensures forall c :: c in members ==> SettledIn(Run(Appended(events, core, now, run)), c)
  {
    BodiesAppended(events, core, now, run);
    forall c | c in members ensures SettledIn(Run(Appended(events, core, now, run)), c) {
      SettledScan(Appended(events, core, now, run), c);
    }
  }

  /** Whatever wave completion the writer adds to a clean settlement is clean too. */
  lemma {:induction false} WaveSettlement(events: seq<Event>, mid: State, core: seq<Body>, node: string, now: int,
                                          run: string)
    requires Mirror(events, mid) && Tidy(mid) && mid.problems == []
    requires CleanSoFar(Appended(events, core, now, run)) && Run(Appended(events, core, now, run)) == mid
    ensures var after := Replay(mid, |events| + 1 + |core|, WaveDrafts(events, core, node));
            after.problems == [] && Tidy(after)
  {
    hide StepBody, Run, Appended, Tidy, CleanSoFar;
    var no, drafts := |events| + 1 + |core|, WaveDrafts(events, core, node);
    if drafts != [] {
      var plan := FirstPlan(events).value;
      var i := WaveIndex(plan, node);
      assert drafts == [WaveCompleted(i + 1, plan[i])];
      MembersSettled(events, core, plan[i], now, run);
      WaveStage(mid, no, i + 1, plan[i]);
      assert drafts[1..] == [];
      assert Replay(mid, no, drafts) == StepBody(mid, no, drafts[0]);
    }
  }

  lemma {:induction false} CoreEffectTidy(events: seq<Event>, st: State, after: State, node: string, status: Status)
    requires Tidy(st) && Mirror(events, st) && CoreEffect(st, after, node, status, true)
    ensures Tidy(after) && Mirror(events, after)
  {
  }

  lemma {:induction false} SettlementReplay(events: seq<Event>, s: Evidence, artifact: Artifact, node: string, now: int,
                                            run: string)
    requires WriterInv(events, run) && events != [] && Known(events, node, ROOT_NODE)
    requires Settles(events, s, node) && FromDisk(artifact)
    ensures var after := Replay(Run(events), |events| + 1, SettlementDrafts(events, s, artifact, node));
            && (after.problems == [] <==> !Unlabelled(events, s, artifact, node))
            && (after.problems == [] ==> Tidy(after))
  {
    hide Replay, StepBody, Run, SettlementActs, WaveDrafts;
    var st, no := Run(events), |events| + 1;
    var core := CoreDrafts(events, s, artifact, node, ROOT_NODE);
    var waves := WaveDrafts(events, core, node);
    KnownNode(events, node, ROOT_NODE, run);
    CoreSettlement(events, st, s, artifact, node);
    ReplayConcat(st, no, core, waves);
    var mid := Replay(st, no, core);
    if Unlabelled(events, s, artifact, node) {
      ReplayKeepsProblems(mid, no + |core|, waves);
    } else {
      CoreEffectTidy(events, st, mid, node, SettledStatus(s, artifact));
      AppendToRun(events, core, now, run);
      WaveSettlement(events, mid, core, node, now, run);
    }
  }

  /**
   A settlement of a launched node extends the trace legally exactly when it does not write a
   valid result that lacks a Status line.
   */
  lemma {:induction false} SettlementAcceptedIff(events: seq<Event>, s: Evidence, artifact: Artifact, node: string,
                                                 now: int, run: string)
    requires WriterInv(events, run) && events != []
    requires Known(events, node, ROOT_NODE) && FromDisk(artifact)
    ensures var after := Appended(events, SettlementDrafts(events, s, artifact, node), now, run);
            && (Accepted(after) <==> !Unlabelled(events, s, artifact, node))
            && (Accepted(after) ==> WriterInv(after, run))
  {
    var drafts := SettlementDrafts(events, s, artifact, node);
    if !Settles(events, s, node) {
      WriterInvAccepts(events, run);
    } else {
      SettlementReplay(events, s, artifact, node, now, run);
      NoPlans(Run(events), drafts);
      if Unlabelled(events, s, artifact, node) {
        AppendRejected(events, drafts, now, run);
      } else {
        AppendKeepsInv(events, drafts, now, run);
      }
    }
  }
}
