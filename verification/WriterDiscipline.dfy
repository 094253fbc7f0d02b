/**
 What the writer keeps in every run, whether the checker accepts the trace or not: each settlement is
 followed by its one wake, wakes are numbered without gaps, and an attempt is settled a second time
 only to cancel a blocked one after a later cancel request.
 */
module WriterDiscipline {
  import opened Options
  import opened TraceEvents
  import opened TraceChecker
  import opened TraceHistory
  import opened TraceLaws
  import opened TraceWriter
  import opened WriterReplay
  import opened WriterLaws
  import opened LaunchLaws
  import opened WriterRuns

  // ---------------------------------------------------------------- the discipline

  ghost predicate LaunchesByRoot(events: seq<Event>) {
    forall e :: e in events && e.body.Launched? ==> e.body.parent == ROOT_NODE
  }

  /** Every settlement of the node has its wake, with its status, to the root. */
  ghost predicate Woken(events: seq<Event>, node: string) {
    && |WakesOf(events, node)| == |SettlementsOf(events, node)|
    && Paired(WakesOf(events, node), SettlementsOf(events, node), ROOT_NODE)
  }

  /** A settlement may follow this history: the attempt is open, or blocked with a later cancel request. */
  predicate MaySettle(early: seq<Event>, node: string, outcome: Status) {
    var settled := Current(early, node, KSettled);
    settled.None?
    || (settled.value.body.act.outcome == Blocked && outcome == Cancelled
        && NoOr0(LastAct(early, node, KCancel)) > settled.value.no)
  }

  predicate SettlesLawfully(early: seq<Event>, b: Body) {
    b.Lifecycle? && b.act.Settled? ==> MaySettle(early, b.node, b.act.outcome)
  }

  ghost predicate Lawful(events: seq<Event>) {
    forall j :: 0 <= j < |events| ==> SettlesLawfully(events[..j], events[j].body)
  }

  ghost predicate Disciplined(events: seq<Event>, run: string) {
    && Orderly(events, run) && LaunchesByRoot(events) && Lawful(events)
    && (forall node :: Woken(events, node))
    && Consecutive(GenerationsTo(events, ROOT_NODE))
  }

  // ---------------------------------------------------------------- appending

  lemma {:induction false} LastActUnchanged(events: seq<Event>, more: seq<Event>, node: string, kind: Kind)
    requires forall e :: e in more ==> !IsAct(e.body, node, kind)
    ensures LastAct(events + more, node, kind) == LastAct(events, node, kind)
    decreases |more|
  {
    if more == [] {
      assert events + more == events;
    } else {
      var all := events + more;
      assert Last(all) == Last(more) && Last(more) in more;
      assert Front(all) == events + Front(more);
      LastActUnchanged(events, Front(more), node, kind);
    }
  }

  lemma {:induction false} SettlementsConcat(a: seq<Event>, b: seq<Event>, node: string)
    ensures SettlementsOf(a + b, node) == SettlementsOf(a, node) + SettlementsOf(b, node)
    decreases |b|
  {
    if b == [] {
      assert a + b == a;
    } else {
      assert Last(a + b) == Last(b) && Front(a + b) == a + Front(b);
      SettlementsConcat(a, Front(b), node);
    }
  }

  lemma {:induction false} WakesConcat(a: seq<Event>, b: seq<Event>, node: string)
    ensures WakesOf(a + b, node) == WakesOf(a, node) + WakesOf(b, node)
    decreases |b|
  {
    if b == [] {
      assert a + b == a;
    } else {
      assert Last(a + b) == Last(b) && Front(a + b) == a + Front(b);
      WakesConcat(a, Front(b), node);
    }
  }

  lemma {:induction false} GenerationsConcat(a: seq<Event>, b: seq<Event>, parent: string)
    ensures GenerationsTo(a + b, parent) == GenerationsTo(a, parent) + GenerationsTo(b, parent)
    decreases |b|
  {
    if b == [] {
      assert a + b == a;
    } else {
      assert Last(a + b) == Last(b) && Front(a + b) == a + Front(b);
      GenerationsConcat(a, Front(b), parent);
    }
  }

  lemma {:induction false} NoSettlements(events: seq<Event>, node: string)
    requires forall e :: e in events ==> !IsAct(e.body, node, KSettled)
    ensures SettlementsOf(events, node) == []
  {
    if events != [] {
      FrontLast(events);
      NoSettlements(Front(events), node);
    }
  }

  lemma {:induction false} NoWakes(events: seq<Event>, node: string)
    requires forall e :: e in events ==> !(e.body.Awakened? && e.body.child == node)
    ensures WakesOf(events, node) == []
  {
    if events != [] {
      FrontLast(events);
      NoWakes(Front(events), node);
    }
  }

  lemma {:induction false} NoGenerations(events: seq<Event>, parent: string)
    requires forall e :: e in events ==> !e.body.Awakened?
    ensures GenerationsTo(events, parent) == []
  {
    if events != [] {
      FrontLast(events);
      NoGenerations(Front(events), parent);
    }
  }

  /** The latest generation is the number of wakes so far. */
  lemma {:induction false} LatestIsCount(events: seq<Event>, parent: string)
    requires Consecutive(GenerationsTo(events, parent))
    ensures LatestGeneration(events, parent) == |GenerationsTo(events, parent)|
  {
    if events != [] {
      var early, all := GenerationsTo(Front(events), parent), GenerationsTo(events, parent);
      assert early == all[..|early|];
      assert Consecutive(early);
      LatestIsCount(Front(events), parent);
      if all != early { assert all[|early|] == |early| + 1; }
    }
  }

  lemma {:induction false} StampedBody(drafts: seq<Body>, first: int, at: int, run: string, e: Event)
    requires e in Stamp(drafts, first, at, run)
    ensures e.body in drafts
  {
    var stamped := Stamp(drafts, first, at, run);
    var i :| 0 <= i < |stamped| && stamped[i] == e;
    assert e.body == drafts[i];
  }

  // ---------------------------------------------------------------- steps that settle nothing

  /** Drafts without settlements and wakes, and with launches by the root only. */
  ghost predicate Quiet(drafts: seq<Body>) {
    && (forall b :: b in drafts ==> !b.Awakened? && !(b.Lifecycle? && b.act.Settled?))
    && (forall b :: b in drafts && b.Launched? ==> b.parent == ROOT_NODE)
  }

  lemma {:induction false} QuietSteps(events: seq<Event>, step: WriterStep)
    requires step.Valid() && !step.SettleStep?
    ensures Quiet(Drafts(events, step))
  {
    hide AwaitsReply, NodeCanCancel;
    match step
    case LaunchStep(req) => QuietLaunch(events, req);
    case StopStep(node, parent) =>
    case ReplyStep(node, parent, text) =>
  }

  lemma {:induction false} QuietLaunch(events: seq<Event>, req: LaunchRequest)
    requires req.Valid()
    ensures Quiet(LaunchDrafts(events, req))
  {
  }

  lemma {:induction false} AppendedIs(events: seq<Event>, drafts: seq<Body>, now: int, run: string)
    returns (more: seq<Event>)
    requires drafts != []
    ensures more == Stamp(drafts, LastNo(events) + 1, AppendTime(events, now), run)
    ensures Appended(events, drafts, now, run) == events + more
    ensures forall e :: e in more ==> e.body in drafts
  {
    more := Stamp(drafts, LastNo(events) + 1, AppendTime(events, now), run);
    forall e | e in more ensures e.body in drafts {
      StampedBody(drafts, LastNo(events) + 1, AppendTime(events, now), run, e);
    }
  }

  lemma {:induction false} QuietKeepsWakes(events: seq<Event>, more: seq<Event>)
    requires forall e :: e in more ==> !e.body.Awakened? && !(e.body.Lifecycle? && e.body.act.Settled?)
    requires (forall node :: Woken(events, node)) && Consecutive(GenerationsTo(events, ROOT_NODE))
    ensures (forall node :: Woken(events + more, node)) && Consecutive(GenerationsTo(events + more, ROOT_NODE))
  {
    hide Paired, Consecutive;
    GenerationsConcat(events, more, ROOT_NODE);
    NoGenerations(more, ROOT_NODE);
    assert GenerationsTo(events, ROOT_NODE) + [] == GenerationsTo(events, ROOT_NODE);
    forall node ensures Woken(events + more, node) {
      assert Woken(events, node);
      SettlementsConcat(events, more, node);
      WakesConcat(events, more, node);
      NoSettlements(more, node);
      NoWakes(more, node);
      assert WakesOf(events, node) + [] == WakesOf(events, node);
      assert SettlementsOf(events, node) + [] == SettlementsOf(events, node);
    }
  }

  lemma {:induction false} QuietKeepsLawful(events: seq<Event>, more: seq<Event>)
    requires forall e :: e in more ==> !(e.body.Lifecycle? && e.body.act.Settled?)
    requires Lawful(events)
    ensures Lawful(events + more)
  {
    hide MaySettle;
    var all := events + more;
    forall j | 0 <= j < |all| ensures SettlesLawfully(all[..j], all[j].body) {
      if j < |events| {
        assert all[..j] == events[..j];
        assert SettlesLawfully(events[..j], events[j].body);
      } else {
        assert all[j] in more;
      }
    }
  }

  lemma {:induction false} QuietKeeps(events: seq<Event>, drafts: seq<Body>, now: int, run: string)
    requires Disciplined(events, run) && Quiet(drafts)
    ensures Disciplined(Appended(events, drafts, now, run), run)
  {
    hide Woken, Lawful, Consecutive, Orderly;
    AppendedIsOrderly(events, drafts, now, run);
    if drafts != [] {
      var more := AppendedIs(events, drafts, now, run);
      QuietKeepsWakes(events, more);
      QuietKeepsLawful(events, more);
    }
  }

  // ---------------------------------------------------------------- settlements

  /** The drafts of a settlement in four parts: what comes before it, the settlement, the wake, the wave. */
  datatype Parts = Parts(before: seq<Body>, settled: Body, wake: Body, wave: seq<Body>)

  function Joined(parts: Parts): seq<Body> {
    parts.before + [parts.settled] + [parts.wake] + parts.wave
  }

  ghost predicate PartsFit(parts: Parts, events: seq<Event>, node: string, status: Status) {
    && (forall b :: b in parts.before ==> b.Lifecycle? && !IsAct(b, node, KSettled) && !IsAct(b, node, KResumed)
                                          && !IsAct(b, node, KCancel) && !b.act.Settled?)
    && parts.settled.Lifecycle? && parts.settled.node == node && parts.settled.act.Settled?
    && parts.settled.act.outcome == status
    && parts.wake == Awakened(ROOT_NODE, node, status, NextGeneration(events, ROOT_NODE))
    && (forall b :: b in parts.wave ==> b.WaveCompleted?)
  }

  lemma {:induction false} ActsBefore(events: seq<Event>, s: Evidence, artifact: Artifact, node: string)
    ensures var acts := SettlementActs(events, s, artifact, node);
            && acts != [] && Last(acts).Settled? && Last(acts).outcome == SettledStatus(s, artifact)
            && forall act :: act in Front(acts) ==>
                 act.BlockedOn? || act.ResultWritten? || act.Deviation? || act.ResultValidated?
  {
    var ask := if NativeStatus(s) == Blocked && Current(events, node, KBlocked).None?
               then [BlockedOn(RequestText(s, artifact))] else [];
    var evidence := if WritesEvidence(events, s, artifact, node) then ResultActs(events, artifact, node) else [];
    var settle := Settled(SettledStatus(s, artifact), if artifact.valid then artifact.status else None,
                          SurfaceClosed(s));
    assert SettlementActs(events, s, artifact, node) == (ask + evidence) + [settle];
    if WritesEvidence(events, s, artifact, node) { ResultActsShape(events, artifact, node); }
    hide *;
    FrontOf(ask + evidence, settle);
  }

  lemma {:induction false} FrontOf<T>(front: seq<T>, last: T)
    ensures Front(front + [last]) == front && Last(front + [last]) == last
  {
  }

  lemma {:induction false} ResultActsShape(events: seq<Event>, artifact: Artifact, node: string)
    requires artifact.path.Some?
    ensures forall act :: act in ResultActs(events, artifact, node) ==>
              act.ResultWritten? || act.Deviation? || act.ResultValidated?
  {
  }

  /** What a settlement writes about a node launched by the root. */
  lemma {:induction false} SettlementParts(events: seq<Event>, s: Evidence, artifact: Artifact, node: string)
    returns (parts: Parts)
    requires Known(events, node, ROOT_NODE) && Settles(events, s, node)
    ensures PartsFit(parts, events, node, SettledStatus(s, artifact))
    ensures SettlementDrafts(events, s, artifact, node) == Joined(parts)
  {
    hide SettlementActs, WaveDrafts, NextGeneration, Settles, SettledStatus;
    var acts := SettlementActs(events, s, artifact, node);
    var core := CoreDrafts(events, s, artifact, node, ROOT_NODE);
    ActsBefore(events, s, artifact, node);
    WaveDraftsShape(events, core, node);
    var before, wave := About(node, ROOT_NODE, Front(acts)), WaveDrafts(events, core, node);
    parts := Parts(before, Lifecycle(node, ROOT_NODE, Last(acts)), core[|acts|], wave);
    assert About(node, ROOT_NODE, acts) == before + [parts.settled];
    forall b | b in before
      ensures b.Lifecycle? && (b.act.BlockedOn? || b.act.ResultWritten? || b.act.Deviation? || b.act.ResultValidated?)
    {
      var i :| 0 <= i < |before| && before[i] == b;
      assert b == Lifecycle(node, ROOT_NODE, Front(acts)[i]);
      assert Front(acts)[i] in Front(acts);
    }
  }

  /** The stamped parts, and the numbers of the settlement and its wake. */
  lemma {:induction false} StampedParts(parts: Parts, first: int, at: int, run: string)
    ensures Stamp(Joined(parts), first, at, run) ==
              Stamp(parts.before, first, at, run)
              + [Event(first + |parts.before|, at, run, parts.settled)]
              + [Event(first + |parts.before| + 1, at, run, parts.wake)]
              + Stamp(parts.wave, first + |parts.before| + 2, at, run)
  {
  }

  lemma {:induction false} OneEvent(e: Event, node: string)
    ensures SettlementsOf([e], node)
         == if IsAct(e.body, node, KSettled) then [Settlement(e.body.act.outcome, e.no)] else []
    ensures WakesOf([e], node) ==
              if e.body.Awakened? && e.body.child == node then [Wake(e.body.node, e.body.childStatus, e.no)] else []
    ensures GenerationsTo([e], node) == if e.body.Awakened? && e.body.node == node then [e.body.generation] else []
  {
    assert Front([e]) == [] && Last([e]) == e;
    assert SettlementsOf([], node) == [] && WakesOf([], node) == [] && GenerationsTo([], node) == [];
  }

  /** The settlements and wakes in the stamped parts: one of each, about one node. */
  lemma {:induction false} PartsRecord(parts: Parts, events: seq<Event>, node: string, status: Status,
                                       first: int, at: int, run: string, other: string)
    requires PartsFit(parts, events, node, status)
    ensures var more, no := Stamp(Joined(parts), first, at, run), first + |parts.before|;
            && SettlementsOf(more, other) == (if other == node then [Settlement(status, no)] else [])
            && WakesOf(more, other) == (if other == node then [Wake(ROOT_NODE, status, no + 1)] else [])
            && GenerationsTo(more, other) == (if other == ROOT_NODE then [NextGeneration(events, ROOT_NODE)] else [])
  {
    hide *;
    var no := first + |parts.before|;
    var a, d := Stamp(parts.before, first, at, run), Stamp(parts.wave, no + 2, at, run);
    var b, c := [Event(no, at, run, parts.settled)], [Event(no + 1, at, run, parts.wake)];
    StampedParts(parts, first, at, run);
    OthersLeaveNothing(parts, events, node, status, first, at, run, other);
    SettledAndWoken(parts, events, node, status, no, at, run, other);
    FourSettlements(a, b, c, d, other);
    FourWakes(a, b, c, d, other);
    FourGenerations(a, b, c, d, other);
    OneOfFour(SettlementsOf(b, other));
    OneOfFour(WakesOf(c, other));
    OneOfFour(GenerationsTo(c, other));
  }

  lemma {:induction false} OneOfFour<T>(s: seq<T>)
    ensures [] + s + [] + [] == s && [] + [] + s + [] == s
  {
  }

  /** The acts before the settlement and the completion of the wave leave no record. */
  lemma {:induction false} OthersLeaveNothing(parts: Parts, events: seq<Event>, node: string, status: Status,
                                              first: int, at: int, run: string, other: string)
    requires PartsFit(parts, events, node, status)
    ensures var a, d := Stamp(parts.before, first, at, run), Stamp(parts.wave, first + |parts.before| + 2, at, run);
            && SettlementsOf(a, other) == [] && WakesOf(a, other) == [] && GenerationsTo(a, other) == []
            && SettlementsOf(d, other) == [] && WakesOf(d, other) == [] && GenerationsTo(d, other) == []
  {
    hide Stamp, SettlementsOf, WakesOf, GenerationsTo;
    NothingInStamped(parts.before, first, at, run, other);
    NothingInStamped(parts.wave, first + |parts.before| + 2, at, run, other);
  }

  /** The record of the settlement by itself, and of its wake by itself. */
  lemma {:induction false} SettledAndWoken(parts: Parts, events: seq<Event>, node: string, status: Status,
                                           no: int, at: int, run: string, other: string)
    requires PartsFit(parts, events, node, status)
    ensures var b, c := [Event(no, at, run, parts.settled)], [Event(no + 1, at, run, parts.wake)];
            && SettlementsOf(b, other) == (if other == node then [Settlement(status, no)] else [])
            && WakesOf(b, other) == [] && GenerationsTo(b, other) == [] && SettlementsOf(c, other) == []
            && WakesOf(c, other) == (if other == node then [Wake(ROOT_NODE, status, no + 1)] else [])
            && GenerationsTo(c, other) == (if other == ROOT_NODE then [NextGeneration(events, ROOT_NODE)] else [])
  {
    hide NextGeneration, SettlementsOf, WakesOf, GenerationsTo;
    OneEvent(Event(no, at, run, parts.settled), other);
    OneEvent(Event(no + 1, at, run, parts.wake), other);
  }

  /** Drafts without settlements and wakes leave no record. */
  lemma {:induction false} NothingInStamped(drafts: seq<Body>, first: int, at: int, run: string, node: string)
    requires forall b :: b in drafts ==> !b.Awakened? && !(b.Lifecycle? && b.act.Settled?)
    ensures var more := Stamp(drafts, first, at, run);
            SettlementsOf(more, node) == [] && WakesOf(more, node) == [] && GenerationsTo(more, node) == []
  {
    hide Stamp;
    var more := Stamp(drafts, first, at, run);
    forall e | e in more ensures e.body in drafts { StampedBody(drafts, first, at, run, e); }
    NoSettlements(more, node);
    NoWakes(more, node);
    NoGenerations(more, node);
  }

  lemma {:induction false} FourSettlements(a: seq<Event>, b: seq<Event>, c: seq<Event>, d: seq<Event>, node: string)
    ensures SettlementsOf(a + b + c + d, node)
         == SettlementsOf(a, node) + SettlementsOf(b, node) + SettlementsOf(c, node) + SettlementsOf(d, node)
  {
    hide SettlementsOf;
    SettlementsConcat(a + b + c, d, node);
    SettlementsConcat(a + b, c, node);
    SettlementsConcat(a, b, node);
  }

  lemma {:induction false} FourWakes(a: seq<Event>, b: seq<Event>, c: seq<Event>, d: seq<Event>, node: string)
    ensures WakesOf(a + b + c + d, node) == WakesOf(a, node) + WakesOf(b, node) + WakesOf(c, node) + WakesOf(d, node)
  {
    hide WakesOf;
    WakesConcat(a + b + c, d, node);
    WakesConcat(a + b, c, node);
    WakesConcat(a, b, node);
  }

  lemma {:induction false} FourGenerations(a: seq<Event>, b: seq<Event>, c: seq<Event>, d: seq<Event>, node: string)
    ensures GenerationsTo(a + b + c + d, node)
         == GenerationsTo(a, node) + GenerationsTo(b, node) + GenerationsTo(c, node) + GenerationsTo(d, node)
  {
    hide GenerationsTo;
    GenerationsConcat(a + b + c, d, node);
    GenerationsConcat(a + b, c, node);
    GenerationsConcat(a, b, node);
  }

  /** A settlement and its wake extend the matching. */
  lemma {:induction false} PartsAreWoken(events: seq<Event>, parts: Parts, node: string, status: Status,
                                         first: int, at: int, run: string)
    requires PartsFit(parts, events, node, status)
    requires (forall other :: Woken(events, other)) && Consecutive(GenerationsTo(events, ROOT_NODE))
    ensures var all := events + Stamp(Joined(parts), first, at, run);
            (forall other :: Woken(all, other)) && Consecutive(GenerationsTo(all, ROOT_NODE))
  {
    var more := Stamp(Joined(parts), first, at, run);
    hide PartsFit, Stamp, Joined, SettlementsOf, WakesOf, GenerationsTo;
    PartsRecord(parts, events, node, status, first, at, run, ROOT_NODE);
    GenerationsConcat(events, more, ROOT_NODE);
    LatestIsCount(events, ROOT_NODE);
    forall other ensures Woken(events + more, other) {
      assert Woken(events, other);
      PartsRecord(parts, events, node, status, first, at, run, other);
      SettlementsConcat(events, more, other);
      WakesConcat(events, more, other);
      if other != node {
        assert WakesOf(events, other) + [] == WakesOf(events, other);
        assert SettlementsOf(events, other) + [] == SettlementsOf(events, other);
      }
    }
  }

  /** When evidence settles a node, the history up to its settlement allows it. */
  lemma {:induction false} SettlesWhenAllowed(events: seq<Event>, before: seq<Event>, s: Evidence, artifact: Artifact,
                                              node: string)
    requires Settles(events, s, node)
    requires forall e :: e in before ==> !IsAct(e.body, node, KSettled) && !IsAct(e.body, node, KResumed)
                                         && !IsAct(e.body, node, KCancel)
    ensures MaySettle(events + before, node, SettledStatus(s, artifact))
  {
    LastActUnchanged(events, before, node, KSettled);
    LastActUnchanged(events, before, node, KResumed);
    LastActUnchanged(events, before, node, KCancel);
    hide LastAct;
  }

  lemma {:induction false} PartsAreLawful(events: seq<Event>, parts: Parts, node: string, s: Evidence,
                                          artifact: Artifact, first: int, at: int, run: string)
    requires PartsFit(parts, events, node, SettledStatus(s, artifact)) && Settles(events, s, node) && Lawful(events)
    ensures Lawful(events + Stamp(Joined(parts), first, at, run))
  {
    hide MaySettle, Settles, SettledStatus, NextGeneration;
    var no := first + |parts.before|;
    var a, d := Stamp(parts.before, first, at, run), Stamp(parts.wave, no + 2, at, run);
    var settled, wake := Event(no, at, run, parts.settled), Event(no + 1, at, run, parts.wake);
    forall e | e in a ensures e.body in parts.before { StampedBody(parts.before, first, at, run, e); }
    forall e | e in d ensures e.body in parts.wave { StampedBody(parts.wave, no + 2, at, run, e); }
    StampedParts(parts, first, at, run);
    QuietKeepsLawful(events, a);
    SettlesWhenAllowed(events, a, s, artifact, node);
    OneMoreLawful(events + a, settled);
    QuietKeepsLawful(events + a + [settled], [wake] + d);
    assert events + Stamp(Joined(parts), first, at, run) == events + a + [settled] + ([wake] + d);
  }

  lemma {:induction false} OneMoreLawful(events: seq<Event>, e: Event)
    requires Lawful(events) && SettlesLawfully(events, e.body)
    ensures Lawful(events + [e])
  {
    hide MaySettle;
    var all := events + [e];
    forall j | 0 <= j < |all| ensures SettlesLawfully(all[..j], all[j].body) {
      if j < |events| {
        assert all[..j] == events[..j];
        assert SettlesLawfully(events[..j], events[j].body);
      } else {
        assert all[..j] == events;
      }
    }
  }

  lemma {:induction false} SettlementKeeps(events: seq<Event>, s: Evidence, artifact: Artifact, node: string, now: int,
                                           run: string)
    requires Disciplined(events, run)
    ensures Disciplined(Appended(events, SettlementDrafts(events, s, artifact, node), now, run), run)
  {
    var drafts := SettlementDrafts(events, s, artifact, node);
    if drafts != [] {
      LaunchIsByRoot(events, node);
      var parts := SettlementParts(events, s, artifact, node);
      SettlementPartsKeep(events, parts, s, artifact, node, now, run);
    }
  }

  lemma {:induction false} SettlementPartsKeep(events: seq<Event>, parts: Parts, s: Evidence, artifact: Artifact,
                                               node: string, now: int, run: string)
    requires Disciplined(events, run) && Settles(events, s, node)
    requires PartsFit(parts, events, node, SettledStatus(s, artifact))
    ensures Disciplined(Appended(events, Joined(parts), now, run), run)
  {
    hide Settles, Woken, Consecutive, SettledStatus, NextGeneration;
    AppendedIsOrderly(events, Joined(parts), now, run);
    var more := AppendedIs(events, Joined(parts), now, run);
    PartsAreWoken(events, parts, node, SettledStatus(s, artifact), LastNo(events) + 1, AppendTime(events, now), run);
    PartsAreLawful(events, parts, node, s, artifact, LastNo(events) + 1, AppendTime(events, now), run);
    hide Lawful, Orderly, Stamp;
    forall e | e in events + more && e.body.Launched? ensures e.body.parent == ROOT_NODE {
      assert e in events || e.body in Joined(parts);
    }
  }

  lemma {:induction false} LaunchIsByRoot(events: seq<Event>, node: string)
    requires LaunchesByRoot(events) && LaunchOf(events, node).Some?
    ensures Known(events, node, ROOT_NODE)
  {
  }

  // ---------------------------------------------------------------- runs

  lemma {:induction false} StepKeepsDiscipline(events: seq<Event>, step: WriterStep, now: int, run: string)
    requires Disciplined(events, run) && step.Valid()
    ensures Disciplined(After(events, step, now, run), run)
  {
    hide Disciplined, SettlementDrafts, LaunchDrafts, CancelDrafts, ReplyDrafts, Appended, Quiet;
    match step
    case SettleStep(node, s, files) => SettlementKeeps(events, s, ArtifactFor(events, s, files, node), node, now, run);
    case _ =>
      QuietSteps(events, step);
      QuietKeeps(events, Drafts(events, step), now, run);
  }

  lemma {:induction false} NothingIsDisciplined(run: string)
    ensures Disciplined([], run)
  {
  }

  lemma {:induction false} RunsKeepDiscipline(events: seq<Event>, steps: seq<Timed>, run: string)
    requires AllValid(steps) && Disciplined(events, run)
    ensures Disciplined(Extend(events, steps, run), run)
    decreases |steps|
  {
    hide Disciplined, After;
    if steps != [] {
      assert steps[0] in steps;
      StepKeepsDiscipline(events, steps[0].step, steps[0].now, run);
      RunsKeepDiscipline(After(events, steps[0].step, steps[0].now, run), steps[1..], run);
    }
  }

  /** In every run, each settlement of a node has exactly one wake: later, with its status, to the root. */
  lemma {:induction false} EverySettlementIsWokenOnce(steps: seq<Timed>, run: string, node: string)
    requires AllValid(steps)
    ensures var trace := Extend([], steps, run);
            && |WakesOf(trace, node)| == |SettlementsOf(trace, node)|
            && Paired(WakesOf(trace, node), SettlementsOf(trace, node), ROOT_NODE)
            && Consecutive(GenerationsTo(trace, ROOT_NODE))
  {
    hide Lawful, Orderly;
    NothingIsDisciplined(run);
    RunsKeepDiscipline([], steps, run);
    assert Woken(Extend([], steps, run), node);
  }

  // ---------------------------------------------------------------- settling an attempt twice

  lemma {:induction false} CancelIsBetween(events: seq<Event>, node: string, m: nat)
    requires Numbered(events) && m < |events| && NoOr0(LastAct(events, node, KCancel)) > m + 1
    ensures exists k :: m < k < |events| && IsAct(events[k].body, node, KCancel)
  {
    LastActIsIndexed(events, node, KCancel);
    assert IsAct(events[LastAct(events, node, KCancel).value.no - 1].body, node, KCancel);
  }

  /** The settlement in force when a settled node is settled again. */
  lemma {:induction false} SettledAgain(early: seq<Event>, node: string, outcome: Status, i: nat) returns (m: nat)
    requires Numbered(early) && MaySettle(early, node, outcome) && i < |early| && IsAct(early[i].body, node, KSettled)
    requires NoActBetween(early, node, KResumed, i, |early|)
    ensures i <= m < |early| && LastAct(early, node, KSettled) == Some(early[m]) && early[m].no == m + 1
    ensures IsAct(early[m].body, node, KSettled)
    ensures early[m].body.act.outcome == Blocked && outcome == Cancelled
    ensures exists k :: m < k < |early| && IsAct(early[k].body, node, KCancel)
  {
    LastActPosition(early, node, KSettled, i);
    m := LastAct(early, node, KSettled).value.no - 1;
    LastActIsIndexed(early, node, KResumed);
    assert Current(early, node, KSettled) == Some(early[m]);
    CancelIsBetween(early, node, m);
  }

  lemma {:induction false} LawfulSecondSettlement(events: seq<Event>, node: string, i: nat, j: nat)
    requires Lawful(events) && Numbered(events) && i < j < |events|
    requires IsAct(events[i].body, node, KSettled) && IsAct(events[j].body, node, KSettled)
    requires NoActBetween(events, node, KResumed, i, j)
    ensures events[i].body.act.outcome == Blocked && events[j].body.act.outcome == Cancelled
    ensures NoActBetween(events, node, KSettled, i, j)
    ensures exists k :: i < k < j && IsAct(events[k].body, node, KCancel)
    decreases j
  {
    hide Current, LastAct, MaySettle;
    var early, e := events[..j], events[j];
    assert SettlesLawfully(early, e.body);
    var m := SettledAgain(early, node, e.body.act.outcome, i);
    if i < m {
      LawfulSecondSettlement(events, node, i, m);
    }
    NoneAfterLast(early, node, KSettled, i);
    assert forall k :: i < k < j ==> early[k] == events[k];
  }

  /**
   In every run, two settlements of a node without a resume between them are a blocked one followed,
   after a cancel request, by a cancelled one; so there is never a third.
   */
  lemma {:induction false} SecondSettlementIsCancellation(steps: seq<Timed>, run: string, node: string, i: nat, j: nat)
    requires AllValid(steps)
    requires var trace := Extend([], steps, run);
             && i < j < |trace| && IsAct(trace[i].body, node, KSettled) && IsAct(trace[j].body, node, KSettled)
             && NoActBetween(trace, node, KResumed, i, j)
    ensures var trace := Extend([], steps, run);
            && trace[i].body.act.outcome == Blocked && trace[j].body.act.outcome == Cancelled
            && NoActBetween(trace, node, KSettled, i, j)
            && exists k :: i < k < j && IsAct(trace[k].body, node, KCancel)
  {
    hide Lawful, Woken, Consecutive, LaunchesByRoot, Extend;
    NothingIsDisciplined(run);
    RunsKeepDiscipline([], steps, run);
    LawfulSecondSettlement(Extend([], steps, run), node, i, j);
  }

  /** A clean settlement of a node that is already settled cancels a blocked one after a later request. */
  lemma {:induction false} SettledAgainOnlyByCancel(st: State, e: Event)
    requires e.body.Lifecycle? && e.body.act.Settled? && Step(st, e).problems == []
    requires SettledIn(st, e.body.node)
    ensures CancelsBlocked(st.nodes[e.body.node], e.body.act)
  {
    CleanLifecycle(st, e);
    var n := st.nodes[e.body.node];
    assert StepAct(n, e.no, e.body.parent, e.body.act).rules == [];
  }

  lemma {:induction false} CleanSettlementIsLawful(early: seq<Event>, e: Event)
    requires CleanSoFar(early) && CleanSoFar(early + [e])
    ensures SettlesLawfully(early, e.body)
  {
    hide Run, Step;
    if e.body.Lifecycle? && e.body.act.Settled? && Current(early, e.body.node, KSettled).Some? {
      Snoc(early, e);
      CheckerMatchesHistory(early, e.body.node);
      SettledAgainOnlyByCancel(Run(early), e);
    }
  }

  lemma {:induction false} CleanBefore(events: seq<Event>, j: nat)
    requires Accepted(events) && 1 <= j < |events|
    ensures CleanSoFar(events[..j]) && CleanSoFar(events[..j] + [events[j]])
  {
    hide *;
    AcceptedParts(events);
    CleanPrefix(events, j);
    CleanPrefix(events, j + 1);
    assert events[..j + 1] == events[..j] + [events[j]];
  }

  /** The checker insists on the same law, whoever wrote the trace. */
  lemma {:induction false} AcceptedIsLawful(events: seq<Event>)
    requires Accepted(events)
    ensures Lawful(events)
  {
    hide Accepted, CleanSoFar, MaySettle;
    AcceptedParts(events);
    forall j | 0 <= j < |events| ensures SettlesLawfully(events[..j], events[j].body) {
      if j > 0 {
        CleanBefore(events, j);
        CleanSettlementIsLawful(events[..j], events[j]);
      } else {
        FirstCreates(events);
      }
    }
  }

  lemma {:induction false} FirstCreates(events: seq<Event>)
    requires Accepted(events)
    ensures events != [] && events[0].body.RunCreated?
  {
  }

  /** In every run, evidence appends something exactly when the attempt is open or a blocked one is being cancelled. */
  lemma {:induction false} ClosedAttemptIsIdempotent(steps: seq<Timed>, s: Evidence, files: map<string, File>,
                                                    node: string, now: int, run: string)
    requires AllValid(steps) && LaunchOf(Extend([], steps, run), node).Some? && node != ""
    ensures var events := Extend([], steps, run);
            var after := After(events, SettleStep(node, s, files), now, run);
            && (after == events <==> Current(events, node, KSettled).Some? && !BlockedCancellation(events, s, node))
            && (after != events ==> Current(after, node, KSettled).Some?
                                    && Current(after, node, KSettled).value.no > |events|)
  {
    hide Lawful, Woken, Consecutive, Extend;
    var events := Extend([], steps, run);
    NothingIsDisciplined(run);
    RunsKeepDiscipline([], steps, run);
    LaunchIsByRoot(events, node);
    var artifact := ArtifactFor(events, s, files, node);
    var drafts := Drafts(events, SettleStep(node, s, files));
    if Settles(events, s, node) {
      AppendedIsOrderly(events, drafts, now, run);
      SettlesAtEnd(events, s, artifact, node, now, run);
    }
  }

  // ---------------------------------------------------------------- acts about launched nodes only

  ghost predicate ActsAreLaunched(events: seq<Event>) {
    forall e :: e in events && e.body.Lifecycle? ==> LaunchOf(events, e.body.node).Some?
  }

  /** A node that was never launched has no acts. */
  lemma {:induction false} UnlaunchedHasNoActs(events: seq<Event>, node: string, kind: Kind)
    requires ActsAreLaunched(events) && LaunchOf(events, node).None?
    ensures LastAct(events, node, kind).None?
  {
  }

  lemma {:induction false} DraftsAreLaunched(events: seq<Event>, step: WriterStep)
    requires step.Valid() && Targeted(events, step)
    ensures forall b :: b in Drafts(events, step) && b.Lifecycle? ==> LaunchOf(events, b.node).Some?
  {
    hide SettlementActs, WaveDrafts, NextGeneration, NodeCanCancel, AwaitsReply, FirstPlan, WaveStartedIn;
    match step
    case LaunchStep(req) =>
    case SettleStep(node, s, files) =>
      var artifact := ArtifactFor(events, s, files, node);
      if SettlementDrafts(events, s, artifact, node) != [] {
        var core := CoreDrafts(events, s, artifact, node, LaunchOf(events, node).value.body.parent);
        WaveDraftsShape(events, core, node);
      }
    case StopStep(node, parent) =>
    case ReplyStep(node, parent, text) =>
  }

  lemma {:induction false} StepKeepsActsLaunched(events: seq<Event>, step: WriterStep, now: int, run: string)
    requires ActsAreLaunched(events) && step.Valid() && Targeted(events, step)
    ensures ActsAreLaunched(After(events, step, now, run))
  {
    hide Drafts, Targeted, LaunchOf;
    var drafts := Drafts(events, step);
    DraftsAreLaunched(events, step);
    if drafts != [] {
      var more := AppendedIs(events, drafts, now, run);
      forall e | e in events + more && e.body.Lifecycle? ensures LaunchOf(events + more, e.body.node).Some? {
        assert e in events || e.body in drafts;
        LaunchPersists(events, more, e.body.node);
      }
    }
  }

  // ---------------------------------------------------------------- blocked settlements come with their request

  /** Every blocked settlement of a node has a blocked event to reply to. */
  ghost predicate BlocksAreAsked(events: seq<Event>) {
    forall e :: e in events && e.body.Lifecycle? && e.body.act.Settled? && e.body.act.outcome == Blocked ==>
      LastAct(events, e.body.node, KBlocked).Some?
  }

  lemma {:induction false} LastActPersists(events: seq<Event>, more: seq<Event>, node: string, kind: Kind)
    requires LastAct(events, node, kind).Some? || exists e :: e in more && IsAct(e.body, node, kind)
    ensures LastAct(events + more, node, kind).Some?
    decreases |more|
  {
    if more == [] {
      assert events + more == events;
    } else {
      var all := events + more;
      assert Last(all) == Last(more) && Front(all) == events + Front(more);
      if !IsAct(Last(all).body, node, kind) {
        assert forall e :: e in more ==> e in Front(more) || e == Last(more);
        LastActPersists(events, Front(more), node, kind);
      }
    }
  }

  /** A blocked settlement follows a blocked event, in the history or among its own drafts. */
  lemma {:induction false} BlockIsAsked(events: seq<Event>, s: Evidence, artifact: Artifact, node: string)
    requires SettledStatus(s, artifact) == Blocked && LastAct(events, node, KBlocked).None?
    ensures BlockedOn(RequestText(s, artifact)) in SettlementActs(events, s, artifact, node)
  {
    hide BlockedCancellation, SurfaceClosed, RequestText, ResultActs;
    assert SettlementActs(events, s, artifact, node)[0] == BlockedOn(RequestText(s, artifact));
  }

  /** The drafts of a blocked settlement hold the blocked event, unless the history does. */
  lemma {:induction false} SettlementIsAsked(events: seq<Event>, s: Evidence, artifact: Artifact, node: string)
    requires Known(events, node, ROOT_NODE) && Settles(events, s, node) && SettledStatus(s, artifact) == Blocked
    requires LastAct(events, node, KBlocked).None?
    ensures exists c :: c in SettlementDrafts(events, s, artifact, node) && IsAct(c, node, KBlocked)
  {
    hide SettlementActs, SettledStatus, WaveDrafts, NextGeneration, Settles, RequestText;
    BlockIsAsked(events, s, artifact, node);
    var acts, core := SettlementActs(events, s, artifact, node), CoreDrafts(events, s, artifact, node, ROOT_NODE);
    var i :| 0 <= i < |acts| && acts[i] == BlockedOn(RequestText(s, artifact));
    assert core[i] == Lifecycle(node, ROOT_NODE, acts[i]);
    assert core[i] in core && core[i] in SettlementDrafts(events, s, artifact, node);
  }

  lemma {:induction false} DraftsAreAsked(events: seq<Event>, step: WriterStep, b: Body)
    requires step.Valid() && b in Drafts(events, step)
    requires b.Lifecycle? && b.act.Settled? && b.act.outcome == Blocked && LaunchesByRoot(events)
    ensures || LastAct(events, b.node, KBlocked).Some?
            || exists c :: c in Drafts(events, step) && IsAct(c, b.node, KBlocked)
  {
    hide SettledStatus, CancelDrafts, ReplyDrafts, LaunchDrafts, CoreDrafts, WaveDrafts, Settles, NextGeneration,
         LastAct;
    if !step.SettleStep? {
      QuietSteps(events, step);
    } else {
      var artifact := ArtifactFor(events, step.s, step.files, step.node);
      LaunchIsByRoot(events, step.node);
      var parts := SettlementParts(events, step.s, artifact, step.node);
      hide SettlementDrafts;
      assert b == parts.settled;
      if LastAct(events, b.node, KBlocked).None? {
        SettlementIsAsked(events, step.s, artifact, step.node);
      }
    }
  }

  lemma {:induction false} StampedDraft(drafts: seq<Body>, first: int, at: int, run: string, b: Body)
    requires b in drafts
    ensures exists e :: e in Stamp(drafts, first, at, run) && e.body == b
  {
    var i :| 0 <= i < |drafts| && drafts[i] == b;
    assert Stamp(drafts, first, at, run)[i].body == b;
  }

  lemma {:induction false} StepKeepsBlocksAsked(events: seq<Event>, step: WriterStep, now: int, run: string)
    requires BlocksAreAsked(events) && LaunchesByRoot(events) && step.Valid()
    ensures BlocksAreAsked(After(events, step, now, run))
  {
    hide Drafts, LaunchesByRoot;
    var drafts := Drafts(events, step);
    if drafts != [] {
      var more := AppendedIs(events, drafts, now, run);
      forall e | e in events + more && e.body.Lifecycle? && e.body.act.Settled? && e.body.act.outcome == Blocked
        ensures LastAct(events + more, e.body.node, KBlocked).Some?
      {
        if e !in events {
          DraftsAreAsked(events, step, e.body);
          if c :| c in drafts && IsAct(c, e.body.node, KBlocked) {
            StampedDraft(drafts, LastNo(events) + 1, AppendTime(events, now), run, c);
          }
        }
        LastActPersists(events, more, e.body.node, KBlocked);
      }
    }
  }

  /** A node whose settlement in force is blocked can be replied to. */
  lemma {:induction false} BlockedAwaitsReply(events: seq<Event>, node: string)
    requires BlocksAreAsked(events) && Outcome(events, node) == Some(Blocked)
    ensures AwaitsReply(events, node)
  {
  }
}
