/**
 Which traces are legal: the condition on each next event, in terms of the trace before it, and the traces
 that the checker accepts as those all of whose events meet it.
 */
module TraceLegal {
  import opened Options
  import opened TraceEvents
  import opened TraceChecker
  import opened TraceHistory
  import opened TraceLaws
  import opened TraceWriter
  import opened TraceRules

  // ---------------------------------------------------------------- what may come next

  function ParentOf(events: seq<Event>, node: string): Option<string> {
    var launch := LaunchOf(events, node);
    if launch.None? then None else Some(launch.value.body.parent)
  }

  /** The result path written in the current attempt. */
  function PathOf(events: seq<Event>, node: string): Option<string> {
    var written := Current(events, node, KWritten);
    if written.None? then None else Some(written.value.body.act.path)
  }

  /** What may happen to a launched node without an open reply. */
  predicate MayHappen(events: seq<Event>, node: string, act: Act) {
    var outcome := Outcome(events, node);
    match act
    case Progress(_) => outcome.None?
    case BlockedOn(_) => outcome.None?
    case ResultWritten(_) => outcome.None?
    case Deviation(_) =>
      && outcome.None? && PathOf(events, node).Some? && PathOf(events, node) != Some("")
      && Current(events, node, KValidated).None? && Current(events, node, KDeviation).None?
    case ResultValidated(path, valid, problems, status) =>
      && outcome.None? && PathOf(events, node) == Some(path)
      && (if valid then status.Some? && status != Some("") else problems != [])
    case Settled(next, _, _) =>
      if outcome.None? then next == Blocked ==> Current(events, node, KBlocked).Some?
      else
        && outcome == Some(Blocked) && next == Cancelled
        && Later(Current(events, node, KCancel), Current(events, node, KSettled).value)
    case ReplySent(_, replyTo) =>
      outcome == Some(Blocked) && (replyTo.Some? ==> replyTo == NoOf(Current(events, node, KBlocked)))
    case CancelRequested => outcome.None? || outcome == Some(Blocked)
    case Resumed(Reply) => false
    case Resumed(Restart) =>
      outcome == Some(Blocked) || outcome == Some(Stalled) || LastAct(events, node, KSettled).None?
    case Resumed(FollowUp) => outcome.Some? && outcome != Some(Cancelled)
  }

  /** What may follow a trace without problems. */
  ghost predicate MayFollow(events: seq<Event>, body: Body)
    requires Created(events)
  {
    var root := events[0].body.root;
    match body
    case RunCreated(_) => false
    case GraphPlanned(_) => true
    case WaveStarted(w, members) =>
      IsPlanned(events, w, members) && w !in StartedOf(events) && (w == 1 || w - 1 in CompletedOf(events))
    case WaveCompleted(w, members) =>
      && IsPlanned(events, w, members) && w in StartedOf(events) && w !in CompletedOf(events)
      && forall m :: m in members ==> Outcome(events, m).Some?
    case Launched(node, parent, _, _, _) =>
      && LaunchOf(events, node).None?
      && (parent == root || (LaunchOf(events, parent).Some? && Outcome(events, parent).None?))
    case Awakened(node, child, status, generation) =>
      var settlements, k := SettlementsOf(events, child), |WakesOf(events, child)|;
      && ParentOf(events, child) == Some(node)
      && k < |settlements| && settlements[k].status == status
      && generation == |GenerationsTo(events, node)| + 1
    case Lifecycle(node, parent, act) =>
      && ParentOf(events, node) == Some(parent)
      && if Unanswered(events, node) then act == Resumed(Reply) else MayHappen(events, node, act)
  }

  // ---------------------------------------------------------------- clean traces

  lemma {:induction false} CurrentIsInAttempt(events: seq<Event>, node: string, kind: Kind)
    requires Numbered(events) && kind != KResumed
    ensures InAttempt(events, node, kind) == Current(events, node, kind)
  {
    if events != [] {
      FrontLast(events);
      CurrentIsInAttempt(Front(events), node, kind);
      CurrentSnoc(Front(events), Last(events), node, kind);
    }
  }

  lemma {:induction false} NoRulesMeansCounts(h: seq<Event>, reply: Option<int>, root: string, body: Body)
    requires RulesAgainst(h, reply, root, body) == []
    ensures Counts(h, reply, body)
  {
    hide InAttempt, PlanOf, StartedOf, CompletedOf, OpenMembers, OwnRules, ActCounts, LatestGeneration;
  }

  lemma {:induction false} CleanIsHeeded(events: seq<Event>)
    requires Created(events) && ReportOf(events) == []
    ensures Heeded(events) == events
  {
    if |events| > 1 {
      var before, e := Front(events), Last(events);
      CleanIsHeeded(before);
      NoRulesMeansCounts(Heeded(before), ReplyFor(before, e.body), events[0].body.root, e.body);
      FrontLast(events);
      hide RulesAgainst, Counts, OpenReply;
    }
  }

  /** What the rules look at, on a clean trace: the scans of the whole history. */
  ghost predicate SeesHistory(sight: Sight, events: seq<Event>, node: string) {
    && sight.launch == LaunchOf(events, node)
    && sight.settled == Current(events, node, KSettled)
    && sight.blocked == Current(events, node, KBlocked)
    && sight.written == Current(events, node, KWritten)
    && sight.validated == Current(events, node, KValidated)
    && sight.deviation == Current(events, node, KDeviation)
    && sight.cancel == Current(events, node, KCancel)
    && sight.settlements == SettlementsOf(events, node)
    && sight.answered == |WakesOf(events, node)|
    && (sight.reply.Some? <==> Unanswered(events, node))
  }

  lemma {:induction false} ScansOnNumbered(events: seq<Event>, reply: Option<int>, node: string)
    requires Numbered(events)
    requires AnsweredBy(events, node) == |WakesOf(events, node)| && (reply.Some? <==> Unanswered(events, node))
    ensures SeesHistory(SightOf(events, reply, node), events, node)
  {
    CurrentIsInAttempt(events, node, KSettled);
    CurrentIsInAttempt(events, node, KBlocked);
    CurrentIsInAttempt(events, node, KWritten);
    CurrentIsInAttempt(events, node, KValidated);
    CurrentIsInAttempt(events, node, KDeviation);
    CurrentIsInAttempt(events, node, KCancel);
    hide Current, InAttempt, SettlementsOf, AnsweredBy, WakesOf, LaunchOf, Unanswered, Numbered;
  }

  /** The checker's record of a node, and what the record says of its wakes and replies. */
  lemma {:induction false} WakesAndReply(events: seq<Event>, node: string)
    requires CleanSoFar(events)
    ensures Heeded(events) == events
    ensures AnsweredBy(events, node) == |WakesOf(events, node)|
    ensures OpenReply(events, node).Some? <==> Unanswered(events, node)
  {
    CheckerLooksBack(events);
    CleanIsHeeded(events);
    WakesLinkedThroughout(events, node);
    PendingMeansUnanswered(events, node);
    RecordSays(events, node);
    hide *;
  }

  lemma {:induction false} RecordSays(events: seq<Event>, node: string)
    requires Created(events) && Mirrors(Run(events), events) && Heeded(events) == events
    requires WakesLinked(SettlementsOf(events, node), WakesOf(events, node), |events|, Run(events), node)
    ensures AnsweredBy(events, node) == |WakesOf(events, node)|
    ensures OpenReply(events, node).Some? <==> Awaits(Run(events), node)
  {
    assert RecallsNode(Run(events), SightIn(events, node), node);
    hide Heeded, OpenReply, Run, ReportOf, InAttempt, Current, SettlementsOf, AnsweredBy, WakesOf, LaunchOf;
  }

  lemma {:induction false} CleanSight(events: seq<Event>, node: string)
    requires CleanSoFar(events)
    ensures SeesHistory(SightOf(events, OpenReply(events, node), node), events, node)
    ensures Heeded(events) == events
  {
    WakesAndReply(events, node);
    hide Heeded, OpenReply;
    ScansOnNumbered(events, OpenReply(events, node), node);
  }

  lemma {:induction false} StatusIsOutcome(sight: Sight, events: seq<Event>, node: string)
    requires SeesHistory(sight, events, node)
    ensures sight.Status() == Outcome(events, node)
    ensures sight.Path() == PathOf(events, node)
    ensures forall parent :: sight.IsChildOf(parent) <==> ParentOf(events, node) == Some(parent)
    ensures Outcome(events, node).Some? <==> Current(events, node, KSettled).Some?
  {
    hide Current, SettlementsOf, WakesOf, Unanswered;
  }

  // ---------------------------------------------------------------- what holds of every clean trace

  lemma {:induction false} OutcomeNext(events: seq<Event>, e: Event, node: string)
    requires Numbered(events + [e])
    ensures Outcome(events + [e], node)
         == if IsAct(e.body, node, KSettled) then Some(e.body.act.outcome)
            else if IsAct(e.body, node, KResumed) then None else Outcome(events, node)
  {
    CurrentSnoc(events, e, node, KSettled);
    hide Current;
  }

  lemma {:induction false} UnansweredNext(events: seq<Event>, e: Event, node: string)
    ensures Unanswered(events + [e], node)
       <==> if e.body.Lifecycle? && e.body.node == node then e.body.act.ReplySent? else Unanswered(events, node)
  {
    assert Front(events + [e]) == events && Last(events + [e]) == e;
  }

  /** A node that waits for its resume is blocked. */
  ghost predicate WaitsBlocked(events: seq<Event>, node: string) {
    Unanswered(events, node) ==> Outcome(events, node) == Some(Blocked)
  }

  lemma {:induction false} WaitsBlockedNext(events: seq<Event>, e: Event, node: string)
    requires Numbered(events + [e]) && WaitsBlocked(events, node)
    requires e.body.Lifecycle? && e.body.node == node && e.body.act.ReplySent? ==>
               Outcome(events, node) == Some(Blocked)
    ensures WaitsBlocked(events + [e], node)
  {
    OutcomeNext(events, e, node);
    UnansweredNext(events, e, node);
    hide Outcome, Unanswered;
  }

  lemma {:induction false} WaitingIsBlocked(events: seq<Event>, node: string)
    requires CleanSoFar(events)
    ensures WaitsBlocked(events, node)
  {
    if |events| == 1 {
      assert Front(events) == [] && !Unanswered([], node);
    } else {
      var before, e := Front(events), Last(events);
      CleanFront(events);
      FrontLast(events);
      if e.body.Lifecycle? && e.body.node == node { RepliesToBlocked(before, e); }
      WaitingIsBlocked(before, node);
      hide Outcome, Unanswered, WaitsBlocked;
      WaitsBlockedNext(before, e, node);
    }
  }

  /** The rules against the next event of a clean trace. */
  lemma {:induction false} CleanNextRules(events: seq<Event>, e: Event)
    requires CleanSoFar(events) && e.no == |events| + 1
    ensures Created(events + [e])
    ensures CleanSoFar(events + [e])
       <==> RulesAgainst(events, ReplyFor(events, e.body), events[0].body.root, e.body) == []
  {
    CheckerLooksBack(events);
    CheckerLooksBack(events + [e]);
    CleanIsHeeded(events);
    HeededNext(events, e);
    assert |At(e.no, RulesAgainst(events, ReplyFor(events, e.body), events[0].body.root, e.body))|
        == |RulesAgainst(events, ReplyFor(events, e.body), events[0].body.root, e.body)|;
    NumberedNext(events, e);
    hide RulesAgainst, ReplyFor, Heeded, ReportOf, Run, Numbered;
  }

  lemma {:induction false} NumberedNext(events: seq<Event>, e: Event)
    requires Numbered(events) && e.no == |events| + 1
    ensures Numbered(events + [e])
  {
  }

  lemma {:induction false} RepliesToBlocked(events: seq<Event>, e: Event)
    requires CleanSoFar(events) && CleanSoFar(events + [e]) && e.body.Lifecycle? && e.no == |events| + 1
    ensures e.body.act.ReplySent? ==> Outcome(events, e.body.node) == Some(Blocked)
  {
    var node := e.body.node;
    var sight := SightOf(events, OpenReply(events, node), node);
    CleanNextRules(events, e);
    assert ActRules(sight, e.body.parent, e.body.act) == [];
    hide *;
    CleanSight(events, node);
    StatusIsOutcome(sight, events, node);
    if e.body.act.ReplySent? { CleanReply(sight, e.body.parent, e.body.act); }
  }

  lemma {:induction false} CleanReply(sight: Sight, parent: string, act: Act)
    requires ActRules(sight, parent, act) == [] && act.ReplySent?
    ensures sight.Status() == Some(Blocked)
  {
  }

  /** The parent of a launched node is the root, or launched itself. */
  lemma {:induction false} ParentsAreKnown(events: seq<Event>, node: string)
    requires CleanSoFar(events)
    ensures var parent := ParentOf(events, node);
            parent.Some? ==> parent.value == events[0].body.root || LaunchOf(events, parent.value).Some?
  {
    if |events| == 1 {
      assert events[1..] == [];
    } else {
      var before, e := Front(events), Last(events);
      CleanFront(events);
      ParentsAreKnown(before, node);
      FrontLast(events);
      CleanNextRules(before, e);
      LaunchOfSnoc(before, e, node);
      var parent := ParentOf(events, node);
      if parent.Some? { LaunchOfSnoc(before, e, parent.value); }
      hide LaunchOf, CleanSoFar, InAttempt;
    }
  }

  ghost predicate InTurn(events: seq<Event>) {
    && (forall w :: w in StartedOf(events) <==> 1 <= w <= |StartedOf(events)|)
    && CompletedOf(events) <= StartedOf(events)
  }

  lemma {:induction false} WaveRulesMean(h: seq<Event>, body: Body)
    requires (body.WaveStarted? || body.WaveCompleted?) && WaveRules(h, body) == []
    ensures body.WaveStarted? ==> body.wave == |StartedOf(h)| + 1 && body.wave !in StartedOf(h)
    ensures body.WaveCompleted? ==> body.wave in StartedOf(h)
  {
    hide StartedOf, CompletedOf, OpenMembers, PlanOf;
  }

  lemma {:induction false} InTurnNext(events: seq<Event>, e: Event)
    requires InTurn(events)
    requires e.body.WaveStarted? || e.body.WaveCompleted? ==> WaveRules(events, e.body) == []
    ensures InTurn(events + [e])
  {
    assert Front(events + [e]) == events && Last(events + [e]) == e;
    if e.body.WaveStarted? || e.body.WaveCompleted? { WaveRulesMean(events, e.body); }
    hide WaveRules;
  }

  /** The waves started since the last plan are the first ones, and the completed ones are among them. */
  lemma {:induction false} WavesStartInTurn(events: seq<Event>)
    requires CleanSoFar(events)
    ensures InTurn(events)
  {
    if |events| == 1 {
      assert Front(events) == [] && Last(events) == events[0];
      assert StartedOf(events) == StartedOf([]) == {} && CompletedOf(events) == CompletedOf([]) == {};
    } else {
      var before, e := Front(events), Last(events);
      CleanFront(events);
      WavesStartInTurn(before);
      FrontLast(events);
      CleanNextRules(before, e);
      hide CleanSoFar, InTurn, WaveRules;
      InTurnNext(before, e);
    }
  }

  // ---------------------------------------------------------------- the rules against an event, kind by kind

  lemma {:induction false} WaveFollowsIff(events: seq<Event>, body: Body)
    requires CleanSoFar(events) && (body.WaveStarted? || body.WaveCompleted?)
    ensures WaveRules(events, body) == [] <==> MayFollow(events, body)
  {
    WavesStartInTurn(events);
    forall m ensures IsSettled(events, m) <==> Outcome(events, m).Some? {
      CurrentIsInAttempt(events, m, KSettled);
    }
    hide CleanSoFar, IsSettled, Outcome, StartedOf, CompletedOf, OpenMembers, PlanOf;
  }

  lemma {:induction false} LaunchFollowsIff(events: seq<Event>, body: Body)
    requires CleanSoFar(events) && body.Launched?
    ensures LaunchRules(events, events[0].body.root, body.node, body.parent) == [] <==> MayFollow(events, body)
  {
    CurrentIsInAttempt(events, body.parent, KSettled);
    hide CleanSoFar, LaunchOf, InAttempt, Current;
  }

  lemma {:induction false} GenerationIs(events: seq<Event>, node: string)
    requires CleanSoFar(events)
    ensures LatestGeneration(events, node) == |GenerationsTo(events, node)|
  {
    CheckerLooksBack(events);
    CleanIsHeeded(events);
    GenerationsLinked(events, node);
    assert Get(Run(events).generations, node) == LatestGeneration(Heeded(events), node);
  }

  lemma {:induction false} WakeFollowsIff(events: seq<Event>, body: Body)
    requires CleanSoFar(events) && body.Awakened?
    ensures WakeRules(events, events[0].body.root, body.node, body.child, body.childStatus, body.generation) == []
       <==> MayFollow(events, body)
  {
    ParentsAreKnown(events, body.child);
    GenerationIs(events, body.node);
    CleanSight(events, body.child);
    hide CleanSoFar, LaunchOf, LatestGeneration, WakesOf, GenerationsTo, SettlementsOf;
    WakeRulesIff(events, body, OpenReply(events, body.child));
  }

  lemma {:induction false} WakeRulesIff(events: seq<Event>, body: Body, reply: Option<int>)
    requires Created(events) && body.Awakened? && SeesHistory(SightOf(events, reply, body.child), events, body.child)
    requires LatestGeneration(events, body.node) == |GenerationsTo(events, body.node)|
    requires ParentOf(events, body.child) == Some(body.node) ==>
               body.node == events[0].body.root || LaunchOf(events, body.node).Some?
    ensures WakeRules(events, events[0].body.root, body.node, body.child, body.childStatus, body.generation) == []
       <==> MayFollow(events, body)
  {
    hide Current, LaunchOf, LatestGeneration, AnsweredBy, WakesOf, GenerationsTo, SettlementsOf, InAttempt, Unanswered;
    var sight := SightOf(events, None, body.child);
    assert sight.answered == |WakesOf(events, body.child)| && sight.settlements == SettlementsOf(events, body.child);
    assert sight.IsChildOf(body.node) <==> ParentOf(events, body.child) == Some(body.node);
    hide SeesHistory, SightOf;
  }

  /** Numbers start at one, so every number found counts as one. */
  lemma {:induction false} FoundIsTruthy(events: seq<Event>, node: string, kind: Kind)
    requires Numbered(events)
    ensures TruthyNumber(NoOf(Current(events, node, kind))) <==> Current(events, node, kind).Some?
  {
    LastActNumber(events, node, kind);
  }

  lemma {:induction false} NeverSettled(events: seq<Event>, node: string)
    ensures SettlementsOf(events, node) == [] <==> LastAct(events, node, KSettled).None?
  {
    if events != [] { NeverSettled(Front(events), node); }
  }

  /** All that the rules need to know about a node of a clean trace. */
  ghost predicate Knows(sight: Sight, events: seq<Event>, node: string) {
    && SeesHistory(sight, events, node)
    && sight.Status() == Outcome(events, node) && sight.Path() == PathOf(events, node)
    && (Outcome(events, node).Some? <==> sight.settled.Some?)
    && (TruthyNumber(NoOf(sight.blocked)) <==> sight.blocked.Some?)
    && (TruthyNumber(NoOf(sight.deviation)) <==> sight.deviation.Some?)
    && (sight.settlements == [] <==> LastAct(events, node, KSettled).None?)
    && (sight.settlements == [] ==> Outcome(events, node).None?)
  }

  lemma {:induction false} HistoryIsKnown(events: seq<Event>, node: string)
    requires CleanSoFar(events)
    ensures Knows(SightOf(events, OpenReply(events, node), node), events, node)
  {
    var sight := SightOf(events, OpenReply(events, node), node);
    CleanSight(events, node);
    StatusIsOutcome(sight, events, node);
    FoundIsTruthy(events, node, KBlocked);
    FoundIsTruthy(events, node, KDeviation);
    NeverSettled(events, node);
    assert LastAct(events, node, KSettled).None? ==> Outcome(events, node).None?;
    hide LastAct, Current, Outcome, SettlementsOf, WakesOf, Unanswered, SightOf, PathOf, CleanSoFar;
  }

  lemma {:induction false} OwnFollows(sight: Sight, events: seq<Event>, node: string, act: Act)
    requires Knows(sight, events, node) && !sight.reply.Some?
    ensures ActCounts(sight, act) && OwnRules(sight, act) == [] <==> MayHappen(events, node, act)
  {
    hide LastAct, Current, Outcome, SettlementsOf, WakesOf, Unanswered, PathOf;
    match act
    case ReplySent(_, _) =>
    case Resumed(_) =>
    case CancelRequested =>
    case Settled(_, _, _) =>
    case Deviation(_) =>
    case ResultValidated(_, _, _, _) =>
    case _ =>
  }

  lemma {:induction false} NoActRules(sight: Sight, parent: string, act: Act)
    requires sight.launch.Some? ==> sight.launch.value.body.Launched?
    ensures ActRules(sight, parent, act) == []
       <==> && sight.IsChildOf(parent) && (sight.reply.Some? ==> act == Resumed(Reply))
            && ActCounts(sight, act) && OwnRules(sight, act) == []
  {
    hide ActCounts, OwnRules;
  }

  lemma {:induction false} ReplyIsResumed(sight: Sight)
    requires sight.reply.Some? && sight.Status() == Some(Blocked)
    ensures ActCounts(sight, Resumed(Reply)) && OwnRules(sight, Resumed(Reply)) == []
  {
  }

  lemma {:induction false} ActFollowsIff(events: seq<Event>, body: Body)
    requires CleanSoFar(events) && body.Lifecycle?
    ensures ActRules(SightOf(events, OpenReply(events, body.node), body.node), body.parent, body.act) == []
       <==> MayFollow(events, body)
  {
    var node := body.node;
    var sight := SightOf(events, OpenReply(events, node), node);
    HistoryIsKnown(events, node);
    WaitingIsBlocked(events, node);
    hide SightOf, MayHappen, Outcome, PathOf, LaunchOf, CleanSoFar, Unanswered, ActRules, ActCounts, OwnRules;
    NoActRules(sight, body.parent, body.act);
    assert sight.IsChildOf(body.parent) <==> ParentOf(events, node) == Some(body.parent) by {
      StatusIsOutcome(sight, events, node);
    }
    if sight.reply.None? {
      OwnFollows(sight, events, node, body.act);
    } else {
      ReplyIsResumed(sight);
    }
    hide LastAct, Current, SettlementsOf, WakesOf, ParentOf;
  }

  /** The next event keeps a clean trace clean exactly when it may follow. */
  lemma {:induction false} NextIsCleanIff(events: seq<Event>, e: Event)
    requires CleanSoFar(events) && e.no == |events| + 1
    ensures CleanSoFar(events + [e]) <==> MayFollow(events, e.body)
  {
    CleanNextRules(events, e);
    hide CleanSoFar, MayFollow, WaveRules, LaunchRules, WakeRules, ActRules, SightOf, OpenReply;
    match e.body
    case RunCreated(_) => NothingFollows(events, e.body);
    case GraphPlanned(_) => NothingFollows(events, e.body);
    case WaveStarted(_, _) => WaveFollowsIff(events, e.body);
    case WaveCompleted(_, _) => WaveFollowsIff(events, e.body);
    case Launched(_, _, _, _, _) => LaunchFollowsIff(events, e.body);
    case Awakened(_, _, _, _) => WakeFollowsIff(events, e.body);
    case Lifecycle(_, _, _) => ActFollowsIff(events, e.body);
  }

  lemma {:induction false} NothingFollows(events: seq<Event>, body: Body)
    requires Created(events)
    ensures body.RunCreated? ==> !MayFollow(events, body)
    ensures body.GraphPlanned? ==> MayFollow(events, body)
  {
  }

  // ---------------------------------------------------------------- whole traces

  /** Every event behind the first may follow what stands before it. */
  ghost predicate AllMayFollow(events: seq<Event>)
    requires Created(events)
  {
    forall i | 1 <= i < |events| :: MayFollow(events[..i], events[i].body)
  }

  lemma {:induction false} CleanIff(events: seq<Event>)
    requires Created(events) && Numbered(events)
    ensures CleanSoFar(events) <==> AllMayFollow(events)
  {
    if |events| > 1 {
      var before, e := Front(events), Last(events);
      assert Numbered(before) && Created(before);
      CleanIff(before);
      FrontLast(events);
      FollowsNext(before, e);
      if CleanSoFar(before) {
        NextIsCleanIff(before, e);
      } else if CleanSoFar(events) {
        CleanFront(events);
      }
      hide CleanSoFar, AllMayFollow, MayFollow;
    } else {
      assert Run(events).problems == [];
    }
  }

  lemma {:induction false} FollowsNext(events: seq<Event>, e: Event)
    requires Created(events)
    ensures AllMayFollow(events + [e]) <==> AllMayFollow(events) && MayFollow(events, e.body)
  {
    var all := events + [e];
    forall i | 1 <= i < |events| ensures all[..i] == events[..i] && all[i] == events[i] {}
    assert all[..|events|] == events && all[|events|] == e;
    hide MayFollow;
  }

  /**
   The checker accepts a trace exactly when it is numbered from one, of one run and in order of time, begins
   with the creation of its run, every other event may follow those before it, and no reply is the last act
   of its node.
   */
  lemma {:induction false} AcceptedIff(events: seq<Event>)
    ensures Accepted(events)
       <==> && Created(events) && Numbered(events) && OneRunInOrder(events)
            && AllMayFollow(events) && !AwaitsResume(events)
  {
    AcceptedParts(events);
    if Created(events) && Numbered(events) { CleanIff(events); }
    if CleanSoFar(events) { EveryReplyAnswered(events); }
    hide Accepted, AllMayFollow, AwaitsResume, AllAnswered, Numbered, OneRunInOrder, Run;
  }

  // ---------------------------------------------------------------- the envelope report

  /** What is wrong with the envelope of the i-th event: its number, its run, or its time. */
  ghost predicate IsEnvelopeFault(events: seq<Event>, i: nat, rule: Rule)
    requires i < |events|
  {
    || (rule == SEQ && events[i].no != i + 1)
    || (rule == RUN && events[i].run != events[0].run)
    || (rule == TIME && exists j :: 0 <= j < i && events[j].at > events[i].at)
  }

  lemma {:induction false} EnvelopeRulesAre(events: seq<Event>, e: Event, rule: Rule)
    ensures rule in EnvelopeRules(events, e) <==> IsEnvelopeFault(events + [e], |events|, rule)
  {
    var all := events + [e];
    assert all[|events|] == e;
    forall j | 0 <= j < |events| ensures all[j] == events[j] {}
    if events != [] {
      LatestBounds(events);
      if e.at < LatestTime(events) {
        var j :| 0 <= j < |events| && events[j].at == LatestTime(events);
        assert all[j].at > all[|events|].at;
      }
      assert all[0] == events[0];
    }
    hide LatestTime;
  }

  /** The first pass reports every fault of an envelope under the number of its event, and nothing else. */
  lemma {:induction false} EnvelopeReportIs(events: seq<Event>, p: Problem)
    ensures p in EnvelopeProblems(events)
       <==> exists i: nat :: i < |events| && events[i].no == p.no && IsEnvelopeFault(events, i, p.rule)
  {
    if events != [] {
      var before, e := Front(events), Last(events);
      EnvelopeReportIs(before, p);
      FrontLast(events);
      EnvelopeRulesAre(before, e, p.rule);
      assert p in At(e.no, EnvelopeRules(before, e)) <==> p.no == e.no && p.rule in EnvelopeRules(before, e) by {
        RuleAt(e.no, EnvelopeRules(before, e), p);
      }
      forall i: nat | i < |before| ensures IsEnvelopeFault(events, i, p.rule) <==> IsEnvelopeFault(before, i, p.rule) {
        assert forall j :: 0 <= j < |before| ==> events[j] == before[j];
      }
      hide EnvelopeRules, At, IsEnvelopeFault;
      assert events[|before|] == e;
    }
  }

  lemma {:induction false} RuleAt(no: int, rules: seq<Rule>, p: Problem)
    ensures p in At(no, rules) <==> p.no == no && p.rule in rules
  {
    if p.no == no && p.rule in rules {
      var i :| 0 <= i < |rules| && rules[i] == p.rule;
      assert At(no, rules)[i] == p;
    }
  }
}
