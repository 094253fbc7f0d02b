/**
 The rules of a legal trace, stated over its history. The checker keeps records and sets that it updates
 event by event; here every rule looks back at the events that took effect. Both report the same
 problems on every trace.
 */
module TraceRules {
  import opened Options
  import opened TraceEvents
  import opened TraceChecker
  import opened TraceHistory
  import opened TraceLaws
  import opened TraceWriter

  // ---------------------------------------------------------------- scans

  /** The last act of a kind about a node, unless the node was resumed behind it. */
  function InAttempt(h: seq<Event>, node: string, kind: Kind): (found: Option<Event>)
    ensures found.Some? ==> IsAct(found.value.body, node, kind)
  {
    if h == [] then None
    else if IsAct(Last(h).body, node, kind) then Some(Last(h))
    else if IsAct(Last(h).body, node, KResumed) then None
    else InAttempt(Front(h), node, kind)
  }

  function PlanOf(h: seq<Event>): Option<seq<seq<string>>> {
    if h == [] then None
    else if Last(h).body.GraphPlanned? then Some(Last(h).body.waves)
    else PlanOf(Front(h))
  }

  /** The waves started, and those completed, since the last plan. */
  function StartedOf(h: seq<Event>): set<int> {
    if h == [] || Last(h).body.GraphPlanned? then {}
    else if Last(h).body.WaveStarted? then StartedOf(Front(h)) + {Last(h).body.wave}
    else StartedOf(Front(h))
  }

  function CompletedOf(h: seq<Event>): set<int> {
    if h == [] || Last(h).body.GraphPlanned? then {}
    else if Last(h).body.WaveCompleted? then CompletedOf(Front(h)) + {Last(h).body.wave}
    else CompletedOf(Front(h))
  }

  /** How many settlements of the child have been answered by a wake. */
  function AnsweredBy(h: seq<Event>, child: string): nat {
    if h == [] then 0 else
    var before, b := AnsweredBy(Front(h), child), Last(h).body;
    if b.Awakened? && b.child == child && before < |SettlementsOf(Front(h), child)| then before + 1 else before
  }

  /** The nodes launched, in order. */
  function LaunchedIn(h: seq<Event>): seq<string> {
    if h == [] then []
    else if Last(h).body.Launched? then LaunchedIn(Front(h)) + [Last(h).body.node]
    else LaunchedIn(Front(h))
  }

  /** What the scans find about one node; `reply` is the number of a reply that no resume has followed yet. */
  datatype Sight = Sight(launch: Option<Event>, settled: Option<Event>, blocked: Option<Event>,
                         written: Option<Event>, deviation: Option<Event>, validated: Option<Event>,
                         cancel: Option<Event>, settlements: seq<Settlement>, answered: nat, reply: Option<int>)
  {
    ghost predicate Valid(node: string) {
      && (launch.Some? ==> IsLaunch(launch.value.body, node))
      && (settled.Some? ==> IsAct(settled.value.body, node, KSettled))
      && (written.Some? ==> IsAct(written.value.body, node, KWritten))
    }

    /** The status of the settlement in force. */
    function Status(): Option<Status> {
      if settled.Some? && settled.value.body.Lifecycle? && settled.value.body.act.Settled?
      then Some(settled.value.body.act.outcome) else None
    }

    function Path(): Option<string> {
      if written.Some? && written.value.body.Lifecycle? && written.value.body.act.ResultWritten?
      then Some(written.value.body.act.path) else None
    }

    predicate IsChildOf(parent: string) {
      launch.Some? && launch.value.body.Launched? && launch.value.body.parent == parent
    }
  }

  function SightOf(h: seq<Event>, reply: Option<int>, node: string): (sight: Sight)
    ensures sight.Valid(node)
  {
    Sight(LaunchOf(h, node), InAttempt(h, node, KSettled), InAttempt(h, node, KBlocked),
          InAttempt(h, node, KWritten), InAttempt(h, node, KDeviation), InAttempt(h, node, KValidated),
          InAttempt(h, node, KCancel), SettlementsOf(h, node), AnsweredBy(h, node), reply)
  }

  // ---------------------------------------------------------------- which events take effect

  /** A cancelled settlement that may follow a blocked one, since a cancel request came between. */
  predicate ClosesBlocked(sight: Sight, outcome: Status) {
    && outcome == Cancelled && sight.Status() == Some(Blocked)
    && sight.cancel.Some? && sight.cancel.value.no > sight.settled.value.no
  }

  predicate ActCounts(sight: Sight, act: Act) {
    var status := sight.Status();
    if act.ReplySent? then true
    else if act.Resumed? then
      match act.reason
      case Reply => (status == Some(Blocked) || status == Some(Stalled)) && sight.reply.Some?
      case Restart =>
        status == Some(Blocked) || status == Some(Stalled) || (status.None? && sight.settlements == [])
      case FollowUp => status.Some? && status != Some(Cancelled)
    else if act.CancelRequested? then status.None? || status == Some(Blocked)
    else if act.Settled? then status.None? || ClosesBlocked(sight, act.outcome)
    else status.None?
  }

  predicate Counts(h: seq<Event>, reply: Option<int>, body: Body) {
    match body
    case RunCreated(_) => false
    case GraphPlanned(_) => true
    case WaveStarted(_, _) => PlanOf(h).Some?
    case WaveCompleted(_, _) => PlanOf(h).Some?
    case Launched(node, _, _, _, _) => LaunchOf(h, node).None?
    case Awakened(_, child, _, _) => LaunchOf(h, child).Some?
    case Lifecycle(node, _, act) => LaunchOf(h, node).Some? && ActCounts(SightOf(h, reply, node), act)
  }

  /** The open reply about a node after one more event. */
  function NextReply(sight: Sight, e: Event, node: string): Option<int> {
    if !(e.body.Lifecycle? && e.body.node == node) || sight.launch.None? then sight.reply
    else if e.body.act.ReplySent? then (if e.no != 0 then Some(e.no) else None)
    else if e.body.act == Resumed(Reply) && !ActCounts(sight, e.body.act) then sight.reply
    else None
  }

  /** The events that took effect. */
  function Heeded(events: seq<Event>): seq<Event>
    decreases |events|, 1
  {
    if |events| <= 1 then events else
    var before, e := Heeded(Front(events)), Last(events);
    if Counts(before, ReplyFor(Front(events), e.body), e.body) then before + [e] else before
  }

  function OpenReply(events: seq<Event>, node: string): Option<int>
    decreases |events|, 1
  {
    if |events| <= 1 then None else
    NextReply(SightOf(Heeded(Front(events)), OpenReply(Front(events), node), node), Last(events), node)
  }

  function ReplyFor(events: seq<Event>, body: Body): Option<int>
    decreases |events|, 2
  {
    if body.Lifecycle? then OpenReply(events, body.node) else None
  }

  // ---------------------------------------------------------------- what is reported about an event

  predicate IsPlanned(h: seq<Event>, wave: int, members: seq<string>) {
    var plan := PlanOf(h);
    plan.Some? && 1 <= wave <= |plan.value| && members == plan.value[wave - 1]
  }

  predicate IsSettled(h: seq<Event>, node: string) {
    InAttempt(h, node, KSettled).Some?
  }

  function OpenMembers(h: seq<Event>, members: seq<string>): (open: seq<Rule>)
    ensures open == [] <==> forall m :: m in members ==> IsSettled(h, m)
  {
    if members == [] then [] else
    When(!IsSettled(h, members[0]), WAVE) + OpenMembers(h, members[1..])
  }

  function WaveRules(h: seq<Event>, body: Body): seq<Rule>
    requires body.WaveStarted? || body.WaveCompleted?
  {
    if PlanOf(h).None? then [WAVE]
    else if body.WaveStarted? then
      When(!IsPlanned(h, body.wave, body.members), WAVE)
      + When(body.wave != |StartedOf(h)| + 1, WAVE)
      + When(body.wave in StartedOf(h), WAVE)
      + When(body.wave > 1 && body.wave - 1 !in CompletedOf(h), WAVE)
    else
      When(!IsPlanned(h, body.wave, body.members), WAVE)
      + When(body.wave !in StartedOf(h), WAVE)
      + When(body.wave in CompletedOf(h), WAVE)
      + OpenMembers(h, body.members)
  }

  function LaunchRules(h: seq<Event>, root: string, node: string, parent: string): seq<Rule> {
    if LaunchOf(h, node).Some? then [ORDER]
    else When(parent != root && (LaunchOf(h, parent).None? || IsSettled(h, parent)), PARENT_LINK)
  }

  function WakeRules(h: seq<Event>, root: string, node: string, child: string, status: Status,
                     generation: int): seq<Rule>
  {
    var sight := SightOf(h, None, child);
    var stranger := When(node != root && LaunchOf(h, node).None?, PARENT_LINK);
    if sight.launch.None? then stranger + [WAKE] else
    stranger
    + When(sight.answered >= |sight.settlements|, WAKE)
    + When(!sight.IsChildOf(node), WAKE)
    + When(sight.answered < |sight.settlements| && sight.settlements[sight.answered].status != status, WAKE)
    + When(generation != LatestGeneration(h, node) + 1, WAKE)
  }

  /** What an act breaks by itself, if it takes effect. */
  function OwnRules(sight: Sight, act: Act): seq<Rule> {
    match act
    case ReplySent(_, replyTo) =>
      When(sight.Status() != Some(Blocked), REPLY)
      + When(replyTo.Some? && replyTo != NoOf(sight.blocked), REPLY)
    case Deviation(_) =>
      When(!TruthyText(sight.Path()) || sight.validated.Some? || TruthyNumber(NoOf(sight.deviation)), RESULT_ORDER)
    case ResultValidated(path, valid, problems, status) =>
      When(sight.Path() != Some(path), RESULT_ORDER)
      + When(valid && !TruthyText(status), RESULT_ORDER)
      + When(!valid && problems == [], RESULT_ORDER)
    case Settled(outcome, _, _) =>
      When(outcome == Blocked && !TruthyNumber(NoOf(sight.blocked)), Rule.BLOCKED)
    case _ => []
  }

  function ActRules(sight: Sight, parent: string, act: Act): seq<Rule> {
    if sight.launch.None? then [ORDER] else
    When(!sight.IsChildOf(parent), PARENT_LINK)
    + When(sight.reply.Some? && act != Resumed(Reply), REPLY)
    + (if ActCounts(sight, act) then OwnRules(sight, act)
       else if act.Resumed? then [RESUME] else [ORDER])
  }

  /** The rules that an event breaks where it stands, in the order of the report. */
  function RulesAgainst(h: seq<Event>, reply: Option<int>, root: string, body: Body): seq<Rule> {
    match body
    case RunCreated(_) => [FIRST]
    case GraphPlanned(_) => []
    case WaveStarted(_, _) => WaveRules(h, body)
    case WaveCompleted(_, _) => WaveRules(h, body)
    case Launched(node, parent, _, _, _) => LaunchRules(h, root, node, parent)
    case Awakened(node, child, status, generation) => WakeRules(h, root, node, child, status, generation)
    case Lifecycle(node, parent, act) => ActRules(SightOf(h, reply, node), parent, act)
  }

  /** All problems with the events behind the first. */
  function ReportOf(events: seq<Event>): seq<Problem>
    requires Created(events)
  {
    if |events| == 1 then [] else
    var before, e := Front(events), Last(events);
    ReportOf(before) + At(e.no, RulesAgainst(Heeded(before), ReplyFor(before, e.body), events[0].body.root, e.body))
  }

  // ---------------------------------------------------------------- the checker's records are what the scans find

  /** The record of a launched node. */
  predicate Recalls(s: NodeState, sight: Sight) {
    && sight.IsChildOf(s.parent)
    && s.blockedNo == NoOf(sight.blocked)
    && s.written == sight.Path()
    && (s.validated <==> sight.validated.Some?)
    && s.deviationNo == NoOf(sight.deviation)
    && SameSettlement(sight.settled, s.settled)
    && s.settlements == sight.settlements
    && s.wakeCount == sight.answered
    && sight.reply == (if TruthyNumber(s.pendingReply) then s.pendingReply else None)
    && s.cancelNo == NoOf(sight.cancel)
  }

  /** The sight of a node that was never launched. */
  predicate IsUnseen(sight: Sight) {
    sight == Sight(None, None, None, None, None, None, None, [], 0, None)
  }

  ghost predicate RecallsNode(st: State, sight: Sight, node: string) {
    if node in st.nodes then Recalls(st.nodes[node], sight) else IsUnseen(sight)
  }

  /** What an event does to the sight of a node if it takes effect. */
  function NextSight(sight: Sight, e: Event, node: string): Sight {
    Sight(if sight.launch.None? && IsLaunch(e.body, node) then Some(e) else sight.launch,
          Renew(sight.settled, e, node, KSettled), Renew(sight.blocked, e, node, KBlocked),
          Renew(sight.written, e, node, KWritten), Renew(sight.deviation, e, node, KDeviation),
          Renew(sight.validated, e, node, KValidated), Renew(sight.cancel, e, node, KCancel),
          if IsAct(e.body, node, KSettled) then sight.settlements + [Settlement(e.body.act.outcome, e.no)]
          else sight.settlements,
          if e.body.Awakened? && e.body.child == node && sight.answered < |sight.settlements|
          then sight.answered + 1 else sight.answered,
          NextReply(sight, e, node))
  }

  lemma {:induction false} SightSnoc(h: seq<Event>, reply: Option<int>, e: Event, node: string)
    ensures SightOf(h + [e], NextReply(SightOf(h, reply, node), e, node), node)
         == NextSight(SightOf(h, reply, node), e, node)
  {
    assert Front(h + [e]) == h && Last(h + [e]) == e;
    LaunchOfSnoc(h, e, node);
    hide LaunchOf, NextReply;
  }

  /** The sight of a node after an act about it. */
  function SightAfter(sight: Sight, e: Event, node: string): Sight {
    if !e.body.Lifecycle? then sight
    else if ActCounts(sight, e.body.act) then NextSight(sight, e, node)
    else sight.(reply := NextReply(sight, e, node))
  }

  lemma {:induction false} SettledIs(s: NodeState, sight: Sight)
    requires Recalls(s, sight)
    ensures s.settled.Some? <==> sight.Status().Some?
    ensures s.settled.Some? ==> s.settled.value.status == sight.Status().value
    ensures s.settled.Some? ==> s.settled.value.no == sight.settled.value.no
  {
  }

  lemma {:induction false} ReplyIsReported(s: NodeState, sight: Sight, no: int, parent: string, act: Act)
    requires Recalls(s, sight) && (act.ReplySent?)
    ensures StepAct(s, no, parent, act).rules == ActRules(sight, parent, act)
  {
    SettledIs(s, sight);
    var before := When(!sight.IsChildOf(parent), PARENT_LINK) + When(sight.reply.Some? && act != Resumed(Reply), REPLY);
    assert before + [] == before;
  }

  lemma {:induction false} ResumeIsReported(s: NodeState, sight: Sight, no: int, parent: string, act: Act)
    requires Recalls(s, sight) && (act.Resumed?)
    ensures StepAct(s, no, parent, act).rules == ActRules(sight, parent, act)
  {
    SettledIs(s, sight);
    var before := When(!sight.IsChildOf(parent), PARENT_LINK) + When(sight.reply.Some? && act != Resumed(Reply), REPLY);
    assert before + [] == before;
  }

  lemma {:induction false} CancelIsReported(s: NodeState, sight: Sight, no: int, parent: string, act: Act)
    requires Recalls(s, sight) && (act.CancelRequested?)
    ensures StepAct(s, no, parent, act).rules == ActRules(sight, parent, act)
  {
    SettledIs(s, sight);
    var before := When(!sight.IsChildOf(parent), PARENT_LINK) + When(sight.reply.Some? && act != Resumed(Reply), REPLY);
    assert before + [] == before;
  }

  lemma {:induction false} SettlementIsReported(s: NodeState, sight: Sight, no: int, parent: string, act: Act)
    requires Recalls(s, sight) && (act.Settled?)
    ensures StepAct(s, no, parent, act).rules == ActRules(sight, parent, act)
  {
    SettledIs(s, sight);
    var before := When(!sight.IsChildOf(parent), PARENT_LINK) + When(sight.reply.Some? && act != Resumed(Reply), REPLY);
    assert before + [] == before;
  }

  lemma {:induction false} ResultIsReported(s: NodeState, sight: Sight, no: int, parent: string, act: Act)
    requires Recalls(s, sight) && (act.Deviation? || act.ResultValidated?)
    ensures StepAct(s, no, parent, act).rules == ActRules(sight, parent, act)
  {
    SettledIs(s, sight);
    var before := When(!sight.IsChildOf(parent), PARENT_LINK) + When(sight.reply.Some? && act != Resumed(Reply), REPLY);
    assert before + [] == before;
  }

  lemma {:induction false} OtherActIsReported(s: NodeState, sight: Sight, no: int, parent: string, act: Act)
    requires Recalls(s, sight) && (act.Progress? || act.BlockedOn? || act.ResultWritten?)
    ensures StepAct(s, no, parent, act).rules == ActRules(sight, parent, act)
  {
    SettledIs(s, sight);
    var before := When(!sight.IsChildOf(parent), PARENT_LINK) + When(sight.reply.Some? && act != Resumed(Reply), REPLY);
    assert before + [] == before;
  }

  lemma {:induction false} NextSightIs(sight: Sight, e: Event, node: string)
    requires e.body.Lifecycle? && e.body.node == node
    ensures var next, act := NextSight(sight, e, node), e.body.act;
            && next.launch == sight.launch && next.answered == sight.answered
            && next.settled == (if act.Settled? then Some(e) else if act.Resumed? then None else sight.settled)
            && next.blocked == (if act.BlockedOn? then Some(e) else if act.Resumed? then None else sight.blocked)
            && next.written == (if act.ResultWritten? then Some(e) else if act.Resumed? then None else sight.written)
            && next.deviation == (if act.Deviation? then Some(e) else if act.Resumed? then None else sight.deviation)
            && next.validated
               == (if act.ResultValidated? then Some(e) else if act.Resumed? then None else sight.validated)
            && next.cancel == (if act.CancelRequested? then Some(e) else if act.Resumed? then None else sight.cancel)
            && next.settlements == (if act.Settled? then sight.settlements + [Settlement(act.outcome, e.no)]
                                    else sight.settlements)
    ensures var reply, act := NextReply(sight, e, node), e.body.act;
            && NextSight(sight, e, node).reply == reply
            && (sight.launch.Some? ==>
                  reply == if act.ReplySent? then (if e.no != 0 then Some(e.no) else None)
                           else if act == Resumed(Reply) && !ActCounts(sight, act) then sight.reply else None)
  {
  }

  lemma {:induction false} ReplyIsRecorded(s: NodeState, sight: Sight, e: Event, node: string)
    requires sight.Valid(node) && Recalls(s, sight) && e.body.Lifecycle? && e.body.node == node
    requires e.body.act.ReplySent?
    ensures Recalls(StepAct(s, e.no, e.body.parent, e.body.act).state, SightAfter(sight, e, node))
  {
    SettledIs(s, sight);
    NextSightIs(sight, e, node);
    hide NextSight, Renew, IsAct, KindOf, When, IsLaunch, NextReply;
  }

  lemma {:induction false} ResumeIsRecorded(s: NodeState, sight: Sight, e: Event, node: string)
    requires sight.Valid(node) && Recalls(s, sight) && e.body.Lifecycle? && e.body.node == node
    requires e.body.act.Resumed?
    ensures Recalls(StepAct(s, e.no, e.body.parent, e.body.act).state, SightAfter(sight, e, node))
  {
    SettledIs(s, sight);
    NextSightIs(sight, e, node);
    hide NextSight, Renew, IsAct, KindOf, When, IsLaunch, NextReply;
  }

  lemma {:induction false} CancelIsRecorded(s: NodeState, sight: Sight, e: Event, node: string)
    requires sight.Valid(node) && Recalls(s, sight) && e.body.Lifecycle? && e.body.node == node
    requires e.body.act.CancelRequested?
    ensures Recalls(StepAct(s, e.no, e.body.parent, e.body.act).state, SightAfter(sight, e, node))
  {
    SettledIs(s, sight);
    NextSightIs(sight, e, node);
    hide NextSight, Renew, IsAct, KindOf, When, IsLaunch, NextReply;
  }

  lemma {:induction false} SettlementIsRecorded(s: NodeState, sight: Sight, e: Event, node: string)
    requires sight.Valid(node) && Recalls(s, sight) && e.body.Lifecycle? && e.body.node == node
    requires e.body.act.Settled?
    ensures Recalls(StepAct(s, e.no, e.body.parent, e.body.act).state, SightAfter(sight, e, node))
  {
    SettledIs(s, sight);
    NextSightIs(sight, e, node);
    hide NextSight, Renew, IsAct, KindOf, When, IsLaunch, NextReply;
  }

  lemma {:induction false} ResultIsRecorded(s: NodeState, sight: Sight, e: Event, node: string)
    requires sight.Valid(node) && Recalls(s, sight) && e.body.Lifecycle? && e.body.node == node
    requires e.body.act.Deviation? || e.body.act.ResultValidated?
    ensures Recalls(StepAct(s, e.no, e.body.parent, e.body.act).state, SightAfter(sight, e, node))
  {
    SettledIs(s, sight);
    NextSightIs(sight, e, node);
    hide NextSight, Renew, IsAct, KindOf, When, IsLaunch, NextReply;
  }

  lemma {:induction false} OtherActIsRecorded(s: NodeState, sight: Sight, e: Event, node: string)
    requires sight.Valid(node) && Recalls(s, sight) && e.body.Lifecycle? && e.body.node == node
    requires e.body.act.Progress? || e.body.act.BlockedOn? || e.body.act.ResultWritten?
    ensures Recalls(StepAct(s, e.no, e.body.parent, e.body.act).state, SightAfter(sight, e, node))
  {
    SettledIs(s, sight);
    NextSightIs(sight, e, node);
    hide NextSight, Renew, IsAct, KindOf, When, IsLaunch, NextReply;
  }

  lemma {:induction false} ActIsReported(s: NodeState, sight: Sight, no: int, parent: string, act: Act)
    requires Recalls(s, sight)
    ensures StepAct(s, no, parent, act).rules == ActRules(sight, parent, act)
  {
    hide *;
    match act
    case ReplySent(_, _) => ReplyIsReported(s, sight, no, parent, act);
    case Resumed(_) => ResumeIsReported(s, sight, no, parent, act);
    case CancelRequested => CancelIsReported(s, sight, no, parent, act);
    case Settled(_, _, _) => SettlementIsReported(s, sight, no, parent, act);
    case Deviation(_) => ResultIsReported(s, sight, no, parent, act);
    case ResultValidated(_, _, _, _) => ResultIsReported(s, sight, no, parent, act);
    case _ => OtherActIsReported(s, sight, no, parent, act);
  }

  lemma {:induction false} ActIsRecorded(s: NodeState, sight: Sight, e: Event, node: string)
    requires sight.Valid(node) && Recalls(s, sight) && e.body.Lifecycle? && e.body.node == node
    ensures Recalls(StepAct(s, e.no, e.body.parent, e.body.act).state, SightAfter(sight, e, node))
  {
    hide *;
    match e.body.act
    case ReplySent(_, _) => ReplyIsRecorded(s, sight, e, node);
    case Resumed(_) => ResumeIsRecorded(s, sight, e, node);
    case CancelRequested => CancelIsRecorded(s, sight, e, node);
    case Settled(_, _, _) => SettlementIsRecorded(s, sight, e, node);
    case Deviation(_) => ResultIsRecorded(s, sight, e, node);
    case ResultValidated(_, _, _, _) => ResultIsRecorded(s, sight, e, node);
    case _ => OtherActIsRecorded(s, sight, e, node);
  }

  // ---------------------------------------------------------------- the whole state

  function SightIn(events: seq<Event>, node: string): (sight: Sight)
    ensures sight.Valid(node)
  {
    SightOf(Heeded(events), OpenReply(events, node), node)
  }

  /** The checker's state is what the scans of the trace find. */
  ghost predicate Mirrors(st: State, events: seq<Event>)
    requires Created(events)
  {
    var h := Heeded(events);
    && st.root == events[0].body.root
    && st.plan == PlanOf(h) && st.started == StartedOf(h) && st.completed == CompletedOf(h)
    && st.order == LaunchedIn(h)
    && (forall node :: RecallsNode(st, SightIn(events, node), node))
    && (forall node :: Get(st.generations, node) == LatestGeneration(h, node))
    && st.problems == ReportOf(events)
  }

  lemma {:induction false} HeededNext(events: seq<Event>, e: Event)
    requires Created(events)
    ensures Heeded(events + [e])
         == if Counts(Heeded(events), ReplyFor(events, e.body), e.body) then Heeded(events) + [e] else Heeded(events)
    ensures forall node :: OpenReply(events + [e], node) == NextReply(SightIn(events, node), e, node)
    ensures Created(events + [e])
    ensures ReportOf(events + [e]) == ReportOf(events)
              + At(e.no, RulesAgainst(Heeded(events), ReplyFor(events, e.body), events[0].body.root, e.body))
  {
    assert Front(events + [e]) == events && Last(events + [e]) == e;
  }

  /** The sight of a node after one more event. */
  lemma {:induction false} SightNext(events: seq<Event>, e: Event, node: string)
    requires Created(events)
    ensures SightIn(events + [e], node)
         == if Counts(Heeded(events), ReplyFor(events, e.body), e.body) then NextSight(SightIn(events, node), e, node)
            else SightIn(events, node).(reply := NextReply(SightIn(events, node), e, node))
  {
    HeededNext(events, e);
    SightSnoc(Heeded(events), OpenReply(events, node), e, node);
    hide Heeded, OpenReply, NextReply, NextSight, Counts;
  }

  /** An event that is not about a node leaves its sight and its record alone. */
  predicate IsAbout(e: Event, node: string) {
    || (e.body.Lifecycle? && e.body.node == node)
    || IsLaunch(e.body, node)
    || (e.body.Awakened? && e.body.child == node)
  }

  lemma {:induction false} OthersAreKept(st: State, sight: Sight, e: Event, node: string)
    requires RecallsNode(st, sight, node) && !IsAbout(e, node)
    ensures NextSight(sight, e, node) == sight && NextReply(sight, e, node) == sight.reply
    ensures RecallsNode(Step(st, e), sight, node)
  {
    UnrelatedEvent(st, e, node);
    hide Step, Recalls, IsUnseen;
  }

  lemma {:induction false} LaunchIsRecorded(st: State, sight: Sight, e: Event, node: string)
    requires RecallsNode(st, sight, node) && IsLaunch(e.body, node) && sight.Valid(node)
    ensures RecallsNode(Step(st, e), if sight.launch.None? then NextSight(sight, e, node) else sight, node)
    ensures NextReply(sight, e, node) == sight.reply
  {
  }

  lemma {:induction false} WakeIsRecorded(st: State, sight: Sight, e: Event, node: string)
    requires RecallsNode(st, sight, node) && e.body.Awakened? && e.body.child == node && sight.Valid(node)
    ensures RecallsNode(Step(st, e), if sight.launch.Some? then NextSight(sight, e, node) else sight, node)
    ensures NextReply(sight, e, node) == sight.reply
  {
  }

  lemma {:induction false} LifecycleIsRecorded(st: State, sight: Sight, e: Event, node: string)
    requires RecallsNode(st, sight, node) && e.body.Lifecycle? && e.body.node == node && sight.Valid(node)
    ensures RecallsNode(Step(st, e), if sight.launch.Some? then SightAfter(sight, e, node) else sight, node)
    ensures sight.launch.None? ==> NextReply(sight, e, node) == sight.reply
  {
    if node in st.nodes { ActIsRecorded(st.nodes[node], sight, e, node); }
    hide Recalls, StepAct, SightAfter;
  }

  lemma {:induction false} NodeNext(st: State, events: seq<Event>, e: Event, node: string)
    requires Created(events) && RecallsNode(st, SightIn(events, node), node)
    ensures RecallsNode(Step(st, e), SightIn(events + [e], node), node)
  {
    var sight := SightIn(events, node);
    SightNext(events, e, node);
    hide Heeded, OpenReply, SightIn, Step, RecallsNode, NextSight, NextReply, ActCounts, InAttempt, PlanOf;
    if !IsAbout(e, node) {
      OthersAreKept(st, sight, e, node);
    } else if IsLaunch(e.body, node) {
      LaunchIsRecorded(st, sight, e, node);
      SightLaunch(events, node);
    } else if e.body.Awakened? {
      WakeIsRecorded(st, sight, e, node);
      SightLaunch(events, node);
    } else {
      LifecycleIsRecorded(st, sight, e, node);
      SightLaunch(events, node);
    }
  }

  lemma {:induction false} SightLaunch(events: seq<Event>, node: string)
    ensures SightIn(events, node).launch == LaunchOf(Heeded(events), node)
    ensures SightIn(events, node) == SightOf(Heeded(events), OpenReply(events, node), node)
  {
  }

  lemma {:induction false} WavesNext(st: State, h: seq<Event>, reply: Option<int>, e: Event)
    requires st.plan == PlanOf(h) && st.started == StartedOf(h) && st.completed == CompletedOf(h)
    ensures var next, h2 := Step(st, e), if Counts(h, reply, e.body) then h + [e] else h;
            next.plan == PlanOf(h2) && next.started == StartedOf(h2) && next.completed == CompletedOf(h2)
            && next.root == st.root
  {
    assert Front(h + [e]) == h && Last(h + [e]) == e;
    hide ActCounts, SightOf, StepAct, Unsettled, DiffersFromPlan, LaunchOf;
  }

  lemma {:induction false} OrderNext(st: State, h: seq<Event>, reply: Option<int>, sight: Sight, e: Event)
    requires st.order == LaunchedIn(h)
    requires e.body.Launched? ==> RecallsNode(st, sight, e.body.node) && sight.launch == LaunchOf(h, e.body.node)
    ensures Step(st, e).order == LaunchedIn(if Counts(h, reply, e.body) then h + [e] else h)
  {
    assert Front(h + [e]) == h && Last(h + [e]) == e;
    hide ActCounts, SightOf, StepAct, Unsettled, DiffersFromPlan, LaunchOf, PlanOf;
  }

  lemma {:induction false} GenerationsNext(st: State, h: seq<Event>, reply: Option<int>, sight: Sight, e: Event,
                                           node: string)
    requires Get(st.generations, node) == LatestGeneration(h, node)
    requires e.body.Awakened? ==> RecallsNode(st, sight, e.body.child) && sight.launch == LaunchOf(h, e.body.child)
    ensures Get(Step(st, e).generations, node)
         == LatestGeneration(if Counts(h, reply, e.body) then h + [e] else h, node)
  {
    GenerationSnoc(h, e, node);
    hide LatestGeneration, ActCounts, SightOf, StepAct, LaunchOf, PlanOf;
    if e.body.Awakened? {
      assert e.body.child in st.nodes <==> sight.launch.Some?;
      hide RecallsNode;
    } else {
      OtherGenerations(st, e);
      hide Step;
    }
  }

  lemma {:induction false} GenerationSnoc(h: seq<Event>, e: Event, node: string)
    ensures LatestGeneration(h + [e], node)
         == if e.body.Awakened? && e.body.node == node then Max(LatestGeneration(h, node), e.body.generation)
            else LatestGeneration(h, node)
  {
    assert Front(h + [e]) == h && Last(h + [e]) == e;
  }

  lemma {:induction false} OtherGenerations(st: State, e: Event)
    requires !e.body.Awakened?
    ensures Step(st, e).generations == st.generations
  {
    hide StepAct, Unsettled, DiffersFromPlan, At;
  }

  lemma {:induction false} MembersReported(st: State, events: seq<Event>, members: seq<string>)
    requires Created(events) && forall node :: RecallsNode(st, SightIn(events, node), node)
    ensures Unsettled(st, members) == OpenMembers(Heeded(events), members)
  {
    if members != [] {
      var m := members[0];
      assert RecallsNode(st, SightIn(events, m), m);
      SightLaunch(events, m);
      MembersReported(st, events, members[1..]);
    }
  }

  /** The rules that an event breaks are those reported by the checker. */
  lemma {:induction false} ProblemsNext(st: State, events: seq<Event>, e: Event)
    requires Created(events) && Mirrors(st, events)
    ensures Step(st, e).problems == st.problems
              + At(e.no, RulesAgainst(Heeded(events), ReplyFor(events, e.body), events[0].body.root, e.body))
  {
    var h := Heeded(events);
    match e.body
    case RunCreated(_) =>
    case GraphPlanned(_) => assert st.problems + At(e.no, []) == st.problems;
    case WaveStarted(_, _) => WaveReported(st, events, e.no, e.body);
    case WaveCompleted(_, _) => WaveReported(st, events, e.no, e.body);
    case Launched(_, _, _, _, _) => LaunchReported(st, events, e);
    case Awakened(_, _, _, _) => WakeReported(st, events, e);
    case Lifecycle(_, _, _) => LifecycleReported(st, events, e);
  }

  lemma {:induction false} WaveReported(st: State, events: seq<Event>, no: int, body: Body)
    requires Created(events) && Mirrors(st, events) && (body.WaveStarted? || body.WaveCompleted?)
    ensures StepWave(st, no, body).problems == st.problems + At(no, WaveRules(Heeded(events), body))
  {
    MembersReported(st, events, body.members);
    hide Heeded, Unsettled, OpenMembers, RecallsNode, PlanOf, StartedOf, CompletedOf, ReportOf, When;
    var h := Heeded(events);
    if st.plan.Some? {
      assert DiffersFromPlan(st.plan.value, body.wave, body.members)
          == When(!IsPlanned(h, body.wave, body.members), WAVE);
    }
  }

  lemma {:induction false} LaunchReported(st: State, events: seq<Event>, e: Event)
    requires Created(events) && Mirrors(st, events) && e.body.Launched?
    ensures Step(st, e).problems
         == st.problems + At(e.no, LaunchRules(Heeded(events), events[0].body.root, e.body.node, e.body.parent))
  {
    var node, parent := e.body.node, e.body.parent;
    assert RecallsNode(st, SightIn(events, node), node) && RecallsNode(st, SightIn(events, parent), parent);
    SightLaunch(events, node);
    SightLaunch(events, parent);
    hide Heeded, OpenReply, ReportOf, InAttempt, LaunchOf, When;
  }

  lemma {:induction false} WakeReported(st: State, events: seq<Event>, e: Event)
    requires Created(events) && Mirrors(st, events) && e.body.Awakened?
    ensures Step(st, e).problems
         == st.problems + At(e.no, WakeRules(Heeded(events), events[0].body.root, e.body.node, e.body.child,
                                             e.body.childStatus, e.body.generation))
  {
    var node, child := e.body.node, e.body.child;
    SightLaunch(events, node);
    SightLaunch(events, child);
    assert RecallsNode(st, SightIn(events, node), node) && RecallsNode(st, SightIn(events, child), child);
    assert Get(st.generations, node) == LatestGeneration(Heeded(events), node);
    hide Heeded, OpenReply, ReportOf, Mirrors, LatestGeneration, SightIn;
    WakeAgrees(st, Heeded(events), OpenReply(events, node), OpenReply(events, child), e);
  }

  lemma {:induction false} WakeAgrees(st: State, h: seq<Event>, mine: Option<int>, its: Option<int>, e: Event)
    requires e.body.Awakened? && Get(st.generations, e.body.node) == LatestGeneration(h, e.body.node)
    requires RecallsNode(st, SightOf(h, mine, e.body.node), e.body.node)
    requires RecallsNode(st, SightOf(h, its, e.body.child), e.body.child)
    ensures Step(st, e).problems
         == st.problems + At(e.no, WakeRules(h, st.root, e.body.node, e.body.child, e.body.childStatus,
                                             e.body.generation))
  {
    hide LatestGeneration, AnsweredBy, SettlementsOf, LaunchOf, InAttempt, When, At;
    var sight := SightOf(h, None, e.body.child);
    assert e.body.node in st.nodes <==> LaunchOf(h, e.body.node).Some?;
    assert e.body.child in st.nodes <==> sight.launch.Some?;
    if e.body.child in st.nodes {
      var c := st.nodes[e.body.child];
      assert c.wakeCount == sight.answered && c.settlements == sight.settlements && sight.IsChildOf(c.parent);
      assert sight.IsChildOf(e.body.node) <==> c.parent == e.body.node;
      hide RecallsNode, SightOf;
    }
  }

  lemma {:induction false} LifecycleReported(st: State, events: seq<Event>, e: Event)
    requires Created(events) && Mirrors(st, events) && e.body.Lifecycle?
    ensures Step(st, e).problems
         == st.problems + At(e.no, ActRules(SightIn(events, e.body.node), e.body.parent, e.body.act))
    ensures SightIn(events, e.body.node) == SightOf(Heeded(events), ReplyFor(events, e.body), e.body.node)
  {
    var node := e.body.node;
    assert RecallsNode(st, SightIn(events, node), node);
    if node in st.nodes { ActIsReported(st.nodes[node], SightIn(events, node), e.no, e.body.parent, e.body.act); }
    hide Heeded, OpenReply, ReportOf, StepAct, OwnRules, ActCounts;
  }

  lemma {:induction false} MirrorsNext(st: State, events: seq<Event>, e: Event)
    requires Created(events) && Mirrors(st, events)
    ensures Created(events + [e]) && Mirrors(Step(st, e), events + [e])
  {
    var h, reply, next, all := Heeded(events), ReplyFor(events, e.body), Step(st, e), events + [e];
    HeededNext(events, e);
    ProblemsNext(st, events, e);
    WavesNext(st, h, reply, e);
    assert all[0] == events[0];
    if e.body.Launched? {
      SightLaunch(events, e.body.node);
      assert RecallsNode(st, SightIn(events, e.body.node), e.body.node);
      OrderNext(st, h, reply, SightIn(events, e.body.node), e);
    } else {
      OrderNext(st, h, reply, SightIn(events, ""), e);
    }
    forall node ensures RecallsNode(next, SightIn(all, node), node) {
      NodeNext(st, events, e, node);
    }
    forall node ensures Get(next.generations, node) == LatestGeneration(Heeded(all), node) {
      if e.body.Awakened? {
        SightLaunch(events, e.body.child);
        assert RecallsNode(st, SightIn(events, e.body.child), e.body.child);
        GenerationsNext(st, h, reply, SightIn(events, e.body.child), e, node);
      } else {
        GenerationsNext(st, h, reply, SightIn(events, ""), e, node);
      }
    }
    hide Heeded, ReportOf, Step, RecallsNode, SightIn, LatestGeneration, Get, Counts, RulesAgainst;
  }

  /** On every trace that a run begins, the checker's state is what the scans find. */
  lemma {:induction false} CheckerLooksBack(events: seq<Event>)
    requires Created(events)
    ensures Mirrors(Run(events), events)
  {
    if |events| == 1 {
      FirstLooksBack(events);
    } else {
      CheckerLooksBack(Front(events));
      FrontLast(events);
      hide Mirrors, Step;
      MirrorsNext(Run(Front(events)), Front(events), Last(events));
    }
  }

  lemma {:induction false} FirstLooksBack(events: seq<Event>)
    requires Created(events) && |events| == 1
    ensures Mirrors(Initial(events[0].body.root), events)
  {
    assert Front(events) == [] && Last(events) == events[0] && events == [events[0]];
    forall node ensures IsUnseen(SightIn(events, node)) && LatestGeneration(Heeded(events), node) == 0 {
      NothingSeen(events[0], node);
    }
  }

  lemma {:induction false} NothingSeen(e: Event, node: string)
    requires e.body.RunCreated?
    ensures IsUnseen(SightOf([e], None, node)) && LatestGeneration([e], node) == 0
  {
    assert [e] == [] + [e] && [e][1..] == [];
    assert Front([e]) == [] && Last([e]) == e;
    forall kind ensures InAttempt([e], node, kind).None? {
      assert InAttempt([], node, kind).None?;
    }
    assert LaunchOf([e], node) == LaunchOf([], node);
    assert SettlementsOf([e], node) == SettlementsOf([], node) && AnsweredBy([e], node) == AnsweredBy([], node);
  }

  /** The replies that no resume has followed, in the order of the launches of their nodes. */
  function RepliesLeft(events: seq<Event>, nodes: seq<string>): seq<Problem> {
    if nodes == [] then [] else
    var reply := OpenReply(events, nodes[0]);
    (if reply.Some? then [Problem(REPLY, reply.value)] else []) + RepliesLeft(events, nodes[1..])
  }

  lemma {:induction false} LeftAreDangling(st: State, events: seq<Event>, order: seq<string>)
    requires Created(events) && Mirrors(st, events)
    ensures Dangling(st.nodes, order) == RepliesLeft(events, order)
  {
    if order != [] {
      LeftAreDangling(st, events, order[1..]);
      assert RecallsNode(st, SightIn(events, order[0]), order[0]);
      SightLaunch(events, order[0]);
      assert SightIn(events, order[0]).reply == OpenReply(events, order[0]);
      hide Heeded, OpenReply, ReportOf, Mirrors;
    }
  }

  /** The checker reports, for every trace, what the scans of its history say. */
  lemma {:induction false} ReportIsHistory(events: seq<Event>)
    ensures Problems(events) ==
              if events == [] then [Problem(FIRST, 0)]
              else if !events[0].body.RunCreated? then EnvelopeProblems(events) + [Problem(FIRST, events[0].no)]
              else EnvelopeProblems(events) + ReportOf(events) + RepliesLeft(events, LaunchedIn(Heeded(events)))
  {
    if Created(events) {
      CheckerLooksBack(events);
      LeftAreDangling(Run(events), events, Run(events).order);
      hide Heeded, EnvelopeProblems, ReportOf, RepliesLeft, Dangling, Run;
    }
  }
}
