/**
 The trace checker. `Problems` is the checker as a fold over the trace; `ValidateTrace`
 is the loop over mutable maps that the repository runs, proved to report the same list.
 */
module TraceChecker {
  import opened Options
  import opened TraceEvents

  datatype Rule =
    | SEQ | RUN | TIME | FIRST | ORDER | PARENT_LINK | RESULT_ORDER
    | BLOCKED | WAVE | WAKE | REPLY | RESUME

  datatype Problem = Problem(rule: Rule, no: int)

  datatype Settlement = Settlement(status: Status, no: int)

  datatype NodeState = NodeState(
    parent: string,
    blockedNo: Option<int>,
    written: Option<string>,
    validated: bool,
    deviationNo: Option<int>,
    settled: Option<Settlement>,
    settlements: seq<Settlement>,
    wakeCount: nat,
    pendingReply: Option<int>,
    cancelNo: Option<int>)

  function Fresh(parent: string): NodeState {
    NodeState(parent, None, None, false, None, None, [], 0, None, None)
  }

  /** `order` lists the nodes in the order in which the map received them. */
  datatype State = State(
    root: string,
    nodes: map<string, NodeState>,
    order: seq<string>,
    generations: map<string, int>,
    plan: Option<seq<seq<string>>>,
    started: set<int>,
    completed: set<int>,
    problems: seq<Problem>)

  function Initial(root: string): State {
    State(root, map[], [], map[], None, {}, {}, [])
  }

  function Get(m: map<string, int>, k: string): int {
    if k in m then m[k] else 0
  }

  function At(no: int, rules: seq<Rule>): (problems: seq<Problem>)
    ensures |problems| == |rules|
  {
    seq(|rules|, i requires 0 <= i < |rules| => Problem(rules[i], no))
  }

  function When(condition: bool, rule: Rule): seq<Rule> {
    if condition then [rule] else []
  }

  // ---------------------------------------------------------------- one node

  datatype Verdict = Verdict(state: NodeState, rules: seq<Rule>)

  predicate SettledAs(s: NodeState, statuses: set<Status>) {
    s.settled.Some? && s.settled.value.status in statuses
  }

  /** The one settlement that may follow another without a resume. */
  predicate CancelsBlocked(s: NodeState, act: Act) {
    && act.Settled? && act.outcome == Cancelled
    && SettledAs(s, {Blocked})
    && s.cancelNo.Some? && s.cancelNo.value > s.settled.value.no
  }

  predicate MayResume(s: NodeState, reason: ResumeReason) {
    || SettledAs(s, {Blocked, Stalled})
    || (reason == Restart && s.settlements == [] && s.settled.None?)
    || (reason == FollowUp && SettledAs(s, {Done, Failed}))
  }

  function NewAttempt(s: NodeState): NodeState {
    s.(pendingReply := None, blockedNo := None, written := None, validated := false,
       deviationNo := None, settled := None, cancelNo := None)
  }

  /** An act that belongs to a running attempt. */
  function StepAttempt(s: NodeState, no: int, act: Act): Verdict {
    if s.settled.Some? && !CancelsBlocked(s, act) then Verdict(s, [ORDER]) else
    match act
    case BlockedOn(_) => Verdict(s.(blockedNo := Some(no)), [])
    case ResultWritten(path) => Verdict(s.(written := Some(path)), [])
    case Deviation(_) =>
      Verdict(s.(deviationNo := Some(no)),
              When(!TruthyText(s.written) || s.validated || TruthyNumber(s.deviationNo), RESULT_ORDER))
    case ResultValidated(path, valid, problems, status) =>
      Verdict(s.(validated := true),
              When(s.written != Some(path), RESULT_ORDER)
              + When(valid && !TruthyText(status), RESULT_ORDER)
              + When(!valid && problems == [], RESULT_ORDER))
    case Settled(outcome, _, _) =>
      var settlement := Settlement(outcome, no);
      Verdict(s.(settled := Some(settlement), settlements := s.settlements + [settlement]),
              When(outcome == Blocked && !TruthyNumber(s.blockedNo), Rule.BLOCKED))
    case _ => Verdict(s, [])
  }

  function StepAct(s: NodeState, no: int, parent: string, act: Act): Verdict {
    var link := When(parent != s.parent, PARENT_LINK);
    var broken := TruthyNumber(s.pendingReply) && act != Resumed(Reply);
    var t := if broken then s.(pendingReply := None) else s;
    var before := link + When(broken, REPLY);
    match act
    case ReplySent(_, replyTo) =>
      Verdict(t.(pendingReply := Some(no)),
              before + When(!SettledAs(t, {Blocked}), REPLY)
              + When(replyTo.Some? && replyTo != t.blockedNo, REPLY))
    case Resumed(reason) =>
      if !MayResume(t, reason) || (reason == Reply && !TruthyNumber(t.pendingReply))
      then Verdict(t, before + [RESUME])
      else Verdict(NewAttempt(t), before)
    case CancelRequested =>
      if t.settled.Some? && t.settled.value.status != Blocked
      then Verdict(t, before + [ORDER])
      else Verdict(t.(cancelNo := Some(no)), before)
    case _ =>
      var v := StepAttempt(t, no, act);
      Verdict(v.state, before + v.rules)
  }

  // ---------------------------------------------------------------- one event

  function Report(st: State, no: int, rules: seq<Rule>): State {
    st.(problems := st.problems + At(no, rules))
  }

  predicate SettledIn(st: State, node: string) {
    node in st.nodes && st.nodes[node].settled.Some?
  }

  function Unsettled(st: State, members: seq<string>): seq<Rule> {
    if members == [] then [] else When(!SettledIn(st, members[0]), WAVE) + Unsettled(st, members[1..])
  }

  function DiffersFromPlan(plan: seq<seq<string>>, wave: int, members: seq<string>): seq<Rule> {
    When(!(0 <= wave - 1 < |plan|) || members != plan[wave - 1], WAVE)
  }

  function StepWave(st: State, no: int, body: Body): State
    requires body.WaveStarted? || body.WaveCompleted?
  {
    var w := body.wave;
    if st.plan.None? then Report(st, no, [WAVE]) else
    var differs := DiffersFromPlan(st.plan.value, w, body.members);
    if body.WaveStarted? then
      Report(st, no, differs
                     + When(w != |st.started| + 1, WAVE)
                     + When(w in st.started, WAVE)
                     + When(w > 1 && w - 1 !in st.completed, WAVE))
      .(started := st.started + {w})
    else
      Report(st, no, differs
                     + When(w !in st.started, WAVE)
                     + When(w in st.completed, WAVE)
                     + Unsettled(st, body.members))
      .(completed := st.completed + {w})
  }

  function StepLaunch(st: State, no: int, node: string, parent: string): State {
    if node in st.nodes then Report(st, no, [ORDER]) else
    Report(st, no, if parent != st.root && parent !in st.nodes then [PARENT_LINK]
                   else When(parent != st.root && SettledIn(st, parent), PARENT_LINK))
    .(nodes := st.nodes[node := Fresh(parent)], order := st.order + [node])
  }

  function StepWake(st: State, no: int, node: string, child: string, status: Status, generation: int): State {
    var stranger := When(node != st.root && node !in st.nodes, PARENT_LINK);
    if child !in st.nodes then Report(st, no, stranger + [WAKE]) else
    var c := st.nodes[child];
    var due := c.wakeCount < |c.settlements|;
    Report(st, no, stranger
                   + When(!due, WAKE)
                   + When(c.parent != node, WAKE)
                   + When(due && status != c.settlements[c.wakeCount].status, WAKE)
                   + When(generation != Get(st.generations, node) + 1, WAKE))
    .(generations := st.generations[node := Max(Get(st.generations, node), generation)],
      nodes := if due then st.nodes[child := c.(wakeCount := c.wakeCount + 1)] else st.nodes)
  }

  function StepLifecycle(st: State, no: int, node: string, parent: string, act: Act): State {
    if node !in st.nodes then Report(st, no, [ORDER]) else
    var v := StepAct(st.nodes[node], no, parent, act);
    Report(st, no, v.rules).(nodes := st.nodes[node := v.state])
  }

  function StepBody(st: State, no: int, body: Body): State {
    match body
    case RunCreated(_) => Report(st, no, [FIRST])
    case GraphPlanned(waves) => st.(started := {}, completed := {}, plan := Some(waves))
    case WaveStarted(_, _) => StepWave(st, no, body)
    case WaveCompleted(_, _) => StepWave(st, no, body)
    case Launched(node, parent, _, _, _) => StepLaunch(st, no, node, parent)
    case Awakened(node, child, status, generation) => StepWake(st, no, node, child, status, generation)
    case Lifecycle(node, parent, act) => StepLifecycle(st, no, node, parent, act)
  }

  function Step(st: State, e: Event): State {
    StepBody(st, e.no, e.body)
  }

  // ---------------------------------------------------------------- whole traces

  function LatestTime(events: seq<Event>): int
    requires events != []
  {
    if |events| == 1 then events[0].at else Max(LatestTime(Front(events)), Last(events).at)
  }

  function EnvelopeRules(earlier: seq<Event>, e: Event): seq<Rule> {
    When(e.no != |earlier| + 1, SEQ)
    + When(earlier != [] && e.run != earlier[0].run, RUN)
    + When(earlier != [] && e.at < LatestTime(earlier), TIME)
  }

  function EnvelopeProblems(events: seq<Event>): seq<Problem> {
    if events == [] then []
    else EnvelopeProblems(Front(events)) + At(Last(events).no, EnvelopeRules(Front(events), Last(events)))
  }

  predicate Created(events: seq<Event>) {
    events != [] && events[0].body.RunCreated?
  }

  function Run(events: seq<Event>): State
    requires Created(events)
  {
    if |events| == 1 then Initial(events[0].body.root) else Step(Run(Front(events)), Last(events))
  }

  function Dangling(nodes: map<string, NodeState>, order: seq<string>): seq<Problem> {
    if order == [] then []
    else
      (if order[0] in nodes && TruthyNumber(nodes[order[0]].pendingReply)
       then [Problem(REPLY, nodes[order[0]].pendingReply.value)] else [])
      + Dangling(nodes, order[1..])
  }

  function Problems(events: seq<Event>): seq<Problem> {
    if events == [] then [Problem(FIRST, 0)]
    else if !Created(events) then EnvelopeProblems(events) + [Problem(FIRST, events[0].no)]
    else EnvelopeProblems(events) + Run(events).problems + Dangling(Run(events).nodes, Run(events).order)
  }

  predicate Accepted(events: seq<Event>) {
    Problems(events) == []
  }
}
