/**
 The checker's loop: one pass over the envelopes, one pass over the events that updates
 mutable maps and per-node records, and one pass over the nodes left with an unanswered reply.
 */
module TraceValidator {
  import opened Options
  import opened TraceEvents
  import opened TraceChecker

  method CheckEnvelopes(events: seq<Event>) returns (problems: seq<Problem>)
    requires events != []
    ensures problems == EnvelopeProblems(events)
  {
    problems := [];
    var run := events[0].run;
    var previousTime := None;
    for i := 0 to |events|
      invariant problems == EnvelopeProblems(events[..i])
      invariant previousTime == if i == 0 then None else Some(LatestTime(events[..i]))
    {
      var e := events[i];
      var rules := When(e.no != i + 1, SEQ);
      rules := rules + When(e.run != run, RUN);
      rules := rules + When(previousTime.Some? && e.at < previousTime.value, TIME);
      assert Front(events[..i + 1]) == events[..i];
      assert rules == EnvelopeRules(events[..i], e);
      problems := problems + At(e.no, rules);
      previousTime := Some(if previousTime.Some? then Max(previousTime.value, e.at) else e.at);
    }
    assert events[..|events|] == events;
  }

  /** The branches for an act that belongs to a running attempt. */
  method CheckAttempt(state: NodeState, no: int, act: Act) returns (s: NodeState, rules: seq<Rule>)
    requires !act.ReplySent? && !act.Resumed? && !act.CancelRequested?
    ensures Verdict(s, rules) == StepAttempt(state, no, act)
  {
    s, rules := state, [];
    var cancelsBlocked := act.Settled? && act.outcome == Cancelled
                          && s.settled.Some? && s.settled.value.status == Blocked
                          && s.cancelNo.Some? && s.cancelNo.value > s.settled.value.no;
    if s.settled.Some? && !cancelsBlocked { return s, [ORDER]; }
    match act {
      case BlockedOn(_) => s := s.(blockedNo := Some(no));
      case ResultWritten(path) => s := s.(written := Some(path));
      case Deviation(_) =>
        rules := When(!TruthyText(s.written) || s.validated || TruthyNumber(s.deviationNo), RESULT_ORDER);
        s := s.(deviationNo := Some(no));
      case ResultValidated(path, valid, problems, status) =>
        rules := When(s.written != Some(path), RESULT_ORDER);
        rules := rules + When(valid && !TruthyText(status), RESULT_ORDER);
        rules := rules + When(!valid && |problems| == 0, RESULT_ORDER);
        s := s.(validated := true);
      case Settled(outcome, _, _) =>
        rules := When(outcome == Blocked && !TruthyNumber(s.blockedNo), Rule.BLOCKED);
        var settlement := Settlement(outcome, no);
        s := s.(settled := Some(settlement), settlements := s.settlements + [settlement]);
      case _ =>
    }
  }

  /** The branches for events about one launched node. */
  method CheckLifecycle(state: NodeState, no: int, parent: string, act: Act)
    returns (s: NodeState, rules: seq<Rule>)
    ensures Verdict(s, rules) == StepAct(state, no, parent, act)
  {
    s, rules := state, When(parent != state.parent, PARENT_LINK);
    var broken := TruthyNumber(s.pendingReply) && !(act.Resumed? && act.reason == Reply);
    rules := rules + When(broken, REPLY);
    if broken { s := s.(pendingReply := None); }
    match act {
      case ReplySent(_, replyTo) =>
        rules := rules + When(!(s.settled.Some? && s.settled.value.status == Blocked), REPLY);
        rules := rules + When(replyTo.Some? && replyTo != s.blockedNo, REPLY);
        s := s.(pendingReply := Some(no));
      case Resumed(reason) =>
        var resumesSettlement := s.settled.Some? && s.settled.value.status in {Blocked, Stalled};
        var restartsUnsettled := reason == Restart && s.settlements == [] && s.settled.None?;
        var followsTerminal := reason == FollowUp && s.settled.Some? && s.settled.value.status in {Done, Failed};
        if !resumesSettlement && !restartsUnsettled && !followsTerminal {
          rules := rules + [RESUME];
        } else if reason == Reply && !TruthyNumber(s.pendingReply) {
          rules := rules + [RESUME];
        } else {
          s := NewAttempt(s);
        }
      case CancelRequested =>
        if s.settled.Some? && s.settled.value.status != Blocked {
          rules := rules + [ORDER];
        } else {
          s := s.(cancelNo := Some(no));
        }
      case _ =>
        var failures;
        s, failures := CheckAttempt(s, no, act);
        rules := rules + failures;
    }
  }

  class Validator {
    const root: string
    var nodes: map<string, NodeState>
    var order: seq<string>
    var generations: map<string, int>
    var plan: Option<seq<seq<string>>>
    var started: set<int>
    var completed: set<int>
    var problems: seq<Problem>

    ghost function View(): State
      reads this
    {
      State(root, nodes, order, generations, plan, started, completed, problems)
    }

    constructor (root: string)
      ensures View() == Initial(root)
    {
      this.root := root;
      nodes, order, generations, plan := map[], [], map[], None;
      started, completed, problems := {}, {}, [];
    }

    method Complain(no: int, rules: seq<Rule>)
      modifies this`problems
      ensures View() == Report(old(View()), no, rules)
    {
      problems := problems + At(no, rules);
    }

    method UnsettledMembers(members: seq<string>) returns (rules: seq<Rule>)
      ensures rules == Unsettled(View(), members)
    {
      rules := [];
      var i := |members|;
      while i > 0
        invariant 0 <= i <= |members|
        invariant rules == Unsettled(View(), members[i..])
      {
        i := i - 1;
        assert members[i..][1..] == members[i + 1..];
        rules := (if members[i] in nodes && nodes[members[i]].settled.Some? then [] else [WAVE]) + rules;
      }
    }

    method Wave(no: int, body: Body)
      requires body.WaveStarted? || body.WaveCompleted?
      modifies this`started, this`completed, this`problems
      ensures View() == StepWave(old(View()), no, body)
    {
      if plan.None? {
        Complain(no, [WAVE]);
        return;
      }
      var wave := body.wave;
      var rules := When(!(0 <= wave - 1 < |plan.value|) || body.members != plan.value[wave - 1], WAVE);
      if body.WaveStarted? {
        rules := rules + When(wave != |started| + 1, WAVE);
        rules := rules + When(wave in started, WAVE);
        rules := rules + When(wave > 1 && wave - 1 !in completed, WAVE);
        started := started + {wave};
      } else {
        rules := rules + When(wave !in started, WAVE);
        rules := rules + When(wave in completed, WAVE);
        var unsettled := UnsettledMembers(body.members);
        rules := rules + unsettled;
        completed := completed + {wave};
      }
      Complain(no, rules);
    }

    method Launch(no: int, node: string, parent: string)
      modifies this`nodes, this`order, this`problems
      ensures View() == StepLaunch(old(View()), no, node, parent)
    {
      if node in nodes {
        Complain(no, [ORDER]);
        return;
      }
      if parent != root && parent !in nodes {
        Complain(no, [PARENT_LINK]);
      } else if parent != root && nodes[parent].settled.Some? {
        Complain(no, [PARENT_LINK]);
      }
      nodes, order := nodes[node := Fresh(parent)], order + [node];
    }

    method Wake(no: int, node: string, child: string, status: Status, generation: int)
      modifies this`nodes, this`generations, this`problems
      ensures View() == StepWake(old(View()), no, node, child, status, generation)
    {
      var rules := When(node != root && node !in nodes, PARENT_LINK);
      if child !in nodes {
        Complain(no, rules + [WAKE]);
        return;
      }
      var c := nodes[child];
      var due := c.wakeCount < |c.settlements|;
      rules := rules + When(!due, WAKE);
      rules := rules + When(c.parent != node, WAKE);
      rules := rules + When(due && status != c.settlements[c.wakeCount].status, WAKE);
      var prior := Get(generations, node);
      rules := rules + When(generation != prior + 1, WAKE);
      Complain(no, rules);
      generations := generations[node := Max(prior, generation)];
      if due { nodes := nodes[child := c.(wakeCount := c.wakeCount + 1)]; }
    }

    method Lifecycle(no: int, node: string, parent: string, act: Act)
      modifies this`nodes, this`problems
      ensures View() == StepLifecycle(old(View()), no, node, parent, act)
    {
      if node !in nodes {
        Complain(no, [ORDER]);
        return;
      }
      var s, rules := CheckLifecycle(nodes[node], no, parent, act);
      nodes := nodes[node := s];
      Complain(no, rules);
    }

    method Check(e: Event)
      modifies this
      ensures View() == Step(old(View()), e)
    {
      match e.body {
        case RunCreated(_) => Complain(e.no, [FIRST]);
        case GraphPlanned(waves) => started, completed, plan := {}, {}, Some(waves);
        case WaveStarted(_, _) => Wave(e.no, e.body);
        case WaveCompleted(_, _) => Wave(e.no, e.body);
        case Launched(node, parent, _, _, _) => Launch(e.no, node, parent);
        case Awakened(node, child, status, generation) => Wake(e.no, node, child, status, generation);
        case Lifecycle(node, parent, act) => Lifecycle(e.no, node, parent, act);
      }
    }

    method DanglingReplies() returns (found: seq<Problem>)
      ensures found == Dangling(nodes, order)
    {
      found := [];
      var i := |order|;
      while i > 0
        invariant 0 <= i <= |order|
        invariant found == Dangling(nodes, order[i..])
      {
        i := i - 1;
        assert order[i..][1..] == order[i + 1..];
        var n := order[i];
        found := (if n in nodes && TruthyNumber(nodes[n].pendingReply)
                  then [Problem(REPLY, nodes[n].pendingReply.value)] else []) + found;
      }
    }
  }

  method ValidateTrace(events: seq<Event>) returns (ok: bool, problems: seq<Problem>)
    ensures problems == Problems(events)
    ensures ok <==> Accepted(events)
  {
    if events == [] { return false, [Problem(FIRST, 0)]; }
    problems := CheckEnvelopes(events);
    if !events[0].body.RunCreated? {
      problems := problems + [Problem(FIRST, events[0].no)];
      return false, problems;
    }
    var checker := new Validator(events[0].body.root);
    for i := 1 to |events|
      invariant checker.View() == Run(events[..i])
    {
      checker.Check(events[i]);
      assert Front(events[..i + 1]) == events[..i] && Last(events[..i + 1]) == events[i];
    }
    assert events[..|events|] == events;
    var dangling := checker.DanglingReplies();
    problems := problems + checker.problems + dangling;
    ok := problems == [];
  }
}
