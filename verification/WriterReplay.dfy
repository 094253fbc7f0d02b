/**
 The checker run over freshly appended drafts: replaying bodies on top of a checked history,
 and the three stages of a settlement on the record of one node.
 */
module WriterReplay {
  import opened Options
  import opened TraceEvents
  import opened TraceChecker
  import opened TraceHistory
  import opened TraceLaws
  import opened TraceWriter

  function Replay(st: State, no: int, drafts: seq<Body>): State
    decreases |drafts|
  {
    if drafts == [] then st else Replay(StepBody(st, no, drafts[0]), no + 1, drafts[1..])
  }

  lemma {:induction false} ReplayConcat(st: State, no: int, a: seq<Body>, b: seq<Body>)
    ensures Replay(st, no, a + b) == Replay(Replay(st, no, a), no + |a|, b)
    decreases |a|
  {
    if a == [] {
      assert a + b == b;
    } else {
      assert (a + b)[1..] == a[1..] + b;
      ReplayConcat(StepBody(st, no, a[0]), no + 1, a[1..], b);
    }
  }

  lemma {:induction false} ReplayKeepsProblems(st: State, no: int, drafts: seq<Body>)
    ensures Replay(st, no, drafts).problems == [] ==> st.problems == []
    decreases |drafts|
  {
    if drafts != [] {
      ReplayKeepsProblems(StepBody(st, no, drafts[0]), no + 1, drafts[1..]);
      StepKeepsProblems(st, Event(no, 0, "", drafts[0]));
    }
  }

  /** Checking the stamped drafts continues the check of the history before them. */
  lemma {:induction false} RunAppended(events: seq<Event>, drafts: seq<Body>, at: int, run: string)
    requires Created(events)
    ensures Created(events + Stamp(drafts, |events| + 1, at, run))
    ensures Run(events + Stamp(drafts, |events| + 1, at, run)) == Replay(Run(events), |events| + 1, drafts)
    decreases |drafts|
  {
    var stamped := Stamp(drafts, |events| + 1, at, run);
    if drafts == [] {
      assert events + stamped == events;
    } else {
      var e := stamped[0];
      Snoc(events, e);
      assert stamped == [e] + Stamp(drafts[1..], |events| + 2, at, run);
      assert events + stamped == (events + [e]) + Stamp(drafts[1..], |events + [e]| + 1, at, run);
      RunAppended(events + [e], drafts[1..], at, run);
    }
  }

  ghost predicate Orderly(events: seq<Event>, run: string) {
    Numbered(events) && OneRunInOrder(events) && (events != [] ==> events[0].run == run)
  }

  /** Appending numbers on from the last event, stays in the run and never moves time backwards. */
  lemma {:induction false} AppendedIsOrderly(events: seq<Event>, drafts: seq<Body>, now: int, run: string)
    requires Orderly(events, run)
    ensures Orderly(Appended(events, drafts, now, run), run)
    ensures LastNo(events) == |events|
  {
    var after := Appended(events, drafts, now, run);
    if drafts != [] {
      var at := AppendTime(events, now);
      assert forall i :: 0 <= i < |events| ==> after[i] == events[i];
      assert forall i :: |events| <= i < |after| ==> after[i] == Event(i + 1, at, run, drafts[i - |events|]);
      if events != [] {
        assert forall i :: 0 <= i < |events| ==> events[i].at <= events[|events| - 1].at <= at;
      }
    }
  }

  // ---------------------------------------------------------------- acts about one node

  function ReplayActs(s: NodeState, no: int, parent: string, acts: seq<Act>): Verdict
    decreases |acts|
  {
    if acts == [] then Verdict(s, []) else
    var v := StepAct(s, no, parent, acts[0]);
    var rest := ReplayActs(v.state, no + 1, parent, acts[1..]);
    Verdict(rest.state, v.rules + rest.rules)
  }

  lemma {:induction false} ReplayActsConcat(s: NodeState, no: int, parent: string, a: seq<Act>, b: seq<Act>)
    ensures var va := ReplayActs(s, no, parent, a);
            var vb := ReplayActs(va.state, no + |a|, parent, b);
            ReplayActs(s, no, parent, a + b) == Verdict(vb.state, va.rules + vb.rules)
    decreases |a|
  {
    if a == [] {
      assert a + b == b;
      assert [] + ReplayActs(s, no, parent, b).rules == ReplayActs(s, no, parent, b).rules;
    } else {
      assert (a + b)[1..] == a[1..] + b;
      var v := StepAct(s, no, parent, a[0]);
      ReplayActsConcat(v.state, no + 1, parent, a[1..], b);
      var va := ReplayActs(v.state, no + 1, parent, a[1..]);
      var vb := ReplayActs(va.state, no + |a|, parent, b);
      assert v.rules + (va.rules + vb.rules) == (v.rules + va.rules) + vb.rules;
    }
  }

  lemma {:induction false} ReplaySingle(s: NodeState, no: int, parent: string, act: Act)
    ensures ReplayActs(s, no, parent, [act]) == StepAct(s, no, parent, act)
  {
    var v := StepAct(s, no, parent, act);
    assert [act][1..] == [];
    assert v.rules + [] == v.rules;
  }

  /** Drafts about one node touch only its record, and are clean exactly when its acts are. */
  lemma {:induction false} LiftActs(st: State, no: int, node: string, parent: string, acts: seq<Act>)
    requires node in st.nodes
    ensures var r := Replay(st, no, About(node, parent, acts));
            var v := ReplayActs(st.nodes[node], no, parent, acts);
            && r == st.(nodes := st.nodes[node := v.state], problems := r.problems)
            && (r.problems == [] <==> st.problems == [] && v.rules == [])
    decreases |acts|
  {
    var drafts := About(node, parent, acts);
    if acts != [] {
      var v := StepAct(st.nodes[node], no, parent, acts[0]);
      var next := StepBody(st, no, drafts[0]);
      assert next == Report(st, no, v.rules).(nodes := st.nodes[node := v.state]);
      assert |At(no, v.rules)| == |v.rules|;
      assert drafts[1..] == About(node, parent, acts[1..]);
      LiftActs(next, no + 1, node, parent, acts[1..]);
    }
  }

  /** A node whose current attempt has produced nothing yet. */
  predicate Untouched(s: NodeState) {
    && s.settled.None? && s.pendingReply.None? && s.parent == ROOT_NODE
    && s.written.None? && !s.validated && s.deviationNo.None? && s.blockedNo.None?
  }

  lemma {:induction false} BlockStage(s: NodeState, no: int, text: string)
    requires Untouched(s)
    ensures ReplayActs(s, no, ROOT_NODE, [BlockedOn(text)]) == Verdict(s.(blockedNo := Some(no)), [])
  {
    ReplaySingle(s, no, ROOT_NODE, BlockedOn(text));
  }

  /** Result evidence on a running attempt is clean exactly when a valid result carries a status. */
  lemma {:induction false} EvidenceStage(s: NodeState, no: int, path: string, deviations: seq<Act>, validation: Act)
    requires s.settled.None? && s.pendingReply.None? && s.parent == ROOT_NODE
    requires s.written.None? && !s.validated && s.deviationNo.None?
    requires path != "" && no >= 1
    requires deviations == [] || exists items :: deviations == [Deviation(items)]
    requires validation.ResultValidated? && validation.path == path && validation.valid
    ensures var v := ReplayActs(s, no, ROOT_NODE, [ResultWritten(path)] + deviations + [validation]);
            && (v.rules == [] <==> TruthyText(validation.status))
            && v.state == s.(written := Some(path), validated := true,
                             deviationNo := if deviations == [] then None else Some(no + 1))
  {
    var s1 := s.(written := Some(path));
    var s2 := s1.(deviationNo := if deviations == [] then None else Some(no + 1));
    ReplaySingle(s, no, ROOT_NODE, ResultWritten(path));
    assert ReplayActs(s1, no + 1, ROOT_NODE, deviations) == Verdict(s2, []) by {
      if deviations != [] {
        ReplaySingle(s1, no + 1, ROOT_NODE, deviations[0]);
      }
    }
    ReplayActsConcat(s, no, ROOT_NODE, [ResultWritten(path)], deviations);
    ReplayActsConcat(s, no, ROOT_NODE, [ResultWritten(path)] + deviations, [validation]);
    ReplaySingle(s2, no + 1 + |deviations|, ROOT_NODE, validation);
  }

  lemma {:induction false} SettleStage(s: NodeState, no: int, settle: Act)
    requires settle.Settled? && s.pendingReply.None? && s.parent == ROOT_NODE
    requires s.settled.None? || CancelsBlocked(s, settle)
    requires settle.outcome == Blocked ==> TruthyNumber(s.blockedNo)
    ensures ReplayActs(s, no, ROOT_NODE, [settle])
         == Verdict(s.(settled := Some(Settlement(settle.outcome, no)),
                       settlements := s.settlements + [Settlement(settle.outcome, no)]), [])
  {
    ReplaySingle(s, no, ROOT_NODE, settle);
  }
}
