/** Concrete runs in which the writer leaves the checker's rules, one for each half of the guard. */
module WriterLimits {
  import opened Options
  import opened TraceEvents
  import opened TraceChecker
  import opened TraceHistory
  import opened TraceWriter
  import opened WriterLaws
  import opened LaunchLaws
  import opened WriterRuns

  const SoloLaunch := LaunchRequest("builder-1", None, 0, Some("/r.md"), "1", None)

  const SecondWave := LaunchRequest("b", Some(Manifest([["a"], ["b"]])), 2, None, "2", None)

  const Finished := Evidence(0, "1", false, AgentDone, None, None, None, "", None, None)

  /** A result file with text but no Status line. */
  const Plain := Text(false, None, None, [], [])

  function SoloTrace(run: string): seq<Event> {
    [Event(1, 0, run, RunCreated(ROOT_NODE)),
     Event(2, 0, run, Launched("builder-1", ROOT_NODE, Some("/r.md"), Some("1"), None))]
  }

  lemma {:induction false} SoloLaunched(run: string)
    ensures After([], LaunchStep(SoloLaunch), 0, run) == SoloTrace(run)
    ensures WriterInv(SoloTrace(run), run)
  {
    assert LaunchOf([], "builder-1").None?;
    StepAcceptedIff([], LaunchStep(SoloLaunch), 0, run);
  }

  lemma {:induction false} SoloUnlabelled(run: string)
    ensures var files := map["/r.md" := Plain];
            !Guard(SoloTrace(run), SettleStep("builder-1", Finished, files))
  {
    FreshNodeIsOpen(SoloTrace(run)[0], SoloTrace(run)[1], "builder-1");
  }

  /** A finished agent whose result has no Status line is traced as a valid result and rejected. */
  lemma {:induction false} ResultWithoutStatusIsRejected(run: string)
    ensures var steps := [Timed(LaunchStep(SoloLaunch), 0),
                          Timed(SettleStep("builder-1", Finished, map["/r.md" := Plain]), 0)];
            AllValid(steps) && !Accepted(Extend([], steps, run))
  {
    hide After, SoloTrace, Guard, WriterInv, Accepted;
    var settle := SettleStep("builder-1", Finished, map["/r.md" := Plain]);
    var steps := [Timed(LaunchStep(SoloLaunch), 0), Timed(settle, 0)];
    SoloLaunched(run);
    SoloUnlabelled(run);
    StepAcceptedIff(SoloTrace(run), settle, 0, run);
    assert steps[1..] == [Timed(settle, 0)] && steps[1..][1..] == [];
    assert Extend([], steps, run) == Extend(SoloTrace(run), steps[1..], run) == After(SoloTrace(run), settle, 0, run);
  }

  lemma {:induction false} FreshNodeIsOpen(created: Event, launch: Event, node: string)
    requires created.body.RunCreated? && IsLaunch(launch.body, node)
    ensures LaunchOf([created, launch], node) == Some(launch)
    ensures forall kind :: LastAct([created, launch], node, kind).None?
  {
    var events := [created, launch];
    assert events[1..] == [launch];
    assert Front(events) == [created] && Front([created]) == [];
    forall kind ensures LastAct(events, node, kind).None? {
      assert LastAct([created], node, kind) == LastAct([], node, kind);
    }
  }

  /** Launching a node of the second wave first starts that wave out of turn and is rejected. */
  lemma {:induction false} WaveOutOfTurnIsRejected(run: string)
    ensures var steps := [Timed(LaunchStep(SecondWave), 0)];
            AllValid(steps) && !Accepted(Extend([], steps, run))
  {
    var steps := [Timed(LaunchStep(SecondWave), 0)];
    assert !LaunchGuard([], SecondWave);
    StepAcceptedIff([], LaunchStep(SecondWave), 0, run);
    assert steps[1..] == [];
    assert Extend([], steps, run) == After([], LaunchStep(SecondWave), 0, run);
    assert Drafts([], LaunchStep(SecondWave)) != [];
  }
}
