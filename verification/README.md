# Advisor harness: verification model

A Dafny model of the advisor harness. It proves exactly when the independent trace checker accepts the
trace which the Pi host adapter writes, and that the text, graph, schema and conversation
transformations around it mean what they are meant to mean. `dafny verify dfyconfig.toml` checks all
of it.

The **canonical trace** is a list of numbered events. `TraceEvents` holds the events, `TraceChecker`
the rules of a legal trace as functions and `TraceValidator` the checker that runs them over mutable
maps, and `TraceProjector` the reducer that readers see. `TraceRules` and `TraceLegal` state the same rules
over the history: what is reported for any trace, which event may come next, and which traces are
accepted. `ProjectionMeaning` says what is shown, and `TraceLaws` what holds on every accepted trace. `TraceWriter` holds what the host writes, found by scans over the whole history;
`TraceHistory` proves that these scans and the incremental state of the checker agree, and
`WriterReplay`, `WriterLaws`, `LaunchLaws` and `WriterRuns` lift that to single steps and to all runs.
A step is legal exactly when its guard holds: every valid result carries a Status line, and launches
respect the plan and the order of its waves. `WriterLimits` shows that both guards are needed, and
`WriterDiscipline` proves what holds without them: how attempts are settled and woken in every run.
`WriterMeaning` says what the trace shows after each step, in terms of what the host was told.

The **host** receives evidence that may arrive before a launch is recorded or while a stop is under
way. `HostModel` is its state machine, with handlers as atomic steps except for the stop result, which
appends first and clears and releases in a second step. `HostLaws` proves all traces legal under every
interleaving; `ParkedEvidence`, `ParkedOrder` and `EarlyEvidence` prove when evidence that came too
soon is kept, replaced, lost and applied; `Tracking` and `HostMeaning` say which node an input concerns.
`PiHost` holds the adapter and the trace store as classes whose methods are proved against that state
machine. `Snapshot` reads a trace file that may still be appended to, and `SnapshotLaws` says what it reads.

The **wave scheduler** is in `AdvisorGraph`, `GraphLaws` and `GraphClosure`; the **tuple schema rewrite** in
`SchemaCompat`, `SchemaLaws` and `SchemaMeaning`; the **row and patch editor** in `LineText`, `Splicing`,
`TextEdits`, `TextEditLaws`, `EditMatching`, `EditLaws`, `EditMeaning`, `RowText`, `WholeLineEdits`,
`WholeLineMeaning`, `RowOperations`, `RowMeaning`, `PatchSplice`, `PatchMeaning` and `PatchLaws`; **compaction** in
`SseSplit`, `SseFlush`, `CodexHistory`, `CodexLaws`, `CodexMeaning`, `RetainedMessages`, `RetainedLaws` and
`WaitCompaction`. `Scans` holds the scans that several of them share.

Each loop or mutating object of the source is a method or class proved against a function, and the
properties are lemmas about that function.

## Findings

Where the code does less than a reader would expect, each line names the lemma that says exactly when
and, where there is one, a lemma with an input (named first).

- A valid result without a Status line is traced by the host and rejected by the checker: input
  `ResultWithoutStatusIsRejected`, condition `SettlementAcceptedIff`. A launch out of wave order likewise:
  `WaveOutOfTurnIsRejected`, `LaunchAcceptedIff`.
- Evidence that waits for its launch is applied when the launch is recorded even if a stop of its run is
  pending: `EarlyEvidenceIgnoresStops`, `AppliedUnderStopIff`.
- A kill that waits for its launch is replaced by weaker evidence of its run, unlike one that waits for a
  stop: `EarlyKillIsDisplaced`, `EarlyReplacedIff`; for the other buffer `KillStaysIff`.
- Early evidence of a relaunched node that has nothing to settle is taken out of its buffer and lost:
  condition `EarlyAppliedIff`.
- A whole-line block that ends in an empty row matches whether or not that row is there, and then joins
  the rows around it: `EmptyLastRowJoinsRows`, `EmptyLastRowIsIgnored`.
- When a set of replacements fails because a deleted block is the last of a file without a final newline, or
  for any other reason, every deleted block of the set leaves an empty row: `DeletionLeavesEmptyRow`, and
  `ReplacementIs` for when.
- Hunks that only add lines land at the end in reverse order (`SplicesAreForwardPass` says so of every
  patch), and a hunk left without lines (`MissingEmptyLine`) is overwritten by the next one at the same
  place (`EmptyHunkIsOverwritten` gives the text): condition `ForwardPassIffHarmless`.
- A text part whose share of the budget is zero comes back whole, since `slice(-0)` is the whole text:
  `ZeroShareBreaksBudget`, `BudgetKeptIff`. Rounding makes shares zero that should not be:
  `RoundedShareIsZero`, `RoundingBreaksBudget`.
- CR CR LF makes event stream blocks depend on the chunks: `BlockKeepsCr`, `ChunkingIsIrrelevantIff`, and
  `FlushedChunkingIsIrrelevantIff` with the flush at the end.
- A tuple whose `additionalItems` is itself an array is not fully rewritten in one pass:
  `DoubleTupleStays`, `RewriteIsIdempotentIff`. Tuple-like data under keywords such as `const` is rewritten:
  `ConstDataIsRewritten`; `NoTuplesIsFixed` and `TuplesAreChanged` say which data.

## Model

| member | source | states |
|---|---|---|
| `TraceValidator.CheckEnvelopes` | bb-plugin-meta-harness/src/trace-projector.ts:439-462 | one pass reports every event out of sequence, of another run or earlier than a time before it, in order |
| `TraceValidator.Validator.constructor` | bb-plugin-meta-harness/src/trace-projector.ts:472-479 | the checker starts with no nodes, no plan, no waves and no wakes |
| `TraceValidator.Validator.Wave` | bb-plugin-meta-harness/src/trace-projector.ts:497-550 | a wave event is checked against the plan, the waves started and completed, and the settled members |
| `TraceValidator.Validator.Launch` | bb-plugin-meta-harness/src/trace-projector.ts:552-585 | a launch needs a fresh node and a known, unsettled parent |
| `TraceValidator.Validator.Wake` | bb-plugin-meta-harness/src/trace-projector.ts:587-638 | a wake needs an unwoken settlement of the child, its status, the launch parent and the next generation |
| `TraceValidator.Validator.Lifecycle` | bb-plugin-meta-harness/src/trace-projector.ts:640-808 | a lifecycle event needs a launched node and then follows its rules |
| `TraceValidator.Validator.Check` | bb-plugin-meta-harness/src/trace-projector.ts:480-809 | one event advances the whole checker state and its list of problems |
| `TraceValidator.Validator.DanglingReplies` | bb-plugin-meta-harness/src/trace-projector.ts:810-819 | a reply without a resume at the end of the trace is reported, node by node in launch order |
| `TraceValidator.ValidateTrace` | bb-plugin-meta-harness/src/trace-projector.ts:411-821 | the checker lists exactly the problems of the trace and accepts it when there are none |
| `TraceLaws.EnvelopesClean` | bb-plugin-meta-harness/src/trace-projector.ts:439-462 | no envelope problem exactly for seq 1..n, one run, times that never decrease |
| `TraceLaws.AcceptedParts` | bb-plugin-meta-harness/src/trace-projector.ts:411-821 | a trace is accepted exactly when its envelope, its events and its replies are each clean |
| `TraceHistory.CheckerMatchesHistory` | bb-plugin-meta-harness/src/trace-projector.ts:640-808 | on a clean trace the per-node state of the checker is what backward scans over the whole history find |
| `TraceHistory.UnlaunchedIsSilent` | bb-plugin-meta-harness/src/trace-projector.ts:641-648 | a node without a launch has no events of its own on a clean trace |
| `TraceLaws.WakesMatchSettlements` | bb-plugin-meta-harness/src/trace-projector.ts:587-638 | on every accepted trace the k-th wake naming a child follows its k-th settlement, repeats its status and goes to its launch parent |
| `TraceLaws.GenerationsAreConsecutive` | bb-plugin-meta-harness/src/trace-projector.ts:624-638 | on every accepted trace the wakes of a parent are numbered 1, 2, 3, ... |
| `TraceLaws.ProjectionAgreesWithChecker` | bb-plugin-meta-harness/src/trace-projector.ts:823-965 | on every accepted trace a node is shown settled exactly when the checker holds an open settlement, with as many attempts as settlements and the status of the last one; the waves agree too |
| `TraceLaws.PrefixIsSafe` | bb-plugin-meta-harness/src/trace-projector.ts:810-820 | every non-empty prefix of an accepted trace is accepted or lacks only resumes of replies, and which of the two is decided by whether a reply is the last act of some node |
| `TraceRules.CheckerLooksBack` | bb-plugin-meta-harness/src/trace-projector.ts:464-809 | on every trace that a run begins, problems or not, the maps and records of the checker are what backward scans over the events that took effect find |
| `TraceRules.ReportIsHistory` | bb-plugin-meta-harness/src/trace-projector.ts:411-821 | for every trace the report is, event by event, the rules that each event breaks where it stands, and the replies left open at the end |
| `TraceLegal.NextIsCleanIff` | bb-plugin-meta-harness/src/trace-projector.ts:480-809 | which events may come next: an event keeps a trace without problems free of them exactly when its condition on the history holds, kind by kind |
| `TraceLegal.AcceptedIff` | bb-plugin-meta-harness/src/trace-projector.ts:411-821 | a trace is accepted exactly when it is numbered, of one run and in order of time, begins with the creation of its run, each later event may follow those before it, and no reply is the last act of its node |
| `TraceLegal.EnvelopeReportIs` | bb-plugin-meta-harness/src/trace-projector.ts:439-462 | the first pass reports each wrong number, other run and earlier time under the number of its event, and nothing else |
| `TraceProjector.ProjectTrace` | bb-plugin-meta-harness/src/trace-projector.ts:823-965 | the reducer loop folds a trace into waves, node records and wakes |
| `ProjectionMeaning.ProjectionShows` | bb-plugin-meta-harness/src/trace-projector.ts:888-961 | every launched node is shown with the parent and time of its last launch, and each field of its record is what a scan of the acts since then finds: the phase, the attempts, replies, notes, deviations, requests, result, settlement |
| `ProjectionMeaning.WavesAreShown` | bb-plugin-meta-harness/src/trace-projector.ts:854-886 | the waves shown are those of the last plan and any others named since, each with its latest members and the times it last started and ended |
| `ProjectionMeaning.WakesAreShown` | bb-plugin-meta-harness/src/trace-projector.ts:879-888 | the wakes shown are the wake events of the trace, in order, and the root is that of its run |
| `ProjectionMeaning.OrderIsShown` | bb-plugin-meta-harness/src/trace-projector.ts:888-912 | the nodes are listed once each in the order of their first launches |
| `PiHost.TraceStore.Update` | extensions/advisor-core/trace-store.ts:65-87 | an update appends the drafts, numbered on from the last event and never earlier than it, to the trace of that run and to no other |
| `PiHost.BuildSettlement` | extensions/advisor-pi-host.ts:590-686 | the drafts that one piece of evidence yields: acts about the node, the wake, and the completion of the wave |
| `PiHost.BuildActs` | extensions/advisor-pi-host.ts:605-659 | blocked, result, deviation, validation and settlement acts in the order in which they are pushed |
| `WriterReplay.RunAppended` | extensions/advisor-core/trace-store.ts:65-87 | checking an extended trace is checking the trace and then replaying the drafts |
| `WriterReplay.AppendedIsOrderly` | extensions/advisor-core/trace-store.ts:39-43 | an append keeps the numbering 1..n and never lets time decrease |
| `WriterLaws.StopIsAccepted` | extensions/advisor-pi-host.ts:882-895 | an accepted stop of a launched node extends a legal trace to a legal trace |
| `WriterLaws.ReplyIsAccepted` | extensions/advisor-pi-host.ts:921-940 | a reply with its resume extends a legal trace to a legal trace |
| `WriterLaws.SettlementAcceptedIff` | extensions/advisor-pi-host.ts:590-686 | a settlement extends a legal trace to a legal trace exactly when it writes no valid result without a Status line |
| `LaunchLaws.LaunchAcceptedIff` | extensions/advisor-pi-host.ts:989-1042 | a launch extends a legal trace to a legal trace exactly when the wave that it starts is planned and in turn |
| `LaunchLaws.LaunchRecorded` | extensions/advisor-pi-host.ts:1022-1042 | after a launch its node has a launch event |
| `WriterMeaning.StatusMeans` | extensions/advisor-pi-host.ts:365-378 | after evidence was applied its node is cancelled, done, blocked, stalled or failed, each exactly for the kills, agent states and result files that mean it |
| `WriterMeaning.SettlementSays` | extensions/advisor-pi-host.ts:393-398 | the settlement carries the status of the result file, and says that the surface was closed exactly when a finished agent was to be closed |
| `WriterMeaning.RequestMeans` | extensions/advisor-pi-host.ts:609-617 | a blocked agent that has not asked in its attempt yet asks once, with the text of the result, the note, the output or a fixed sentence, in this order |
| `WriterMeaning.ResultIsWritten` | extensions/advisor-pi-host.ts:618-648 | a result that is there is written and validated with its notes and status, and its deviations once per attempt, unless the settlement only closes a blocked node |
| `WriterMeaning.WaveEndsIff` | extensions/advisor-pi-host.ts:674-684 | the wave of a settled node is completed exactly when it runs, is not completed and all its members are settled |
| `WriterMeaning.ReplyShows` | extensions/advisor-pi-host.ts:921-940 | a reply is written to a blocked node that asked, quotes its last request, carries the prompt and resumes it; otherwise nothing is written |
| `WriterMeaning.StopShows` | extensions/advisor-pi-host.ts:884-893 | a cancel request is written for a node without a settlement in force or with a blocked one, unless it was asked for since |
| `WriterMeaning.LaunchShows` | extensions/advisor-pi-host.ts:989-1042 | a launch writes the run, the plan and the wave that are missing, and the launch of a node that was not launched, with its path, run and name |
| `WriterMeaning.AppendShows` | extensions/advisor-core/trace-store.ts:65-87 | appended events are the drafts, numbered on, of the run, at the later of the present and the last time |
| `WriterRuns.StepAcceptedIff` | extensions/advisor-pi-host.ts:590-1042 | any host step keeps a trace acceptable to the checker exactly when its guard holds |
| `WriterRuns.WriterMeetsChecker` | extensions/advisor-pi-host.ts:590-1042 | from the empty trace, after every sequence of guarded host steps, the checker reports no problem |
| `WriterRuns.FinalIsAbsorbing` | extensions/advisor-pi-host.ts:599-605 | nothing that the host does later changes the history of a node whose last status is not blocked |
| `WriterDiscipline.RunsKeepDiscipline` | extensions/advisor-pi-host.ts:590-1042 | every run of host steps, legal for the checker or not, keeps the settlement law: wakes pair with settlements, generations have no gaps, attempts are settled lawfully |
| `WriterDiscipline.EverySettlementIsWokenOnce` | extensions/advisor-pi-host.ts:650-672 | in every run, guarded or not, each settlement of a node is followed by its one wake of the root, and the wakes of the root are numbered without gaps |
| `WriterDiscipline.SecondSettlementIsCancellation` | extensions/advisor-pi-host.ts:599-605 | in every run, guarded or not, two settlements without a resume between them are a blocked one and, after a cancel request, a cancelled one, so there is never a third |
| `WriterDiscipline.ClosedAttemptIsIdempotent` | extensions/advisor-pi-host.ts:598-605 | in every run, guarded or not, evidence appends something exactly when the attempt is open or a blocked one is being cancelled, and then settles it anew |
| `WriterDiscipline.AcceptedIsLawful` | bb-plugin-meta-harness/src/trace-projector.ts:741-757 | the checker accepts no trace that breaks the same settlement law, whoever wrote it |
| `WriterLimits.ResultWithoutStatusIsRejected` | bb-plugin-meta-harness/src/trace-projector.ts:776-783 | a finished agent whose result lacks a Status line is traced and then rejected |
| `WriterLimits.WaveOutOfTurnIsRejected` | bb-plugin-meta-harness/src/trace-projector.ts:512-527 | launching into the second wave first is traced and then rejected |
| `HostModel.UsableManifest` | extensions/advisor-pi-host.ts:421-445 | a manifest is usable only if it lists the node in the named wave |
| `HostLaws.HandlerKeepsInv` | extensions/advisor-pi-host.ts:854-1066 | every handler only appends, leaves every trace lawful and every remembered target launched, and under its guard every trace legal for the checker |
| `HostLaws.InterleavingKeepsInv` | extensions/advisor-pi-host.ts:854-1066 | so does every interleaving of handlers |
| `HostLaws.HostIsDisciplined` | extensions/advisor-pi-host.ts:590-1066 | under every interleaving of any inputs each trace on disk keeps the settlement law |
| `HostLaws.HostMeetsChecker` | extensions/advisor-pi-host.ts:590-1066 | under every interleaving of guarded inputs each trace on disk is accepted by the checker |
| `ParkedEvidence.HandlerApplies` | extensions/advisor-pi-host.ts:728-790 | one handler applies at most one piece of evidence, at the end of its trace, and only what its input justifies |
| `ParkedEvidence.AppliedUnderStopIff` | extensions/advisor-pi-host.ts:1053-1062 | a handler applies evidence with a stop of its run still pending exactly when it is a launch result whose run has a pending stop and whose early or inline evidence has something to write |
| `ParkedEvidence.ParkedEvidenceWaits` | extensions/advisor-pi-host.ts:752-777 | after every interleaving the next handler applies held evidence only at the end of a stop of its run, and applies anything under a pending stop exactly when it is a launch result for a run being stopped |
| `ParkedEvidence.HandlerPlacesOnce` | extensions/advisor-pi-host.ts:758-790 | evidence is in at most one place: applied, held or early |
| `ParkedEvidence.AppliedAtMostOnce` | extensions/advisor-pi-host.ts:758-790 | in every interleaving no evidence is applied twice |
| `ParkedOrder.KillStaysIff` | extensions/advisor-pi-host.ts:764-790 | one input lets go of a held kill exactly when it resets the session or finishes the last pending stop of the run |
| `ParkedOrder.KillIsNotDisplaced` | extensions/advisor-pi-host.ts:764-771 | through every interleaving a held kill stays held until it is released with no stop of its run left, or the session is reset |
| `ParkedOrder.LaterApplicationsStandBehind` | extensions/advisor-pi-host.ts:728-750 | whatever is applied later stands behind everything written before |
| `ParkedOrder.RequestPrecedesParkedSettlement` | extensions/advisor-pi-host.ts:880-907 | an accepted cancel request of a still cancellable node is written before the settlement parked under its stop |
| `EarlyEvidence.EarlyReplacedIff` | extensions/advisor-pi-host.ts:773-776 | an early entry, a kill included, is replaced by later evidence of its run exactly when no stop of the run is pending, that evidence does not apply and a launch is pending |
| `EarlyEvidence.EarlyKillIsDisplaced` | extensions/advisor-pi-host.ts:773-776 | a run in which a kill that waits for its launch is replaced by weaker evidence |
| `EarlyEvidence.EarlyStaysIff` | extensions/advisor-pi-host.ts:773-776 | an early entry survives an input exactly unless it is replaced, its launch is recorded or the session is reset |
| `EarlyEvidence.EarlyWaitsThrough` | extensions/advisor-pi-host.ts:773-776 | an early entry stays unchanged through every interleaving without such an input |
| `EarlyEvidence.EarlyAppliedIff` | extensions/advisor-pi-host.ts:944-1062 | a recorded launch or reply takes early evidence out of its buffer and applies it exactly when the trace with its drafts has an attempt to settle |
| `EarlyEvidence.EarlyEvidenceIsApplied` | extensions/advisor-pi-host.ts:921-1062 | a reply to a blocked agent and the first launch of a node always have such an attempt |
| `EarlyEvidence.EvidenceSeenEarlyIsApplied` | extensions/advisor-pi-host.ts:758-777 | evidence seen between a launch call and its result waits through the interleaving and is applied at the result exactly when there is an attempt to settle |
| `EarlyEvidence.EarlyEvidenceIgnoresStops` | extensions/advisor-pi-host.ts:1053-1062 | a run in which early evidence is applied while a stop of its run is pending |
| `ParkedOrder.ParkingMakesOrderIrrelevant` | extensions/advisor-pi-host.ts:758-790 | evidence before and after a stop result leads to the same state |
| `ParkedOrder.KillOfBlockedAppliesIff` | extensions/advisor-pi-host.ts:603-605 | a kill of a blocked node writes something exactly when a cancel request came after its settlement |
| `ParkedOrder.StoppedBlockedNodeIsCancelled` | extensions/advisor-pi-host.ts:871-907 | a blocked node that is stopped and killed ends cancelled |
| `PiHost.FindTrackedNode` | extensions/advisor-pi-host.ts:499-520 | the scan over all traces returns the latest launch that matches, later ones winning ties |
| `Tracking.FindsTheLatest` | extensions/advisor-pi-host.ts:499-520 | nothing is found exactly when no listed trace has a matching launch, and otherwise a matching launch that no other is later than, nor of its time behind it |
| `Tracking.LatestIsFound` | extensions/advisor-pi-host.ts:499-520 | and any matching launch of that kind is the one found |
| `Tracking.NewLaunchIsFound` | extensions/advisor-pi-host.ts:499-520 | the first launch of a node under a new run or name is found, wherever its trace is listed |
| `HostMeaning.RequestIs` | extensions/advisor-pi-host.ts:980-1042 | a launch goes to the graph run, node and wave of its prompt exactly when their manifest is usable, and else to a run of its own |
| `HostMeaning.LaunchIsFoundAgain` | extensions/advisor-pi-host.ts:716-726 | a session that remembers nothing finds a recorded launch again, as the target that was remembered |
| `HostMeaning.ReplyTargetIs` | extensions/advisor-pi-host.ts:915-919 | a launch replies exactly when it continues an agent with a prompt and that agent is blocked in some trace |
| `HostMeaning.ResolutionIs` | extensions/advisor-pi-host.ts:716-726 | evidence belongs to the target remembered under its run, else to the launch of its run, else where allowed to a launch under its name |
| `HostMeaning.StopResultIs` | extensions/advisor-pi-host.ts:871-895 | a stop result asks for a cancellation only if the stop succeeded for the run that was asked for, and in the trace of its node alone |
| `PiHost.Adapter.constructor` | extensions/advisor-pi-host.ts:690-698 | the adapter starts idle |
| `PiHost.Adapter.ResolveRun` | extensions/advisor-pi-host.ts:880-881 | a stop is matched by the remembered target, else by its run |
| `PiHost.Adapter.ResolveTarget` | extensions/advisor-pi-host.ts:716-726 | evidence is matched by the remembered target, by its run, or by agent name where allowed |
| `PiHost.Adapter.SettleNow` | extensions/advisor-pi-host.ts:728-750 | applying evidence writes its drafts and reports whether there were any |
| `PiHost.Adapter.ObserveSettlement` | extensions/advisor-pi-host.ts:758-777 | evidence is held while its run is being stopped, applied otherwise, and kept as early evidence if nothing came of it while a launch is pending |
| `PiHost.Adapter.ReleaseHeldSettlement` | extensions/advisor-pi-host.ts:780-790 | held evidence leaves its buffer before it is observed again |
| `PiHost.Adapter.OnLaunchCall` | extensions/advisor-pi-host.ts:863-867 | a launch call is pending under its id |
| `PiHost.Adapter.OnStopCall` | extensions/advisor-pi-host.ts:857-861 | a stop call is pending under its id |
| `PiHost.Adapter.OnStopResult` | extensions/advisor-pi-host.ts:871-895 | the first half of a stop result appends the cancel request |
| `PiHost.Adapter.OnStopFinish` | extensions/advisor-pi-host.ts:898-907 | the second half clears the captured stop and releases held evidence |
| `PiHost.Adapter.SettleAfterLaunch` | extensions/advisor-pi-host.ts:944-957 | after a launch its early evidence, or its inline result, is applied |
| `PiHost.Adapter.OnLaunchResult` | extensions/advisor-pi-host.ts:908-1066 | a launch result replies to a blocked agent or records a launch, then settles early evidence |
| `PiHost.Adapter.ClearRuntimeState` | extensions/advisor-pi-host.ts:793-801 | a new session forgets everything but the traces |
| `Snapshot.DecodeLines` | bb-plugin-meta-harness/src/trace-policy.ts:575-600 | the scan over complete bytes decodes line by line and stops at the first bad line |
| `Snapshot.ParseSnapshot` | bb-plugin-meta-harness/src/trace-policy.ts:540-663 | a file is read as its complete lines, with every refusal in the order of the source |
| `Snapshot.TailChangesNothing` | bb-plugin-meta-harness/src/trace-policy.ts:544-572 | a permitted unterminated tail changes nothing but `partial`; a tail that is too long or not UTF-8 so far is refused |
| `SnapshotLaws.RecordsAreNotBlank` | bb-plugin-meta-harness/src/trace-policy.ts:601 | the records are the lines that are not blank, in their order |
| `SnapshotLaws.BadBytesAreRefused` | bb-plugin-meta-harness/src/trace-policy.ts:544-600 | a file without a line, with a bad tail or with a bad line is refused for the first of these, and for its first bad line |
| `SnapshotLaws.GoodLinesAreRead` | bb-plugin-meta-harness/src/trace-policy.ts:601-663 | a file of good lines is refused without records, with more than 4096, with one that does not parse or for a trace that is not accepted, in this order, and is shown otherwise |
| `SnapshotLaws.EveryFileIsLines` | bb-plugin-meta-harness/src/trace-policy.ts:575-600 | every file is its complete lines and its tail, in one way |
| `SnapshotLaws.PrintedTraceIsShown` | bb-plugin-meta-harness/src/trace-policy.ts:540-663 | the printed lines of an accepted trace, with any blank lines between them, read as the projection of its events |
| `Snapshot.ReadingDuringAppend` | bb-plugin-meta-harness/src/trace-policy.ts:540-663 | an accepted trace file cut anywhere shows the projection of the events that are complete, or only resumes are still missing |
| `AdvisorGraph.NodeMap` | extensions/advisor-graph.ts:145-152 | the map holds every node, or the first repeated id is reported |
| `AdvisorGraph.ReadyNodes` | extensions/advisor-graph.ts:212-219 | the ready nodes are those left over whose dependencies are all done, in identifier order |
| `AdvisorGraph.CutWaves` | extensions/advisor-graph.ts:229-235 | the ready list is cut into waves and marked done |
| `AdvisorGraph.ExecutionWaves` | extensions/advisor-graph.ts:221-238 | the loop computes the layered schedule |
| `GraphLaws.ScheduleIsSound` | extensions/advisor-graph.ts:221-238 | every node once, waves of size 1..maxParallel, every dependency in a strictly earlier wave |
| `GraphLaws.ScheduleFailsIffCyclic` | extensions/advisor-graph.ts:227 | the scheduler fails exactly when the dependencies have a cycle |
| `GraphLaws.LayerIsLongestChain` | extensions/advisor-graph.ts:212-238 | the layer of a node is its longest dependency chain |
| `GraphLaws.WideScheduleIsShallowest` | extensions/advisor-graph.ts:221-238 | with enough width no legal schedule has fewer waves |
| `GraphLaws.ScheduleIgnoresListing` | extensions/advisor-graph.ts:212-238 | permuting the nodes changes nothing |
| `GraphLaws.ValidateDependencies` | extensions/advisor-graph.ts:163-170 | a failure names a dependency on itself or on a missing node, and there is one exactly when such a dependency exists |
| `GraphLaws.PlanGraph` | extensions/advisor-graph.ts:145-238 | a graph is planned exactly when ids are distinct, dependencies exist and there is no cycle |
| `GraphClosure.DependencyClosure` | extensions/advisor-graph.ts:172-182 | the work list visits exactly the nodes that a chain of dependencies leads to |
| `GraphClosure.CyclicIffSelfReaching` | extensions/advisor-graph.ts:172-182 | a graph has a cycle exactly when some node depends on itself, directly or not |
| `SchemaCompat.NormalizeClaudeToolSchema` | extensions/claude-schema-compat.ts:46-70 | the recursive loop computes the rewritten schema |
| `SchemaMeaning.RewriteKeepsMeaning` | extensions/claude-schema-compat.ts:46-70 | every instance satisfies a draft-07 schema exactly when it satisfies the rewritten 2020-12 schema |
| `SchemaLaws.TuplesAreGone` | extensions/claude-schema-compat.ts:46-70 | no array is left under `items` exactly when no object has arrays under both `items` and `additionalItems` |
| `SchemaLaws.RewriteIsIdempotentIff` | extensions/claude-schema-compat.ts:46-70 | rewriting twice equals rewriting once exactly under the same condition |
| `SchemaLaws.NoTuplesIsFixed` | extensions/claude-schema-compat.ts:46-70 | a schema without tuples is left alone |
| `SchemaLaws.TuplesAreChanged` | extensions/claude-schema-compat.ts:54-66 | any value with a tuple in it is changed |
| `SchemaLaws.NormalLookup` | extensions/claude-schema-compat.ts:53-67 | the rewritten object holds, under each key, the rewritten value of its source |
| `SchemaLaws.DoubleTupleStays` | extensions/claude-schema-compat.ts:54-66 | an array under `additionalItems` becomes an array under `items`, which a second pass would change |
| `SchemaLaws.ConstDataIsRewritten` | extensions/claude-schema-compat.ts:46-70 | data that looks like a tuple schema is rewritten too |
| `LineText.SplitLinesIsExact` | extensions/unified-edit-fallback/upstream.ts:237-239 | the lines with their endings make up the content |
| `LineText.LinesAreUnique` | extensions/unified-edit-fallback/upstream.ts:237-239 | no other list of lines makes up the same content |
| `TextEdits.ApplyTextReplacements` | extensions/unified-edit-fallback/upstream.ts:291-300 | the loop applies the replacements from the back |
| `TextEdits.GetLineSpans` | extensions/unified-edit-fallback/upstream.ts:255-262 | the spans are the positions of the lines |
| `TextEditLaws.SpansAreLines` | extensions/unified-edit-fallback/upstream.ts:255-262 | the text of the k-th span is the k-th line |
| `TextEditLaws.LineRangeIs` | extensions/unified-edit-fallback/upstream.ts:264-289 | there is a range exactly for a replacement that starts and ends in the base, and it runs from the line of its first character to the line in which the replaced text ends |
| `TextEdits.GetReplacementLineRange` | extensions/unified-edit-fallback/upstream.ts:264-289 | the range holds the lines of the first and the last replaced character, if both lie in the base |
| `TextEdits.GroupByLines` | extensions/unified-edit-fallback/upstream.ts:312-323 | replacements that share a line form one group |
| `TextEdits.ApplyReplacementsPreservingUnchangedLines` | extensions/unified-edit-fallback/upstream.ts:302-343 | the method computes the grouped form with all its error cases |
| `Splicing.BackToFrontIsRebuild` | extensions/unified-edit-fallback/upstream.ts:291-300 | ordered replacements applied from the back equal one pass from the left |
| `Splicing.RebuildIsWindow` | extensions/unified-edit-fallback/upstream.ts:291-300 | that pass keeps every uncovered position and puts each text where its replacement starts |
| `TextEditLaws.PreservingMeaning` | extensions/unified-edit-fallback/upstream.ts:302-343 | for disjoint replacements the result exists exactly when line counts agree and all lie in the base; untouched lines are the original ones and touched lines are read from the base |
| `TextEditLaws.PreservingRefinesPlain` | extensions/unified-edit-fallback/upstream.ts:302-343 | with equal base and original the grouped form is plain replacement |
| `TextEditLaws.PreservingIgnoresListing` | extensions/unified-edit-fallback/upstream.ts:312-313 | the listing of the replacements does not matter |
| `EditMatching.FindMatchIndex` | extensions/unified-edit-fallback/upstream.ts:365-373 | the first occurrence, on whole lines if asked for |
| `EditMatching.CountNeedleOccurrences` | extensions/unified-edit-fallback/upstream.ts:403-412 | the number of occurrences, on whole lines if asked for |
| `EditMatching.ApplyEditsToNormalizedContent` | extensions/unified-edit-fallback/upstream.ts:456-520 | the whole edit set with its errors: empty, not found, repeated, overlapping, no change |
| `EditMeaning.OutcomeIs` | extensions/unified-edit-fallback/upstream.ts:456-520 | the first thing wrong decides: an empty text, a text not found or counted twice, an overlap; otherwise the content is rewritten at the matches, unless that changes nothing |
| `EditMeaning.FindingIs` | extensions/unified-edit-fallback/upstream.ts:375-401 | the first exact match is taken where there is one, and else the first match of the normalized text |
| `EditMeaning.NormalizedLineEnds` | extensions/unified-edit-fallback/upstream.ts:456-460 | every line end becomes LF and nothing else changes |
| `EditMeaning.CountedLieApart` | extensions/unified-edit-fallback/upstream.ts:403-412 | as many occurrences as are counted lie apart |
| `EditMeaning.NoMoreLieApart` | extensions/unified-edit-fallback/upstream.ts:403-412 | and no more than are counted do |
| `WholeLineMeaning.CountIsCardinality` | extensions/unified-edit-fallback/upstream.ts:403-412 | whole-line counting counts every matching position once |
| `EditLaws.EditedIsDisjoint` | extensions/unified-edit-fallback/upstream.ts:499-508 | the matches of a successful set are disjoint |
| `EditLaws.FuzzyEditsKeepOtherLines` | extensions/unified-edit-fallback/upstream.ts:510-513 | a set that needed normalization leaves every line that no match touches as it was |
| `EditLaws.EditsIgnoreListing` | extensions/unified-edit-fallback/upstream.ts:456-520 | however the edits of a successful set are listed, the result is the same |
| `WholeLineEdits.MatchIffRun` | extensions/unified-edit-fallback/upstream.ts:357-373 | the text of a block matches on whole lines exactly where its rows stand |
| `WholeLineEdits.JoinedRebuild` | extensions/unified-edit-fallback/upstream.ts:291-300 | replacing the text of runs of rows is replacing the rows |
| `WholeLineEdits.EmptyLastRowIsIgnored` | extensions/unified-edit-fallback/upstream.ts:357-363 | a replaced block that ends in an empty row matches without looking for that row |
| `WholeLineMeaning.RunIsUnique` | extensions/unified-edit-fallback/upstream.ts:494-497 | a block that is not counted twice stands at one place at most |
| `WholeLineMeaning.WholeLineEditsReplaceRuns` | extensions/unified-edit-fallback/upstream.ts:456-520 | a successful exact whole-line set replaces one unique run of rows per edit and leaves all others alone |
| `WholeLineMeaning.EmptyLastRowJoinsRows` | extensions/unified-edit-fallback/upstream.ts:357-363 | a block ending in an empty row that is not there joins two rows |
| `RowText.ContentRoundTrip` | extensions/unified-edit-fallback/upstream.ts:555-564 | writing back a document that was read gives the same text |
| `RowText.DocumentRoundTrip` | extensions/unified-edit-fallback/upstream.ts:555-564 | a document survives writing and reading exactly when it is no single empty row and an empty last row is followed by a final newline |
| `RowOperations.WorkingDocument.Insert` | extensions/unified-edit-fallback/upstream.ts:820-830 | an insertion splices the rows in and forces a final newline at the end |
| `RowOperations.WorkingDocument.Remove` | extensions/unified-edit-fallback/upstream.ts:835-839 | a deletion removes the rows and the final newline of an empty file |
| `RowOperations.WorkingDocument.Apply` | extensions/unified-edit-fallback/upstream.ts:818-850 | one operation on the document in place, or its refusal |
| `RowOperations.ApplyRowOperations` | extensions/unified-edit-fallback/upstream.ts:815-853 | a script applies its operations in order up to the first refusal |
| `RowMeaning.InsertionShows` | extensions/unified-edit-fallback/upstream.ts:820-834 | inserted rows stand in front of or behind the line, at the end they force a final newline, and a line that is not there is refused |
| `RowMeaning.DeletionShows` | extensions/unified-edit-fallback/upstream.ts:835-839 | deleted lines are gone, the others stay, and a file left empty has no final newline |
| `RowMeaning.ReplacementIs` | extensions/unified-edit-fallback/upstream.ts:777-792 | rows are replaced, and where that fails the same replacement is tried with an empty row in place of each deleted block |
| `RowMeaning.ReplacementShows` | extensions/unified-edit-fallback/upstream.ts:777-792 | a replacement whose blocks stand there literally puts the new rows, or an empty one for a deletion that failed, in the only place of each block and leaves all other rows |
| `RowMeaning.DeletionLeavesEmptyRow` | extensions/unified-edit-fallback/upstream.ts:777-792 | deleting the first and the last of three rows leaves an empty row where the first was |
| `RowMeaning.AnchorShows` | extensions/unified-edit-fallback/upstream.ts:794-813 | rows inserted at an anchor stand beside the one place where its rows are |
| `RowOperations.DeleteUndoesInsert` | extensions/unified-edit-fallback/upstream.ts:820-839 | deleting inserted rows restores the lines, and the document exactly when the final newline was not forced or lost |
| `PatchSplice.SeekSequence` | extensions/unified-edit-fallback/upstream.ts:1041-1065 | the first position under the strictest comparison that finds the lines |
| `PatchSplice.LocateOne` | extensions/unified-edit-fallback/upstream.ts:1073-1094 | a hunk is placed behind its context, dropping a trailing empty line if needed |
| `PatchSplice.DeriveUpdatedContent` | extensions/unified-edit-fallback/upstream.ts:1067-1102 | the patched content, or the first hunk that cannot be found |
| `PatchLaws.SplicesAreForwardPass` | extensions/unified-edit-fallback/upstream.ts:1073-1099 | hunks that match lines are in order and disjoint, and splicing from the back is one forward pass followed by the pure additions, last one first |
| `PatchLaws.DisjointHunksAreForwardPass` | extensions/unified-edit-fallback/upstream.ts:1096-1099 | hunks at disjoint places, wherever found, make one forward pass |
| `PatchLaws.MissingEmptyLine` | extensions/unified-edit-fallback/upstream.ts:1084-1090 | an empty old line that is not there leaves a hunk without lines |
| `PatchLaws.EmptyHunkIsOverwritten` | extensions/unified-edit-fallback/upstream.ts:1096-1099 | such a hunk is overwritten by the next one at the same place |
| `PatchLaws.ForwardPassIffHarmless` | extensions/unified-edit-fallback/upstream.ts:1096-1099 | a hunk without lines and the next one at its place give one forward pass over every file exactly when the first writes nothing, or neither matches lines and the order of their texts makes no difference |
| `PatchMeaning.SeekIs` | extensions/unified-edit-fallback/upstream.ts:1041-1065 | a position is found exactly when it is the first one under the strictest comparison that finds the lines at all, at the end of the file only as the last lines |
| `PatchMeaning.HunkIs` | extensions/unified-edit-fallback/upstream.ts:1079-1094 | a hunk goes where its old lines stand, or where they stand without an empty last one, and fails exactly when they stand nowhere |
| `PatchMeaning.ChunkIs` | extensions/unified-edit-fallback/upstream.ts:1073-1094 | a context sends its hunk behind the first line like it, and the hunk fails exactly when there is none |
| `PatchMeaning.LocationIs` | extensions/unified-edit-fallback/upstream.ts:1067-1095 | each hunk goes to its place behind the one before it, and the first without a place fails the patch |
| `PatchLaws.EndedIs` | extensions/unified-edit-fallback/upstream.ts:1098-1102 | a patched file ends each of its lines with a line feed |
| `SseSplit.SplitStream` | extensions/codex-compaction/native-compaction.ts:671-683 | the read loop computes blocks and buffer |
| `SseSplit.FrameIsExact` | extensions/codex-compaction/native-compaction.ts:675-680 | the blocks make up the text and each ends at its first empty line |
| `SseSplit.ReceivedIsFramed` | extensions/codex-compaction/native-compaction.ts:671-683 | without CR CR LF the blocks are those of the whole text |
| `SseSplit.ChunkingIsIrrelevantIff` | extensions/codex-compaction/native-compaction.ts:671-683 | blocks and remainder do not depend on how a text is cut exactly when it has no CR CR LF |
| `SseFlush.FlushedChunkingIsIrrelevantIff` | extensions/codex-compaction/native-compaction.ts:671-683 | for streams that end in a flush, they do not exactly when reading at once leaves no CR LF in a closed block, nor in the remainder once it is normalized again |
| `SseFlush.FlushIsBare` | extensions/codex-compaction/native-compaction.ts:671-683 | then they are the blocks of the text without its carriage returns before line feeds |
| `SseFlush.BlockKeepsCr` | extensions/codex-compaction/native-compaction.ts:671-683 | a text whose block keeps a CR when read at once and loses it when read in two chunks |
| `CodexHistory.FlushOrphanedToolCalls` | extensions/codex-compaction/native-compaction.ts:192-197 | every pending call gets an output, oldest first |
| `CodexHistory.AppendBlocks` | extensions/codex-compaction/native-compaction.ts:214-257 | the blocks of one assistant message in order |
| `CodexHistory.MessagesToResponseItems` | extensions/codex-compaction/native-compaction.ts:188-290 | the serializer loop |
| `CodexLaws.EveryCallIsAnswered` | extensions/codex-compaction/native-compaction.ts:188-290 | each call is followed by an output of its id before any item of a later turn and before the end |
| `CodexLaws.OutputsOfACall` | extensions/codex-compaction/native-compaction.ts:188-290 | a call has one output per result, and one more exactly when no result for its id comes before the next turn |
| `CodexLaws.AnsweredOnceIff` | extensions/codex-compaction/native-compaction.ts:188-290 | a call with its own call id is answered once exactly when its one result comes in time or there is none |
| `CodexLaws.FateMeans` | extensions/codex-compaction/native-compaction.ts:258-262 | a call is resolved exactly when a result for its id comes before the next turn |
| `CodexMeaning.ConversationIsSaid` | extensions/codex-compaction/native-compaction.ts:188-290 | the serialized items are what each message says, in order, with one output per open call before each turn and at the end |
| `CodexMeaning.CallIdIs` | extensions/codex-compaction/native-compaction.ts:246-247 | a call id is what stands before the first bar |
| `RetainedMessages.TruncateParts` | extensions/codex-compaction/native-compaction.ts:443-458 | the loop over the parts with its running counters, for any rounding of the shares |
| `RetainedMessages.RetainRecentUserMessages` | extensions/codex-compaction/native-compaction.ts:462-479 | the loop over the messages from the last one back |
| `RetainedLaws.TruncatedLength` | extensions/codex-compaction/native-compaction.ts:443-458 | for any rounding, truncation keeps the limit, less what short parts leave of their shares, plus the parts whose share is zero |
| `RetainedLaws.CutFitsIff` | extensions/codex-compaction/native-compaction.ts:434-460 | a cut message takes no more than was left of the budget exactly when its excess is at most what its parts left unused |
| `RetainedLaws.BudgetKeptIff` | extensions/codex-compaction/native-compaction.ts:462-479 | for any rounding, the retained messages fit the budget exactly when nothing was cut or the text that came back whole for want of a share is at most what the other parts left unused |
| `RetainedLaws.BudgetKeptWithoutStarving` | extensions/codex-compaction/native-compaction.ts:449-450 | for any rounding, the budget is kept if every part with text is given at least one character |
| `RetainedLaws.ZeroShareBreaksBudget` | extensions/codex-compaction/native-compaction.ts:426 | two texts too long for the budget, the first of which has a share of zero, always break it |
| `RetainedLaws.RoundingBreaksBudget` | extensions/codex-compaction/native-compaction.ts:449-450 | texts of 2 and 390 characters with 49 tokens left take more, because 2 / 392 * 196 is less than 1 in double precision |
| `RetainedLaws.RetainedIsSuffix` | extensions/codex-compaction/native-compaction.ts:462-479 | they are a verbatim suffix of the non-blank user messages after at most one cut older one, and nothing is left out while budget remains |
| `RetainedLaws.MiddleIs` | extensions/codex-compaction/native-compaction.ts:426-434 | a text that does not fit keeps its two ends, about equal, around one mark |
| `RetainedLaws.PartsAreCut` | extensions/codex-compaction/native-compaction.ts:443-458 | a cut message keeps its parts in order, each text cut to its share |
| `WaitCompaction.OutstandingDetachedRuns` | extensions/advisor-core/wait-compaction.ts:72-111 | the scan returns exactly the outstanding runs in the order of their first launches |
| `WaitCompaction.FilterRuns` | extensions/advisor-core/wait-compaction.ts:108-110 | the final filter over the launch map |
| `WaitCompaction.ReturnedIffOutstanding` | extensions/advisor-core/wait-compaction.ts:72-111 | a run is returned exactly when nothing ended it after its last promoted launch, it was not killed, and that launch is recent or has no readable time |
| `WaitCompaction.RelaunchRevives` | extensions/advisor-core/wait-compaction.ts:92-95 | a further launch makes a run outstanding again unless it was killed or is too old |
| `WaitCompaction.ReturnedInOrder` | extensions/advisor-core/wait-compaction.ts:72-111 | the runs returned are in the order of their first launches, none twice |
| `WaitCompaction.WhatEntriesSay` | extensions/advisor-core/wait-compaction.ts:83-106 | which tool results and messages launch and settle a run |

## Left out

- The JSON Schema of events and its check: events are well-typed values, and a line of a trace file either is one or does not parse.
- Texts of problems, reasons, labels, goals and other payload that no rule reads; a problem is its rule and its event number.
- Reading of Markdown: a result file is a record of what the reader finds in it (blank, problems, notes, status, status text, deviations).
- Several state roots, harness identities and session liveness: the model has one root, launches with a recoverable identity, and one session until a reset.
- The tool handlers are atomic apart from the stop result; a launch result in particular, although it removes its pending entry before it waits for files. Locks around appends are mutual exclusion.
- A blocked node that is cancelled, then resumed and only then killed writes no result evidence for the new attempt; the lemmas about settlements keep that branch.
- Validation of roles and other parameters of a graph, role warnings and the saved manifest file.
- `AdvisorGraph.ReadyNodes`: identifiers are compared by an arbitrary total order; a locale order that equates different identifiers is not one.
- `SchemaMeaning.RewriteKeepsMeaning`: references (`$ref` and its kin), `dependencies` and keywords that only 2020-12 has are not modelled; a reference through `items` dangles once its target has moved, and `dependencies` has no meaning in 2020-12. Other keywords mean the same in both drafts, and their values hold no tuples.
- Normalization of characters in the fuzzy matcher is a parameter; only `WholeLineMeaning.RunIsUnique` and the results built on it ask that it works row by row.
- The row and patch parsers: operations and hunks are given. Trimming comparisons of patch lines are parameters.
- Which two edits overlap is not part of the overlap error.
- `SseSplit.SplitStream`: decoding of bytes to text and the fields inside a block; the last remainder is returned, and dropping it when blank is left to the caller.
- `SseFlush.FlushedChunkingIsIrrelevantIff`: the flush yields no text of its own, as for a stream that ends on a whole character.
- Item ids, reasoning payload and images of serialized conversations.
- `RetainedMessages.TruncateParts`: floating-point division is a parameter; all that is used of it is that a share is at most what is left, all of it for the last text and nothing for an empty one.
- `Snapshot.ParseSnapshot`: file access, identity checks and the size limit of the file; decoding and JSON parsing are parameters.
- Compaction requests, the decision whether to compact, panels, network clients, plugin settings and prompt assembly.
