/**
 What the host appends to a run's trace, as functions of the whole history: the drafts of
 each step and the stamping of drafts into numbered, timestamped events.
 */
module TraceWriter {
  import opened Options
  import opened TraceEvents
  import opened TraceHistory

  const ROOT_NODE := "advisor"

  // ---------------------------------------------------------------- inputs

  /** A result file on disk; markdown is reduced to the parts that the host reads from it. */
  datatype File =
    | Unreadable(problem: string)
    | Text(blank: bool, status: Option<string>, statusBody: Option<string>,
           deviations: seq<string>, notes: seq<string>)

  datatype Artifact = Artifact(
    present: bool,
    path: Option<string>,
    valid: bool,
    status: Option<string>,
    problems: seq<string>,
    notes: seq<string>,
    statusBody: Option<string>,
    deviations: seq<string>)

  datatype AgentState = AgentDone | AgentIdle | AgentBlocked | AgentStalled | AgentOther

  /** Evidence that a detached run ended. `token` is the identity of the delivery. */
  datatype Evidence = Evidence(
    token: nat,
    runId: string,
    killed: bool,
    agentState: AgentState,
    agentName: Option<string>,
    resultPath: Option<string>,
    note: Option<string>,
    tail: string,
    closeOnSettle: Option<bool>,
    reusable: Option<bool>)

  datatype Manifest = Manifest(waves: seq<seq<string>>)

  datatype LaunchRequest = LaunchRequest(
    node: string,
    manifest: Option<Manifest>,
    wave: int,
    resultPath: Option<string>,
    detachRun: string,
    agentName: Option<string>)
  {
    predicate Valid() {
      manifest.Some? ==> 1 <= wave <= |manifest.value.waves|
    }
  }

  // ---------------------------------------------------------------- artifacts and statuses

  function Absent(path: Option<string>, problem: string): Artifact {
    Artifact(false, path, false, None, [problem], [], None, [])
  }

  function Inspect(path: Option<string>, files: map<string, File>): (artifact: Artifact)
    ensures artifact.present <==> artifact.valid
    ensures artifact.present ==> TruthyText(artifact.path)
    ensures artifact.status.Some? ==> artifact.present && TruthyText(artifact.status)
  {
    if !TruthyText(path) then Absent(None, "result artifact path is missing")
    else if path.value !in files then Absent(path, "result artifact is missing")
    else match files[path.value]
      case Unreadable(problem) => Absent(path, problem)
      case Text(blank, status, statusBody, deviations, notes) =>
        if blank then Absent(path, "result artifact is empty")
        else Artifact(true, path, true, if TruthyText(status) then status else None, [], notes, statusBody, deviations)
  }

  function NativeStatus(s: Evidence): Status {
    if s.killed then Cancelled else
    match s.agentState
    case AgentDone => Done
    case AgentIdle => Done
    case AgentBlocked => Blocked
    case AgentStalled => Stalled
    case AgentOther => Failed
  }

  function SurfaceClosed(s: Evidence): Option<bool> {
    var successful := s.agentState == AgentDone || s.agentState == AgentIdle;
    if s.closeOnSettle.Some? then Some(successful && s.closeOnSettle.value)
    else if s.reusable.Some? then Some(successful && !s.reusable.value)
    else None
  }

  function RequestText(s: Evidence, artifact: Artifact): string {
    if artifact.statusBody.Some? then artifact.statusBody.value
    else if s.note.Some? then s.note.value
    else if s.tail != "" then s.tail else "Agent is blocked and needs a decision."
  }

  // ---------------------------------------------------------------- scans

  function Bodies(events: seq<Event>): (bodies: seq<Body>)
    ensures |bodies| == |events|
  {
    seq(|events|, i requires 0 <= i < |events| => events[i].body)
  }

  /** The last settle-or-resume event about the node is a settlement. */
  predicate NodeIsSettled(bodies: seq<Body>, node: string) {
    bodies != [] &&
    var b := Last(bodies);
    if IsAct(b, node, KSettled) then true
    else if IsAct(b, node, KResumed) then false
    else NodeIsSettled(Front(bodies), node)
  }

  predicate WaveStartedIn(events: seq<Event>, wave: int) {
    exists e :: e in events && e.body.WaveStarted? && e.body.wave == wave
  }

  predicate WaveCompletedIn(events: seq<Event>, wave: int) {
    exists e :: e in events && e.body.WaveCompleted? && e.body.wave == wave
  }

  function FirstPlan(events: seq<Event>): Option<seq<seq<string>>> {
    if events == [] then None
    else if events[0].body.GraphPlanned? then Some(events[0].body.waves)
    else FirstPlan(events[1..])
  }

  /** The position of the first wave that lists the node, or the number of waves. */
  function WaveIndex(plan: seq<seq<string>>, node: string): (i: nat)
    ensures i <= |plan|
    ensures i < |plan| ==> node in plan[i]
  {
    if plan == [] || node in plan[0] then 0 else 1 + WaveIndex(plan[1..], node)
  }

  function LatestGeneration(events: seq<Event>, parent: string): int {
    if events == [] then 0 else
    var latest, b := LatestGeneration(Front(events), parent), Last(events).body;
    if b.Awakened? && b.node == parent then Max(latest, b.generation) else latest
  }

  function NextGeneration(events: seq<Event>, parent: string): int {
    LatestGeneration(events, parent) + 1
  }

  predicate NodeCanCancel(events: seq<Event>, node: string) {
    var settlement := LastAct(events, node, KSettled);
    settlement.None? || Later(LastAct(events, node, KResumed), settlement.value)
    || settlement.value.body.act.outcome == Blocked
  }

  function NoOr0(found: Option<Event>): int {
    if found.Some? then found.value.no else 0
  }

  // ---------------------------------------------------------------- drafts of one settlement

  predicate OpenAttempt(events: seq<Event>, node: string) {
    Current(events, node, KSettled).None?
  }

  /** A kill that may close a blocked settlement because a cancel request came after it. */
  predicate BlockedCancellation(events: seq<Event>, s: Evidence, node: string) {
    var settlement := LastAct(events, node, KSettled);
    && NativeStatus(s) == Cancelled
    && settlement.Some? && settlement.value.body.act.outcome == Blocked
    && NoOr0(LastAct(events, node, KCancel)) > settlement.value.no
  }

  function SettledStatus(s: Evidence, artifact: Artifact): Status {
    var native := NativeStatus(s);
    if (native == Done || native == Blocked) && !artifact.valid then Stalled else native
  }

  function ResultActs(events: seq<Event>, artifact: Artifact, node: string): seq<Act>
    requires artifact.path.Some?
  {
    [ResultWritten(artifact.path.value)]
    + (if artifact.deviations != [] && Current(events, node, KDeviation).None? then [Deviation(artifact.deviations)]
       else [])
    + [ResultValidated(artifact.path.value, artifact.valid,
                       if artifact.valid then artifact.notes else artifact.problems,
                       if artifact.valid then artifact.status else None)]
  }

  predicate WritesEvidence(events: seq<Event>, s: Evidence, artifact: Artifact, node: string) {
    !BlockedCancellation(events, s, node) && artifact.present && TruthyText(artifact.path)
  }

  function SettlementActs(events: seq<Event>, s: Evidence, artifact: Artifact, node: string): seq<Act> {
    (if NativeStatus(s) == Blocked && Current(events, node, KBlocked).None?
     then [BlockedOn(RequestText(s, artifact))] else [])
    + (if WritesEvidence(events, s, artifact, node) then ResultActs(events, artifact, node) else [])
    + [Settled(SettledStatus(s, artifact), if artifact.valid then artifact.status else None, SurfaceClosed(s))]
  }

  function About(node: string, parent: string, acts: seq<Act>): (bodies: seq<Body>)
    ensures |bodies| == |acts|
  {
    seq(|acts|, i requires 0 <= i < |acts| => Lifecycle(node, parent, acts[i]))
  }

  function WaveDrafts(events: seq<Event>, drafts: seq<Body>, node: string): seq<Body> {
    var plan := FirstPlan(events);
    if plan.None? then [] else
    var i := WaveIndex(plan.value, node);
    if i < |plan.value| && WaveStartedIn(events, i + 1) && !WaveCompletedIn(events, i + 1)
       && forall c :: c in plan.value[i] ==> NodeIsSettled(Bodies(events) + drafts, c)
    then [WaveCompleted(i + 1, plan.value[i])] else []
  }

  /** The settlement of one attempt and the wake of its parent. */
  function CoreDrafts(events: seq<Event>, s: Evidence, artifact: Artifact, node: string, parent: string): seq<Body> {
    About(node, parent, SettlementActs(events, s, artifact, node))
    + [Awakened(parent, node, SettledStatus(s, artifact), NextGeneration(events, parent))]
  }

  predicate Settles(events: seq<Event>, s: Evidence, node: string) {
    node != "" && (OpenAttempt(events, node) || BlockedCancellation(events, s, node))
  }

  function SettlementDrafts(events: seq<Event>, s: Evidence, artifact: Artifact, node: string): seq<Body> {
    var launch := LaunchOf(events, node);
    if launch.None? || launch.value.body.parent == "" || !Settles(events, s, node) then [] else
    var core := CoreDrafts(events, s, artifact, node, launch.value.body.parent);
    core + WaveDrafts(events, core, node)
  }

  function ArtifactFor(events: seq<Event>, s: Evidence, files: map<string, File>, node: string): Artifact {
    var launch := LaunchOf(events, node);
    Inspect(if s.resultPath.Some? then s.resultPath
            else if launch.Some? then launch.value.body.resultPath else None, files)
  }

  // ---------------------------------------------------------------- drafts of the other steps

  function CancelDrafts(events: seq<Event>, node: string, parent: string): seq<Body> {
    var resume, settlement := LastAct(events, node, KResumed), LastAct(events, node, KSettled);
    if !NodeCanCancel(events, node) || NoOr0(LastAct(events, node, KCancel)) > Max(NoOr0(resume), NoOr0(settlement))
    then [] else About(node, parent, [CancelRequested])
  }

  predicate AwaitsReply(events: seq<Event>, node: string) {
    && Outcome(events, node) == Some(Blocked)
    && LastAct(events, node, KBlocked).Some?
  }

  function ReplyActs(events: seq<Event>, node: string, text: string): seq<Act>
    requires AwaitsReply(events, node)
  {
    [ReplySent(text, Some(LastAct(events, node, KBlocked).value.no)), Resumed(Reply)]
  }

  function ReplyDrafts(events: seq<Event>, node: string, parent: string, text: string): seq<Body> {
    if !AwaitsReply(events, node) then [] else
    About(node, parent, ReplyActs(events, node, text))
  }

  function WaveLaunchDrafts(events: seq<Event>, req: LaunchRequest): seq<Body>
    requires req.Valid()
  {
    if req.manifest.None? then [] else
    (if FirstPlan(events).None? then [GraphPlanned(req.manifest.value.waves)] else [])
    + (if WaveStartedIn(events, req.wave) then [] else [WaveStarted(req.wave, req.manifest.value.waves[req.wave - 1])])
  }

  function NodeLaunchDrafts(events: seq<Event>, req: LaunchRequest): seq<Body> {
    if LaunchOf(events, req.node).Some? then []
    else [Launched(req.node, ROOT_NODE, req.resultPath, Some(req.detachRun), req.agentName)]
  }

  function LaunchDrafts(events: seq<Event>, req: LaunchRequest): seq<Body>
    requires req.Valid()
  {
    (if events == [] then [RunCreated(ROOT_NODE)] else [])
    + WaveLaunchDrafts(events, req) + NodeLaunchDrafts(events, req)
  }

  // ---------------------------------------------------------------- appending

  function AppendTime(events: seq<Event>, now: int): int {
    if events == [] then now else Max(now, Last(events).at)
  }

  function Stamp(drafts: seq<Body>, first: int, at: int, run: string): (events: seq<Event>)
    ensures |events| == |drafts|
  {
    seq(|drafts|, i requires 0 <= i < |drafts| => Event(first + i, at, run, drafts[i]))
  }

  function LastNo(events: seq<Event>): int {
    if events == [] then 0 else Last(events).no
  }

  function Appended(events: seq<Event>, drafts: seq<Body>, now: int, run: string): seq<Event> {
    if drafts == [] then events
    else events + Stamp(drafts, LastNo(events) + 1, AppendTime(events, now), run)
  }
}
