/**
 The host adapter as a state machine over the events it receives. Handlers are atomic, except the
 result of a stop, which first appends its request and later clears its entry and releases what
 it parked. Evidence that arrives early or under a pending stop waits in one of two buffers.
 */
module HostModel {
  import opened Options
  import opened TraceEvents
  import opened TraceHistory
  import opened TraceWriter

  datatype Target = Target(run: string, node: string, parent: string, detachRun: string, agentName: Option<string>)

  /** A settlement as delivered; `byName` allows correlation by agent name. */
  datatype Delivery = Delivery(evidence: Evidence, byName: bool)

  /** An entry of the pending stops; `serial` is the identity of the entry. */
  datatype Stop = Stop(serial: nat, runId: string)

  /** One successful settlement: which delivery, in which run, and where its first event stands. */
  datatype Application = Application(token: nat, run: string, at: nat)

  datatype GraphBlock = GraphBlock(graph: string, wave: int, node: string)

  datatype RawManifest = RawManifest(graphId: string, waves: seq<seq<string>>, maxParallel: int, maxRepairLoops: int)

  datatype LaunchInput = LaunchInput(prompt: Option<string>, block: Option<GraphBlock>)

  /** What a launch reports; `identified` says that the harness identity could be recovered. */
  datatype LaunchDetails = LaunchDetails(
    runId: Option<string>,
    existing: bool,
    agentName: Option<string>,
    role: string,
    identified: bool,
    resultPath: Option<string>,
    promoted: Option<bool>,
    inline: Evidence)

  /** Clock, result files, directory listing and manifests as a handler finds them. */
  datatype Env = Env(now: int, files: map<string, File>, dir: seq<string>, manifests: map<string, RawManifest>)

  datatype Host = Host(
    traces: map<string, seq<Event>>,
    pending: map<string, LaunchInput>,
    stops: map<string, Stop>,
    early: map<string, Delivery>,
    held: map<string, Delivery>,
    targets: map<string, Target>,
    finishing: multiset<(string, Stop)>,
    serial: nat,
    applied: seq<Application>)

  datatype Input =
    | LaunchCall(call: string, input: LaunchInput)
    | StopCall(call: string, runId: Option<string>)
    | Observed(delivery: Delivery)
    | LaunchResult(call: string, details: LaunchDetails)
    | StopResult(call: string, stopped: bool, reported: Option<string>)
    | StopFinish(call: string, stop: Stop)
    | Reset

  function TraceOf(traces: map<string, seq<Event>>, run: string): seq<Event> {
    if run in traces then traces[run] else []
  }

  // ---------------------------------------------------------------- correlation

  datatype Match = ByRun(detachRun: string) | ByName(agentName: string, blocked: bool)

  predicate Matches(events: seq<Event>, e: Event, match_: Match) {
    var b := e.body;
    && b.Launched? && b.node != "" && b.parent != "" && TruthyText(b.detachRun)
    && match match_
       case ByRun(detachRun) => b.detachRun.value == detachRun
       case ByName(agentName, blocked) =>
         b.agentName == Some(agentName) && (blocked ==> Outcome(events, b.node) == Some(Blocked))
  }

  function TargetOf(e: Event): Target
    requires e.body.Launched? && e.body.detachRun.Some?
  {
    Target(e.run, e.body.node, e.body.parent, e.body.detachRun.value, e.body.agentName)
  }

  datatype Latest = Nothing | Latest(at: int, target: Target)

  function Newer(best: Latest, e: Event): Latest
    requires e.body.Launched? && e.body.detachRun.Some?
  {
    if best.Nothing? || e.at >= best.at then Latest(e.at, TargetOf(e)) else best
  }

  /** The latest matching launch among the first n events; ties go to the later event. */
  function LatestIn(events: seq<Event>, n: nat, match_: Match, best: Latest): Latest
    requires n <= |events|
  {
    if n == 0 then best else
    var sofar := LatestIn(events, n - 1, match_, best);
    if Matches(events, events[n - 1], match_) then Newer(sofar, events[n - 1]) else sofar
  }

  function LatestAcross(traces: map<string, seq<Event>>, dir: seq<string>, match_: Match): Latest {
    if dir == [] then Nothing else
    var events := TraceOf(traces, Last(dir));
    LatestIn(events, |events|, match_, LatestAcross(traces, Front(dir), match_))
  }

  function FindTracked(traces: map<string, seq<Event>>, dir: seq<string>, match_: Match): Option<Target> {
    var found := LatestAcross(traces, dir, match_);
    if found.Nothing? then None else Some(found.target)
  }

  function StopTarget(h: Host, runId: string, env: Env): Option<Target> {
    if runId in h.targets then Some(h.targets[runId]) else FindTracked(h.traces, env.dir, ByRun(runId))
  }

  function Resolve(h: Host, d: Delivery, env: Env): Option<Target> {
    var byRun := StopTarget(h, d.evidence.runId, env);
    if byRun.Some? then byRun
    else if d.byName && d.evidence.agentName.Some?
    then FindTracked(h.traces, env.dir, ByName(d.evidence.agentName.value, false))
    else None
  }

  // ---------------------------------------------------------------- appending and settling

  function Write(traces: map<string, seq<Event>>, run: string, drafts: seq<Body>, now: int): map<string, seq<Event>> {
    if drafts == [] then traces else traces[run := Appended(TraceOf(traces, run), drafts, now, run)]
  }

  function EvidenceDrafts(h: Host, d: Delivery, target: Target, env: Env): seq<Body> {
    var events := TraceOf(h.traces, target.run);
    SettlementDrafts(events, d.evidence, ArtifactFor(events, d.evidence, env.files, target.node), target.node)
  }

  predicate Applies(h: Host, d: Delivery, env: Env) {
    var target := Resolve(h, d, env);
    target.Some? && EvidenceDrafts(h, d, target.value, env) != []
  }

  function Settle(h: Host, d: Delivery, env: Env): Host {
    if !Applies(h, d, env) then h else
    var target := Resolve(h, d, env).value;
    h.(traces := Write(h.traces, target.run, EvidenceDrafts(h, d, target, env), env.now),
       applied := h.applied + [Application(d.evidence.token, target.run, |TraceOf(h.traces, target.run)|)])
  }

  predicate StopPending(h: Host, runId: string) {
    exists call :: call in h.stops && h.stops[call].runId == runId
  }

  function Observe(h: Host, d: Delivery, env: Env): Host {
    var key := d.evidence.runId;
    if StopPending(h, key) then
      if key !in h.held || d.evidence.killed then h.(held := h.held[key := d]) else h
    else
      var after := Settle(h, d, env);
      if !Applies(h, d, env) && |after.pending| > 0 then after.(early := after.early[key := d]) else after
  }

  function Release(h: Host, runId: string, env: Env): Host {
    if runId !in h.held then h else Observe(h.(held := h.held - {runId}), h.held[runId], env)
  }

  // ---------------------------------------------------------------- handlers

  function CallStop(h: Host, call: string, runId: Option<string>): Host {
    if !TruthyText(runId) then h
    else h.(stops := h.stops[call := Stop(h.serial, runId.value)], serial := h.serial + 1)
  }

  predicate StopAccepted(stop: Stop, stopped: bool, reported: Option<string>) {
    stopped && TruthyText(reported) && reported.value == stop.runId
  }

  /** The first half of a stop result: the cancel request. */
  function BeginStopResult(h: Host, call: string, stopped: bool, reported: Option<string>, env: Env): Host {
    if call !in h.stops then h else
    var stop := h.stops[call];
    var target := StopTarget(h, stop.runId, env);
    var traces :=
      if StopAccepted(stop, stopped, reported) && target.Some?
      then Write(h.traces, target.value.run,
                 CancelDrafts(TraceOf(h.traces, target.value.run), target.value.node, target.value.parent), env.now)
      else h.traces;
    h.(traces := traces, finishing := h.finishing + multiset{(call, stop)})
  }

  /** The second half: clear the entry, unless it was replaced meanwhile, and release the parked evidence. */
  function FinishStopResult(h: Host, call: string, stop: Stop, env: Env): Host {
    if (call, stop) !in h.finishing then h else
    var cleared := h.(finishing := h.finishing - multiset{(call, stop)},
                      stops := if call in h.stops && h.stops[call] == stop then h.stops - {call} else h.stops);
    Release(cleared, stop.runId, env)
  }

  function UsableManifest(block: GraphBlock, env: Env): (manifest: Option<Manifest>)
    ensures manifest.Some? ==> 1 <= block.wave <= |manifest.value.waves|
                               && block.node in manifest.value.waves[block.wave - 1]
  {
    if block.graph !in env.manifests then None else
    var raw := env.manifests[block.graph];
    if raw.graphId != block.graph || !(0 <= block.wave - 1 < |raw.waves|) || block.node !in raw.waves[block.wave - 1]
       || raw.maxParallel < 1 || raw.maxRepairLoops < 0
    then None else Some(Manifest(raw.waves))
  }

  function ManifestFor(input: LaunchInput, env: Env): Option<Manifest> {
    if input.prompt.Some? && input.block.Some? then UsableManifest(input.block.value, env) else None
  }

  /** The run, and the request, that a traced launch writes. */
  function LogicalRun(input: LaunchInput, runId: string, env: Env): string {
    if ManifestFor(input, env).Some? then "graph-" + input.block.value.graph else runId
  }

  function RequestFor(input: LaunchInput, details: LaunchDetails, runId: string, env: Env): (req: LaunchRequest)
    ensures req.Valid()
  {
    var manifest := ManifestFor(input, env);
    LaunchRequest(if manifest.Some? then input.block.value.node else details.role + "-" + runId,
                  manifest, if manifest.Some? then input.block.value.wave else 0,
                  details.resultPath, runId, details.agentName)
  }

  /** Settles the evidence that came before the launch result, or else the inline one. */
  function SettleEarly(h: Host, runId: string, details: LaunchDetails, env: Env): Host {
    if runId in h.early then Settle(h.(early := h.early - {runId}), h.early[runId], env)
    else if details.promoted == Some(false)
    then Settle(h, Delivery(details.inline.(runId := runId), true), env)
    else h
  }

  function ReplyTarget(h: Host, input: LaunchInput, details: LaunchDetails, env: Env): Option<Target> {
    if details.existing && TruthyText(details.agentName) && TruthyText(input.prompt)
    then FindTracked(h.traces, env.dir, ByName(details.agentName.value, true)) else None
  }

  function ReplyTo(h: Host, target: Target, prompt: string, runId: string, env: Env): Host {
    h.(traces := Write(h.traces, target.run,
                       ReplyDrafts(TraceOf(h.traces, target.run), target.node, target.parent, prompt), env.now),
       targets := h.targets[runId := target.(detachRun := runId)])
  }

  function RecordLaunch(h: Host, input: LaunchInput, details: LaunchDetails, runId: string, env: Env): Host {
    var run, req := LogicalRun(input, runId, env), RequestFor(input, details, runId, env);
    h.(traces := Write(h.traces, run, LaunchDrafts(TraceOf(h.traces, run), req), env.now),
       targets := h.targets[runId := Target(run, req.node, ROOT_NODE, runId, details.agentName)])
  }

  function HandleLaunchResult(h0: Host, call: string, details: LaunchDetails, env: Env): Host {
    if call !in h0.pending then h0 else
    var input, h := h0.pending[call], h0.(pending := h0.pending - {call});
    if !TruthyText(details.runId) then h else
    var runId := details.runId.value;
    var reply := ReplyTarget(h, input, details, env);
    if reply.Some? then SettleEarly(ReplyTo(h, reply.value, input.prompt.value, runId, env), runId, details, env)
    else if !details.identified then h
    else SettleEarly(RecordLaunch(h, input, details, runId, env), runId, details, env)
  }

  function Clear(h: Host): Host {
    h.(pending := map[], stops := map[], early := map[], held := map[], targets := map[])
  }

  function Handle(h: Host, input: Input, env: Env): Host {
    match input
    case LaunchCall(call, launch) => h.(pending := h.pending[call := launch])
    case StopCall(call, runId) => CallStop(h, call, runId)
    case Observed(delivery) => Observe(h, delivery, env)
    case LaunchResult(call, details) => HandleLaunchResult(h, call, details, env)
    case StopResult(call, stopped, reported) => BeginStopResult(h, call, stopped, reported, env)
    case StopFinish(call, stop) => FinishStopResult(h, call, stop, env)
    case Reset => Clear(h)
  }

  const Idle := Host(map[], map[], map[], map[], map[], map[], multiset{}, 0, [])

  datatype Occurrence = Occurrence(input: Input, env: Env)

  function HandleAll(h: Host, inputs: seq<Occurrence>): Host
    decreases |inputs|
  {
    if inputs == [] then h else HandleAll(Handle(h, inputs[0].input, inputs[0].env), inputs[1..])
  }
}
