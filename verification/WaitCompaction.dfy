/** Which detached runs a session still waits for, read off its branch. */
module WaitCompaction {
  import opened Options

  /** Entries of a branch; an empty id is one that is absent, and a time may be unreadable. */
  datatype Entry =
    | ToolResult(toolName: string, runId: string, promoted: bool, stopped: bool, time: Option<int>)
    | CustomMessage(customType: string, id: string, runId: string)
    | OtherEntry

  const LaunchTools: set<string> := {"bg_agent", "bg_run", "bg_await"}
  const SettledTypes: set<string> := {"detach_finished", "detach_agent_settled", "detach_agent_paused"}

  /** The entry is a promoted launch of the run. */
  predicate Launches(entry: Entry, run: string) {
    run != "" && entry.ToolResult? && entry.runId == run && entry.toolName in LaunchTools && entry.promoted
  }

  /** The entry settles or stops the run. */
  predicate Settles(entry: Entry, run: string) {
    run != "" &&
    match entry
    case ToolResult(toolName, runId, promoted, stopped, _) =>
      runId == run && if toolName in LaunchTools then !promoted else toolName == "bg_stop" && stopped
    case CustomMessage(customType, id, runId) =>
      if customType in SettledTypes then run == (if id != "" then id else runId)
      else customType == "pi-detach-runtime" && run == runId
    case OtherEntry => false
  }

  // ---------------------------------------------------------------- the answer

  /** Entry i is the last promoted launch of the run. */
  ghost predicate LastLaunch(branch: seq<Entry>, run: string, i: nat) {
    i < |branch| && Launches(branch[i], run) && forall j :: i < j < |branch| ==> !Launches(branch[j], run)
  }

  ghost predicate UnsettledSince(branch: seq<Entry>, run: string, i: nat) {
    forall j :: i < j < |branch| ==> !Settles(branch[j], run)
  }

  predicate Fresh(time: Option<int>, now: int, maxAge: int) {
    time.None? || now - time.value <= maxAge
  }

  /** A run is waited for when nothing ended it after its last launch and that launch is recent enough. */
  ghost predicate Outstanding(branch: seq<Entry>, killed: set<string>, now: int, maxAge: int, run: string) {
    run !in killed &&
    exists i: nat ::
      LastLaunch(branch, run, i) && UnsettledSince(branch, run, i) && Fresh(branch[i].time, now, maxAge)
  }

  /** The launched runs in the order of their first launches. */
  function Launched(branch: seq<Entry>): seq<string> {
    if branch == [] then [] else
    var before, last := Launched(branch[..|branch| - 1]), branch[|branch| - 1];
    if last.ToolResult? && Launches(last, last.runId) && last.runId !in before then before + [last.runId] else before
  }

  ghost function OutstandingRuns(branch: seq<Entry>, killed: set<string>, now: int, maxAge: int,
                                 runs: seq<string>): seq<string> {
    if runs == [] then [] else
    var before, last := OutstandingRuns(branch, killed, now, maxAge, runs[..|runs| - 1]), runs[|runs| - 1];
    if Outstanding(branch, killed, now, maxAge, last) then before + [last] else before
  }

  // ---------------------------------------------------------------- the scan

  /** The keys, the launch times and the settled runs after part of the branch. */
  ghost predicate Scanned(branch: seq<Entry>, keys: seq<string>, launchedAt: map<string, Option<int>>,
                          settled: set<string>) {
    && keys == Launched(branch)
    && (forall run :: run in keys <==> run in launchedAt)
    && (forall run :: run in keys ==> ScannedRun(branch, run, launchedAt[run], run in settled))
  }

  /** The time of the last launch, and whether anything settled the run since. */
  ghost predicate ScannedRun(branch: seq<Entry>, run: string, time: Option<int>, isSettled: bool) {
    exists i: nat ::
      LastLaunch(branch, run, i) && branch[i].time == time && (isSettled <==> !UnsettledSince(branch, run, i))
  }

  lemma {:induction false} OneMoreEntry(branch: seq<Entry>, entry: Entry, run: string, time: Option<int>,
                                        isSettled: bool)
    requires ScannedRun(branch, run, time, isSettled) && !Launches(entry, run)
    ensures ScannedRun(branch + [entry], run, time, isSettled || Settles(entry, run))
  {
    var i: nat :| && LastLaunch(branch, run, i) && branch[i].time == time
                  && (isSettled <==> !UnsettledSince(branch, run, i));
    var all := branch + [entry];
    assert LastLaunch(all, run, i);
    if UnsettledSince(branch, run, i) && !Settles(entry, run) {
      assert UnsettledSince(all, run, i);
    } else if !UnsettledSince(branch, run, i) {
      var j :| i < j < |branch| && Settles(branch[j], run);
      assert all[j] == branch[j];
    } else {
      assert all[|branch|] == entry;
    }
  }

  lemma {:induction false} NewLaunch(branch: seq<Entry>, entry: Entry)
    requires entry.ToolResult? && Launches(entry, entry.runId)
    ensures ScannedRun(branch + [entry], entry.runId, entry.time, false)
  {
    var all := branch + [entry];
    assert all[|branch|] == entry;
    assert LastLaunch(all, entry.runId, |branch|) && UnsettledSince(all, entry.runId, |branch|);
  }

  /** What the map and the set say about a run is what the branch says. */
  lemma {:induction false} ScannedDecides(branch: seq<Entry>, run: string, time: Option<int>, isSettled: bool,
                                          killed: set<string>, now: int, maxAge: int)
    requires ScannedRun(branch, run, time, isSettled)
    ensures Outstanding(branch, killed, now, maxAge, run) <==> !isSettled && run !in killed && Fresh(time, now, maxAge)
  {
    var i: nat :| && LastLaunch(branch, run, i) && branch[i].time == time
                  && (isSettled <==> !UnsettledSince(branch, run, i));
    forall j: nat | LastLaunch(branch, run, j) ensures j == i {
      OneLastLaunch(branch, run, i, j);
    }
  }

  lemma {:induction false} OneLastLaunch(branch: seq<Entry>, run: string, i: nat, j: nat)
    requires LastLaunch(branch, run, i) && LastLaunch(branch, run, j)
    ensures i == j
  {
    assert Launches(branch[i], run) && Launches(branch[j], run);
  }

  /** The run that the entry settles, or an empty string. */
  function SettledBy(entry: Entry): (run: string)
    ensures forall r :: Settles(entry, r) <==> r != "" && r == run
  {
    match entry
    case ToolResult(toolName, runId, promoted, stopped, _) =>
      if (if toolName in LaunchTools then !promoted else toolName == "bg_stop" && stopped) then runId else ""
    case CustomMessage(customType, id, runId) =>
      if customType in SettledTypes then (if id != "" then id else runId)
      else if customType == "pi-detach-runtime" then runId else ""
    case OtherEntry => ""
  }

  lemma {:induction false} LaunchedSnoc(branch: seq<Entry>, entry: Entry)
    ensures Launched(branch + [entry]) ==
              var before := Launched(branch);
              if entry.ToolResult? && Launches(entry, entry.runId) && entry.runId !in before then
                before + [entry.runId]
              else before
  {
    assert (branch + [entry])[..|branch|] == branch;
  }

  lemma {:induction false} ScanLaunch(branch: seq<Entry>, entry: Entry, keys: seq<string>,
                                      launchedAt: map<string, Option<int>>, settled: set<string>)
    requires Scanned(branch, keys, launchedAt, settled) && entry.ToolResult? && Launches(entry, entry.runId)
    ensures Scanned(branch + [entry], if entry.runId in keys then keys else keys + [entry.runId],
                    launchedAt[entry.runId := entry.time], settled - {entry.runId})
  {
    hide ScannedRun;
    LaunchedSnoc(branch, entry);
    NewLaunch(branch, entry);
    forall run | run in keys && run != entry.runId
      ensures ScannedRun(branch + [entry], run, launchedAt[run], run in settled)
    {
      OneMoreEntry(branch, entry, run, launchedAt[run], run in settled);
      assert !Settles(entry, run);
    }
  }

  lemma {:induction false} ScanOther(branch: seq<Entry>, entry: Entry, keys: seq<string>,
                                     launchedAt: map<string, Option<int>>, settled: set<string>)
    requires Scanned(branch, keys, launchedAt, settled) && forall run :: !Launches(entry, run)
    ensures Scanned(branch + [entry], keys, launchedAt,
                    if SettledBy(entry) == "" then settled else settled + {SettledBy(entry)})
  {
    hide ScannedRun;
    LaunchedSnoc(branch, entry);
    var after := if SettledBy(entry) == "" then settled else settled + {SettledBy(entry)};
    forall run | run in keys ensures ScannedRun(branch + [entry], run, launchedAt[run], run in after) {
      OneMoreEntry(branch, entry, run, launchedAt[run], run in settled);
      LaunchedHaveNames(branch);
    }
  }

  lemma {:induction false} LaunchedHaveNames(branch: seq<Entry>)
    ensures "" !in Launched(branch)
  {
    if branch != [] {
      LaunchedHaveNames(branch[..|branch| - 1]);
    }
  }

  /** The runs returned are exactly the outstanding ones, in the order of their first launches. */
  method OutstandingDetachedRuns(branch: seq<Entry>, killed: set<string>, now: int, maxAge: int)
    returns (runs: seq<string>)
    ensures runs == OutstandingRuns(branch, killed, now, maxAge, Launched(branch))
  {
    hide Scanned, ScannedRun, Outstanding;
    var keys: seq<string>, launchedAt: map<string, Option<int>>, settled: set<string> := [], map[], {};
    NothingScanned();
    for i := 0 to |branch|
      invariant Scanned(branch[..i], keys, launchedAt, settled)
    {
      var entry := branch[i];
      assert branch[..i + 1] == branch[..i] + [entry];
      match entry {
        case ToolResult(toolName, runId, promoted, stopped, time) =>
          if runId == "" {
            ScanOther(branch[..i], entry, keys, launchedAt, settled);
            continue;
          }
          if toolName in LaunchTools && promoted {
            ScanLaunch(branch[..i], entry, keys, launchedAt, settled);
            if runId !in keys { keys := keys + [runId]; }
            launchedAt := launchedAt[runId := time];
            settled := settled - {runId};
          } else {
            ScanOther(branch[..i], entry, keys, launchedAt, settled);
            if toolName in LaunchTools || (toolName == "bg_stop" && stopped) { settled := settled + {runId}; }
          }
        case CustomMessage(customType, id, runId) =>
          ScanOther(branch[..i], entry, keys, launchedAt, settled);
          var named := if customType in SettledTypes then (if id != "" then id else runId)
                       else if customType == "pi-detach-runtime" then runId else "";
          if named != "" { settled := settled + {named}; }
        case OtherEntry =>
          ScanOther(branch[..i], entry, keys, launchedAt, settled);
      }
    }
    assert branch[..|branch|] == branch;
    runs := FilterRuns(branch, killed, now, maxAge, keys, launchedAt, settled);
  }

  lemma {:induction false} NothingScanned()
    ensures Scanned([], [], map[], {})
  {
  }

  /** The filter over the launch map. */
  method FilterRuns(ghost branch: seq<Entry>, killed: set<string>, now: int, maxAge: int,
                    keys: seq<string>, launchedAt: map<string, Option<int>>, settled: set<string>)
    returns (runs: seq<string>)
    requires Scanned(branch, keys, launchedAt, settled)
    ensures runs == OutstandingRuns(branch, killed, now, maxAge, Launched(branch))
  {
    hide Outstanding, ScannedRun;
    runs := [];
    for i := 0 to |keys|
      invariant runs == OutstandingRuns(branch, killed, now, maxAge, keys[..i])
    {
      var run := keys[i];
      assert keys[..i + 1][..i] == keys[..i];
      assert run in keys;
      ScannedDecides(branch, run, launchedAt[run], run in settled, killed, now, maxAge);
      if run !in settled && run !in killed && Fresh(launchedAt[run], now, maxAge) { runs := runs + [run]; }
    }
    assert keys[..|keys|] == keys;
  }

  // ---------------------------------------------------------------- laws

  lemma {:induction false} LaunchedIff(branch: seq<Entry>, run: string)
    ensures run in Launched(branch) <==> exists i :: 0 <= i < |branch| && Launches(branch[i], run)
    ensures forall i, j :: 0 <= i < j < |Launched(branch)| ==> Launched(branch)[i] != Launched(branch)[j]
  {
    if branch != [] {
      var n := |branch| - 1;
      LaunchedIff(branch[..n], run);
      if i :| 0 <= i < |branch| && Launches(branch[i], run) {
        assert i < n ==> branch[..n][i] == branch[i];
      }
      if i :| 0 <= i < n && Launches(branch[..n][i], run) {
        assert branch[i] == branch[..n][i];
      }
    }
  }

  lemma {:induction false} OutstandingRunsIff(branch: seq<Entry>, killed: set<string>, now: int, maxAge: int,
                                              runs: seq<string>, run: string)
    ensures run in OutstandingRuns(branch, killed, now, maxAge, runs)
       <==> run in runs && Outstanding(branch, killed, now, maxAge, run)
  {
    hide Outstanding;
    if runs != [] {
      OutstandingRunsIff(branch, killed, now, maxAge, runs[..|runs| - 1], run);
      assert runs == runs[..|runs| - 1] + [runs[|runs| - 1]];
    }
  }

  /** A run is returned exactly when it is outstanding, launched runs or not. */
  lemma {:induction false} ReturnedIffOutstanding(branch: seq<Entry>, killed: set<string>, now: int, maxAge: int,
                                                  run: string)
    ensures run in OutstandingRuns(branch, killed, now, maxAge, Launched(branch))
       <==> Outstanding(branch, killed, now, maxAge, run)
  {
    OutstandingRunsIff(branch, killed, now, maxAge, Launched(branch), run);
    LaunchedIff(branch, run);
    if Outstanding(branch, killed, now, maxAge, run) {
      var i: nat :| LastLaunch(branch, run, i) && UnsettledSince(branch, run, i) && Fresh(branch[i].time, now, maxAge);
      assert Launches(branch[i], run);
    }
  }

  /** Whatever settled a run before, a further launch makes it outstanding again unless it was killed or is too old. */
  lemma {:induction false} RelaunchRevives(branch: seq<Entry>, entry: Entry, killed: set<string>, now: int, maxAge: int)
    requires entry.ToolResult? && Launches(entry, entry.runId)
    ensures Outstanding(branch + [entry], killed, now, maxAge, entry.runId)
       <==> entry.runId !in killed && Fresh(entry.time, now, maxAge)
  {
    NewLaunch(branch, entry);
    ScannedDecides(branch + [entry], entry.runId, entry.time, false, killed, now, maxAge);
  }

  /** Which entries launch a run and which settle it, kind by kind. */
  lemma {:induction false} WhatEntriesSay(entry: Entry, run: string)
    ensures Launches(entry, run)
       <==> && run != "" && entry.ToolResult? && entry.runId == run && entry.promoted
            && (entry.toolName == "bg_agent" || entry.toolName == "bg_run" || entry.toolName == "bg_await")
    ensures Settles(entry, run)
       <==> run != "" && match entry
                         case ToolResult(tool, runId, promoted, stopped, _) =>
                           || (tool in ["bg_agent", "bg_run", "bg_await"] && runId == run && !promoted)
                           || (tool == "bg_stop" && runId == run && stopped)
                         case CustomMessage(kind, id, runId) =>
                           || (kind in ["detach_finished", "detach_agent_settled", "detach_agent_paused"]
                               && (id == run || (id == "" && runId == run)))
                           || (kind == "pi-detach-runtime" && runId == run)
                         case OtherEntry => false
  {
  }

  /** A launch counts up to the full age allowed, and always if its time cannot be read. */
  lemma {:induction false} AgeLimit(now: int, maxAge: int, time: int)
    ensures Fresh(None, now, maxAge)
    ensures Fresh(Some(time), now, maxAge) <==> time >= now - maxAge
  {
  }

  /** The position of the first promoted launch of a run, or the length of the branch. */
  function FirstLaunchAt(branch: seq<Entry>, run: string): (i: nat)
    ensures i <= |branch|
    ensures i < |branch| ==> Launches(branch[i], run)
    ensures forall j :: 0 <= j < i ==> !Launches(branch[j], run)
  {
    if branch == [] || Launches(branch[0], run) then 0 else
    assert forall j :: 1 <= j < |branch| ==> branch[j] == branch[1..][j - 1];
    1 + FirstLaunchAt(branch[1..], run)
  }

  /** The runs are in the order of their first launches, so none is there twice. */
  ghost predicate InLaunchOrder(branch: seq<Entry>, runs: seq<string>) {
    && (forall k :: 0 <= k < |runs| ==> FirstLaunchAt(branch, runs[k]) < |branch|)
    && forall k, l :: 0 <= k < l < |runs| ==> FirstLaunchAt(branch, runs[k]) < FirstLaunchAt(branch, runs[l])
  }

  lemma {:induction false} FirstLaunchSnoc(branch: seq<Entry>, entry: Entry, run: string)
    ensures FirstLaunchAt(branch + [entry], run)
         == if FirstLaunchAt(branch, run) < |branch| then FirstLaunchAt(branch, run)
            else if Launches(entry, run) then |branch| else |branch| + 1
  {
    var all, i, j := branch + [entry], FirstLaunchAt(branch, run), FirstLaunchAt(branch + [entry], run);
    assert forall k :: 0 <= k < |branch| ==> all[k] == branch[k];
    assert all[|branch|] == entry;
  }

  lemma {:induction false} LaunchedInOrder(branch: seq<Entry>)
    ensures InLaunchOrder(branch, Launched(branch))
  {
    if branch != [] {
      var front, entry := branch[..|branch| - 1], branch[|branch| - 1];
      var before := Launched(front);
      LaunchedInOrder(front);
      assert branch == front + [entry];
      forall k | 0 <= k < |before|
        ensures FirstLaunchAt(branch, before[k]) == FirstLaunchAt(front, before[k])
      {
        FirstLaunchSnoc(front, entry, before[k]);
      }
      if entry.ToolResult? && entry.runId !in before {
        LaunchedIff(front, entry.runId);
        FirstLaunchSnoc(front, entry, entry.runId);
      }
    }
  }

  lemma {:induction false} FilterKeepsOrder(branch: seq<Entry>, killed: set<string>, now: int, maxAge: int,
                                            runs: seq<string>, k: nat, l: nat) returns (i: nat, j: nat)
    requires k < l < |OutstandingRuns(branch, killed, now, maxAge, runs)|
    ensures i < j < |runs|
    ensures OutstandingRuns(branch, killed, now, maxAge, runs)[k] == runs[i]
    ensures OutstandingRuns(branch, killed, now, maxAge, runs)[l] == runs[j]
  {
    hide Outstanding;
    var n := |runs| - 1;
    var before := OutstandingRuns(branch, killed, now, maxAge, runs[..n]);
    if l < |before| {
      i, j := FilterKeepsOrder(branch, killed, now, maxAge, runs[..n], k, l);
    } else {
      j := n;
      assert before[k] in before;
      OutstandingRunsIff(branch, killed, now, maxAge, runs[..n], before[k]);
      i :| 0 <= i < n && runs[..n][i] == before[k];
    }
  }

  /** The runs returned are in the order of their first launches. */
  lemma {:induction false} ReturnedInOrder(branch: seq<Entry>, killed: set<string>, now: int, maxAge: int)
    ensures InLaunchOrder(branch, OutstandingRuns(branch, killed, now, maxAge, Launched(branch)))
  {
    var launched := Launched(branch);
    var runs := OutstandingRuns(branch, killed, now, maxAge, launched);
    LaunchedInOrder(branch);
    hide Outstanding, Launched, FirstLaunchAt;
    forall k | 0 <= k < |runs| ensures FirstLaunchAt(branch, runs[k]) < |branch| {
      assert runs[k] in runs;
      OutstandingRunsIff(branch, killed, now, maxAge, launched, runs[k]);
    }
    forall k, l | 0 <= k < l < |runs| ensures FirstLaunchAt(branch, runs[k]) < FirstLaunchAt(branch, runs[l]) {
      var i, j := FilterKeepsOrder(branch, killed, now, maxAge, launched, k, l);
    }
  }
}
