/**
 The canonical trace: an append-only list of numbered, timestamped events of one run.
 Each event kind carries exactly the fields that the checker, the projector and the
 writer read, so that a value of type Event is an event that passed schema checking.
 */
module TraceEvents {
  import opened Options

  datatype Status = Done | Blocked | Failed | Stalled | Cancelled

  datatype ResumeReason = Reply | Restart | FollowUp

  /** What happens to one launched node. */
  datatype Act =
    | Progress(note: string)
    | BlockedOn(text: string)
    | ResultWritten(path: string)
    | Deviation(items: seq<string>)
    | ResultValidated(path: string, valid: bool, problems: seq<string>, status: Option<string>)
    | Settled(outcome: Status, resultStatus: Option<string>, surfaceClosed: Option<bool>)
    | ReplySent(text: string, replyTo: Option<int>)
    | CancelRequested
    | Resumed(reason: ResumeReason)

  datatype Body =
    | RunCreated(root: string)
    | GraphPlanned(waves: seq<seq<string>>)
    | WaveStarted(wave: int, members: seq<string>)
    | WaveCompleted(wave: int, members: seq<string>)
    | Launched(node: string, parent: string, resultPath: Option<string>,
               detachRun: Option<string>, agentName: Option<string>)
    | Awakened(node: string, child: string, childStatus: Status, generation: int)
    | Lifecycle(node: string, parent: string, act: Act)

  /** `no` is the event's sequence number and `at` its time in milliseconds. */
  datatype Event = Event(no: int, at: int, run: string, body: Body)

  function Front<T>(s: seq<T>): seq<T>
    requires s != []
  {
    s[..|s| - 1]
  }

  function Last<T>(s: seq<T>): T
    requires s != []
  {
    s[|s| - 1]
  }

  lemma {:induction false} FrontLast<T>(s: seq<T>)
    requires s != []
    ensures s == Front(s) + [Last(s)]
  {
  }

  function Max(a: int, b: int): int {
    if a < b then b else a
  }
}
