/**
 One iteration of the live loader as a function of its state and of everything the
 outside world may answer during that iteration.
 */
module LoaderMachine {
  import opened Prelude
  import opened StreamContracts
  import opened HlsPolicy

  datatype Settings = Settings(
    source: string,
    pollIntervalSec: real,
    maxIdlePolls: nat,
    maxReconnectAttempts: nat,
    maxPlaylistRefreshes: nat,
    maxFetchBytes: nat,
    maxTempBytes: nat)

  datatype Live = Live(
    queue: Queue,
    sawEndlist: bool,
    idlePolls: nat,
    pollIntervalSec: real,
    refreshCount: nat,
    skippedReplays: nat,
    lastSeenMax: Option<int>)

  function InitialLive(settings: Settings): Live {
    Live(EMPTY_QUEUE, false, 0, settings.pollIntervalSec, 0, 0, None)
  }

  function MinSequence(segments: seq<Segment>): (least: int)
    requires segments != []
    ensures forall i :: 0 <= i < |segments| ==> least <= segments[i].sequence
    ensures exists i :: 0 <= i < |segments| && least == segments[i].sequence
  {
    if |segments| == 1 then segments[0].sequence
    else
      var rest := MinSequence(segments[1..]);
      if segments[0].sequence <= rest then segments[0].sequence
      else
        assert exists i :: 0 <= i < |segments[1..]| && rest == segments[1..][i].sequence;
        rest
  }

  function MaxSequence(segments: seq<Segment>): (most: int)
    requires segments != []
    ensures forall i :: 0 <= i < |segments| ==> segments[i].sequence <= most
    ensures exists i :: 0 <= i < |segments| && most == segments[i].sequence
  {
    if |segments| == 1 then segments[0].sequence
    else
      var rest := MaxSequence(segments[1..]);
      if segments[0].sequence >= rest then segments[0].sequence
      else
        assert exists i :: 0 <= i < |segments[1..]| && rest == segments[1..][i].sequence;
        rest
  }

  function PollInterval(configuredSec: real, targetDurationSec: Option<real>): (intervalSec: real)
    ensures 0.0 <= intervalSec <= RealMax(configuredSec, 0.0)
    ensures targetDurationSec.Some? ==> intervalSec <= RealMax(targetDurationSec.value, 0.1)
    ensures intervalSec < RealMax(configuredSec, 0.0) ==>
              targetDurationSec.Some? && intervalSec == RealMax(targetDurationSec.value, 0.1)
  {
    var configured := RealMax(configuredSec, 0.0);
    if targetDurationSec.None? then configured
    else RealMin(configured, RealMax(targetDurationSec.value, 0.1))
  }

  // The queue a snapshot is merged into: emitted keys older than the window are forgotten.
  function Pruned(queue: Queue, snapshot: Snapshot): Queue {
    if snapshot.segments == [] then queue
    else queue.(emitted := PruneEmitted(queue.emitted, MinSequence(snapshot.segments)))
  }

  function NewSegments(live: Live, snapshot: Snapshot): seq<Segment> {
    Unseen(Pruned(live.queue, snapshot), snapshot.segments)
  }

  // A reported window advance: how many sequence numbers were missed, and where play resumes.
  datatype Gap = Gap(missed: nat, resumeFrom: int)

  function ReportedGap(live: Live, snapshot: Snapshot): Option<Gap> {
    if snapshot.segments == [] then None
    else
      var first := MinSequence(snapshot.segments);
      var gap := WindowAdvanceGap(live.lastSeenMax, first);
      if gap.None? then None else Some(Gap(gap.value, first))
  }

  function LastSeen(live: Live, snapshot: Snapshot): Option<int> {
    if snapshot.segments == [] then live.lastSeenMax
    else if live.lastSeenMax.None? then Some(MaxSequence(snapshot.segments))
    else Some(Max(live.lastSeenMax.value, MaxSequence(snapshot.segments)))
  }

  function Refresh(settings: Settings, live: Live, snapshot: Snapshot): Live {
    var added := |NewSegments(live, snapshot)|;
    EnqueueAllAppends(Pruned(live.queue, snapshot), snapshot.segments);
    Live(
      EnqueueAll(Pruned(live.queue, snapshot), snapshot.segments),
      snapshot.isEndlist,
      if added > 0 then 0 else if !snapshot.isEndlist then live.idlePolls + 1 else live.idlePolls,
      PollInterval(settings.pollIntervalSec, snapshot.targetDurationSec),
      live.refreshCount + 1,
      live.skippedReplays + |snapshot.segments| - added,
      LastSeen(live, snapshot))
  }

  // Take the head off the queue after one attempt at it.
  function Consume(live: Live): Live
    requires live.queue.pending != []
  {
    live.(queue := Finalize(live.queue, live.queue.pending[0].Key(), true))
  }

  datatype StopReason = EndlistReached | IdlePollBudgetExhausted | ExplicitCancel

  // What one attempt at the head segment meets.
  datatype SegmentReply =
    | SegmentBytes(size: nat, directoryBytes: nat, writable: bool)
    | SegmentFailure(kind: FailureKind, message: string)
    | SegmentEscaped(crash: Crash)
    | SegmentCancelled

  // What resolving and fetching the playlist once more meets.
  datatype PlaylistReply =
    | MediaPlaylist(snapshot: Snapshot)
    | MalformedPlaylist(message: string)
    | PlaylistFailure(message: string)
    | PlaylistEscaped(crash: Crash)
    | PlaylistCancelled

  datatype Env = Env(
    withinRuntime: bool,
    atHead: Look,
    segment: SegmentReply,
    afterSleep: Look,
    playlist: PlaylistReply)

  datatype Outcome =
    | Continue
    | Produced(slice: Slice)
    | Raised(kind: FailureKind, message: string)
    | Stopped(reason: StopReason)
    | Crashed(crash: Crash)

  const RUNTIME_EXCEEDED := "api_stream session runtime exceeded max duration"
  const REFRESH_LIMIT_EXCEEDED := "api_stream playlist refresh limit exceeded"
  const TEMP_STORAGE_EXCEEDED := "api_stream temp storage exceeded max byte budget"

  function StartOffset(live: Live, segment: Segment): real {
    if segment.Key() in live.queue.startOffsets then live.queue.startOffsets[segment.Key()] else 0.0
  }

  // One attempt at the head of the queue.
  function Attempt(settings: Settings, live: Live, reply: SegmentReply): (Live, Outcome)
    requires live.queue.pending != []
  {
    var head := live.queue.pending[0];
    match reply
    case SegmentCancelled => (live, Stopped(ExplicitCancel))
    case SegmentEscaped(crash) => (live, Crashed(crash))
    case SegmentFailure(kind, message) =>
      if kind == Terminal then (live, Raised(Terminal, message))
      else (Consume(live), Raised(Temporary, message))
    case SegmentBytes(size, directoryBytes, writable) =>
      if directoryBytes + size > settings.maxTempBytes then
        (live, Raised(Terminal, TEMP_STORAGE_EXCEEDED))
      else if !writable then
        (live, Crashed(OsError))
      else
        var slice := BuildSlice(settings.source, head, StartOffset(live, head));
        if slice.None? then (live, Crashed(ValueError))
        else (Consume(live), Produced(slice.value))
  }

  // What fetching the playlist once more makes of the state.
  function Refetch(settings: Settings, live: Live, reply: PlaylistReply): (Live, Outcome) {
    match reply
    case MediaPlaylist(snapshot) => (Refresh(settings, live, snapshot), Continue)
    case MalformedPlaylist(message) => (live, Raised(Retryable, message))
    case PlaylistFailure(message) => (live, Raised(Terminal, message))
    case PlaylistEscaped(crash) => (live, Crashed(crash))
    case PlaylistCancelled => (live, Stopped(ExplicitCancel))
  }

  // One poll of the playlist, reached only when nothing is pending.
  function Poll(settings: Settings, live: Live, env: Env): (Live, Outcome) {
    if env.afterSleep.Intent? then
      (live, Stopped(ExplicitCancel))
    else if env.afterSleep.LookFailed? then
      (live, Crashed(env.afterSleep.crash))
    else if live.refreshCount >= settings.maxPlaylistRefreshes then
      (live, Raised(Terminal, REFRESH_LIMIT_EXCEEDED))
    else
      Refetch(settings, live, env.playlist)
  }

  function Iterate(settings: Settings, live: Live, env: Env): (Live, Outcome) {
    if !env.withinRuntime then
      (live, Raised(Terminal, RUNTIME_EXCEEDED))
    else if env.atHead.Intent? then
      (live, Stopped(ExplicitCancel))
    else if env.atHead.LookFailed? then
      (live, Crashed(env.atHead.crash))
    else if live.queue.pending != [] then
      Attempt(settings, live, env.segment)
    else if live.sawEndlist then
      (live, Stopped(EndlistReached))
    else if live.idlePolls >= settings.maxIdlePolls then
      (live, Stopped(IdlePollBudgetExhausted))
    else
      Poll(settings, live, env)
  }

  // ---- Several iterations ------------------------------------------------------------

  // The state after a number of iterations.
  function Trail(settings: Settings, live: Live, envs: seq<Env>): Live {
    if envs == [] then live
    else Iterate(settings, Trail(settings, live, envs[..|envs| - 1]), envs[|envs| - 1]).0
  }

  // None of the iterations had an outcome.
  predicate AllContinue(settings: Settings, live: Live, envs: seq<Env>) {
    envs == [] ||
    (&& AllContinue(settings, live, envs[..|envs| - 1])
     && Iterate(settings, Trail(settings, live, envs[..|envs| - 1]), envs[|envs| - 1]).1.Continue?)
  }

  // One pull of the loader: iterations without an outcome, and a last one with it.
  ghost predicate Pull(settings: Settings, live: Live, envs: seq<Env>, live': Live, outcome: Outcome) {
    && envs != []
    && AllContinue(settings, live, envs[..|envs| - 1])
    && Iterate(settings, Trail(settings, live, envs[..|envs| - 1]), envs[|envs| - 1]) == (live', outcome)
    && !outcome.Continue?
  }

  lemma TrailOfAppend(settings: Settings, live: Live, envs: seq<Env>, env: Env)
    ensures Trail(settings, live, envs + [env]) == Iterate(settings, Trail(settings, live, envs), env).0
    ensures AllContinue(settings, live, envs + [env])
            <==> AllContinue(settings, live, envs) && Iterate(settings, Trail(settings, live, envs), env).1.Continue?
  {
    assert (envs + [env])[..|envs|] == envs;
  }

  // One more iteration either continues the trail or makes it a pull.
  lemma PullOfAppend(settings: Settings, live: Live, envs: seq<Env>, env: Env, live': Live, outcome: Outcome)
    requires AllContinue(settings, live, envs)
    requires Iterate(settings, Trail(settings, live, envs), env) == (live', outcome)
    ensures if outcome.Continue? then
              AllContinue(settings, live, envs + [env]) && Trail(settings, live, envs + [env]) == live'
            else Pull(settings, live, envs + [env], live', outcome)
  {
    TrailOfAppend(settings, live, envs, env);
    assert (envs + [env])[..|envs|] == envs;
  }
}
