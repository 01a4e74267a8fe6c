/**
 How a run goes on and ends, told from its history and the answers it is given: what an iteration
 meets, what comes of it, and where the slices it yields stand.  The counters and the offset map
 of the loader and the variables of the facade are shown to agree with that history.
 */
module IngestOutcomes {
  import opened Prelude
  import opened Rounding
  import opened StreamContracts
  import opened HlsPolicy
  import opened LoaderMachine
  import opened FacadeMachine
  import opened DedupLog
  import opened IngestSystem
  import opened IngestTermination
  import opened IngestDelivery

  // ---- The stream clock ----------------------------------------------------------------

  // Where the n-th segment ever queued stands: after all those before it, a tenth of a second each at least.
  function Clock(queued: seq<Segment>, n: nat): real
    requires n <= |queued|
  {
    if n == 0 then 0.0 else Clock(queued, n - 1) + RealMax(queued[n - 1].durationSec, 0.1)
  }

  lemma {:induction false} ClockOfPrefix(queued: seq<Segment>, more: seq<Segment>, n: nat)
    requires n <= |queued|
    ensures Clock(queued + more, n) == Clock(queued, n)
  {
    if n > 0 {
      ClockOfPrefix(queued, more, n - 1);
    }
  }

  // The next segment to be queued starts where all those queued so far end.
  ghost predicate ClockKept(s: System) {
    s.live.queue.nextWindowStart == Clock(s.history.everQueued, |s.history.everQueued|)
  }

  lemma {:induction false} EnqueueAllMovesClock(q: Queue, segments: seq<Segment>, queued: seq<Segment>)
    requires q.nextWindowStart == Clock(queued, |queued|)
    ensures var longer := queued + Unseen(q, segments);
            EnqueueAll(q, segments).nextWindowStart == Clock(longer, |longer|)
    decreases |segments|
  {
    if segments == [] {
      assert queued + [] == queued;
    } else {
      var next := queued + if Known(q, segments[0]) then [] else [segments[0]];
      assert Enqueue(q, segments[0]).nextWindowStart == Clock(next, |next|) by {
        ClockOfPrefix(queued, [segments[0]], |queued|);
        assert queued + [] == queued;
      }
      EnqueueAllMovesClock(Enqueue(q, segments[0]), segments[1..], next);
      assert queued + Unseen(q, segments) == next + Unseen(Enqueue(q, segments[0]), segments[1..]);
    }
  }

  // In a tiling that ends with the clock every pending segment stands where the clock says.
  lemma {:induction false} TilesFollowClock(pending: seq<Segment>, starts: map<SegmentKey, real>, next: real,
                                            queued: seq<Segment>, done: nat, i: nat)
    requires Tiles(pending, starts, next) && i < |pending|
    requires done + |pending| == |queued| && queued[done..] == pending && next == Clock(queued, |queued|)
    ensures starts[pending[i].Key()] == Clock(queued, done + i)
    decreases |pending| - i
  {
    assert queued[done..][i] == queued[done + i];
    if i + 1 < |pending| {
      TilesFollowClock(pending, starts, next, queued, done, i + 1);
    }
  }

  lemma HeadFollowsClock(s: System)
    requires Accounted(s) && ClockKept(s) && s.live.queue.pending != []
    ensures |s.history.attempted| < |s.history.everQueued|
    ensures s.live.queue.pending[0] == s.history.everQueued[|s.history.attempted|]
    ensures StartOffset(s.live, s.live.queue.pending[0]) == Clock(s.history.everQueued, |s.history.attempted|)
  {
    var q, done := s.live.queue, |s.history.attempted|;
    assert s.history.everQueued[done..] == q.pending;
    TilesFollowClock(q.pending, q.startOffsets, q.nextWindowStart, s.history.everQueued, done, 0);
  }

  lemma StepKeepsClock(settings: Settings, s: System, tick: Tick)
    requires ClockKept(s)
    ensures ClockKept(Step(settings, s, tick))
  {
    if s.end.None? {
      if tick.env.playlist.MediaPlaylist? {
        EnqueueAllMovesClock(Pruned(s.live.queue, tick.env.playlist.snapshot), tick.env.playlist.snapshot.segments,
                             s.history.everQueued);
      }
      StepIsOneOf(settings, s, tick);
    }
  }

  // The slice of the n-th segment ever queued.
  function SliceAt(settings: Settings, queued: seq<Segment>, n: nat): Slice
    requires n < |queued|
  {
    Slice(TempPath(queued[n]), settings.source, CurrentItem(SegmentName(queued[n]), queued[n].sequence),
          Some(queued[n].sequence), Round3(Clock(queued, n)), Round3(RealMax(queued[n].durationSec, 0.1)))
  }

  // ---- What an iteration meets -----------------------------------------------------------

  datatype Met =
    | MetIntent
    | MetEndOfList
    | MetIdle
    | MetTerminal(message: string)
    | MetMalformed(message: string)
    | MetCrash(crash: Crash)
    | MetPlaylist(snapshot: Snapshot)
    | MetLoss(message: string)
    | MetSlice(slice: Slice)

  function MeetsAtHead(settings: Settings, h: History, reply: SegmentReply): Met
    requires |h.attempted| < |h.everQueued|
  {
    var n := |h.attempted|;
    match reply
    case SegmentCancelled => MetIntent
    case SegmentEscaped(crash) => MetCrash(crash)
    case SegmentFailure(kind, message) => if kind.Terminal? then MetTerminal(message) else MetLoss(message)
    case SegmentBytes(size, directoryBytes, writable) =>
      if directoryBytes + size > settings.maxTempBytes then MetTerminal(TEMP_STORAGE_EXCEEDED)
      else if !writable then MetCrash(OsError)
      else if h.everQueued[n].sequence < 0 then MetCrash(ValueError)
      else MetSlice(SliceAt(settings, h.everQueued, n))
  }

  function MeetsAtPoll(settings: Settings, h: History, afterSleep: Look, reply: PlaylistReply): Met {
    if afterSleep.Intent? then MetIntent
    else if afterSleep.LookFailed? then MetCrash(afterSleep.crash)
    else if |h.merged| >= settings.maxPlaylistRefreshes then MetTerminal(REFRESH_LIMIT_EXCEEDED)
    else
      match reply
      case MediaPlaylist(snapshot) => MetPlaylist(snapshot)
      case MalformedPlaylist(message) => MetMalformed(message)
      case PlaylistFailure(message) => MetTerminal(message)
      case PlaylistEscaped(crash) => MetCrash(crash)
      case PlaylistCancelled => MetIntent
  }

  // What an iteration meets, from what happened before it and what it is answered.
  function Meets(settings: Settings, h: History, env: Env): Met {
    if !env.withinRuntime then MetTerminal(RUNTIME_EXCEEDED)
    else if env.atHead.Intent? then MetIntent
    else if env.atHead.LookFailed? then MetCrash(env.atHead.crash)
    else if |h.attempted| < |h.everQueued| then MeetsAtHead(settings, h, env.segment)
    else if h.merged != [] && h.merged[|h.merged| - 1].isEndlist then MetEndOfList
    else if BarrenTail(h.added) >= settings.maxIdlePolls then MetIdle
    else MeetsAtPoll(settings, h, env.afterSleep, env.playlist)
  }

  // A slice is accepted after the ones yielded before it if it comes later and is none of those,
  // and its key was not read from the log.
  ghost predicate Accepts(read: set<IdentityKey>, yielded: seq<Slice>, slice: Slice) {
    && slice.windowIndex.Some?
    && (yielded != [] ==> Follows(yielded[|yielded| - 1], slice))
    && (slice.sourceGroup, slice.windowIndex.value, slice.sourceName) !in read
    && forall i :: 0 <= i < |yielded| ==> Identity(yielded[i]) != Identity(slice)
  }

  // The append of an accepted slice's key fails, and the process survives or does not.
  predicate FailsAlive(append: AppendReply) {
    append.Refused? || (append.Torn? && !append.died)
  }

  predicate FailsDead(append: AppendReply) {
    append.DiedAfterWrite? || (append.Torn? && append.died)
  }

  // ---- The variables agree with the history ----------------------------------------------

  // The keys read from the log at the start, and the malformed refreshes met so far.
  ghost predicate FacadeTells(s: System, read: set<IdentityKey>, malformed: nat) {
    && s.ledger.attempts == malformed
    && s.ledger.previous == (if s.history.yielded == [] then None
                             else Some(s.history.yielded[|s.history.yielded| - 1]))
    && (forall i :: 0 <= i < |s.history.yielded| ==>
          Identity(s.history.yielded[i]).Some? && Identity(s.history.yielded[i]).value in s.ledger.seen)
    && read <= s.ledger.seen
    && forall key :: key in s.ledger.seen ==>
         key in read || exists i :: 0 <= i < |s.history.yielded| && Identity(s.history.yielded[i]) == Some(key)
  }

  ghost predicate LoaderTells(s: System) {
    && Accounted(s) && ClockKept(s) && IdleCounted(s)
    && s.history.merged != [] && s.live.sawEndlist == s.history.merged[|s.history.merged| - 1].isEndlist
  }

  lemma JudgesAsTold(s: System, read: set<IdentityKey>, malformed: nat, slice: Slice)
    requires FacadeTells(s, read, malformed)
    ensures Judge(s.ledger.previous, s.ledger.seen, slice).Accepted? <==> Accepts(read, s.history.yielded, slice)
    ensures Judge(s.ledger.previous, s.ledger.seen, slice).Accepted? ==>
              Some(Judge(s.ledger.previous, s.ledger.seen, slice).key) == Identity(slice)
  {
  }

  // The outcome of an iteration is what it meets.
  ghost predicate OutcomeIs(outcome: Outcome, met: Met) {
    match met
    case MetIntent => outcome == Stopped(ExplicitCancel)
    case MetEndOfList => outcome == Stopped(EndlistReached)
    case MetIdle => outcome == Stopped(IdlePollBudgetExhausted)
    case MetTerminal(message) => outcome == Raised(Terminal, message)
    case MetMalformed(message) => outcome == Raised(Retryable, message)
    case MetCrash(crash) => outcome == Crashed(crash)
    case MetPlaylist(_) => outcome == Continue
    case MetLoss(message) => outcome == Raised(Temporary, message)
    case MetSlice(slice) => outcome == Produced(slice)
  }

  lemma HeadMeets(settings: Settings, s: System, reply: SegmentReply)
    requires LoaderTells(s) && s.live.queue.pending != []
    ensures |s.history.attempted| < |s.history.everQueued|
    ensures OutcomeIs(Attempt(settings, s.live, reply).1, MeetsAtHead(settings, s.history, reply))
  {
    HeadFollowsClock(s);
  }

  lemma IterationMeets(settings: Settings, s: System, env: Env)
    requires LoaderTells(s) && s.end.None?
    ensures OutcomeIs(Iterate(settings, s.live, env).1, Meets(settings, s.history, env))
  {
    assert s.live.queue.pending == [] <==> |s.history.attempted| == |s.history.everQueued|;
    if s.live.queue.pending != [] {
      HeadMeets(settings, s, env.segment);
    }
  }

  // ---- What comes of it ------------------------------------------------------------------

  // A slice is met and accepted.
  ghost predicate Takes(read: set<IdentityKey>, h: History, met: Met) {
    met.MetSlice? && Accepts(read, h.yielded, met.slice)
  }

  // The end, if any, that an iteration brings: a failure exactly for a terminal one or one malformed
  // refresh too many, an error exactly for one met or an append that failed, death exactly for an
  // append that killed the process, and an ordinary stop exactly for its cause.
  ghost predicate EndsAsMet(end: Option<End>, settings: Settings, met: Met, takes: bool, malformed: nat,
                            append: AppendReply) {
    && (end.Some? && end.value.GaveUp?
        <==> met.MetTerminal? || (met.MetMalformed? && malformed >= settings.maxReconnectAttempts))
    && (end.Some? && end.value.Escaped? <==> met.MetCrash? || (takes && FailsAlive(append)))
    && (end == Some(Dead) <==> takes && FailsDead(append))
    && (end == Some(Drained(ExplicitCancel)) <==> met.MetIntent?)
    && (end == Some(Drained(EndlistReached)) <==> met.MetEndOfList?)
    && (end == Some(Drained(IdlePollBudgetExhausted)) <==> met.MetIdle?)
    && (end.None? <==> || met.MetPlaylist? || met.MetLoss?
                       || (met.MetMalformed? && malformed < settings.maxReconnectAttempts)
                       || (met.MetSlice? && (takes ==> append.Written?)))
    && (met.MetTerminal? ==> end == Some(GaveUp(met.message)))
    && (met.MetMalformed? && end.Some? ==> end == Some(GaveUp(BUDGET_EXHAUSTED + met.message)))
    && (met.MetCrash? ==> end == Some(Escaped(met.crash)))
    && (takes && FailsAlive(append) ==> end == Some(Escaped(OsError)))
  }

  // What an iteration adds to the history.
  ghost predicate AddsAsMet(h: History, h': History, met: Met, takes: bool, append: AppendReply)
    requires takes ==> met.MetSlice?
  {
    && h'.yielded == h.yielded + (if takes && append.Written? then [met.slice] else [])
    && h'.merged == h.merged + (if met.MetPlaylist? then [met.snapshot] else [])
    && h'.attempted == h.attempted
                       + (if met.MetSlice? && |h.attempted| < |h.everQueued| then
                            [Attempted(h.everQueued[|h.attempted|], Delivered)]
                          else if met.MetLoss? && |h.attempted| < |h.everQueued| then
                            [Attempted(h.everQueued[|h.attempted|], Lost)]
                          else [])
  }

  // What the facade makes of what was met.
  lemma ReactsAsMet(settings: Settings, s: System, read: set<IdentityKey>, malformed: nat, met: Met, outcome: Outcome,
                    append: AppendReply)
    requires FacadeTells(s, read, malformed) && OutcomeIs(outcome, met)
    ensures var (ledger, effect) := React(settings.maxReconnectAttempts, s.ledger, outcome, append);
            && EndsAsMet(EndOf(effect), settings, met, Takes(read, s.history, met), malformed, append)
            && (effect.Yield? <==> Takes(read, s.history, met) && append.Written?)
            && (effect.Yield? ==> effect.slice == met.slice)
            && ledger.attempts == malformed + (if met.MetMalformed? then 1 else 0)
            && (!effect.Yield? ==> ledger.previous == s.ledger.previous && ledger.seen == s.ledger.seen)
            && (effect.Yield? ==> ledger.previous == Some(met.slice) && Identity(met.slice).Some?
                                  && ledger.seen == s.ledger.seen + {Identity(met.slice).value})
  {
    if met.MetSlice? {
      JudgesAsTold(s, read, malformed, met.slice);
    }
  }

  lemma HistoryAdds(settings: Settings, s: System, tick: Tick, met: Met, takes: bool)
    requires LoaderTells(s) && s.end.None? && met == Meets(settings, s.history, tick.env)
    requires takes ==> met.MetSlice?
    requires var (_, outcome) := Iterate(settings, s.live, tick.env);
             var (_, effect) := React(settings.maxReconnectAttempts, s.ledger, outcome, tick.append);
             && OutcomeIs(outcome, met)
             && (effect.Yield? <==> takes && tick.append.Written?) && (effect.Yield? ==> effect.slice == met.slice)
    ensures AddsAsMet(s.history, Step(settings, s, tick).history, met, takes, tick.append)
  {
    if s.live.queue.pending != [] {
      HeadFollowsClock(s);
    }
  }

  /** What comes of an iteration is decided by what it meets, the malformed refreshes before it and the append. */
  lemma StepAsMet(settings: Settings, s: System, tick: Tick, read: set<IdentityKey>, malformed: nat)
    requires LoaderTells(s) && FacadeTells(s, read, malformed) && s.end.None?
    ensures var met, s' := Meets(settings, s.history, tick.env), Step(settings, s, tick);
            var takes := Takes(read, s.history, met);
            && EndsAsMet(s'.end, settings, met, takes, malformed, tick.append)
            && AddsAsMet(s.history, s'.history, met, takes, tick.append)
  {
    var met := Meets(settings, s.history, tick.env);
    IterationMeets(settings, s, tick.env);
    ReactsAsMet(settings, s, read, malformed, met, Iterate(settings, s.live, tick.env).1, tick.append);
    HistoryAdds(settings, s, tick, met, Takes(read, s.history, met));
  }

  lemma StepKeepsLoaderTold(settings: Settings, s: System, tick: Tick)
    requires LoaderTells(s) && s.end.None?
    ensures LoaderTells(Step(settings, s, tick))
  {
    StepKeepsAccount(settings, s, tick);
    StepKeepsClock(settings, s, tick);
    StepCountsIdle(settings, s, tick);
    StepKeepsEndlist(settings, s, tick);
  }

  lemma StepKeepsEndlist(settings: Settings, s: System, tick: Tick)
    requires s.end.None?
    requires s.history.merged != [] && s.live.sawEndlist == s.history.merged[|s.history.merged| - 1].isEndlist
    ensures var s' := Step(settings, s, tick);
            s'.history.merged != [] && s'.live.sawEndlist == s'.history.merged[|s'.history.merged| - 1].isEndlist
  {
  }

  lemma FacadeStaysTold(s: System, s': System, read: set<IdentityKey>, malformed: nat, malformed': nat,
                        yielded: Option<Slice>)
    requires FacadeTells(s, read, malformed) && s'.ledger.attempts == malformed'
    requires s'.history.yielded == s.history.yielded + (if yielded.Some? then [yielded.value] else [])
    requires yielded.None? ==> s'.ledger.previous == s.ledger.previous && s'.ledger.seen == s.ledger.seen
    requires yielded.Some? ==>
               && s'.ledger.previous == yielded && Identity(yielded.value).Some?
               && s'.ledger.seen == s.ledger.seen + {Identity(yielded.value).value}
    ensures FacadeTells(s', read, malformed')
  {
    var longer, count := s'.history.yielded, |s.history.yielded|;
    if yielded.Some? {
      assert longer[count] == yielded.value;
    }
    assert forall i :: 0 <= i < count ==> longer[i] == s.history.yielded[i];
  }

  lemma StepKeepsFacadeTold(settings: Settings, s: System, tick: Tick, read: set<IdentityKey>, malformed: nat)
    requires LoaderTells(s) && FacadeTells(s, read, malformed) && s.end.None?
    ensures FacadeTells(Step(settings, s, tick), read,
                        malformed + (if Meets(settings, s.history, tick.env).MetMalformed? then 1 else 0))
  {
    var met := Meets(settings, s.history, tick.env);
    IterationMeets(settings, s, tick.env);
    ReactsAsMet(settings, s, read, malformed, met, Iterate(settings, s.live, tick.env).1, tick.append);
    StepAsMet(settings, s, tick, read, malformed);
    var accepted := Takes(read, s.history, met) && tick.append.Written?;
    FacadeStaysTold(s, Step(settings, s, tick), read, malformed, malformed + (if met.MetMalformed? then 1 else 0),
                    if accepted then Some(met.slice) else None);
  }

  // ---- Whole runs --------------------------------------------------------------------------

  // The malformed refreshes a run meets.
  function MalformedMet(settings: Settings, s: System, ticks: seq<Tick>): nat
    decreases |ticks|
  {
    if ticks == [] || s.end.Some? then 0
    else
      (if Meets(settings, s.history, ticks[0].env).MetMalformed? then 1 else 0)
      + MalformedMet(settings, Step(settings, s, ticks[0]), ticks[1..])
  }

  lemma ConnectedIsTold(settings: Settings, first: Snapshot, log: Log, readable: bool)
    ensures var s := Connected(settings, first, log, readable);
            LoaderTells(s) && FacadeTells(s, KeysRead(log, readable), 0)
  {
    ConnectedIsAccounted(settings, first, log, readable);
    ConnectedCountsIdle(settings, first, log, readable);
    EnqueueAllMovesClock(Pruned(EMPTY_QUEUE, first), first.segments, []);
  }

  lemma {:induction false} RunStaysTold(settings: Settings, s: System, ticks: seq<Tick>, read: set<IdentityKey>,
                                        malformed: nat)
    requires LoaderTells(s) && FacadeTells(s, read, malformed)
    ensures LoaderTells(Run(settings, s, ticks))
    ensures FacadeTells(Run(settings, s, ticks), read, malformed + MalformedMet(settings, s, ticks))
    decreases |ticks|
  {
    if ticks != [] {
      var next := Step(settings, s, ticks[0]);
      if s.end.None? {
        StepKeepsLoaderTold(settings, s, ticks[0]);
        StepKeepsFacadeTold(settings, s, ticks[0], read, malformed);
        RunStaysTold(settings, next, ticks[1..], read,
                     malformed + (if Meets(settings, s.history, ticks[0].env).MetMalformed? then 1 else 0));
      } else {
        EndedStaysEnded(settings, s, ticks);
      }
    }
  }

  /**
   How a run goes on and ends, whatever it is answered: the next iteration of a run that is still
   going fails it exactly for a terminal failure or one malformed refresh more than the budget has,
   breaks it off exactly for an error or a failed append, stops it exactly for intent, the end of the
   list or idleness, and adds to the history what it meets.
   */
  lemma RunEndsAsMet(settings: Settings, first: Snapshot, log: Log, readable: bool, ticks: seq<Tick>, tick: Tick)
    requires Run(settings, Connected(settings, first, log, readable), ticks).end.None?
    ensures var s0 := Connected(settings, first, log, readable);
            var s, s' := Run(settings, s0, ticks), Run(settings, s0, ticks + [tick]);
            var met, malformed := Meets(settings, s.history, tick.env), MalformedMet(settings, s0, ticks);
            var takes := Takes(KeysRead(log, readable), s.history, met);
            && EndsAsMet(s'.end, settings, met, takes, malformed, tick.append)
            && AddsAsMet(s.history, s'.history, met, takes, tick.append)
  {
    var s0 := Connected(settings, first, log, readable);
    var s := Run(settings, s0, ticks);
    ConnectedIsTold(settings, first, log, readable);
    RunStaysTold(settings, s0, ticks, KeysRead(log, readable), 0);
    RunSplits(settings, s0, ticks, [tick]);
    assert [tick][1..] == [];
    assert Run(settings, s, [tick]) == Step(settings, s, tick);
    StepAsMet(settings, s, tick, KeysRead(log, readable), MalformedMet(settings, s0, ticks));
  }

  lemma PendingIsRest(s: System)
    requires Accounted(s)
    ensures |s.history.attempted| <= |s.history.everQueued|
    ensures s.live.queue.pending == s.history.everQueued[|s.history.attempted|..]
  {
  }

  /** A temporary loss never ends a run: the lost head gives way to the next segment queued. */
  lemma LossGoesOn(settings: Settings, first: Snapshot, log: Log, readable: bool, ticks: seq<Tick>, tick: Tick)
    requires Run(settings, Connected(settings, first, log, readable), ticks).end.None?
    requires Meets(settings, Run(settings, Connected(settings, first, log, readable), ticks).history, tick.env).MetLoss?
    ensures var s0 := Connected(settings, first, log, readable);
            var s, s' := Run(settings, s0, ticks), Run(settings, s0, ticks + [tick]);
            && s'.end.None? && s'.history.yielded == s.history.yielded
            && |s'.history.attempted| == |s.history.attempted| + 1 <= |s'.history.everQueued|
            && s'.live.queue.pending == s'.history.everQueued[|s.history.attempted| + 1..]
  {
    var s0 := Connected(settings, first, log, readable);
    RunEndsAsMet(settings, first, log, readable, ticks, tick);
    MeetsHeadOnly(settings, Run(settings, s0, ticks).history, tick.env);
    ConnectedIsTold(settings, first, log, readable);
    RunStaysTold(settings, s0, ticks + [tick], KeysRead(log, readable), 0);
    PendingIsRest(Run(settings, s0, ticks + [tick]));
  }

  lemma MeetsHeadOnly(settings: Settings, h: History, env: Env)
    ensures var met := Meets(settings, h, env);
            met.MetLoss? || met.MetSlice? ==> |h.attempted| < |h.everQueued|
    ensures var met := Meets(settings, h, env);
            met.MetSlice? ==> met.slice == SliceAt(settings, h.everQueued, |h.attempted|)
  {
  }

  // ---- What a merge leaves -------------------------------------------------------------------

  /**
   A merge forgets exactly the emitted keys that lie before the whole window, remembers the highest
   number ever seen, takes over the end flag, and waits as configured, or as long as the target
   duration says if that is shorter.
   */
  lemma MergeLeaves(settings: Settings, live: Live, snapshot: Snapshot, key: SegmentKey)
    requires snapshot.segments != [] && settings.pollIntervalSec >= 0.0
    ensures var next := Refresh(settings, live, snapshot);
            && (key in next.queue.emitted
                <==> key in live.queue.emitted
                     && exists i :: 0 <= i < |snapshot.segments| && snapshot.segments[i].sequence <= key.0)
            && next.lastSeenMax.Some?
            && (forall i :: 0 <= i < |snapshot.segments| ==> snapshot.segments[i].sequence <= next.lastSeenMax.value)
            && (live.lastSeenMax.Some? ==> live.lastSeenMax.value <= next.lastSeenMax.value)
            && (next.lastSeenMax == live.lastSeenMax
                || exists i :: 0 <= i < |snapshot.segments|
                               && next.lastSeenMax == Some(snapshot.segments[i].sequence))
            && next.sawEndlist == snapshot.isEndlist
            && next.pollIntervalSec <= settings.pollIntervalSec
            && (next.pollIntervalSec == settings.pollIntervalSec
                || (snapshot.targetDurationSec.Some?
                    && next.pollIntervalSec == RealMax(snapshot.targetDurationSec.value, 0.1)))
            && (snapshot.targetDurationSec.Some? ==>
                  next.pollIntervalSec <= RealMax(snapshot.targetDurationSec.value, 0.1))
  {
    EnqueueAllAppends(Pruned(live.queue, snapshot), snapshot.segments);
    var least := MinSequence(snapshot.segments);
    assert exists i :: 0 <= i < |snapshot.segments| && snapshot.segments[i].sequence == least;
    var most := MaxSequence(snapshot.segments);
    assert exists i :: 0 <= i < |snapshot.segments| && most == snapshot.segments[i].sequence;
  }

  // The entries of all playlists merged.
  function Listed(merged: seq<Snapshot>, n: nat): nat
    requires n <= |merged|
  {
    if n == 0 then 0 else Listed(merged, n - 1) + |merged[n - 1].segments|
  }

  lemma {:induction false} ListedOneMore(merged: seq<Snapshot>, snapshot: Snapshot, n: nat)
    requires n <= |merged|
    ensures Listed(merged + [snapshot], n) == Listed(merged, n)
  {
    if n > 0 {
      ListedOneMore(merged, snapshot, n - 1);
    }
  }

  // Every entry of a merged playlist was queued or counted as a replay.
  ghost predicate ReplaysCounted(s: System) {
    |s.history.everQueued| + s.live.skippedReplays == Listed(s.history.merged, |s.history.merged|)
  }

  lemma StepCountsReplays(settings: Settings, s: System, tick: Tick)
    requires ReplaysCounted(s)
    ensures ReplaysCounted(Step(settings, s, tick))
  {
    if s.end.None? && Iterate(settings, s.live, tick.env).1.Continue? {
      ListedOneMore(s.history.merged, tick.env.playlist.snapshot, |s.history.merged|);
    }
  }

  lemma {:induction false} RunCountsReplays(settings: Settings, s: System, ticks: seq<Tick>)
    requires ReplaysCounted(s)
    ensures ReplaysCounted(Run(settings, s, ticks))
    decreases |ticks|
  {
    if ticks != [] {
      StepCountsReplays(settings, s, ticks[0]);
      RunCountsReplays(settings, Step(settings, s, ticks[0]), ticks[1..]);
    }
  }

  /** Over any run every entry of every merged playlist was either queued or counted as a skipped replay. */
  lemma EntriesAreCounted(settings: Settings, first: Snapshot, log: Log, readable: bool, ticks: seq<Tick>)
    ensures ReplaysCounted(Run(settings, Connected(settings, first, log, readable), ticks))
  {
    assert Listed([first], 0) == 0;
    assert ReplaysCounted(Connected(settings, first, log, readable));
    RunCountsReplays(settings, Connected(settings, first, log, readable), ticks);
  }

  // ---- Where the slices stand ----------------------------------------------------------------

  // Each yielded slice is that of one delivered segment, in order, and stands where all the segments
  // queued before it end.
  ghost predicate Stand(settings: Settings, h: History, places: seq<nat>) {
    && |places| == |h.yielded| && |h.attempted| <= |h.everQueued|
    && (forall i, j :: 0 <= i < j < |places| ==> places[i] < places[j])
    && forall i :: 0 <= i < |places| ==>
         && places[i] < |h.attempted| && h.attempted[places[i]].fate.Delivered?
         && h.yielded[i] == SliceAt(settings, h.everQueued, places[i])
  }

  lemma SliceStays(settings: Settings, queued: seq<Segment>, more: seq<Segment>, n: nat)
    requires n < |queued|
    ensures SliceAt(settings, queued + more, n) == SliceAt(settings, queued, n)
  {
    ClockOfPrefix(queued, more, n);
  }

  lemma StandLonger(settings: Settings, h: History, h': History, more: seq<Segment>, places: seq<nat>)
    requires Stand(settings, h, places) && h'.everQueued == h.everQueued + more
    requires h.attempted <= h'.attempted && |h'.attempted| <= |h'.everQueued| && h'.yielded == h.yielded
    ensures Stand(settings, h', places)
  {
    forall i | 0 <= i < |places|
      ensures h'.yielded[i] == SliceAt(settings, h'.everQueued, places[i])
    {
      SliceStays(settings, h.everQueued, more, places[i]);
    }
  }

  lemma StandOneMore(settings: Settings, h: History, yielded: seq<Slice>, places: seq<nat>, n: nat)
    requires Stand(settings, h.(yielded := yielded), places) && n < |h.attempted|
    requires forall i :: 0 <= i < |places| ==> places[i] < n
    requires h.attempted[n].fate.Delivered? && h.yielded == yielded + [SliceAt(settings, h.everQueued, n)]
    ensures Stand(settings, h, places + [n])
  {
    var longer := places + [n];
    assert forall i :: 0 <= i < |places| ==> longer[i] == places[i] && h.yielded[i] == yielded[i];
  }

  lemma StandAsMet(settings: Settings, h: History, h': History, more: seq<Segment>, met: Met, takes: bool,
                   append: AppendReply, places: seq<nat>) returns (places': seq<nat>)
    requires Stand(settings, h, places) && (takes ==> met.MetSlice?) && AddsAsMet(h, h', met, takes, append)
    requires h'.everQueued == h.everQueued + more && |h'.attempted| <= |h'.everQueued|
    requires met.MetSlice? ==>
               |h.attempted| < |h.everQueued| && met.slice == SliceAt(settings, h.everQueued, |h.attempted|)
    ensures Stand(settings, h', places')
  {
    StandLonger(settings, h, h'.(yielded := h.yielded), more, places);
    if takes && append.Written? {
      SliceStays(settings, h.everQueued, more, |h.attempted|);
      StandOneMore(settings, h', h.yielded, places, |h.attempted|);
      places' := places + [|h.attempted|];
    } else {
      places' := places;
    }
  }

  lemma StepStands(settings: Settings, s: System, tick: Tick, read: set<IdentityKey>, malformed: nat, places: seq<nat>)
    returns (places': seq<nat>)
    requires LoaderTells(s) && FacadeTells(s, read, malformed) && s.end.None? && Stand(settings, s.history, places)
    ensures Stand(settings, Step(settings, s, tick).history, places')
  {
    var met := Meets(settings, s.history, tick.env);
    StepAsMet(settings, s, tick, read, malformed);
    MeetsHeadOnly(settings, s.history, tick.env);
    var more := QueuedMore(settings, s, tick);
    StepKeepsAccount(settings, s, tick);
    PendingIsRest(Step(settings, s, tick));
    places' := StandAsMet(settings, s.history, Step(settings, s, tick).history, more, met, Takes(read, s.history, met),
                          tick.append, places);
  }

  // What an iteration queues.
  lemma QueuedMore(settings: Settings, s: System, tick: Tick) returns (more: seq<Segment>)
    requires s.end.None?
    ensures Step(settings, s, tick).history.everQueued == s.history.everQueued + more
  {
    StepIsOneOf(settings, s, tick);
    if Step(settings, s, tick).history.everQueued == s.history.everQueued {
      more := [];
    } else {
      more := NewSegments(s.live, tick.env.playlist.snapshot);
    }
  }

  lemma {:induction false} RunStands(settings: Settings, s: System, ticks: seq<Tick>, read: set<IdentityKey>,
                                     malformed: nat, places: seq<nat>) returns (places': seq<nat>)
    requires LoaderTells(s) && FacadeTells(s, read, malformed) && Stand(settings, s.history, places)
    ensures Stand(settings, Run(settings, s, ticks).history, places')
    decreases |ticks|
  {
    if ticks == [] {
      places' := places;
    } else if s.end.Some? {
      EndedStaysEnded(settings, s, ticks);
      places' := places;
    } else {
      var more := StepStands(settings, s, ticks[0], read, malformed, places);
      StepKeepsLoaderTold(settings, s, ticks[0]);
      StepKeepsFacadeTold(settings, s, ticks[0], read, malformed);
      places' := RunStands(settings, Step(settings, s, ticks[0]), ticks[1..], read,
                           malformed + (if Meets(settings, s.history, ticks[0].env).MetMalformed? then 1 else 0), more);
    }
  }

  /**
   Over any run, each yielded slice is that of one segment, in the order they were queued: it carries
   the segment's number, file and source, starts where all segments queued before it end on a clock
   that begins at zero, and lasts as long as the segment, both rounded to milliseconds.
   */
  lemma SlicesStand(settings: Settings, first: Snapshot, log: Log, readable: bool, ticks: seq<Tick>)
    returns (places: seq<nat>)
    ensures Stand(settings, Run(settings, Connected(settings, first, log, readable), ticks).history, places)
  {
    ConnectedIsTold(settings, first, log, readable);
    places := RunStands(settings, Connected(settings, first, log, readable), ticks, KeysRead(log, readable), 0, []);
  }
}
