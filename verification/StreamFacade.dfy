/**
 The generator that turns a loader into validated, de-duplicated slices, as an object whose
 fields are the generator's local variables.  Each pull is a run of the ingest system.
 */
module StreamFacade {
  import opened Prelude
  import opened StreamContracts
  import opened LoaderMachine
  import opened FacadeMachine
  import opened DedupLog
  import opened IngestSystem
  import opened IngestTermination
  import opened TempStorage
  import opened HlsLoader

  // ---- One pull as a run of the system -------------------------------------------

  // The ticks of a pull: only the last one can reach the durable log.
  function PullTicks(envs: seq<Env>, append: AppendReply): (ticks: seq<Tick>)
    ensures |ticks| == |envs|
    ensures forall i :: 0 <= i < |envs| ==> ticks[i].env == envs[i]
  {
    seq(|envs|, i requires 0 <= i < |envs| => Tick(envs[i], append))
  }

  function Envs(ticks: seq<Tick>): (envs: seq<Env>)
    ensures |envs| == |ticks|
    ensures forall i :: 0 <= i < |ticks| ==> envs[i] == ticks[i].env
  {
    seq(|ticks|, i requires 0 <= i < |ticks| => ticks[i].env)
  }

  // Strictly less work left, retries first, then refreshes, then pending segments.
  ghost predicate LessWork(settings: Settings, s': System, s: System) {
    || RetriesLeft(settings, s') < RetriesLeft(settings, s)
    || (&& RetriesLeft(settings, s') == RetriesLeft(settings, s)
        && (|| RefreshesLeft(settings, s') < RefreshesLeft(settings, s)
            || (&& RefreshesLeft(settings, s') == RefreshesLeft(settings, s)
                && |s'.live.queue.pending| < |s.live.queue.pending|)))
  }

  /**
   The requests of a whole connection, a number of them to connect and as many for each iteration:
   bounded by the settings and the segments the playlists announced, whatever the run met.
   */
  lemma WholeRunRequests(settings: Settings, first: Snapshot, log: Log, readable: bool, ticks: seq<Tick>, s: System,
                         perPoll: nat)
    requires Ran(settings, Connected(settings, first, log, readable), ticks, s)
    ensures perPoll + RequestsTo(|ticks|, perPoll)
            <= (|s.history.everQueued| + Max(1, settings.maxPlaylistRefreshes) + settings.maxReconnectAttempts + 2)
               * perPoll
  {
    WholeRunLength(settings, first, log, readable, ticks, s);
    RequestsMultiply(|ticks|, perPoll);
    ProductGrows(|ticks| + 1, |s.history.everQueued| + Max(1, settings.maxPlaylistRefreshes)
                              + settings.maxReconnectAttempts + 2, perPoll);
  }

  lemma ProductGrows(a: nat, b: nat, factor: nat)
    requires a <= b
    ensures a * factor <= b * factor
  {
  }

  // The ticks of a pull are those of all but its last iteration, and then one.
  lemma LastTick(settings: Settings, s: System, envs: seq<Env>, append: AppendReply, mid: System)
    requires envs != [] && Ran(settings, s, PullTicks(envs[..|envs| - 1], append), mid) && mid.end.None?
    ensures Ran(settings, s, PullTicks(envs, append), Step(settings, mid, Tick(envs[|envs| - 1], append)))
  {
    var init, last := PullTicks(envs[..|envs| - 1], append), Tick(envs[|envs| - 1], append);
    RanOne(settings, mid, last);
    RanConcat(settings, s, init, mid, [last], Step(settings, mid, last));
    assert PullTicks(envs, append) == init + [last];
  }

  // A system that went on from another one without an outcome.
  ghost predicate WentOn(settings: Settings, s: System, s': System, live: Live) {
    && s'.live == live
    && s'.ledger == s.ledger && s'.end.None?
    && s'.history.yielded == s.history.yielded
    && (s' == s || LessWork(settings, s', s))
  }

  lemma ContinueGoesOn(settings: Settings, s: System, mid: System, tick: Tick)
    requires s.ledger.attempts <= settings.maxReconnectAttempts && WentOn(settings, s, mid, mid.live)
    requires Iterate(settings, mid.live, tick.env).1.Continue?
    ensures WentOn(settings, s, Step(settings, mid, tick), Iterate(settings, mid.live, tick.env).0)
  {
    StepSpends(settings, mid, tick);
  }

  lemma {:induction false} ContinuesRun(settings: Settings, s: System, envs: seq<Env>, append: AppendReply)
    returns (s': System)
    requires s.end.None? && s.ledger.attempts <= settings.maxReconnectAttempts
    requires AllContinue(settings, s.live, envs)
    ensures Ran(settings, s, PullTicks(envs, append), s')
    ensures WentOn(settings, s, s', Trail(settings, s.live, envs))
    decreases |envs|
  {
    if envs == [] {
      RanNothing(settings, s);
      s' := s;
    } else {
      var init, last := envs[..|envs| - 1], envs[|envs| - 1];
      var mid := ContinuesRun(settings, s, init, append);
      LastTick(settings, s, envs, append, mid);
      ContinueGoesOn(settings, s, mid, Tick(last, append));
      s' := Step(settings, mid, Tick(last, append));
    }
  }

  // A system whose last step was the reaction to an outcome.
  ghost predicate Reacted(settings: Settings, s: System, s': System, live: Live, outcome: Outcome, append: AppendReply) {
    var (ledger, effect) := React(settings.maxReconnectAttempts, s.ledger, outcome, append);
    && s'.live == live && s'.ledger == ledger && s'.end == EndOf(effect)
    && s'.history.yielded == s.history.yielded + (if effect.Yield? then [effect.slice] else [])
    && (s'.end.None? ==>
          s'.ledger.attempts <= settings.maxReconnectAttempts && LessWork(settings, s', s))
  }

  lemma OutcomeIsReactedTo(settings: Settings, s: System, mid: System, tick: Tick)
    requires s.ledger.attempts <= settings.maxReconnectAttempts && WentOn(settings, s, mid, mid.live)
    requires !Iterate(settings, mid.live, tick.env).1.Continue?
    ensures Reacted(settings, s, Step(settings, mid, tick), Iterate(settings, mid.live, tick.env).0,
                    Iterate(settings, mid.live, tick.env).1, tick.append)
  {
    StepSpends(settings, mid, tick);
  }

  /** A pull of the loader followed by the facade's reaction is a run of the system. */
  lemma PullRuns(settings: Settings, s: System, envs: seq<Env>, live: Live, outcome: Outcome, append: AppendReply)
    returns (s': System)
    requires s.end.None? && s.ledger.attempts <= settings.maxReconnectAttempts
    requires Pull(settings, s.live, envs, live, outcome)
    ensures Ran(settings, s, PullTicks(envs, append), s') && Reacted(settings, s, s', live, outcome, append)
  {
    var init, last := envs[..|envs| - 1], envs[|envs| - 1];
    var mid := ContinuesRun(settings, s, init, append);
    LastTick(settings, s, envs, append, mid);
    OutcomeIsReactedTo(settings, s, mid, Tick(last, append));
    s' := Step(settings, mid, Tick(last, append));
  }

  // ---- The generator ---------------------------------------------------------------

  datatype OpenResult =
    | Opened
    | OpenFailed(message: string)
    | OpenCrashed(crash: Crash)
    | OpenRuntimeError

  // A system that has merged its first playlist and read, or failed to read, this log.
  ghost predicate JustConnected(settings: Settings, log: Log, s: System) {
    exists first: Snapshot, readable: bool :: s == Connected(settings, first, log, readable)
  }

  class SliceStream {
    const loader: Loader
    var reconnectAttempts: nat
    var previousSlice: Option<Slice>
    var seenIdentityKeys: set<IdentityKey>

    // The run so far.
    ghost var system: System

    constructor (loader: Loader)
      ensures this.loader == loader && previousSlice == None
    {
      this.loader := loader;
      reconnectAttempts, previousSlice, seenIdentityKeys := 0, None, {};
      system := Connected(loader.settings, Snapshot([], false, None), EMPTY_LOG, true);
    }

    // The generator is iterating, and its variables are where the run says.
    ghost predicate Iterating()
      reads this, loader, loader.queue, loader.storage`cancelRequested, loader.storage`seenLines, loader.storage`seenTail
      reads loader.tempDir`failedDeletes, loader.tempDir`peakFiles, loader.tempDir`peakBytes
    {
      && loader.connected && !loader.closed && loader.CancelHonest()
      && system.end.None?
      && system.live == loader.State()
      && system.ledger == Ledger(reconnectAttempts, previousSlice, seenIdentityKeys,
                                 loader.storage.SeenLog())
      && reconnectAttempts <= loader.settings.maxReconnectAttempts
      && loader.persistedKeys == seenIdentityKeys
      && loader.stopReason == None
      && loader.tempDir.OneFileSoFar(loader.settings.maxFetchBytes)
    }

    // The first advance of the generator connects the loader.  A stop signal out of connect
    // surfaces as a runtime error.
    method Open() returns (result: OpenResult)
      requires loader.CancelHonest() && loader.tempDir.OneFileSoFar(loader.settings.maxFetchBytes)
      modifies this, loader, loader.queue, loader.storage`cancelRequested
      modifies loader.tempDir`files, loader.tempDir`failedDeletes
      ensures loader.CancelHonest() && loader.tempDir.OneFileSoFar(loader.settings.maxFetchBytes)
      ensures old(loader.storage.cancelRequested) ==> loader.storage.cancelRequested && !result.Opened?
      ensures result.OpenRuntimeError? ==> loader.storage.cancelRequested
      ensures result.Opened? ==>
                && Iterating()
                && (loader.tempDir.failedDeletes == 0 ==> loader.tempDir.files == map[])
                && JustConnected(loader.settings, loader.storage.SeenLog(), system)
      ensures loader.RequestsWithin(loader.PollLimit())
    {
      reconnectAttempts, previousSlice := 0, None;
      var connected;
      ghost var first, trail;
      var readable;
      connected, first, readable, trail := loader.Connect();
      match connected {
        case ConnectFailed(kind, message) =>
          return OpenFailed(message);
        case ConnectCrashed(crash) =>
          return OpenCrashed(crash);
        case ConnectStopIteration =>
          return OpenRuntimeError;
        case ConnectDone =>
          seenIdentityKeys := loader.persistedKeys;
          system := Connected(loader.settings, first, loader.storage.SeenLog(), readable);
          assert system == Connected(loader.settings, first, loader.storage.SeenLog(), readable);
          result := Opened;
      }
    }

    // The generator is dropped before it ended.
    method Dispose()
      modifies loader, loader.queue
      ensures loader.closed && loader.TelemetrySnapshot() == old(loader.TelemetrySnapshot())
      ensures loader.requested == old(loader.requested)
    {
      loader.Close();
    }

    // Delete the file of a slice that goes no further.
    method CleanupRejected(slice: Slice)
      modifies loader.tempDir`files, loader.tempDir`failedDeletes
      ensures old(loader.tempDir.failedDeletes) <= loader.tempDir.failedDeletes
      ensures loader.tempDir.failedDeletes == old(loader.tempDir.failedDeletes) ==>
                loader.tempDir.files == old(loader.tempDir.files) - {slice.path}
    {
      var deleted := loader.tempDir.Delete(slice.path);
    }

    ghost function Variables(): Ledger
      reads this, loader, loader.storage`seenLines, loader.storage`seenTail
    {
      Ledger(reconnectAttempts, previousSlice, seenIdentityKeys, loader.storage.SeenLog())
    }

    // Two stretches of a run, one after the other.
    static lemma JoinTicks(settings: Settings, s: System, a: seq<Tick>, mid: System, b: seq<Tick>, s': System)
      returns (ticks: seq<Tick>)
      requires Ran(settings, s, a, mid) && Ran(settings, mid, b, s')
      ensures Ran(settings, s, ticks, s') && |ticks| == |a| + |b|
      ensures NoOverflow(settings, Envs(a)) && NoOverflow(settings, Envs(b)) ==> NoOverflow(settings, Envs(ticks))
    {
      RanConcat(settings, s, a, mid, b, s');
      ticks := a + b;
    }

    // As long as deletions succeed, the directory is empty between slices.
    ghost predicate Clean()
      reads loader.tempDir`files, loader.tempDir`failedDeletes
    {
      loader.tempDir.failedDeletes == 0 ==> loader.tempDir.files == map[]
    }

    // As long as deletions succeed, a yielded slice's file is the only one.
    ghost predicate OnlyFileOf(slice: Slice)
      reads loader.tempDir`files, loader.tempDir`failedDeletes
    {
      loader.tempDir.failedDeletes == 0 ==>
        slice.path in loader.tempDir.files && loader.tempDir.files.Keys == {slice.path}
    }

    /**
     React to one outcome of the loader: judge a slice, write its key ahead of yielding it, count
     failures.  A slice that is neither yielded nor refused by the disk loses its file.
     */
    method Digest(outcome: Outcome) returns (effect: Effect, ghost append: AppendReply)
      requires !outcome.Continue? && loader.persistedKeys == seenIdentityKeys
      requires outcome.Produced? ==> OnlyFileOf(outcome.slice)
      requires outcome.Stopped? || outcome.Raised? ==> Clean()
      modifies `reconnectAttempts, `previousSlice, `seenIdentityKeys, loader`persistedKeys
      modifies loader.storage`seenLines, loader.storage`seenTail, loader.tempDir`files, loader.tempDir`failedDeletes
      ensures React(loader.settings.maxReconnectAttempts, old(Variables()), outcome, append) == (Variables(), effect)
      ensures !effect.Killed?
      ensures loader.persistedKeys == seenIdentityKeys
      ensures old(loader.tempDir.failedDeletes) <= loader.tempDir.failedDeletes
      ensures if outcome.Produced? && effect.Again? then
                loader.tempDir.failedDeletes == old(loader.tempDir.failedDeletes) ==>
                  loader.tempDir.files == old(loader.tempDir.files) - {outcome.slice.path}
              else
                loader.tempDir.files == old(loader.tempDir.files)
      ensures effect.Yield? ==> outcome == Produced(effect.slice) && OnlyFileOf(effect.slice)
      ensures if outcome.Stopped? then effect == Finish(outcome.reason) else !effect.Finish?
      ensures effect.Again? || effect.Finish? || effect.Fail? ==> Clean()
    {
      append := Written;
      match outcome {
        case Stopped(reason) =>
          effect := Finish(reason);
        case Crashed(crash) =>
          effect := Escape(crash);
        case Raised(kind, message) =>
          if kind == Temporary {
            return Again, append;
          }
          if kind == Retryable {
            reconnectAttempts := reconnectAttempts + 1;
            if reconnectAttempts <= loader.settings.maxReconnectAttempts {
              return Again, append;
            }
            return Fail(BUDGET_EXHAUSTED + message), append;
          }
          effect := Fail(message);
        case Produced(slice) =>
          if !ValidSuccessor(previousSlice, slice) || Identity(slice).None? {
            CleanupRejected(slice);
            return Again, append;
          }
          var key := Identity(slice).value;
          if key in seenIdentityKeys {
            CleanupRejected(slice);
            return Again, append;
          }
          var stored;
          stored, append := loader.PersistIdentityKey(key);
          if !stored {
            return Escape(OsError), append;
          }
          seenIdentityKeys := seenIdentityKeys + {key};
          previousSlice := Some(slice);
          effect := Yield(slice);
      }
    }

    // No consulted segment would have overflown the temp storage budget.
    static ghost predicate NoOverflow(settings: Settings, envs: seq<Env>) {
      forall i :: 0 <= i < |envs| && envs[i].segment.SegmentBytes? ==>
        envs[i].segment.directoryBytes + envs[i].segment.size <= settings.maxTempBytes
    }

    // The files after a pull out of a clean directory, and the peaks the pull may have set.
    lemma CleanPull(files: nat, bytes: nat, failed: nat, outcome: Outcome)
      requires failed <= loader.tempDir.failedDeletes
      requires failed == 0 ==> files <= 1 && bytes <= loader.settings.maxFetchBytes
      requires loader.DirectoryAfter(map[], outcome) && loader.PeaksAfter(files, bytes)
      ensures loader.tempDir.OneFileSoFar(loader.settings.maxFetchBytes)
    {
      if loader.tempDir.failedDeletes == 0 {
        TotalOfAtMostOne(loader.tempDir.files, loader.settings.maxFetchBytes);
      }
    }

    // A pull out of a clean directory: at most one file, the produced slice's.
    method PullOnce() returns (outcome: Outcome, ghost envs: seq<Env>)
      requires loader.connected && !loader.closed && loader.CancelHonest() && Clean()
      requires loader.stopReason == None
      requires loader.tempDir.OneFileSoFar(loader.settings.maxFetchBytes)
      modifies loader, loader.queue, loader.storage`cancelRequested
      modifies loader.tempDir`files, loader.tempDir`peakFiles, loader.tempDir`peakBytes
      ensures Pull(loader.settings, old(loader.State()), envs, loader.State(), outcome)
      ensures loader.connected && !loader.closed && loader.StopRecorded(outcome)
      ensures loader.persistedKeys == old(loader.persistedKeys)
      ensures loader.tempDir.OneFileSoFar(loader.settings.maxFetchBytes)
      ensures outcome.Produced? ==> OnlyFileOf(outcome.slice)
      ensures outcome.Stopped? || outcome.Raised? ==> Clean()
      ensures old(loader.storage.cancelRequested) ==> !outcome.Produced?
      ensures loader.tempDir.failedDeletes == 0 && loader.settings.maxFetchBytes <= loader.settings.maxTempBytes ==>
                NoOverflow(loader.settings, envs)
      ensures loader.RequestsWithin(RequestsTo(|envs|, loader.PollLimit()))
    {
      ghost var files, bytes := loader.tempDir.peakFiles, loader.tempDir.peakBytes;
      outcome, envs := loader.NextSlice();
      if loader.tempDir.failedDeletes == 0 {
        CleanPull(files, bytes, loader.tempDir.failedDeletes, outcome);
      }
    }

    // A pull and the reaction to it.
    method PullAndDigest() returns (effect: Effect, ghost envs: seq<Env>, ghost outcome: Outcome,
                                    ghost append: AppendReply)
      requires loader.connected && !loader.closed && loader.CancelHonest() && Clean()
      requires loader.persistedKeys == seenIdentityKeys && loader.stopReason == None
      requires loader.tempDir.OneFileSoFar(loader.settings.maxFetchBytes)
      modifies `reconnectAttempts, `previousSlice, `seenIdentityKeys, loader, loader.queue
      modifies loader.storage`cancelRequested, loader.storage`seenLines, loader.storage`seenTail
      modifies loader.tempDir`files, loader.tempDir`peakFiles, loader.tempDir`peakBytes, loader.tempDir`failedDeletes
      ensures Pull(loader.settings, old(loader.State()), envs, loader.State(), outcome)
      ensures React(loader.settings.maxReconnectAttempts, old(Variables()), outcome, append) == (Variables(), effect)
      ensures !effect.Killed?
      ensures loader.connected && !loader.closed && loader.CancelHonest()
      ensures loader.persistedKeys == seenIdentityKeys
      ensures loader.tempDir.OneFileSoFar(loader.settings.maxFetchBytes)
      ensures effect.Yield? ==> OnlyFileOf(effect.slice)
      ensures effect.Again? || effect.Finish? || effect.Fail? ==> Clean()
      ensures loader.StopRecorded(outcome) && (effect.Finish? <==> outcome.Stopped?)
      ensures effect.Finish? ==> effect.reason == outcome.reason
      ensures old(loader.storage.cancelRequested) ==> !effect.Yield?
      ensures old(loader.tempDir.failedDeletes) <= loader.tempDir.failedDeletes
      ensures loader.tempDir.failedDeletes == 0 && loader.settings.maxFetchBytes <= loader.settings.maxTempBytes ==>
                NoOverflow(loader.settings, envs)
      ensures loader.RequestsWithin(RequestsTo(|envs|, loader.PollLimit()))
    {
      var pulled;
      pulled, envs := PullOnce();
      outcome := pulled;
      effect, append := Digest(pulled);
    }

    // One turn of the loop, as a run of the system.
    method Advance() returns (effect: Effect, ghost pulled: seq<Tick>)
      requires Iterating() && Clean()
      modifies this, loader, loader.queue
      modifies loader.storage`cancelRequested, loader.storage`seenLines, loader.storage`seenTail
      modifies loader.tempDir`files, loader.tempDir`peakFiles, loader.tempDir`peakBytes, loader.tempDir`failedDeletes
      ensures !effect.Killed?
      ensures Ran(loader.settings, old(system), pulled, system)
      ensures system.end == EndOf(effect)
      ensures system.history.yielded == old(system.history.yielded) + if effect.Yield? then [effect.slice] else []
      ensures effect.Yield? || effect.Again? ==> Iterating() && LessWork(loader.settings, system, old(system))
      ensures effect.Yield? ==> OnlyFileOf(effect.slice)
      ensures effect.Again? || effect.Finish? || effect.Fail? ==> Clean()
      ensures !loader.closed
      ensures loader.stopReason == if effect.Finish? then Some(effect.reason) else None
      ensures effect == Finish(ExplicitCancel) ==> loader.storage.cancelRequested
      ensures old(loader.storage.cancelRequested) ==> loader.storage.cancelRequested && !effect.Yield?
      ensures loader.CancelHonest() && loader.tempDir.OneFileSoFar(loader.settings.maxFetchBytes)
      ensures old(loader.tempDir.failedDeletes) <= loader.tempDir.failedDeletes
      ensures loader.tempDir.failedDeletes == 0 && loader.settings.maxFetchBytes <= loader.settings.maxTempBytes ==>
                NoOverflow(loader.settings, Envs(pulled))
      ensures loader.RequestsWithin(RequestsTo(|pulled|, loader.PollLimit()))
      ensures system.ledger.log == loader.storage.SeenLog()
    {
      ghost var envs, outcome, append;
      effect, envs, outcome, append := PullAndDigest();
      pulled := PullTicks(envs, append);
      system := PullRuns(loader.settings, system, envs, loader.State(), outcome, append);
    }

    // Turns up to the first effect that is not to pull again.
    method NextEffect() returns (effect: Effect, ghost ticks: seq<Tick>)
      requires Iterating() && Clean()
      modifies this, loader, loader.queue
      modifies loader.storage`cancelRequested, loader.storage`seenLines, loader.storage`seenTail
      modifies loader.tempDir`files, loader.tempDir`peakFiles, loader.tempDir`peakBytes, loader.tempDir`failedDeletes
      ensures !effect.Again? && !effect.Killed?
      ensures Ran(loader.settings, old(system), ticks, system)
      ensures system.history.yielded == old(system.history.yielded) + if effect.Yield? then [effect.slice] else []
      ensures effect.Yield? ==> Iterating() && OnlyFileOf(effect.slice) && LessWork(loader.settings, system, old(system))
      ensures !loader.closed && system.end == EndOf(effect)
      ensures loader.stopReason == if effect.Finish? then Some(effect.reason) else None
      ensures effect.Finish? || effect.Fail? ==> Clean()
      ensures effect == Finish(ExplicitCancel) ==> loader.storage.cancelRequested
      ensures old(loader.storage.cancelRequested) ==> loader.storage.cancelRequested && !effect.Yield?
      ensures loader.CancelHonest() && loader.tempDir.OneFileSoFar(loader.settings.maxFetchBytes)
      ensures old(loader.tempDir.failedDeletes) <= loader.tempDir.failedDeletes
      ensures loader.tempDir.failedDeletes == 0 && loader.settings.maxFetchBytes <= loader.settings.maxTempBytes ==>
                NoOverflow(loader.settings, Envs(ticks))
      ensures loader.RequestsWithin(RequestsTo(|ticks|, loader.PollLimit()))
      ensures system.ledger.log == loader.storage.SeenLog()
    {
      ticks := [];
      RanNothing(loader.settings, system);
      while true
        invariant Iterating() && Clean()
        invariant Ran(loader.settings, old(system), ticks, system)
        invariant system.history.yielded == old(system.history.yielded)
        invariant system == old(system) || LessWork(loader.settings, system, old(system))
        invariant old(loader.storage.cancelRequested) ==> loader.storage.cancelRequested
        invariant old(loader.tempDir.failedDeletes) <= loader.tempDir.failedDeletes
        invariant loader.RequestsWithin(RequestsTo(|ticks|, loader.PollLimit()))
        invariant loader.tempDir.failedDeletes == 0 && loader.settings.maxFetchBytes <= loader.settings.maxTempBytes ==>
                    NoOverflow(loader.settings, Envs(ticks))
        decreases RetriesLeft(loader.settings, system), RefreshesLeft(loader.settings, system),
                  |system.live.queue.pending|
      {
        ghost var pulled, before := [], system;
        effect, pulled := Advance();
        RequestsAdd(|ticks|, |pulled|, loader.PollLimit());
        ticks := JoinTicks(loader.settings, old(system), ticks, before, pulled, system);
        if !effect.Again? {
          return;
        }
      }
    }

    /**
     Advance to the next accepted slice or to the end.  The advance is a run of the ingest system
     from where the last one stopped; a yield leaves strictly less work.
     */
    method Next() returns (effect: Effect, ghost ticks: seq<Tick>)
      requires Iterating() && Clean()
      modifies this, loader, loader.queue
      modifies loader.storage`cancelRequested, loader.storage`seenLines, loader.storage`seenTail
      modifies loader.tempDir`files, loader.tempDir`peakFiles, loader.tempDir`peakBytes, loader.tempDir`failedDeletes
      ensures !effect.Again? && !effect.Killed?
      ensures Ran(loader.settings, old(system), ticks, system)
      ensures system.history.yielded == old(system.history.yielded) + if effect.Yield? then [effect.slice] else []
      ensures effect.Yield? ==> Iterating() && OnlyFileOf(effect.slice) && LessWork(loader.settings, system, old(system))
      ensures !effect.Yield? ==> loader.closed && system.end == EndOf(effect)
      ensures !effect.Yield? ==> loader.TelemetrySnapshot().stopReason
                                 == if effect.Finish? then Some(effect.reason) else None
      ensures effect.Finish? || effect.Fail? ==> Clean()
      ensures effect == Finish(ExplicitCancel) ==> loader.storage.cancelRequested
      ensures old(loader.storage.cancelRequested) ==> loader.storage.cancelRequested && !effect.Yield?
      ensures loader.CancelHonest() && loader.tempDir.OneFileSoFar(loader.settings.maxFetchBytes)
      ensures old(loader.tempDir.failedDeletes) <= loader.tempDir.failedDeletes
      ensures loader.tempDir.failedDeletes == 0 && loader.settings.maxFetchBytes <= loader.settings.maxTempBytes ==>
                NoOverflow(loader.settings, Envs(ticks))
      ensures loader.RequestsWithin(RequestsTo(|ticks|, loader.PollLimit()))
      ensures system.ledger.log == loader.storage.SeenLog()
    {
      effect, ticks := NextEffect();
      if !effect.Yield? {
        loader.Close();
      }
    }
  }
}
