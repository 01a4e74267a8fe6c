/**
 Loader and facade together, one loader iteration at a time, driven by an arbitrary
 sequence of answers from the outside world, with the history a reader would want to ask about.
 */
module IngestSystem {
  import opened Prelude
  import opened StreamContracts
  import opened HlsPolicy
  import opened LoaderMachine
  import opened FacadeMachine
  import opened DedupLog

  datatype End =
    | Drained(reason: StopReason)
    | GaveUp(message: string)
    | Escaped(crash: Crash)
    | Dead

  datatype Fate = Delivered | Lost

  datatype Attempted = Attempted(segment: Segment, fate: Fate)

  datatype History = History(
    merged: seq<Snapshot>,       // the snapshots merged, the one of connect first
    added: seq<nat>,             // how many segments each of them queued
    everQueued: seq<Segment>,
    gaps: seq<Gap>,              // the window advances reported
    attempted: seq<Attempted>,   // the heads taken off the queue, in order
    yielded: seq<Slice>)

  datatype System = System(live: Live, ledger: Ledger, end: Option<End>, history: History)

  datatype Tick = Tick(env: Env, append: AppendReply)

  function Merge(history: History, live: Live, snapshot: Snapshot): History {
    var unseen := NewSegments(live, snapshot);
    var gap := ReportedGap(live, snapshot);
    history.(
      merged := history.merged + [snapshot],
      added := history.added + [|unseen|],
      everQueued := history.everQueued + unseen,
      gaps := history.gaps + if gap.None? then [] else [gap.value])
  }

  function Record(history: History, live: Live, env: Env, outcome: Outcome, effect: Effect): History {
    if outcome.Continue? && env.playlist.MediaPlaylist? then
      Merge(history, live, env.playlist.snapshot)
    else if outcome.Produced? && live.queue.pending != [] then
      history.(
        attempted := history.attempted + [Attempted(live.queue.pending[0], Delivered)],
        yielded := history.yielded + if effect.Yield? then [effect.slice] else [])
    else if outcome.Raised? && outcome.kind == Temporary && live.queue.pending != [] then
      history.(attempted := history.attempted + [Attempted(live.queue.pending[0], Lost)])
    else
      history
  }

  function EndOf(effect: Effect): Option<End> {
    match effect
    case Again => None
    case Yield(_) => None
    case Finish(reason) => Some(Drained(reason))
    case Fail(message) => Some(GaveUp(message))
    case Escape(crash) => Some(Escaped(crash))
    case Killed => Some(Dead)
  }

  function Step(settings: Settings, s: System, tick: Tick): System {
    if s.end.Some? then s
    else
      var (live, outcome) := Iterate(settings, s.live, tick.env);
      var (ledger, effect) := React(settings.maxReconnectAttempts, s.ledger, outcome, tick.append);
      System(live, ledger, EndOf(effect), Record(s.history, s.live, tick.env, outcome, effect))
  }

  function Run(settings: Settings, s: System, ticks: seq<Tick>): System
    decreases |ticks|
  {
    if ticks == [] then s else Run(settings, Step(settings, s, ticks[0]), ticks[1..])
  }

  // The ticks lead from one system to the other, and none of them met a system that had ended.
  ghost predicate Ran(settings: Settings, s: System, ticks: seq<Tick>, s': System) {
    forall n :: 0 <= n <= |ticks| ==>
      if n < |ticks| then Run(settings, s, ticks[..n]).end.None? else Run(settings, s, ticks[..n]) == s'
  }

  // The system just after a successful connect.
  function Connected(settings: Settings, snapshot: Snapshot, log: Log, logReadable: bool): System {
    var empty := InitialLive(settings);
    System(
      Refresh(settings, empty, snapshot),
      Opened(log, logReadable),
      None,
      Merge(History([], [], [], [], [], []), empty, snapshot))
  }

  function Segments(attempted: seq<Attempted>): (segments: seq<Segment>)
    ensures |segments| == |attempted|
    ensures forall i :: 0 <= i < |segments| ==> segments[i] == attempted[i].segment
  {
    seq(|attempted|, i requires 0 <= i < |attempted| => attempted[i].segment)
  }

  // ---- Runs in parts -----------------------------------------------------------------

  lemma {:induction false} RunSplits(settings: Settings, s: System, a: seq<Tick>, b: seq<Tick>)
    ensures Run(settings, s, a + b) == Run(settings, Run(settings, s, a), b)
    decreases |a|
  {
    if a == [] {
      assert a + b == b;
    } else {
      assert (a + b)[0] == a[0] && (a + b)[1..] == a[1..] + b;
      RunSplits(settings, Step(settings, s, a[0]), a[1..], b);
    }
  }

  lemma RanWhole(settings: Settings, s: System, ticks: seq<Tick>, s': System)
    requires Ran(settings, s, ticks, s')
    ensures s' == Run(settings, s, ticks)
  {
    assert ticks[..|ticks|] == ticks;
  }

  lemma RanNothing(settings: Settings, s: System)
    ensures Ran(settings, s, [], s)
  {
    var none: seq<Tick> := [];
    assert none[..0] == none;
  }

  lemma RanOne(settings: Settings, s: System, tick: Tick)
    requires s.end.None?
    ensures Ran(settings, s, [tick], Step(settings, s, tick))
  {
    assert [tick][..0] == [] && [tick][..1] == [tick] && [tick][1..] == [];
  }

  /** Two stretches of a run, one after the other, are a run. */
  lemma RanConcat(settings: Settings, s: System, a: seq<Tick>, mid: System, b: seq<Tick>, s': System)
    requires Ran(settings, s, a, mid) && Ran(settings, mid, b, s')
    ensures Ran(settings, s, a + b, s')
  {
    var all := a + b;
    RanWhole(settings, s, a, mid);
    forall n | 0 <= n <= |all|
      ensures if n < |all| then Run(settings, s, all[..n]).end.None? else Run(settings, s, all[..n]) == s'
    {
      if n < |a| {
        assert all[..n] == a[..n];
      } else {
        var m := n - |a|;
        assert all[..n] == a + b[..m];
        RunSplits(settings, s, a, b[..m]);
      }
    }
  }

  // ---- What holds for every server ------------------------------------------------

  // First in, first out: what was queued is what was attempted followed by what is pending.
  ghost predicate FirstInFirstOut(s: System) {
    && s.history.everQueued == Segments(s.history.attempted) + s.live.queue.pending
    && |s.history.merged| == |s.history.added| == s.live.refreshCount
  }

  ghost predicate Accounted(s: System) {
    QueueInvariant(s.live.queue) && FirstInFirstOut(s)
  }

  lemma RefreshKeepsQueueInvariant(settings: Settings, live: Live, snapshot: Snapshot)
    requires QueueInvariant(live.queue)
    ensures QueueInvariant(Refresh(settings, live, snapshot).queue)
  {
    if snapshot.segments != [] {
      PruneKeepsInvariant(live.queue, MinSequence(snapshot.segments));
    }
    EnqueueAllKeepsInvariant(Pruned(live.queue, snapshot), snapshot.segments);
  }

  function AfterMerge(settings: Settings, s: System, snapshot: Snapshot): System {
    s.(live := Refresh(settings, s.live, snapshot), history := Merge(s.history, s.live, snapshot))
  }

  function AfterConsume(s: System, fate: Fate): System
    requires s.live.queue.pending != []
  {
    s.(live := Consume(s.live),
       history := s.history.(attempted := s.history.attempted + [Attempted(s.live.queue.pending[0], fate)]))
  }

  lemma MergeKeepsOrder(settings: Settings, s: System, snapshot: Snapshot)
    requires FirstInFirstOut(s)
    ensures FirstInFirstOut(AfterMerge(settings, s, snapshot))
  {
    EnqueueAllAppends(Pruned(s.live.queue, snapshot), snapshot.segments);
  }

  lemma ConsumeKeepsOrder(s: System, fate: Fate)
    requires FirstInFirstOut(s) && s.live.queue.pending != []
    ensures FirstInFirstOut(AfterConsume(s, fate))
  {
    var attempted := AfterConsume(s, fate).history.attempted;
    assert Segments(attempted) == Segments(s.history.attempted) + [s.live.queue.pending[0]];
  }

  // A head was taken off the queue, with this fate.
  ghost predicate Took(s: System, s': System, fate: Fate) {
    && s.live.queue.pending != []
    && s'.live == Consume(s.live)
    && s'.history.attempted == s.history.attempted + [Attempted(s.live.queue.pending[0], fate)]
    && s'.history == s.history.(attempted := s'.history.attempted, yielded := s'.history.yielded)
  }

  // A step of a running system merges a playlist, takes a head, or leaves queue and history alone.
  lemma StepIsOneOf(settings: Settings, s: System, tick: Tick)
    requires s.end.None?
    ensures var s' := Step(settings, s, tick);
            || (&& s'.live.queue == s.live.queue && s'.live.refreshCount == s.live.refreshCount
                && s'.history == s.history)
            || (&& tick.env.playlist.MediaPlaylist?
                && s'.live == Refresh(settings, s.live, tick.env.playlist.snapshot)
                && s'.history == Merge(s.history, s.live, tick.env.playlist.snapshot))
            || Took(s, s', Delivered) || Took(s, s', Lost)
  {
  }

  lemma StepKeepsQueueInvariant(settings: Settings, s: System, tick: Tick)
    requires QueueInvariant(s.live.queue)
    ensures QueueInvariant(Step(settings, s, tick).live.queue)
  {
    if s.end.None? {
      if tick.env.playlist.MediaPlaylist? {
        RefreshKeepsQueueInvariant(settings, s.live, tick.env.playlist.snapshot);
      }
      if s.live.queue.pending != [] {
        FinalizeKeepsInvariant(s.live.queue, true);
      }
      StepIsOneOf(settings, s, tick);
    }
  }

  lemma StepKeepsOrder(settings: Settings, s: System, tick: Tick)
    requires FirstInFirstOut(s)
    ensures FirstInFirstOut(Step(settings, s, tick))
  {
    if s.end.None? {
      if tick.env.playlist.MediaPlaylist? {
        MergeKeepsOrder(settings, s, tick.env.playlist.snapshot);
      }
      if s.live.queue.pending != [] {
        ConsumeKeepsOrder(s, Delivered);
        ConsumeKeepsOrder(s, Lost);
      }
      StepIsOneOf(settings, s, tick);
    }
  }

  lemma StepKeepsAccount(settings: Settings, s: System, tick: Tick)
    requires Accounted(s)
    ensures Accounted(Step(settings, s, tick))
  {
    StepKeepsQueueInvariant(settings, s, tick);
    StepKeepsOrder(settings, s, tick);
  }

  lemma ConnectedIsAccounted(settings: Settings, snapshot: Snapshot, log: Log, logReadable: bool)
    ensures Accounted(Connected(settings, snapshot, log, logReadable))
  {
    var s0 := System(InitialLive(settings), Opened(log, logReadable), None, History([], [], [], [], [], []));
    RefreshKeepsQueueInvariant(settings, s0.live, snapshot);
    MergeKeepsOrder(settings, s0, snapshot);
  }

  /**
   The queue invariant and first-in-first-out conservation hold after any number of
   iterations, whatever the server, the store and the clock answer.
   */
  lemma {:induction false} RunKeepsAccount(settings: Settings, s: System, ticks: seq<Tick>)
    requires Accounted(s)
    ensures Accounted(Run(settings, s, ticks))
    decreases |ticks|
  {
    if ticks != [] {
      StepKeepsAccount(settings, s, ticks[0]);
      RunKeepsAccount(settings, Step(settings, s, ticks[0]), ticks[1..]);
    }
  }

  /** The keys a run has seen grow by exactly one per yielded slice. */
  lemma {:induction false} SeenCountsYields(settings: Settings, s: System, ticks: seq<Tick>)
    ensures |Run(settings, s, ticks).ledger.seen| + |s.history.yielded|
            == |s.ledger.seen| + |Run(settings, s, ticks).history.yielded|
    decreases |ticks|
  {
    if ticks != [] {
      StepCountsYield(settings, s, ticks[0]);
      SeenCountsYields(settings, Step(settings, s, ticks[0]), ticks[1..]);
    }
  }

  lemma StepCountsYield(settings: Settings, s: System, tick: Tick)
    ensures |Step(settings, s, tick).ledger.seen| + |s.history.yielded|
            == |s.ledger.seen| + |Step(settings, s, tick).history.yielded|
  {
  }
}
