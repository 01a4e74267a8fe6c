/**
 The live loop ends on every infinite sequence of answers, without help from the clock,
 and how long it lasted is accounted for exactly.  Also what its two ordinary stops mean.
 */
module IngestTermination {
  import opened Prelude
  import opened StreamContracts
  import opened LoaderMachine
  import opened DedupLog
  import opened IngestSystem

  // The system after n further iterations, the first of them answered by script(from).
  function RunScript(settings: Settings, s: System, script: nat -> Tick, from: nat, n: nat): System
    decreases n
  {
    if n == 0 then s else RunScript(settings, Step(settings, s, script(from)), script, from + 1, n - 1)
  }

  function RetriesLeft(settings: Settings, s: System): nat {
    if s.ledger.attempts <= settings.maxReconnectAttempts
    then settings.maxReconnectAttempts + 1 - s.ledger.attempts else 0
  }

  function RefreshesLeft(settings: Settings, s: System): nat {
    if s.live.refreshCount <= settings.maxPlaylistRefreshes
    then settings.maxPlaylistRefreshes - s.live.refreshCount else 0
  }

  // Every iteration that does not end the run spends a retry, a refresh or a pending segment.
  lemma StepSpends(settings: Settings, s: System, tick: Tick)
    requires s.end.None? && s.ledger.attempts <= settings.maxReconnectAttempts
    ensures var s' := Step(settings, s, tick);
            s'.end.None? ==>
              && s'.ledger.attempts <= settings.maxReconnectAttempts
              && (|| RetriesLeft(settings, s') < RetriesLeft(settings, s)
                  || (&& RetriesLeft(settings, s') == RetriesLeft(settings, s)
                      && (|| RefreshesLeft(settings, s') < RefreshesLeft(settings, s)
                          || (&& RefreshesLeft(settings, s') == RefreshesLeft(settings, s)
                              && |s'.live.queue.pending| < |s.live.queue.pending|))))
  {
  }

  /**
   Termination: whatever the server, the store and the disk answer, for ever, and even if the
   runtime limit never strikes, some iteration is the last one.
   */
  lemma {:induction false} EveryScriptEnds(settings: Settings, s: System, script: nat -> Tick, from: nat)
    returns (n: nat)
    requires s.ledger.attempts <= settings.maxReconnectAttempts
    ensures RunScript(settings, s, script, from, n).end.Some?
    decreases RetriesLeft(settings, s), RefreshesLeft(settings, s), |s.live.queue.pending|, s.end.None?
  {
    if s.end.Some? {
      n := 0;
    } else {
      var s' := Step(settings, s, script(from));
      if s'.end.Some? {
        n := 1;
        assert RunScript(settings, s', script, from + 1, 0) == s';
      } else {
        StepSpends(settings, s, script(from));
        var m := EveryScriptEnds(settings, s', script, from + 1);
        n := m + 1;
      }
    }
  }

  // The iterations that led to a state still running, one by one: taking heads, merging
  // refreshes after the one of connect, and malformed refreshes charged to the facade.
  ghost predicate TimeAccounted(s: System, iterations: nat) {
    iterations + 1 == |s.history.attempted| + s.live.refreshCount + s.ledger.attempts
  }

  ghost predicate WithinBudgets(settings: Settings, s: System) {
    && s.ledger.attempts <= settings.maxReconnectAttempts
    && s.live.refreshCount <= Max(1, settings.maxPlaylistRefreshes)
  }

  lemma StepAccountsTime(settings: Settings, s: System, tick: Tick, before: nat)
    requires TimeAccounted(s, before) && WithinBudgets(settings, s) && s.end.None?
    ensures Step(settings, s, tick).end.None? ==>
              && TimeAccounted(Step(settings, s, tick), before + 1)
              && WithinBudgets(settings, Step(settings, s, tick))
  {
  }

  /**
   A run that is still going after n iterations has spent them exactly on attempted segments,
   further refreshes and malformed refreshes, so n is bounded by its budgets and by the number
   of segments ever queued.
   */
  lemma {:induction false} IterationsAreAccounted(settings: Settings, s: System, ticks: seq<Tick>, before: nat)
    requires Accounted(s) && TimeAccounted(s, before)
    requires WithinBudgets(settings, s)
    requires Run(settings, s, ticks).end.None?
    ensures TimeAccounted(Run(settings, s, ticks), before + |ticks|)
    ensures Accounted(Run(settings, s, ticks)) && WithinBudgets(settings, Run(settings, s, ticks))
    decreases |ticks|
  {
    if ticks != [] {
      var next := Step(settings, s, ticks[0]);
      EndedStaysEnded(settings, s, ticks);
      EndedStaysEnded(settings, next, ticks[1..]);
      assert Run(settings, s, ticks) == Run(settings, next, ticks[1..]);
      StepAccountsTime(settings, s, ticks[0], before);
      StepKeepsAccount(settings, s, ticks[0]);
      IterationsAreAccounted(settings, next, ticks[1..], before + 1);
    }
  }

  lemma {:induction false} EndedStaysEnded(settings: Settings, s: System, ticks: seq<Tick>)
    ensures s.end.Some? ==> Run(settings, s, ticks) == s
    decreases |ticks|
  {
    if ticks != [] && s.end.Some? {
      EndedStaysEnded(settings, s, ticks[1..]);
    }
  }

  /** The account opens right after connect, so it covers whole runs. */
  lemma RunLength(settings: Settings, snapshot: Snapshot, log: Log, readable: bool, ticks: seq<Tick>)
    requires Run(settings, Connected(settings, snapshot, log, readable), ticks).end.None?
    ensures var s := Run(settings, Connected(settings, snapshot, log, readable), ticks);
            && |ticks| + 1 == |s.history.attempted| + s.live.refreshCount + s.ledger.attempts
            && |ticks| <= |s.history.everQueued| + Max(1, settings.maxPlaylistRefreshes) + settings.maxReconnectAttempts
  {
    ConnectedIsAccounted(settings, snapshot, log, readable);
    IterationsAreAccounted(settings, Connected(settings, snapshot, log, readable), ticks, 0);
  }

  lemma {:induction false} QueuedGrows(settings: Settings, s: System, ticks: seq<Tick>)
    ensures |s.history.everQueued| <= |Run(settings, s, ticks).history.everQueued|
    decreases |ticks|
  {
    if ticks != [] {
      QueuedGrows(settings, Step(settings, s, ticks[0]), ticks[1..]);
    }
  }

  /** A whole run, its last iteration included, is bounded by the budgets and the segments ever queued. */
  lemma WholeRunLength(settings: Settings, snapshot: Snapshot, log: Log, readable: bool, ticks: seq<Tick>, s: System)
    requires Ran(settings, Connected(settings, snapshot, log, readable), ticks, s)
    ensures |ticks| <= |s.history.everQueued| + Max(1, settings.maxPlaylistRefreshes) + settings.maxReconnectAttempts + 1
  {
    if ticks != [] {
      var s0 := Connected(settings, snapshot, log, readable);
      var init, last := ticks[..|ticks| - 1], ticks[|ticks| - 1..];
      assert ticks == init + last && ticks[..|ticks|] == ticks;
      RunLength(settings, snapshot, log, readable, init);
      RunSplits(settings, s0, init, last);
      QueuedGrows(settings, Run(settings, s0, init), last);
    }
  }

  // ---- The two ordinary stops ------------------------------------------------------

  /** Once a refresh carried ENDLIST no further snapshot is merged: the queue only drains. */
  lemma {:induction false} EndlistOnlyDrains(settings: Settings, s: System, ticks: seq<Tick>)
    requires s.live.sawEndlist
    ensures var s' := Run(settings, s, ticks);
            && s'.live.sawEndlist
            && s'.history.merged == s.history.merged
            && s'.history.everQueued == s.history.everQueued
            && |s'.live.queue.pending| <= |s.live.queue.pending|
    decreases |ticks|
  {
    if ticks != [] {
      EndlistOnlyDrains(settings, Step(settings, s, ticks[0]), ticks[1..]);
    }
  }

  // How many of the latest merges in a row queued nothing.
  function BarrenTail(added: seq<nat>): (n: nat)
    ensures n <= |added|
    ensures forall i :: |added| - n <= i < |added| ==> added[i] == 0
    ensures n < |added| ==> added[|added| - n - 1] > 0
  {
    if added == [] || added[|added| - 1] > 0 then 0
    else BarrenTail(added[..|added| - 1]) + 1
  }

  ghost predicate IdleCounted(s: System) {
    && (!s.live.sawEndlist ==> s.live.idlePolls == BarrenTail(s.history.added))
    && (s.end == Some(Drained(IdlePollBudgetExhausted)) ==> !s.live.sawEndlist && s.live.queue.pending == [])
    && (s.end == Some(Drained(EndlistReached)) ==> s.live.sawEndlist && s.live.queue.pending == [])
  }

  lemma BarrenTailOfAppend(added: seq<nat>, last: nat)
    ensures BarrenTail(added + [last]) == if last > 0 then 0 else BarrenTail(added) + 1
  {
    assert (added + [last])[..|added|] == added;
  }

  // What one more merge makes of the count, whatever else it does.
  lemma CountsOneMore(s: System, s': System, queued: nat)
    requires s.end.None? && IdleCounted(s) && !s.live.sawEndlist && s'.end.None?
    requires s'.history.added == s.history.added + [queued]
    requires !s'.live.sawEndlist ==> s'.live.idlePolls == if queued > 0 then 0 else s.live.idlePolls + 1
    ensures IdleCounted(s')
  {
    BarrenTailOfAppend(s.history.added, queued);
  }

  lemma MergeCountsIdle(settings: Settings, s: System, tick: Tick)
    requires s.end.None? && IdleCounted(s) && !s.live.sawEndlist
    requires Iterate(settings, s.live, tick.env).1.Continue?
    ensures IdleCounted(Step(settings, s, tick)) && Step(settings, s, tick).end.None?
  {
    CountsOneMore(s, Step(settings, s, tick), |NewSegments(s.live, tick.env.playlist.snapshot)|);
  }

  lemma OtherStepsKeepIdle(settings: Settings, s: System, tick: Tick)
    requires s.end.None? && !Iterate(settings, s.live, tick.env).1.Continue?
    ensures var s' := Step(settings, s, tick);
            && s'.history.added == s.history.added
            && s'.live.sawEndlist == s.live.sawEndlist && s'.live.idlePolls == s.live.idlePolls
            && (s'.end == Some(Drained(IdlePollBudgetExhausted)) ==>
                  !s'.live.sawEndlist && s'.live.queue.pending == [] && s'.live.idlePolls >= settings.maxIdlePolls)
            && (s'.end == Some(Drained(EndlistReached)) ==> s'.live.sawEndlist && s'.live.queue.pending == [])
  {
  }

  lemma StepCountsIdle(settings: Settings, s: System, tick: Tick)
    requires IdleCounted(s)
    ensures IdleCounted(Step(settings, s, tick))
    ensures Step(settings, s, tick).end == Some(Drained(IdlePollBudgetExhausted)) && s.end.None? ==>
              Step(settings, s, tick).live.idlePolls >= settings.maxIdlePolls
  {
    if s.end.None? {
      if Iterate(settings, s.live, tick.env).1.Continue? {
        MergeCountsIdle(settings, s, tick);
      } else {
        OtherStepsKeepIdle(settings, s, tick);
      }
    }
  }

  /**
   An idle stop comes only after at least the budgeted number of merges in a row, the last ones
   of the run, that queued nothing; an end-of-list stop only with ENDLIST seen and nothing pending.
   */
  lemma {:induction false} StopsAreEarned(settings: Settings, s: System, ticks: seq<Tick>)
    requires s.end.None? && IdleCounted(s)
    ensures var s' := Run(settings, s, ticks);
            && (s'.end == Some(Drained(IdlePollBudgetExhausted)) ==>
                  && s'.live.queue.pending == []
                  && settings.maxIdlePolls <= |s'.history.added|
                  && forall i :: |s'.history.added| - settings.maxIdlePolls <= i < |s'.history.added| ==>
                       s'.history.added[i] == 0)
            && (s'.end == Some(Drained(EndlistReached)) ==>
                  s'.live.sawEndlist && s'.live.queue.pending == [])
    decreases |ticks|
  {
    if ticks != [] {
      StepCountsIdle(settings, s, ticks[0]);
      var next := Step(settings, s, ticks[0]);
      if next.end.None? {
        StopsAreEarned(settings, next, ticks[1..]);
      } else {
        EndedStaysEnded(settings, next, ticks[1..]);
        var n := BarrenTail(next.history.added);
      }
    }
  }

  lemma ConnectedCountsIdle(settings: Settings, snapshot: Snapshot, log: Log, readable: bool)
    ensures IdleCounted(Connected(settings, snapshot, log, readable))
  {
    BarrenTailOfAppend([], |NewSegments(InitialLive(settings), snapshot)|);
  }
}
