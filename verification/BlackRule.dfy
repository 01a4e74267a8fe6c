/**
 The black-screen rule: a window over the latest seconds of samples, and a decision with
 hysteresis.  The window refines the whole history, and the hysteresis cannot flap.
 */
module BlackRule {
  import opened Prelude

  datatype BlackPolicy = BlackPolicy(
    windowSec: real,
    enterRatio: real,
    recoverRatio: real,
    alertDurationSec: real)

  predicate ValidPolicy(policy: BlackPolicy) {
    && policy.windowSec >= 0.001
    && 0.0 <= policy.recoverRatio < policy.enterRatio
  }

  const DEFAULT_POLICY := BlackPolicy(3.0, 0.80, 0.20, 1.0)

  datatype BlackSample = BlackSample(durationSec: real, blackRatio: real)

  datatype BlackRow = BlackRow(durationSec: real, blackRatio: real, longestBlackSec: real)

  datatype BlackState = BlackState(window: seq<BlackSample>, active: bool)

  const FRESH_BLACK := BlackState([], false)

  datatype BlackSummary = BlackSummary(rollingRatio: real, observedWindowSec: real)

  datatype BlackDecision = EnteredByContinuous | EnteredByRolling | BlackActive | BlackRecovered | BlackNormal

  function ClampUnit(value: real): (clamped: real)
    ensures 0.0 <= clamped <= 1.0
    ensures 0.0 <= value <= 1.0 ==> clamped == value
  {
    RealMax(0.0, RealMin(1.0, value))
  }

  // A missing duration counts as a second; no sample is longer than the window.
  function SampleOf(policy: BlackPolicy, row: BlackRow): (sample: BlackSample)
    requires ValidPolicy(policy)
    ensures WellFormed(policy, sample)
  {
    var duration := if row.durationSec == 0.0 then 1.0 else row.durationSec;
    BlackSample(RealMax(0.001, RealMin(duration, policy.windowSec)), ClampUnit(row.blackRatio))
  }

  predicate WellFormed(policy: BlackPolicy, sample: BlackSample) {
    0.0 < sample.durationSec <= policy.windowSec && 0.0 <= sample.blackRatio <= 1.0
  }

  predicate AllWellFormed(policy: BlackPolicy, samples: seq<BlackSample>) {
    forall i :: 0 <= i < |samples| ==> WellFormed(policy, samples[i])
  }

  function Total(samples: seq<BlackSample>): real {
    if samples == [] then 0.0 else samples[0].durationSec + Total(samples[1..])
  }

  // The black seconds of a sample.
  function Share(sample: BlackSample): real {
    sample.durationSec * sample.blackRatio
  }

  // Seconds weighted by how black they were.
  function Weight(samples: seq<BlackSample>): real {
    if samples == [] then 0.0 else Share(samples[0]) + Weight(samples[1..])
  }

  const SLACK := 0.000000001

  // Drop from the front until no more than the limit is left.
  function Trim(window: seq<BlackSample>, limit: real): seq<BlackSample> {
    if window == [] || Total(window) <= limit then window
    else
      var overflow := Total(window) - limit;
      if window[0].durationSec <= overflow + SLACK then Trim(window[1..], limit)
      else [window[0].(durationSec := window[0].durationSec - overflow)] + window[1..]
  }

  function Summarize(window: seq<BlackSample>): BlackSummary {
    var total := Total(window);
    BlackSummary(if total <= 0.0 then 0.0 else Weight(window) / total, total)
  }

  function NextWindow(policy: BlackPolicy, window: seq<BlackSample>, row: BlackRow): seq<BlackSample>
    requires ValidPolicy(policy)
  {
    Trim(window + [SampleOf(policy, row)], policy.windowSec)
  }

  predicate EntersByContinuous(policy: BlackPolicy, row: BlackRow) {
    row.longestBlackSec >= policy.alertDurationSec
  }

  predicate EntersByRolling(policy: BlackPolicy, summary: BlackSummary) {
    summary.observedWindowSec >= policy.windowSec && summary.rollingRatio >= policy.enterRatio
  }

  predicate Recovers(policy: BlackPolicy, summary: BlackSummary, row: BlackRow) {
    && summary.observedWindowSec >= policy.windowSec
    && summary.rollingRatio <= policy.recoverRatio
    && row.longestBlackSec < policy.alertDurationSec
  }

  function Decide(policy: BlackPolicy, active: bool, summary: BlackSummary, row: BlackRow): BlackDecision {
    if active then
      if Recovers(policy, summary, row) then BlackRecovered else BlackActive
    else if EntersByContinuous(policy, row) then EnteredByContinuous
    else if EntersByRolling(policy, summary) then EnteredByRolling
    else BlackNormal
  }

  predicate Alerts(decision: BlackDecision) {
    decision.EnteredByContinuous? || decision.EnteredByRolling?
  }

  function ActiveAfter(active: bool, decision: BlackDecision): bool {
    Alerts(decision) || (active && !decision.BlackRecovered?)
  }

  function BlackStep(policy: BlackPolicy, state: BlackState, row: BlackRow): (BlackState, BlackDecision)
    requires ValidPolicy(policy)
  {
    var window := NextWindow(policy, state.window, row);
    var decision := Decide(policy, state.active, Summarize(window), row);
    (BlackState(window, ActiveAfter(state.active, decision)), decision)
  }

  // The state before the n-th row.
  function StateAt(policy: BlackPolicy, state: BlackState, rows: seq<BlackRow>, n: nat): BlackState
    requires ValidPolicy(policy) && n <= |rows|
  {
    if n == 0 then state else BlackStep(policy, StateAt(policy, state, rows, n - 1), rows[n - 1]).0
  }

  function DecisionAt(policy: BlackPolicy, state: BlackState, rows: seq<BlackRow>, n: nat): BlackDecision
    requires ValidPolicy(policy) && n < |rows|
  {
    BlackStep(policy, StateAt(policy, state, rows, n), rows[n]).1
  }

  // The sampled seconds of rows [from, to).
  function Elapsed(policy: BlackPolicy, rows: seq<BlackRow>, from: nat, to: nat): real
    requires ValidPolicy(policy) && from <= to <= |rows|
  {
    if from == to then 0.0 else Elapsed(policy, rows, from, to - 1) + SampleOf(policy, rows[to - 1]).durationSec
  }

  // ---- Sums ------------------------------------------------------------------------

  lemma {:induction false} SumsOfAppend(a: seq<BlackSample>, b: seq<BlackSample>)
    ensures Total(a + b) == Total(a) + Total(b)
    ensures Weight(a + b) == Weight(a) + Weight(b)
  {
    if a == [] {
      assert a + b == b;
    } else {
      assert (a + b)[1..] == a[1..] + b;
      SumsOfAppend(a[1..], b);
    }
  }

  lemma SumsOfOne(sample: BlackSample)
    ensures Total([sample]) == sample.durationSec
    ensures Weight([sample]) == Share(sample)
  {
    assert [sample][1..] == [];
  }

  lemma ShareIsBounded(sample: BlackSample)
    requires 0.0 <= sample.durationSec && 0.0 <= sample.blackRatio <= 1.0
    ensures 0.0 <= Share(sample) <= sample.durationSec
  {
    ProductIsPositive(sample.durationSec, sample.blackRatio);
    ProductIsPositive(sample.durationSec, 1.0 - sample.blackRatio);
  }

  lemma ProductIsPositive(x: real, y: real)
    requires x >= 0.0 && y >= 0.0
    ensures x * y >= 0.0
  {
  }

  lemma {:induction false} SumsAreBounded(policy: BlackPolicy, samples: seq<BlackSample>)
    requires AllWellFormed(policy, samples)
    ensures 0.0 <= Weight(samples) <= Total(samples)
    ensures samples != [] ==> Total(samples) > 0.0
  {
    if samples != [] {
      SumsAreBounded(policy, samples[1..]);
      ShareIsBounded(samples[0]);
    }
  }

  // Cutting seconds off a sample costs at most as many black seconds.
  lemma CutSample(sample: BlackSample, overflow: real)
    requires 0.0 <= overflow <= sample.durationSec && 0.0 <= sample.blackRatio <= 1.0
    ensures var cut := sample.(durationSec := sample.durationSec - overflow);
            0.0 <= Share(sample) - Share(cut) <= overflow
  {
    var lost := BlackSample(overflow, sample.blackRatio);
    ShareIsBounded(lost);
    assert Share(sample.(durationSec := sample.durationSec - overflow)) == Share(sample) - Share(lost);
  }

  // What trimming does to the sums: it drops no more black seconds than seconds, and adds none.
  ghost predicate Trimmed(policy: BlackPolicy, window: seq<BlackSample>, trimmed: seq<BlackSample>) {
    && AllWellFormed(policy, trimmed)
    && Total(trimmed) <= policy.windowSec && Total(trimmed) <= Total(window)
    && 0.0 <= Weight(window) - Weight(trimmed) <= Total(window) - Total(trimmed)
    && (Total(window) <= policy.windowSec ==> trimmed == window)
    && (Total(window) > policy.windowSec ==> Total(trimmed) >= policy.windowSec - SLACK)
  }

  lemma {:induction false} TrimDropsSeconds(policy: BlackPolicy, window: seq<BlackSample>)
    requires ValidPolicy(policy) && AllWellFormed(policy, window)
    ensures Trimmed(policy, window, Trim(window, policy.windowSec))
  {
    if window != [] && Total(window) > policy.windowSec {
      var overflow := Total(window) - policy.windowSec;
      var head, tail := window[0], window[1..];
      SumsAreBounded(policy, tail);
      if head.durationSec <= overflow + SLACK {
        ShareIsBounded(head);
        TrimDropsSeconds(policy, tail);
      } else {
        CutSample(head, overflow);
        CutHead(policy, head, tail, overflow);
        assert window == [head] + tail;
      }
    }
  }

  lemma CutHead(policy: BlackPolicy, head: BlackSample, tail: seq<BlackSample>, overflow: real)
    requires WellFormed(policy, head) && AllWellFormed(policy, tail) && 0.0 <= overflow < head.durationSec
    ensures var cut := [head.(durationSec := head.durationSec - overflow)] + tail;
            && AllWellFormed(policy, cut)
            && Total(cut) == Total([head] + tail) - overflow
            && 0.0 <= Weight([head] + tail) - Weight(cut) <= overflow
  {
    var shorter := head.(durationSec := head.durationSec - overflow);
    CutSample(head, overflow);
    assert ([shorter] + tail)[1..] == tail && ([head] + tail)[1..] == tail;
  }

  // ---- The window is the latest part of the history -----------------------------------

  // The last t seconds of a history.
  function Last(history: seq<BlackSample>, t: real): seq<BlackSample> {
    if history == [] || t <= 0.0 then []
    else
      var last := history[|history| - 1];
      if last.durationSec >= t then [last.(durationSec := t)]
      else Last(history[..|history| - 1], t - last.durationSec) + [last]
  }

  lemma {:induction false} LastOfAll(policy: BlackPolicy, history: seq<BlackSample>)
    requires AllWellFormed(policy, history)
    ensures Last(history, Total(history)) == history
  {
    if history != [] {
      var init, last := history[..|history| - 1], history[|history| - 1];
      assert history == init + [last];
      SumsOfAppend(init, [last]);
      SumsOfOne(last);
      SumsAreBounded(policy, init);
      LastOfAll(policy, init);
    }
  }

  // Only what lies within the last t seconds matters.
  lemma {:induction false} LastIgnoresFront(policy: BlackPolicy, front: seq<BlackSample>, history: seq<BlackSample>, t: real)
    requires AllWellFormed(policy, history) && t <= Total(history)
    ensures Last(front + history, t) == Last(history, t)
    decreases |history|
  {
    if history != [] && t > 0.0 {
      var init, last := history[..|history| - 1], history[|history| - 1];
      assert history == init + [last];
      SumsOfAppend(init, [last]);
      SumsOfOne(last);
      assert (front + history)[..|front + history| - 1] == front + init;
      LastIgnoresFront(policy, front, init, t - last.durationSec);
    } else if history == [] {
    }
  }

  // The last seconds of the last seconds.
  lemma LastOfAppend(front: seq<BlackSample>, last: BlackSample, t: real)
    ensures Last(front + [last], t) == if t <= 0.0 then []
                                       else if last.durationSec >= t then [last.(durationSec := t)]
                                       else Last(front, t - last.durationSec) + [last]
  {
    assert (front + [last])[..|front|] == front;
  }

  lemma LastOfOne(sample: BlackSample, u: real)
    requires 0.0 < u <= sample.durationSec
    ensures Last([sample], u) == [sample.(durationSec := u)]
  {
  }

  lemma LastOfLonger(shorter: seq<BlackSample>, front: seq<BlackSample>, last: BlackSample, t: real, u: real)
    requires 0.0 < u <= t
    requires shorter == Last(front, t - last.durationSec)
    requires Last(shorter, u - last.durationSec) == Last(front, u - last.durationSec)
    ensures Last(Last(front + [last], t), u) == Last(front + [last], u)
  {
    LastOfAppend(front, last, t);
    LastOfAppend(front, last, u);
    if last.durationSec < t {
      LastOfAppend(shorter, last, u);
    } else {
      LastOfOne(last.(durationSec := t), u);
    }
  }

  lemma {:induction false} LastOfLast(policy: BlackPolicy, history: seq<BlackSample>, t: real, u: real)
    requires AllWellFormed(policy, history) && u <= t
    ensures Last(Last(history, t), u) == Last(history, u)
    decreases |history|
  {
    if history != [] && u > 0.0 {
      var front, last := history[..|history| - 1], history[|history| - 1];
      assert history == front + [last];
      LastOfLast(policy, front, t - last.durationSec, u - last.durationSec);
      LastOfLonger(Last(front, t - last.durationSec), front, last, t, u);
    }
  }

  lemma {:induction false} TrimIsLast(policy: BlackPolicy, window: seq<BlackSample>)
    requires ValidPolicy(policy) && AllWellFormed(policy, window)
    ensures Trim(window, policy.windowSec) == Last(window, Total(Trim(window, policy.windowSec)))
  {
    TrimDropsSeconds(policy, window);
    if window == [] || Total(window) <= policy.windowSec {
      LastOfAll(policy, window);
    } else {
      var overflow := Total(window) - policy.windowSec;
      var head, tail := window[0], window[1..];
      assert window == [head] + tail;
      if head.durationSec <= overflow + SLACK {
        TrimIsLast(policy, tail);
        TrimDropsSeconds(policy, tail);
        LastIgnoresFront(policy, [head], tail, Total(Trim(tail, policy.windowSec)));
      } else {
        LastWithCutHead(policy, head, tail, head.durationSec - overflow);
        assert ([head.(durationSec := head.durationSec - overflow)] + tail)[1..] == tail;
      }
    }
  }

  lemma {:induction false} LastWithCutHead(policy: BlackPolicy, head: BlackSample, tail: seq<BlackSample>, kept: real)
    requires AllWellFormed(policy, tail) && 0.0 < kept <= head.durationSec
    ensures Last([head] + tail, Total(tail) + kept) == [head.(durationSec := kept)] + tail
    decreases |tail|
  {
    if tail == [] {
      assert [head] + tail == [head];
    } else {
      var init, last := tail[..|tail| - 1], tail[|tail| - 1];
      assert tail == init + [last];
      SumsOfAppend(init, [last]);
      SumsOfOne(last);
      SumsAreBounded(policy, init);
      assert ([head] + tail)[..|tail|] == [head] + init;
      LastWithCutHead(policy, head, init, kept);
    }
  }

  // All samples of the first n rows.
  function History(policy: BlackPolicy, rows: seq<BlackRow>, n: nat): (history: seq<BlackSample>)
    requires ValidPolicy(policy) && n <= |rows|
    ensures |history| == n && AllWellFormed(policy, history)
  {
    if n == 0 then [] else History(policy, rows, n - 1) + [SampleOf(policy, rows[n - 1])]
  }

  // A window holds the last Total(window) seconds of a history: all of it while it fits, and
  // otherwise the window length up to the slack of the trimming.
  ghost predicate Refines(policy: BlackPolicy, window: seq<BlackSample>, history: seq<BlackSample>) {
    && AllWellFormed(policy, window)
    && window == Last(history, Total(window))
    && Total(window) <= policy.windowSec && Total(window) <= Total(history)
    && (Total(history) <= policy.windowSec ==> window == history)
    && (Total(history) > policy.windowSec ==> Total(window) >= policy.windowSec - SLACK)
  }

  lemma GrownWindowIsLast(policy: BlackPolicy, window: seq<BlackSample>, history: seq<BlackSample>, sample: BlackSample)
    requires AllWellFormed(policy, history) && WellFormed(policy, sample)
    requires AllWellFormed(policy, window) && window == Last(history, Total(window))
    ensures window + [sample] == Last(history + [sample], Total(window + [sample]))
  {
    SumsOfAppend(window, [sample]);
    SumsOfOne(sample);
    SumsAreBounded(policy, window);
    GrownIsLast(policy, history, sample, Total(window));
  }

  // What trimming leaves of the latest part of a history is the latest part still.
  lemma TrimOfLastIsLast(policy: BlackPolicy, window: seq<BlackSample>, history: seq<BlackSample>)
    requires ValidPolicy(policy) && AllWellFormed(policy, history) && AllWellFormed(policy, window)
    requires window == Last(history, Total(window))
    ensures Trim(window, policy.windowSec) == Last(history, Total(Trim(window, policy.windowSec)))
  {
    TrimDropsSeconds(policy, window);
    TrimIsLast(policy, window);
    LastOfLast(policy, history, Total(window), Total(Trim(window, policy.windowSec)));
  }

  lemma NextRefines(policy: BlackPolicy, window: seq<BlackSample>, history: seq<BlackSample>, sample: BlackSample)
    requires ValidPolicy(policy) && AllWellFormed(policy, history) && WellFormed(policy, sample)
    requires Refines(policy, window, history)
    ensures Refines(policy, Trim(window + [sample], policy.windowSec), history + [sample])
  {
    GrownWindowIsLast(policy, window, history, sample);
    TrimOfLastIsLast(policy, window + [sample], history + [sample]);
    SumsOfAppend(window, [sample]);
    SumsOfAppend(history, [sample]);
    SumsOfOne(sample);
    TrimDropsSeconds(policy, window + [sample]);
  }

  /** Refinement: after any rows, the trimmed window is the latest part of the whole history. */
  lemma {:induction false} WindowIsLatestHistory(policy: BlackPolicy, rows: seq<BlackRow>, n: nat)
    requires ValidPolicy(policy) && n <= |rows|
    ensures Refines(policy, StateAt(policy, FRESH_BLACK, rows, n).window, History(policy, rows, n))
  {
    if n > 0 {
      WindowIsLatestHistory(policy, rows, n - 1);
      NextRefines(policy, StateAt(policy, FRESH_BLACK, rows, n - 1).window,
                  History(policy, rows, n - 1), SampleOf(policy, rows[n - 1]));
    }
  }

  lemma GrownIsLast(policy: BlackPolicy, history: seq<BlackSample>, sample: BlackSample, t: real)
    requires AllWellFormed(policy, history) && WellFormed(policy, sample) && t >= 0.0
    ensures Last(history, t) + [sample] == Last(history + [sample], t + sample.durationSec)
  {
    assert (history + [sample])[..|history|] == history;
  }

  lemma RatioIsBounded(policy: BlackPolicy, window: seq<BlackSample>, level: real)
    requires AllWellFormed(policy, window) && window != []
    ensures var summary := Summarize(window);
            && (summary.rollingRatio >= level <==> Weight(window) >= level * Total(window))
            && (summary.rollingRatio <= level <==> Weight(window) <= level * Total(window))
  {
    assert Total(window) > 0.0 by {
      SumsAreBounded(policy, window);
    }
    QuotientCompares(Weight(window), Total(window), level);
  }

  lemma QuotientCompares(x: real, y: real, level: real)
    requires y > 0.0
    ensures x / y >= level <==> x >= level * y
    ensures x / y <= level <==> x <= level * y
  {
    var q := x / y;
    assert q * y == x;
    assert (q - level) * y == x - level * y;
  }

  // ---- Hysteresis ----------------------------------------------------------------------

  lemma {:induction false} WindowsAreWellFormed(policy: BlackPolicy, state: BlackState, rows: seq<BlackRow>, n: nat)
    requires ValidPolicy(policy) && AllWellFormed(policy, state.window) && n <= |rows|
    ensures AllWellFormed(policy, StateAt(policy, state, rows, n).window)
    ensures n > 0 ==> Total(StateAt(policy, state, rows, n).window) <= policy.windowSec
  {
    if n > 0 {
      WindowsAreWellFormed(policy, state, rows, n - 1);
      TrimDropsSeconds(policy, StateAt(policy, state, rows, n - 1).window + [SampleOf(policy, rows[n - 1])]);
    }
  }

  // Between two moments the black seconds in the window change by no more than the time sampled,
  // apart from a change of the window's own length.
  lemma {:induction false} WeightDrifts(policy: BlackPolicy, state: BlackState, rows: seq<BlackRow>, i: nat, j: nat)
    requires ValidPolicy(policy) && AllWellFormed(policy, state.window) && i <= j <= |rows|
    ensures var before, after := StateAt(policy, state, rows, i).window, StateAt(policy, state, rows, j).window;
            var elapsed := Elapsed(policy, rows, i, j);
            && Weight(after) - Weight(before) <= elapsed
            && Weight(before) - Weight(after) <= Total(before) + elapsed - Total(after)
    decreases j - i
  {
    if i < j {
      WeightDrifts(policy, state, rows, i, j - 1);
      WindowsAreWellFormed(policy, state, rows, j - 1);
      var window := StateAt(policy, state, rows, j - 1).window;
      var sample := SampleOf(policy, rows[j - 1]);
      SumsOfAppend(window, [sample]);
      SumsOfOne(sample);
      ShareIsBounded(sample);
      TrimDropsSeconds(policy, window + [sample]);
    }
  }

  // A full window at or above the entry ratio, or at or below the recovery ratio.
  ghost predicate Loaded(policy: BlackPolicy, window: seq<BlackSample>) {
    Total(window) == policy.windowSec && Weight(window) >= policy.enterRatio * policy.windowSec
  }

  ghost predicate Cleared(policy: BlackPolicy, window: seq<BlackSample>) {
    Total(window) == policy.windowSec && Weight(window) <= policy.recoverRatio * policy.windowSec
  }

  lemma ThresholdsNeedWeight(policy: BlackPolicy, window: seq<BlackSample>)
    requires ValidPolicy(policy) && AllWellFormed(policy, window) && Total(window) <= policy.windowSec
    ensures EntersByRolling(policy, Summarize(window)) ==> Loaded(policy, window)
    ensures Summarize(window).rollingRatio <= policy.recoverRatio && Total(window) == policy.windowSec ==>
              Cleared(policy, window)
  {
    if window != [] && Total(window) == policy.windowSec {
      RatioIsBounded(policy, window, policy.enterRatio);
      RatioIsBounded(policy, window, policy.recoverRatio);
    }
  }

  lemma DecisionsNeedWeight(policy: BlackPolicy, state: BlackState, rows: seq<BlackRow>, n: nat)
    requires ValidPolicy(policy) && AllWellFormed(policy, state.window) && n < |rows|
    ensures var window := StateAt(policy, state, rows, n + 1).window;
            && (DecisionAt(policy, state, rows, n).EnteredByRolling? ==> Loaded(policy, window))
            && (DecisionAt(policy, state, rows, n).BlackRecovered? ==> Cleared(policy, window))
  {
    WindowsAreWellFormed(policy, state, rows, n + 1);
    ThresholdsNeedWeight(policy, StateAt(policy, state, rows, n + 1).window);
  }

  // The least sampled time between a rolling alert and a recovery, either way round.
  function HysteresisSec(policy: BlackPolicy): real {
    (policy.enterRatio - policy.recoverRatio) * policy.windowSec
  }

  lemma LoadedIsFarFromCleared(policy: BlackPolicy, loaded: seq<BlackSample>, cleared: seq<BlackSample>)
    requires Loaded(policy, loaded) && Cleared(policy, cleared)
    ensures Weight(loaded) - Weight(cleared) >= HysteresisSec(policy)
  {
    assert HysteresisSec(policy) == policy.enterRatio * policy.windowSec - policy.recoverRatio * policy.windowSec;
  }

  /**
   Anti-flapping: at least (enter - recover) * window seconds are sampled between a rolling-ratio
   alert and a later recovery, and between a recovery and a later rolling-ratio alert.
   */
  lemma SwitchingTakesTime(policy: BlackPolicy, state: BlackState, rows: seq<BlackRow>, i: nat, j: nat)
    requires ValidPolicy(policy) && AllWellFormed(policy, state.window) && i < j < |rows|
    requires || (DecisionAt(policy, state, rows, i).EnteredByRolling? && DecisionAt(policy, state, rows, j).BlackRecovered?)
             || (DecisionAt(policy, state, rows, i).BlackRecovered? && DecisionAt(policy, state, rows, j).EnteredByRolling?)
    ensures Elapsed(policy, rows, i + 1, j + 1) >= HysteresisSec(policy)
  {
    DecisionsNeedWeight(policy, state, rows, i);
    DecisionsNeedWeight(policy, state, rows, j);
    WeightDrifts(policy, state, rows, i + 1, j + 1);
    var before, after := StateAt(policy, state, rows, i + 1).window, StateAt(policy, state, rows, j + 1).window;
    if Loaded(policy, before) && Cleared(policy, after) {
      LoadedIsFarFromCleared(policy, before, after);
    } else {
      LoadedIsFarFromCleared(policy, after, before);
    }
  }

  // An active rule stays active up to its recovery.
  lemma {:induction false} ActiveUntilRecovery(policy: BlackPolicy, state: BlackState, rows: seq<BlackRow>, i: nat, j: nat)
    returns (k: nat)
    requires ValidPolicy(policy) && i < j <= |rows|
    requires StateAt(policy, state, rows, i).active && !StateAt(policy, state, rows, j).active
    ensures i <= k < j && DecisionAt(policy, state, rows, k).BlackRecovered?
  {
    if StateAt(policy, state, rows, j - 1).active {
      k := j - 1;
    } else {
      k := ActiveUntilRecovery(policy, state, rows, i, j - 1);
    }
  }

  lemma {:induction false} IdleUntilAlert(policy: BlackPolicy, state: BlackState, rows: seq<BlackRow>, i: nat, j: nat)
    returns (k: nat)
    requires ValidPolicy(policy) && i < j <= |rows|
    requires !StateAt(policy, state, rows, i).active && StateAt(policy, state, rows, j).active
    ensures i <= k < j && Alerts(DecisionAt(policy, state, rows, k))
  {
    if !StateAt(policy, state, rows, j - 1).active {
      k := j - 1;
    } else {
      k := IdleUntilAlert(policy, state, rows, i, j - 1);
    }
  }

  /** Alerts and recoveries strictly alternate: between two of one kind lies one of the other. */
  lemma AlertsAlternate(policy: BlackPolicy, state: BlackState, rows: seq<BlackRow>, i: nat, j: nat) returns (k: nat)
    requires ValidPolicy(policy) && i < j < |rows|
    requires var first, second := DecisionAt(policy, state, rows, i), DecisionAt(policy, state, rows, j);
             (Alerts(first) && Alerts(second)) || (first.BlackRecovered? && second.BlackRecovered?)
    ensures i < k < j
    ensures if Alerts(DecisionAt(policy, state, rows, i)) then DecisionAt(policy, state, rows, k).BlackRecovered?
            else Alerts(DecisionAt(policy, state, rows, k))
  {
    if Alerts(DecisionAt(policy, state, rows, i)) {
      k := ActiveUntilRecovery(policy, state, rows, i + 1, j);
    } else {
      k := IdleUntilAlert(policy, state, rows, i + 1, j);
    }
  }

  lemma {:induction false} ElapsedSplits(policy: BlackPolicy, rows: seq<BlackRow>, i: nat, j: nat, k: nat)
    requires ValidPolicy(policy) && i <= j <= k <= |rows|
    ensures Elapsed(policy, rows, i, k) == Elapsed(policy, rows, i, j) + Elapsed(policy, rows, j, k)
    decreases k - j
  {
    if j < k {
      ElapsedSplits(policy, rows, i, j, k - 1);
    }
  }

  /** Two rolling-ratio alerts of one stream are at least twice that apart. */
  lemma RollingAlertsAreApart(policy: BlackPolicy, state: BlackState, rows: seq<BlackRow>, i: nat, j: nat)
    requires ValidPolicy(policy) && AllWellFormed(policy, state.window) && i < j < |rows|
    requires DecisionAt(policy, state, rows, i).EnteredByRolling? && DecisionAt(policy, state, rows, j).EnteredByRolling?
    ensures Elapsed(policy, rows, i + 1, j + 1) >= 2.0 * HysteresisSec(policy)
  {
    var k := AlertsAlternate(policy, state, rows, i, j);
    SwitchingTakesTime(policy, state, rows, i, k);
    SwitchingTakesTime(policy, state, rows, k, j);
    ElapsedSplits(policy, rows, i + 1, k + 1, j + 1);
  }

  /** With the configured thresholds: 1.8 seconds either way. */
  lemma ConfiguredHysteresis()
    ensures ValidPolicy(DEFAULT_POLICY) && HysteresisSec(DEFAULT_POLICY) == 1.8
  {
  }
}
