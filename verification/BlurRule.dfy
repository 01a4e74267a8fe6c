/** The blur rule: a window of the latest samples, motion guards, and a decision with hysteresis. */
module BlurRule {
  import opened Statistics
  import opened BlackRule

  datatype BlurPolicy = BlurPolicy(
    windowSize: nat,
    alertThreshold: real,
    recoveryThreshold: real,
    minConsecutive: nat,
    minTotalSamples: nat,
    ambiguousMotionMedian: real,
    guardMotionMedian: real,
    guardMotionPeak: real,
    ambiguousAlertThreshold: real)

  const DEFAULT_BLUR_POLICY := BlurPolicy(3, 0.88, 0.68, 2, 5, 0.10, 0.18, 0.24, 0.93)

  datatype BlurRow = BlurRow(blurScore: real, motionMean: real, motionP90: real)

  datatype BlurSample = BlurSample(blurScore: real, motionMean: real, motionP90: real)

  datatype BlurState = BlurState(window: seq<BlurSample>, active: bool, samplesSeen: nat)

  const FRESH_BLUR := BlurState([], false, 0)

  datatype BlurDecision =
    | BlurEntered | BlurActive | BlurRecovered
    | NotReady | MotionSuppressed | AmbiguousMotion | BlurNormal

  datatype BlurWindowSummary = BlurWindowSummary(
    medianScore: real,
    highCount: nat,
    motionMedian: real,
    motionPeak: real,
    windowIsFull: bool)

  function SampleOfBlur(row: BlurRow): BlurSample {
    BlurSample(ClampUnit(row.blurScore), ClampUnit(row.motionMean), ClampUnit(row.motionP90))
  }

  // The last items of a window, no more than the limit.
  function LatestItems(window: seq<BlurSample>, limit: nat): seq<BlurSample> {
    if |window| > limit then LatestItems(window[1..], limit) else window
  }

  function Scores(window: seq<BlurSample>): (scores: seq<real>)
    ensures |scores| == |window|
    ensures forall i :: 0 <= i < |window| ==> scores[i] == window[i].blurScore
  {
    seq(|window|, i requires 0 <= i < |window| => window[i].blurScore)
  }

  function MotionMeans(window: seq<BlurSample>): (means: seq<real>)
    ensures |means| == |window|
  {
    seq(|window|, i requires 0 <= i < |window| => window[i].motionMean)
  }

  function MotionPeaks(window: seq<BlurSample>): (peaks: seq<real>)
    ensures |peaks| == |window|
  {
    seq(|window|, i requires 0 <= i < |window| => window[i].motionP90)
  }

  function SummarizeBlur(policy: BlurPolicy, window: seq<BlurSample>): BlurWindowSummary {
    if window == [] then BlurWindowSummary(0.0, 0, 0.0, 0.0, 0 >= policy.windowSize)
    else BlurWindowSummary(
           Median(Scores(window)),
           CountAtLeast(Scores(window), policy.alertThreshold),
           Median(MotionMeans(window)),
           Maximum(MotionPeaks(window)),
           |window| >= policy.windowSize)
  }

  function DecideEntry(policy: BlurPolicy, samplesSeen: nat, summary: BlurWindowSummary): BlurDecision {
    if !summary.windowIsFull || samplesSeen < policy.minTotalSamples then NotReady
    else if summary.motionMedian >= policy.guardMotionMedian || summary.motionPeak >= policy.guardMotionPeak then
      MotionSuppressed
    else if summary.motionMedian >= policy.ambiguousMotionMedian then
      if summary.medianScore >= policy.ambiguousAlertThreshold && summary.highCount >= policy.windowSize
      then BlurEntered else AmbiguousMotion
    else if summary.medianScore >= policy.alertThreshold && summary.highCount >= policy.minConsecutive
    then BlurEntered else BlurNormal
  }

  function DecideBlur(policy: BlurPolicy, active: bool, samplesSeen: nat, summary: BlurWindowSummary): BlurDecision {
    if active then
      if summary.windowIsFull && summary.medianScore <= policy.recoveryThreshold then BlurRecovered else BlurActive
    else DecideEntry(policy, samplesSeen, summary)
  }

  function NextBlurWindow(policy: BlurPolicy, window: seq<BlurSample>, row: BlurRow): seq<BlurSample> {
    LatestItems(window + [SampleOfBlur(row)], policy.windowSize)
  }

  function BlurActiveAfter(active: bool, decision: BlurDecision): bool {
    decision.BlurEntered? || (active && !decision.BlurRecovered?)
  }

  function BlurStep(policy: BlurPolicy, state: BlurState, row: BlurRow): (BlurState, BlurDecision) {
    var window := NextBlurWindow(policy, state.window, row);
    var decision := DecideBlur(policy, state.active, state.samplesSeen + 1, SummarizeBlur(policy, window));
    (BlurState(window, BlurActiveAfter(state.active, decision), state.samplesSeen + 1), decision)
  }

  // ---- A stream of rows from the start ------------------------------------------------

  function BlurWindowAt(policy: BlurPolicy, rows: seq<BlurRow>, n: nat): seq<BlurSample>
    requires n <= |rows|
  {
    if n == 0 then [] else NextBlurWindow(policy, BlurWindowAt(policy, rows, n - 1), rows[n - 1])
  }

  function BlurSummaryAt(policy: BlurPolicy, rows: seq<BlurRow>, n: nat): BlurWindowSummary
    requires n < |rows|
  {
    SummarizeBlur(policy, BlurWindowAt(policy, rows, n + 1))
  }

  function BlurActiveAt(policy: BlurPolicy, rows: seq<BlurRow>, n: nat): bool
    requires n <= |rows|
    decreases n, 0
  {
    if n == 0 then false
    else BlurActiveAfter(BlurActiveAt(policy, rows, n - 1), BlurDecisionAt(policy, rows, n - 1))
  }

  function BlurDecisionAt(policy: BlurPolicy, rows: seq<BlurRow>, n: nat): BlurDecision
    requires n < |rows|
    decreases n, 1
  {
    DecideBlur(policy, BlurActiveAt(policy, rows, n), n + 1, BlurSummaryAt(policy, rows, n))
  }

  function BlurStateAt(policy: BlurPolicy, rows: seq<BlurRow>, n: nat): BlurState
    requires n <= |rows|
  {
    BlurState(BlurWindowAt(policy, rows, n), BlurActiveAt(policy, rows, n), n)
  }

  /** One row after another the rule walks through exactly these states and decisions. */
  lemma BlurStepsAgree(policy: BlurPolicy, rows: seq<BlurRow>, n: nat)
    requires n < |rows|
    ensures BlurStep(policy, BlurStateAt(policy, rows, n), rows[n])
            == (BlurStateAt(policy, rows, n + 1), BlurDecisionAt(policy, rows, n))
    ensures BlurStateAt(policy, rows, 0) == FRESH_BLUR
  {
  }

  // ---- The window --------------------------------------------------------------------

  lemma {:induction false} LatestItemsAreLast(window: seq<BlurSample>, limit: nat)
    ensures LatestItems(window, limit) == if |window| > limit then window[|window| - limit..] else window
  {
    if |window| > limit {
      LatestItemsAreLast(window[1..], limit);
    }
  }

  function BlurSamples(rows: seq<BlurRow>): (samples: seq<BlurSample>)
    ensures |samples| == |rows|
    ensures forall i :: 0 <= i < |rows| ==> samples[i] == SampleOfBlur(rows[i])
  {
    seq(|rows|, i requires 0 <= i < |rows| => SampleOfBlur(rows[i]))
  }

  // The samples of the latest rows before the n-th, as many as the window takes.
  function LatestSamples(policy: BlurPolicy, rows: seq<BlurRow>, n: nat): seq<BlurSample>
    requires n <= |rows|
  {
    BlurSamples(rows[if n > policy.windowSize then n - policy.windowSize else 0..n])
  }

  lemma OneMoreLatest(policy: BlurPolicy, rows: seq<BlurRow>, n: nat)
    requires n < |rows|
    ensures LatestItems(LatestSamples(policy, rows, n) + [SampleOfBlur(rows[n])], policy.windowSize)
            == LatestSamples(policy, rows, n + 1)
  {
    LatestItemsAreLast(LatestSamples(policy, rows, n) + [SampleOfBlur(rows[n])], policy.windowSize);
  }

  /** After any rows the window holds the samples of exactly the latest ones. */
  lemma {:induction false} BlurWindowIsLatest(policy: BlurPolicy, rows: seq<BlurRow>, n: nat)
    requires n <= |rows|
    ensures BlurWindowAt(policy, rows, n) == LatestSamples(policy, rows, n)
  {
    if n > 0 {
      BlurWindowIsLatest(policy, rows, n - 1);
      OneMoreLatest(policy, rows, n - 1);
    }
  }

  // ---- The thresholds in plain counts -------------------------------------------------

  /**
   For a full window of odd size 2k+1 the median test is a majority test, so with k+1 as the least
   count the two tests of standard entry coincide.
   */
  lemma StandardEntryIsMajority(policy: BlurPolicy, window: seq<BlurSample>, k: nat)
    requires |window| == 2 * k + 1 && policy.minConsecutive == k + 1
    ensures var summary := SummarizeBlur(policy, window);
            && (summary.medianScore >= policy.alertThreshold <==> summary.highCount >= policy.minConsecutive)
            && (summary.highCount >= policy.minConsecutive
                <==> CountAtLeast(Scores(window), policy.alertThreshold) >= k + 1)
  {
    OddMedian(Scores(window), k, policy.alertThreshold);
  }

  // Three samples that enter under the configured thresholds, in counts alone.
  predicate ThreeSamplesEnter(last: seq<BlurSample>)
    requires |last| == 3
  {
    && CountAtLeast(MotionMeans(last), 0.18) <= 1
    && CountAtLeast(MotionPeaks(last), 0.24) == 0
    && (if CountAtLeast(MotionMeans(last), 0.10) <= 1
        then CountAtLeast(Scores(last), 0.88) >= 2
        else CountAtLeast(Scores(last), 0.88) == 3 && CountAtLeast(Scores(last), 0.93) >= 2)
  }

  lemma FullWindowEntry(last: seq<BlurSample>, samplesSeen: nat)
    requires |last| == 3
    ensures DecideEntry(DEFAULT_BLUR_POLICY, samplesSeen, SummarizeBlur(DEFAULT_BLUR_POLICY, last)).BlurEntered?
            <==> samplesSeen >= 5 && ThreeSamplesEnter(last)
  {
    OddMedian(Scores(last), 1, 0.88);
    OddMedian(Scores(last), 1, 0.93);
    OddMedian(MotionMeans(last), 1, 0.18);
    OddMedian(MotionMeans(last), 1, 0.10);
    CountBounded(Scores(last), 0.88);
    MaximumIsReached(MotionPeaks(last), 0.24);
  }

  /** With the configured policy, an idle rule enters by the last three of at least five samples. */
  lemma ConfiguredEntry(rows: seq<BlurRow>, n: nat)
    requires n < |rows|
    ensures DecideBlur(DEFAULT_BLUR_POLICY, false, n + 1, BlurSummaryAt(DEFAULT_BLUR_POLICY, rows, n)).BlurEntered?
            <==> n >= 4 && ThreeSamplesEnter(BlurSamples(rows[n - 2..n + 1]))
  {
    if n >= 4 {
      BlurWindowIsLatest(DEFAULT_BLUR_POLICY, rows, n + 1);
      FullWindowEntry(BlurSamples(rows[n - 2..n + 1]), n + 1);
    }
  }

  // ---- Hysteresis ----------------------------------------------------------------------

  lemma OnlyRecoveryDeactivates(policy: BlurPolicy, rows: seq<BlurRow>, n: nat)
    requires n < |rows|
    requires BlurActiveAt(policy, rows, n) && !BlurActiveAt(policy, rows, n + 1)
    ensures BlurDecisionAt(policy, rows, n).BlurRecovered?
  {
  }

  lemma {:induction false} BlurActiveUntilRecovery(policy: BlurPolicy, rows: seq<BlurRow>, i: nat, n: nat)
    returns (k: nat)
    requires i <= n < |rows|
    requires BlurActiveAt(policy, rows, i) && !BlurActiveAt(policy, rows, n + 1)
    ensures i <= k <= n && BlurDecisionAt(policy, rows, k).BlurRecovered?
  {
    if BlurActiveAt(policy, rows, n) {
      OnlyRecoveryDeactivates(policy, rows, n);
      k := n;
    } else {
      k := BlurActiveUntilRecovery(policy, rows, i, n - 1);
    }
  }

  /** No blur alert repeats before a recovery. */
  lemma BlurAlertsNeedRecovery(policy: BlurPolicy, rows: seq<BlurRow>, i: nat, j: nat) returns (k: nat)
    requires i < j < |rows|
    requires BlurDecisionAt(policy, rows, i).BlurEntered? && BlurDecisionAt(policy, rows, j).BlurEntered?
    ensures i < k < j && BlurDecisionAt(policy, rows, k).BlurRecovered?
  {
    k := BlurActiveUntilRecovery(policy, rows, i + 1, j - 1);
  }
}
