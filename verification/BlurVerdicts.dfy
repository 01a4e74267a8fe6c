/**
 What the blur rule decides, read off its rows alone: majorities over the latest rows, one more
 than half of an odd window, open and close an alert.
 */
module BlurVerdicts {
  import opened Statistics
  import opened BlurRule

  function Unit(value: real): real {
    if value < 0.0 then 0.0 else if value > 1.0 then 1.0 else value
  }

  // The three columns of a stretch of rows, each value brought into the unit interval.
  function ScoreColumn(rows: seq<BlurRow>): (column: seq<real>)
    ensures |column| == |rows|
  {
    seq(|rows|, i requires 0 <= i < |rows| => Unit(rows[i].blurScore))
  }

  function MotionColumn(rows: seq<BlurRow>): (column: seq<real>)
    ensures |column| == |rows|
  {
    seq(|rows|, i requires 0 <= i < |rows| => Unit(rows[i].motionMean))
  }

  function PeakColumn(rows: seq<BlurRow>): (column: seq<real>)
    ensures |column| == |rows|
  {
    seq(|rows|, i requires 0 <= i < |rows| => Unit(rows[i].motionP90))
  }

  predicate MostReach(values: seq<real>, threshold: real) {
    2 * CountAtLeast(values, threshold) > |values|
  }

  predicate MostStayWithin(values: seq<real>, threshold: real) {
    2 * CountAtMost(values, threshold) > |values|
  }

  // The latest rows with the n-th, as many as the window takes.
  function LatestRows(policy: BlurPolicy, rows: seq<BlurRow>, n: nat): seq<BlurRow>
    requires n < |rows| && policy.windowSize <= n + 1
  {
    rows[n + 1 - policy.windowSize..n + 1]
  }

  predicate EnoughRows(policy: BlurPolicy, n: nat) {
    policy.windowSize <= n + 1 && policy.minTotalSamples <= n + 1
  }

  // Most of the latest rows move too much to be judged, or one of them by far.
  predicate MovesTooMuch(policy: BlurPolicy, last: seq<BlurRow>) {
    || MostReach(MotionColumn(last), policy.guardMotionMedian)
    || CountAtLeast(PeakColumn(last), policy.guardMotionPeak) > 0
  }

  predicate MovesAmbiguously(policy: BlurPolicy, last: seq<BlurRow>) {
    MostReach(MotionColumn(last), policy.ambiguousMotionMedian)
  }

  // Enough rows, calm ones, and most of them blurred; where motion is ambiguous all of them must be.
  predicate LooksBlurred(policy: BlurPolicy, rows: seq<BlurRow>, n: nat)
    requires n < |rows|
  {
    && EnoughRows(policy, n)
    && var last := LatestRows(policy, rows, n);
       var scores := ScoreColumn(last);
       && !MovesTooMuch(policy, last)
       && if MovesAmbiguously(policy, last) then
            && MostReach(scores, policy.ambiguousAlertThreshold)
            && CountAtLeast(scores, policy.alertThreshold) == policy.windowSize
          else
            && MostReach(scores, policy.alertThreshold)
            && CountAtLeast(scores, policy.alertThreshold) >= policy.minConsecutive
  }

  predicate LooksSharp(policy: BlurPolicy, rows: seq<BlurRow>, n: nat)
    requires n < |rows|
  {
    policy.windowSize <= n + 1
    && MostStayWithin(ScoreColumn(LatestRows(policy, rows, n)), policy.recoveryThreshold)
  }

  // Whether an alert is open before the n-th row.
  predicate BlurOpen(policy: BlurPolicy, rows: seq<BlurRow>, n: nat)
    requires n <= |rows|
  {
    n > 0 && if BlurOpen(policy, rows, n - 1) then !LooksSharp(policy, rows, n - 1)
             else LooksBlurred(policy, rows, n - 1)
  }

  // The window after the n-th row holds the three columns of the latest rows.
  lemma WindowHoldsColumns(policy: BlurPolicy, rows: seq<BlurRow>, n: nat)
    requires n < |rows| && policy.windowSize <= n + 1
    ensures var window, last := BlurWindowAt(policy, rows, n + 1), LatestRows(policy, rows, n);
            && Scores(window) == ScoreColumn(last)
            && MotionMeans(window) == MotionColumn(last)
            && MotionPeaks(window) == PeakColumn(last)
  {
    BlurWindowIsLatest(policy, rows, n + 1);
  }

  lemma NotFullYet(policy: BlurPolicy, rows: seq<BlurRow>, n: nat)
    requires n < |rows| && policy.windowSize > n + 1
    ensures !BlurSummaryAt(policy, rows, n).windowIsFull
  {
    BlurWindowIsLatest(policy, rows, n + 1);
  }

  // The tests of entry and recovery on a full window, as counts.
  lemma TestsAreCounts(policy: BlurPolicy, window: seq<BlurSample>, k: nat)
    requires |window| == policy.windowSize == 2 * k + 1
    ensures var summary := SummarizeBlur(policy, window);
            var scores, motion := Scores(window), MotionMeans(window);
            && summary.windowIsFull
            && (summary.medianScore >= policy.alertThreshold <==> MostReach(scores, policy.alertThreshold))
            && (summary.medianScore >= policy.ambiguousAlertThreshold
                <==> MostReach(scores, policy.ambiguousAlertThreshold))
            && (summary.medianScore <= policy.recoveryThreshold <==> MostStayWithin(scores, policy.recoveryThreshold))
            && (summary.motionMedian >= policy.guardMotionMedian <==> MostReach(motion, policy.guardMotionMedian))
            && (summary.motionMedian >= policy.ambiguousMotionMedian
                <==> MostReach(motion, policy.ambiguousMotionMedian))
            && (summary.motionPeak >= policy.guardMotionPeak
                <==> CountAtLeast(MotionPeaks(window), policy.guardMotionPeak) > 0)
  {
    OddMedian(Scores(window), k, policy.alertThreshold);
    OddMedian(Scores(window), k, policy.ambiguousAlertThreshold);
    OddMedianAtMost(Scores(window), k, policy.recoveryThreshold);
    OddMedian(MotionMeans(window), k, policy.guardMotionMedian);
    OddMedian(MotionMeans(window), k, policy.ambiguousMotionMedian);
    MaximumIsReached(MotionPeaks(window), policy.guardMotionPeak);
  }

  // Why an idle rule does not alert.
  ghost predicate GivesReason(decision: BlurDecision, policy: BlurPolicy, rows: seq<BlurRow>, n: nat)
    requires n < |rows|
  {
    && (decision.NotReady? <==> !EnoughRows(policy, n))
    && (decision.MotionSuppressed? <==>
          EnoughRows(policy, n) && MovesTooMuch(policy, LatestRows(policy, rows, n)))
    && (decision.AmbiguousMotion? <==>
          && EnoughRows(policy, n) && !MovesTooMuch(policy, LatestRows(policy, rows, n))
          && MovesAmbiguously(policy, LatestRows(policy, rows, n)) && !LooksBlurred(policy, rows, n))
  }

  // What the rule would decide at a row, idle or active.
  lemma RowDecides(policy: BlurPolicy, rows: seq<BlurRow>, n: nat, k: nat)
    requires n < |rows| && policy.windowSize == 2 * k + 1
    ensures DecideBlur(policy, false, n + 1, BlurSummaryAt(policy, rows, n)).BlurEntered?
            <==> LooksBlurred(policy, rows, n)
    ensures GivesReason(DecideBlur(policy, false, n + 1, BlurSummaryAt(policy, rows, n)), policy, rows, n)
    ensures DecideBlur(policy, true, n + 1, BlurSummaryAt(policy, rows, n)).BlurRecovered?
            <==> LooksSharp(policy, rows, n)
  {
    if policy.windowSize <= n + 1 {
      WindowHoldsColumns(policy, rows, n);
      TestsAreCounts(policy, BlurWindowAt(policy, rows, n + 1), k);
      CountBounded(ScoreColumn(LatestRows(policy, rows, n)), policy.alertThreshold);
    } else {
      NotFullYet(policy, rows, n);
    }
  }

  // What a decision does depends on whether an alert is open.
  lemma DecidesByState(policy: BlurPolicy, active: bool, samplesSeen: nat, summary: BlurWindowSummary)
    ensures var decision := DecideBlur(policy, active, samplesSeen, summary);
            && (decision.BlurEntered? <==> !active && DecideBlur(policy, false, samplesSeen, summary).BlurEntered?)
            && (decision.BlurRecovered? <==> active && DecideBlur(policy, true, samplesSeen, summary).BlurRecovered?)
            && (!active ==> decision == DecideBlur(policy, false, samplesSeen, summary))
  {
  }

  lemma NextByRow(active: bool, decision: BlurDecision, blurred: bool, sharp: bool)
    requires decision.BlurEntered? <==> !active && blurred
    requires decision.BlurRecovered? <==> active && sharp
    ensures BlurActiveAfter(active, decision) == if active then !sharp else blurred
  {
  }

  lemma VerdictFollowsRow(policy: BlurPolicy, rows: seq<BlurRow>, n: nat, k: nat)
    requires n < |rows| && policy.windowSize == 2 * k + 1
    ensures BlurDecisionAt(policy, rows, n).BlurEntered?
            <==> !BlurActiveAt(policy, rows, n) && LooksBlurred(policy, rows, n)
    ensures BlurDecisionAt(policy, rows, n).BlurRecovered?
            <==> BlurActiveAt(policy, rows, n) && LooksSharp(policy, rows, n)
    ensures BlurActiveAt(policy, rows, n + 1)
            == if BlurActiveAt(policy, rows, n) then !LooksSharp(policy, rows, n) else LooksBlurred(policy, rows, n)
  {
    RowDecides(policy, rows, n, k);
    DecidesByState(policy, BlurActiveAt(policy, rows, n), n + 1, BlurSummaryAt(policy, rows, n));
    NextByRow(BlurActiveAt(policy, rows, n), BlurDecisionAt(policy, rows, n), LooksBlurred(policy, rows, n),
              LooksSharp(policy, rows, n));
  }

  lemma {:induction false} ActiveIsOpen(policy: BlurPolicy, rows: seq<BlurRow>, n: nat, k: nat)
    requires n <= |rows| && policy.windowSize == 2 * k + 1
    ensures BlurActiveAt(policy, rows, n) == BlurOpen(policy, rows, n)
  {
    if n > 0 {
      ActiveIsOpen(policy, rows, n - 1, k);
      VerdictFollowsRow(policy, rows, n - 1, k);
    }
  }

  /**
   The rule decides as a reader of the rows would: an alert opens exactly when none is open and the
   latest rows look blurred, and it closes exactly when one is open and they look sharp.
   */
  lemma VerdictsFollowRows(policy: BlurPolicy, rows: seq<BlurRow>, n: nat, k: nat)
    requires n < |rows| && policy.windowSize == 2 * k + 1
    ensures BlurDecisionAt(policy, rows, n).BlurEntered?
            <==> !BlurOpen(policy, rows, n) && LooksBlurred(policy, rows, n)
    ensures BlurDecisionAt(policy, rows, n).BlurRecovered?
            <==> BlurOpen(policy, rows, n) && LooksSharp(policy, rows, n)
  {
    ActiveIsOpen(policy, rows, n, k);
    VerdictFollowsRow(policy, rows, n, k);
  }

  /** Where no alert is open and none opens it gives the reason the latest rows give. */
  lemma ReasonsFollowRows(policy: BlurPolicy, rows: seq<BlurRow>, n: nat, k: nat)
    requires n < |rows| && policy.windowSize == 2 * k + 1 && !BlurActiveAt(policy, rows, n)
    ensures GivesReason(BlurDecisionAt(policy, rows, n), policy, rows, n)
  {
    RowDecides(policy, rows, n, k);
    DecidesByState(policy, false, n + 1, BlurSummaryAt(policy, rows, n));
  }
}
