/** The blur detector's window summary and what its verdict means. */
module BlurSummary {
  import opened Prelude
  import opened Rounding
  import opened Statistics

  // The detector's configuration.
  datatype Config = Config(windowSize: nat, minConsecutive: nat, threshold: real)

  predicate ValidConfig(config: Config) {
    config.minConsecutive >= 1 && config.threshold > 0.0 && ThreeDecimals(config.threshold)
  }

  datatype Summary = Summary(
    windowSize: nat,
    rollingScores: seq<real>,
    blurScore: real,
    consecutiveBlurryWindows: nat,
    requiredWindows: nat)

  function Min(a: nat, b: nat): nat {
    if a < b then a else b
  }

  function RollingWindowMedians(values: seq<real>, windowSize: nat): (medians: seq<real>)
    ensures windowSize <= 1 ==> medians == values
    ensures windowSize > 1 && values != [] ==> |medians| == Max(0, |values| - windowSize + 1)
  {
    if windowSize <= 1 || values == [] then values
    else if |values| < windowSize then []
    else seq(|values| - windowSize + 1,
             i requires 0 <= i <= |values| - windowSize => Round6(Median(values[i..i + windowSize])))
  }

  // All of the values from start on, for a number of them, reach the threshold.
  predicate RunAt(values: seq<real>, threshold: real, start: nat, length: nat) {
    start + length <= |values| && forall i :: start <= i < start + length ==> values[i] >= threshold
  }

  // Some run of that length reaches the threshold.
  ghost predicate HasRun(values: seq<real>, threshold: real, length: nat) {
    exists start: nat :: RunAt(values, threshold, start, length)
  }

  // How many of the last values in a row reach the threshold.
  function TailRun(values: seq<real>, threshold: real): nat {
    if values == [] || values[|values| - 1] < threshold then 0
    else TailRun(values[..|values| - 1], threshold) + 1
  }

  function LongestRun(values: seq<real>, threshold: real): nat {
    if values == [] then 0
    else
      var before := LongestRun(values[..|values| - 1], threshold);
      if TailRun(values, threshold) > before then TailRun(values, threshold) else before
  }

  lemma {:induction false} TailRunEnds(values: seq<real>, threshold: real, start: nat)
    requires start <= |values|
    ensures RunAt(values, threshold, start, |values| - start) <==> |values| - start <= TailRun(values, threshold)
    ensures TailRun(values, threshold) <= |values|
  {
    if values != [] {
      var init := values[..|values| - 1];
      TailRunEnds(init, threshold, if start < |values| then start else 0);
      if start < |values| {
        assert RunAt(values, threshold, start, |values| - start)
               <==> values[|values| - 1] >= threshold && RunAt(init, threshold, start, |init| - start);
      }
    }
  }

  /** The longest run is one: there is a run of every length up to it and of none beyond. */
  lemma {:induction false} LongestRunIsLongest(values: seq<real>, threshold: real, length: nat)
    ensures HasRun(values, threshold, length) <==> length <= LongestRun(values, threshold)
  {
    if length == 0 {
      assert RunAt(values, threshold, 0, 0);
    } else if values == [] {
    } else {
      var init := values[..|values| - 1];
      LongestRunIsLongest(init, threshold, length);
      if start: nat :| RunAt(values, threshold, start, length) {
        if start + length <= |init| {
          assert RunAt(init, threshold, start, length);
        } else {
          TailRunEnds(values, threshold, start);
        }
      }
      if start: nat :| RunAt(init, threshold, start, length) {
        assert RunAt(values, threshold, start, length);
      }
      if length <= TailRun(values, threshold) {
        TailRunEnds(values, threshold, |values|);
        TailRunEnds(values, threshold, |values| - length);
        assert RunAt(values, threshold, |values| - length, length);
      }
    }
  }

  method LongestThresholdRun(values: seq<real>, threshold: real) returns (longest: nat)
    ensures longest == LongestRun(values, threshold)
  {
    longest := 0;
    var current := 0;
    for i := 0 to |values|
      invariant current == TailRun(values[..i], threshold)
      invariant longest == LongestRun(values[..i], threshold)
    {
      assert values[..i + 1][..i] == values[..i];
      if values[i] >= threshold {
        current := current + 1;
        longest := if current > longest then current else longest;
      } else {
        current := 0;
      }
    }
    assert values[..|values|] == values;
  }

  method SummarizeBlurScores(config: Config, perFrameScores: seq<real>) returns (summary: Summary)
    ensures summary.windowSize == Min(config.windowSize, if perFrameScores != [] then |perFrameScores| else 1)
    ensures summary.rollingScores == RollingWindowMedians(perFrameScores, summary.windowSize)
    ensures summary.blurScore
            == Round3(if summary.rollingScores == [] then 0.0 else Maximum(summary.rollingScores))
    ensures summary.consecutiveBlurryWindows == LongestRun(summary.rollingScores, config.threshold)
    ensures summary.requiredWindows
            == Min(config.minConsecutive, if summary.rollingScores != [] then |summary.rollingScores| else 1)
  {
    var windowSize := Min(config.windowSize, if perFrameScores != [] then |perFrameScores| else 1);
    var rolling := RollingWindowMedians(perFrameScores, windowSize);
    var longest := LongestThresholdRun(rolling, config.threshold);
    var required := Min(config.minConsecutive, if rolling != [] then |rolling| else 1);
    summary := Summary(windowSize, rolling, Round3(if rolling == [] then 0.0 else Maximum(rolling)),
                       longest, required);
  }

  predicate Detected(config: Config, summary: Summary) {
    summary.blurScore >= config.threshold && summary.consecutiveBlurryWindows >= summary.requiredWindows
  }

  // ---- The verdict in terms of the frames ------------------------------------------------

  predicate AllSixDecimals(values: seq<real>) {
    forall i :: 0 <= i < |values| ==> SixDecimals(values[i])
  }

  // A window of frames is blurry when most of them are; two frames, when their mean is up to rounding.
  predicate BlurryWindow(frames: seq<real>, threshold: real)
    requires |frames| % 2 == 1 || |frames| == 2
  {
    if |frames| == 2 then frames[0] + frames[1] >= 2.0 * threshold - 0.000001
    else 2 * CountAtLeast(frames, threshold) > |frames|
  }

  // The window from this frame on is.
  predicate BlurryAt(frames: seq<real>, threshold: real, size: nat, i: nat)
    requires (size % 2 == 1 || size == 2) && i + size <= |frames|
  {
    BlurryWindow(frames[i..i + size], threshold)
  }

  // Windows of this size, one frame apart, a number of them in a row, are blurry.
  ghost predicate BlurryStretch(frames: seq<real>, threshold: real, size: nat, start: nat, length: nat)
    requires size % 2 == 1 || size == 2
  {
    && start + length + size <= |frames| + 1
    && forall i :: start <= i < start + length ==> BlurryAt(frames, threshold, size, i)
  }

  ghost predicate HasBlurryStretch(frames: seq<real>, threshold: real, size: nat, length: nat)
    requires size % 2 == 1 || size == 2
  {
    exists start: nat :: BlurryStretch(frames, threshold, size, start, length)
  }

  lemma MedianOfPair(a: real, b: real)
    ensures Median([a, b]) == (a + b) / 2.0
  {
    assert [a, b][1..] == [b] && [b][1..] == [];
    assert Sort([a, b]) == Insert(a, [b]);
    assert Sort([a, b]) == if a <= b then [a, b] else [b, a];
  }

  lemma MedianIsBlurry(window: seq<real>, threshold: real)
    requires AllSixDecimals(window) && ThreeDecimals(threshold)
    requires |window| == 2 || (|window| % 2 == 1 && |window| > 1)
    ensures Round6(Median(window)) >= threshold <==> BlurryWindow(window, threshold)
  {
    if |window| == 2 {
      assert window == [window[0], window[1]];
      MedianOfPair(window[0], window[1]);
      Round6OfMean(window[0], window[1], threshold);
    } else {
      OddMedian(window, |window| / 2, threshold);
      OddMedianIsOne(window);
      Round6Keeps(Median(window));
    }
  }

  lemma OddMedianIsOne(values: seq<real>)
    requires |values| % 2 == 1
    ensures Median(values) in values
  {
    SortSorts(values);
    assert Sort(values)[|values| / 2] in multiset(Sort(values));
  }

  lemma RollingIsBlurry(frames: seq<real>, threshold: real, size: nat, i: nat)
    requires AllSixDecimals(frames) && ThreeDecimals(threshold)
    requires (size % 2 == 1 || size == 2) && i + size <= |frames|
    ensures i < |RollingWindowMedians(frames, size)|
    ensures RollingWindowMedians(frames, size)[i] >= threshold <==> BlurryAt(frames, threshold, size, i)
  {
    var window := frames[i..i + size];
    if size == 1 {
      assert window == [frames[i]] && window[1..] == [];
      assert CountAtLeast(window[1..], threshold) == 0;
    } else {
      MedianIsBlurry(window, threshold);
    }
  }

  lemma RunIsStretch(frames: seq<real>, threshold: real, size: nat, start: nat, length: nat)
    requires AllSixDecimals(frames) && ThreeDecimals(threshold)
    requires size % 2 == 1 || size == 2
    requires size <= |frames| && length >= 1
    ensures RunAt(RollingWindowMedians(frames, size), threshold, start, length)
            <==> BlurryStretch(frames, threshold, size, start, length)
  {
    var rolling := RollingWindowMedians(frames, size);
    assert |rolling| == |frames| - size + 1;
    if start + length + size <= |frames| + 1 {
      forall i | start <= i < start + length
        ensures i < |rolling| && (rolling[i] >= threshold <==> BlurryAt(frames, threshold, size, i))
      {
        RollingIsBlurry(frames, threshold, size, i);
      }
    }
  }

  /** A run of rolling medians is a stretch of blurry windows. */
  lemma RunsAreStretches(frames: seq<real>, threshold: real, size: nat, length: nat)
    requires AllSixDecimals(frames) && ThreeDecimals(threshold)
    requires size % 2 == 1 || size == 2
    requires size <= |frames| && length >= 1
    ensures HasRun(RollingWindowMedians(frames, size), threshold, length)
            <==> HasBlurryStretch(frames, threshold, size, length)
  {
    var rolling := RollingWindowMedians(frames, size);
    if start: nat :| RunAt(rolling, threshold, start, length) {
      RunIsStretch(frames, threshold, size, start, length);
    }
    if start: nat :| BlurryStretch(frames, threshold, size, start, length) {
      RunIsStretch(frames, threshold, size, start, length);
    }
  }

  /**
   The verdict: blur is reported exactly when some run of as many consecutive rolling medians as
   required reaches the threshold.  The rounded score never decides.
   */
  method DetectBlur(config: Config, perFrameScores: seq<real>) returns (detected: bool, summary: Summary)
    requires ValidConfig(config)
    ensures detected <==> HasRun(summary.rollingScores, config.threshold, summary.requiredWindows)
    ensures perFrameScores != [] && AllSixDecimals(perFrameScores)
            && (summary.windowSize % 2 == 1 || summary.windowSize == 2) ==>
              (detected <==> HasBlurryStretch(perFrameScores, config.threshold, summary.windowSize,
                                              summary.requiredWindows))
    ensures detected ==> summary.blurScore >= config.threshold
    ensures summary.windowSize == Min(config.windowSize, if perFrameScores != [] then |perFrameScores| else 1)
    ensures summary.rollingScores == RollingWindowMedians(perFrameScores, summary.windowSize)
    ensures summary.requiredWindows
            == Min(config.minConsecutive, if summary.rollingScores != [] then |summary.rollingScores| else 1)
  {
    summary := SummarizeBlurScores(config, perFrameScores);
    detected := Detected(config, summary);
    LongestRunIsLongest(summary.rollingScores, config.threshold, summary.requiredWindows);
    if HasRun(summary.rollingScores, config.threshold, summary.requiredWindows) {
      ScoreFollows(summary.rollingScores, config.threshold, summary.requiredWindows);
    }
    if perFrameScores != [] && AllSixDecimals(perFrameScores)
       && (summary.windowSize % 2 == 1 || summary.windowSize == 2) {
      RunsAreStretches(perFrameScores, config.threshold, summary.windowSize, summary.requiredWindows);
    }
  }

  lemma ScoreFollows(values: seq<real>, threshold: real, length: nat)
    requires ThreeDecimals(threshold) && length >= 1 && HasRun(values, threshold, length)
    ensures values != [] && Round3(Maximum(values)) >= threshold
  {
    var start: nat :| RunAt(values, threshold, start, length);
    CountedIfPresent(values, threshold, start);
    MaximumIsReached(values, threshold);
    Round3KeepsThreshold(Maximum(values), threshold);
  }
}
