/**
 When every duration is a whole number of milliseconds the trimmed window is an exact picture of
 the latest milliseconds, and the slack of the trimming never matters.
 */
module BlackMilliseconds {
  import opened Prelude
  import opened BlackRule
  import opened Rounding

  // How many milliseconds a duration has, if it has a whole number of them.
  function Ms(durationSec: real): nat {
    if durationSec <= 0.0 then 0 else (durationSec * 1000.0).Floor
  }

  predicate Whole(durationSec: real) {
    Ms(durationSec) as real == durationSec * 1000.0
  }

  predicate AllWhole(samples: seq<BlackSample>) {
    forall i :: 0 <= i < |samples| ==> Whole(samples[i].durationSec)
  }

  function Repeat(n: nat, value: real): (values: seq<real>)
    ensures |values| == n && forall i :: 0 <= i < n ==> values[i] == value
  {
    if n == 0 then [] else [value] + Repeat(n - 1, value)
  }

  // One black ratio per millisecond, oldest first.
  function Expand(samples: seq<BlackSample>): seq<real> {
    if samples == [] then []
    else Repeat(Ms(samples[0].durationSec), samples[0].blackRatio) + Expand(samples[1..])
  }

  function Sum(values: seq<real>): real {
    if values == [] then 0.0 else values[0] + Sum(values[1..])
  }

  // The last n values, or all if there are fewer.
  function Latest<T>(values: seq<T>, n: nat): seq<T> {
    if |values| <= n then values else values[|values| - n..]
  }

  lemma {:induction false} ExpandedLength(samples: seq<BlackSample>)
    requires AllWhole(samples)
    ensures |Expand(samples)| as real == Total(samples) * 1000.0
  {
    if samples != [] {
      ExpandedLength(samples[1..]);
    }
  }

  lemma {:induction false} ExpandOfAppend(a: seq<BlackSample>, b: seq<BlackSample>)
    ensures Expand(a + b) == Expand(a) + Expand(b)
  {
    if a == [] {
      assert a + b == b;
    } else {
      assert (a + b)[1..] == a[1..] + b;
      ExpandOfAppend(a[1..], b);
    }
  }

  lemma WholeDifference(a: real, b: real)
    requires Whole(a) && Whole(b) && b <= a
    ensures Whole(a - b) && Ms(a - b) == Ms(a) - Ms(b)
  {
    assert (a - b) * 1000.0 == (Ms(a) - Ms(b)) as real;
  }

  lemma TotalIsWhole(samples: seq<BlackSample>)
    requires AllWhole(samples)
    ensures Whole(Total(samples)) && Ms(Total(samples)) == |Expand(samples)|
  {
    ExpandedLength(samples);
  }

  // The slack is less than a millisecond, so it never bridges one.
  lemma SlackIsTooSmall(a: real, b: real)
    requires Whole(a) && Whole(b) && a <= b + SLACK
    ensures a <= b && Ms(a) <= Ms(b)
  {
    assert (Ms(a) - Ms(b)) as real <= SLACK * 1000.0;
  }

  lemma LatestOfTail<T>(head: seq<T>, tail: seq<T>, n: nat)
    requires n <= |tail|
    ensures Latest(head + tail, n) == Latest(tail, n)
  {
  }

  // What lies behind a head that does not reach past the limit fills the limit.
  lemma TailFillsLimit(window: seq<BlackSample>, limit: real)
    requires AllWhole(window) && Whole(limit) && window != []
    requires Total(window) > limit && window[0].durationSec <= Total(window) - limit + SLACK
    ensures Ms(limit) <= |Expand(window[1..])|
  {
    TotalIsWhole(window);
    TotalIsWhole(window[1..]);
    WholeDifference(Total(window), limit);
    SlackIsTooSmall(window[0].durationSec, Total(window) - limit);
  }

  // Dropping such a head drops none of the latest milliseconds.
  lemma DropHead(window: seq<BlackSample>, limit: real)
    requires AllWhole(window) && Whole(limit) && window != []
    requires Total(window) > limit && window[0].durationSec <= Total(window) - limit + SLACK
    ensures Latest(Expand(window[1..]), Ms(limit)) == Latest(Expand(window), Ms(limit))
  {
    TailFillsLimit(window, limit);
    LatestOfTail(Repeat(Ms(window[0].durationSec), window[0].blackRatio), Expand(window[1..]), Ms(limit));
  }

  lemma LatestOfRepeat(count: nat, value: real, rest: seq<real>, n: nat)
    requires |rest| <= n <= count + |rest|
    ensures Latest(Repeat(count, value) + rest, n) == Repeat(n - |rest|, value) + rest
  {
  }

  // Cutting the head at the limit keeps exactly the latest milliseconds.
  lemma CutHeadExpands(head: BlackSample, tail: seq<BlackSample>, overflow: real, limit: real)
    requires Whole(head.durationSec) && AllWhole(tail) && Whole(limit)
    requires 0.0 < overflow < head.durationSec && limit + overflow == head.durationSec + Total(tail)
    ensures var cut := [head.(durationSec := head.durationSec - overflow)] + tail;
            AllWhole(cut) && Expand(cut) == Latest(Expand([head] + tail), Ms(limit))
  {
    var kept := head.durationSec - overflow;
    ExpandedLength(tail);
    WholeDifference(limit, Total(tail));
    assert kept == limit - Total(tail);
    LatestOfRepeat(Ms(head.durationSec), head.blackRatio, Expand(tail), Ms(limit));
    var cut := [head.(durationSec := kept)] + tail;
    assert cut[1..] == tail && ([head] + tail)[1..] == tail;
  }

  /** Trimming keeps exactly the latest milliseconds; the slack never drops one too many. */
  lemma {:induction false} TrimKeepsLatest(window: seq<BlackSample>, limit: real)
    requires AllWhole(window) && Whole(limit)
    ensures AllWhole(Trim(window, limit))
    ensures Expand(Trim(window, limit)) == Latest(Expand(window), Ms(limit))
  {
    TotalIsWhole(window);
    if window != [] && Total(window) > limit {
      if window[0].durationSec <= Total(window) - limit + SLACK {
        DropHead(window, limit);
        TrimKeepsLatest(window[1..], limit);
      } else {
        CutHeadExpands(window[0], window[1..], Total(window) - limit, limit);
        assert window == [window[0]] + window[1..];
      }
    }
  }

  lemma {:induction false} LatestOfAppend<T>(a: seq<T>, b: seq<T>, n: nat)
    ensures Latest(Latest(a, n) + b, n) == Latest(a + b, n)
  {
  }

  /**
   Refinement: after any rows with whole-millisecond samples, the window's milliseconds are the
   latest ones of the whole history, as many as fit.
   */
  lemma {:induction false} WindowIsLatestMilliseconds(policy: BlackPolicy, rows: seq<BlackRow>, n: nat)
    requires ValidPolicy(policy) && n <= |rows| && Whole(policy.windowSec)
    requires AllWhole(History(policy, rows, n))
    ensures var window := StateAt(policy, FRESH_BLACK, rows, n).window;
            && AllWhole(window)
            && Expand(window) == Latest(Expand(History(policy, rows, n)), Ms(policy.windowSec))
  {
    if n > 0 {
      var history := History(policy, rows, n - 1);
      var sample := SampleOf(policy, rows[n - 1]);
      assert History(policy, rows, n) == history + [sample];
      assert AllWhole(history) by {
        assert forall i :: 0 <= i < |history| ==> history[i] == (history + [sample])[i];
      }
      assert (history + [sample])[n - 1] == sample;
      WindowIsLatestMilliseconds(policy, rows, n - 1);
      var window := StateAt(policy, FRESH_BLACK, rows, n - 1).window;
      TrimKeepsLatest(window + [sample], policy.windowSec);
      ExpandOfAppend(window, [sample]);
      ExpandOfAppend(history, [sample]);
      LatestOfAppend(Expand(history), Expand([sample]), Ms(policy.windowSec));
    }
  }

  lemma {:induction false} SumOfAppend(a: seq<real>, b: seq<real>)
    ensures Sum(a + b) == Sum(a) + Sum(b)
  {
    if a == [] {
      assert a + b == b;
    } else {
      assert (a + b)[1..] == a[1..] + b;
      SumOfAppend(a[1..], b);
    }
  }

  lemma {:induction false} SumOfRepeat(n: nat, value: real)
    ensures Sum(Repeat(n, value)) == n as real * value
  {
    if n > 0 {
      SumOfRepeat(n - 1, value);
      assert Repeat(n, value)[1..] == Repeat(n - 1, value);
      OneMore(n - 1, value);
    }
  }

  lemma OneMore(n: nat, value: real)
    ensures (n + 1) as real * value == n as real * value + value
  {
  }

  lemma {:induction false} WeightInMilliseconds(samples: seq<BlackSample>)
    requires AllWhole(samples)
    ensures Weight(samples) * 1000.0 == Sum(Expand(samples))
  {
    if samples != [] {
      WeightInMilliseconds(samples[1..]);
      var head := samples[0];
      ShareInMilliseconds(head);
      var own, rest := Repeat(Ms(head.durationSec), head.blackRatio), Expand(samples[1..]);
      SumOfAppend(own, rest);
      assert Expand(samples) == own + rest;
      var share, weight := Share(head), Weight(samples[1..]);
      assert Weight(samples) == share + weight;
      assert (share + weight) * 1000.0 == Sum(own) + Sum(rest);
    }
  }

  lemma ShareInMilliseconds(sample: BlackSample)
    requires Whole(sample.durationSec)
    ensures Share(sample) * 1000.0 == Sum(Repeat(Ms(sample.durationSec), sample.blackRatio))
  {
    SumOfRepeat(Ms(sample.durationSec), sample.blackRatio);
    Reassociate(sample.durationSec, sample.blackRatio);
  }

  lemma Reassociate(x: real, y: real)
    ensures (x * y) * 1000.0 == (x * 1000.0) * y
  {
  }

  // Rows carry three decimals, so their samples are whole.
  lemma RoundedRowIsWhole(policy: BlackPolicy, row: BlackRow)
    requires ValidPolicy(policy) && ThreeDecimals(policy.windowSec) && ThreeDecimals(row.durationSec)
    ensures Whole(policy.windowSec) && Whole(SampleOf(policy, row).durationSec)
  {
  }

  lemma {:induction false} RoundedHistoryIsWhole(policy: BlackPolicy, rows: seq<BlackRow>, n: nat)
    requires ValidPolicy(policy) && ThreeDecimals(policy.windowSec) && n <= |rows|
    requires forall i :: 0 <= i < n ==> ThreeDecimals(rows[i].durationSec)
    ensures AllWhole(History(policy, rows, n))
  {
    if n > 0 {
      RoundedHistoryIsWhole(policy, rows, n - 1);
      RoundedRowIsWhole(policy, rows[n - 1]);
    }
  }

  function Mean(values: seq<real>): real {
    if values == [] then 0.0 else Sum(values) / |values| as real
  }

  /**
   The rolling ratio is the plain mean over the latest milliseconds of the whole history, and the
   observed length is the window's exactly as soon as that much has been seen.
   */
  lemma RatioIsMeanOfLatest(policy: BlackPolicy, rows: seq<BlackRow>, n: nat)
    requires ValidPolicy(policy) && ThreeDecimals(policy.windowSec) && n <= |rows|
    requires forall i :: 0 <= i < n ==> ThreeDecimals(rows[i].durationSec)
    ensures var summary := Summarize(StateAt(policy, FRESH_BLACK, rows, n).window);
            var history := History(policy, rows, n);
            && summary.rollingRatio == Mean(Latest(Expand(history), Ms(policy.windowSec)))
            && summary.observedWindowSec == RealMin(Total(history), policy.windowSec)
  {
    var window, history := StateAt(policy, FRESH_BLACK, rows, n).window, History(policy, rows, n);
    RoundedHistoryIsWhole(policy, rows, n);
    assert Whole(policy.windowSec);
    WindowIsLatestMilliseconds(policy, rows, n);
    RatioIsMean(window);
    ObservedIsLatest(window, history, policy.windowSec);
  }

  lemma RatioIsMean(window: seq<BlackSample>)
    requires AllWhole(window)
    ensures Summarize(window).rollingRatio == Mean(Expand(window))
  {
    ExpandedLength(window);
    WeightInMilliseconds(window);
    var latest := Expand(window);
    if latest != [] {
      SameQuotient(Weight(window), Total(window), Sum(latest), |latest| as real);
    }
  }

  lemma ObservedIsLatest(window: seq<BlackSample>, history: seq<BlackSample>, limit: real)
    requires AllWhole(window) && AllWhole(history) && Whole(limit)
    requires Expand(window) == Latest(Expand(history), Ms(limit))
    ensures Summarize(window).observedWindowSec == RealMin(Total(history), limit)
  {
    ExpandedLength(window);
    ExpandedLength(history);
  }

  lemma SameQuotient(x: real, y: real, x': real, y': real)
    requires y > 0.0 && x' == x * 1000.0 && y' == y * 1000.0
    ensures x / y == x' / y'
  {
    var q := x / y;
    assert q * y == x;
    assert q * y' == x';
    assert x' / y' == q;
  }

  // The summary recomputed from the whole history instead of the trimmed window.
  function HistorySummary(policy: BlackPolicy, rows: seq<BlackRow>, n: nat): BlackSummary
    requires ValidPolicy(policy) && n <= |rows|
  {
    var history := History(policy, rows, n);
    BlackSummary(Mean(Latest(Expand(history), Ms(policy.windowSec))), RealMin(Total(history), policy.windowSec))
  }

  /** Every decision of the rule is the one a reader would make from the whole history. */
  lemma DecisionsReadOffHistory(policy: BlackPolicy, rows: seq<BlackRow>, n: nat)
    requires ValidPolicy(policy) && ThreeDecimals(policy.windowSec) && n < |rows|
    requires forall i :: 0 <= i <= n ==> ThreeDecimals(rows[i].durationSec)
    ensures DecisionAt(policy, FRESH_BLACK, rows, n)
            == Decide(policy, StateAt(policy, FRESH_BLACK, rows, n).active, HistorySummary(policy, rows, n + 1), rows[n])
  {
    RatioIsMeanOfLatest(policy, rows, n + 1);
  }
}
