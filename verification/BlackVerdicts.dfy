/**
 What the black rule decides, read off its rows alone: every millisecond counts with the black
 ratio of its row, and an alert opens and closes on the latest ones.
 */
module BlackVerdicts {
  import opened BlackRule
  import opened BlackMilliseconds
  import opened Rounding

  // The milliseconds a row stands for: a second if its duration is missing, and no more than the window.
  function RowMs(policy: BlackPolicy, row: BlackRow): nat {
    var ms := if row.durationSec == 0.0 then 1000 else if row.durationSec < 0.001 then 1 else Ms(row.durationSec);
    if ms <= Ms(policy.windowSec) then ms else Ms(policy.windowSec)
  }

  function RowRatio(row: BlackRow): real {
    if row.blackRatio < 0.0 then 0.0 else if row.blackRatio > 1.0 then 1.0 else row.blackRatio
  }

  // The black ratio of every millisecond of the first n rows, oldest first.
  function Milliseconds(policy: BlackPolicy, rows: seq<BlackRow>, n: nat): seq<real>
    requires n <= |rows|
  {
    if n == 0 then []
    else Milliseconds(policy, rows, n - 1) + Repeat(RowMs(policy, rows[n - 1]), RowRatio(rows[n - 1]))
  }

  // With the n-th row there is a whole window of milliseconds.
  predicate SeesWindow(policy: BlackPolicy, rows: seq<BlackRow>, n: nat)
    requires n < |rows|
  {
    |Milliseconds(policy, rows, n + 1)| >= Ms(policy.windowSec)
  }

  // The mean black ratio of the latest window of milliseconds.
  function LatestRatio(policy: BlackPolicy, rows: seq<BlackRow>, n: nat): real
    requires n < |rows|
  {
    Mean(Latest(Milliseconds(policy, rows, n + 1), Ms(policy.windowSec)))
  }

  // What opens an alert: a long black stretch in the row, or a whole window that is black enough.
  predicate ShowsBlack(policy: BlackPolicy, rows: seq<BlackRow>, n: nat)
    requires n < |rows|
  {
    || rows[n].longestBlackSec >= policy.alertDurationSec
    || (SeesWindow(policy, rows, n) && LatestRatio(policy, rows, n) >= policy.enterRatio)
  }

  // What closes it.
  predicate ShowsPicture(policy: BlackPolicy, rows: seq<BlackRow>, n: nat)
    requires n < |rows|
  {
    && rows[n].longestBlackSec < policy.alertDurationSec
    && SeesWindow(policy, rows, n) && LatestRatio(policy, rows, n) <= policy.recoverRatio
  }

  // Whether an alert is open before the n-th row.
  predicate AlertOpen(policy: BlackPolicy, rows: seq<BlackRow>, n: nat)
    requires n <= |rows|
  {
    n > 0 && if AlertOpen(policy, rows, n - 1) then !ShowsPicture(policy, rows, n - 1)
             else ShowsBlack(policy, rows, n - 1)
  }

  // The sample of a row counts its milliseconds with its ratio.
  lemma SampleExpands(policy: BlackPolicy, row: BlackRow)
    requires ValidPolicy(policy) && ThreeDecimals(policy.windowSec) && ThreeDecimals(row.durationSec)
    ensures Expand([SampleOf(policy, row)]) == Repeat(RowMs(policy, row), RowRatio(row))
  {
    var sample := SampleOf(policy, row);
    assert [sample][1..] == [];
    assert Ms(sample.durationSec) == RowMs(policy, row) by {
      SampleHasRowMs(policy, row);
    }
  }

  lemma SampleHasRowMs(policy: BlackPolicy, row: BlackRow)
    requires ValidPolicy(policy) && ThreeDecimals(policy.windowSec) && ThreeDecimals(row.durationSec)
    ensures Ms(SampleOf(policy, row).durationSec) == RowMs(policy, row)
  {
    MsIsMonotone(row.durationSec, policy.windowSec);
    MsIsMonotone(1.0, policy.windowSec);
    MsIsMonotone(policy.windowSec, row.durationSec);
    MsIsMonotone(policy.windowSec, 1.0);
    MsIsMonotone(0.001, policy.windowSec);
  }

  lemma MsIsMonotone(a: real, b: real)
    ensures a <= b ==> Ms(a) <= Ms(b)
    ensures Ms(1.0) == 1000 && Ms(0.001) == 1
  {
  }

  lemma {:induction false} HistoryExpands(policy: BlackPolicy, rows: seq<BlackRow>, n: nat)
    requires ValidPolicy(policy) && ThreeDecimals(policy.windowSec) && n <= |rows|
    requires forall i :: 0 <= i < n ==> ThreeDecimals(rows[i].durationSec)
    ensures Expand(History(policy, rows, n)) == Milliseconds(policy, rows, n)
  {
    if n > 0 {
      HistoryExpands(policy, rows, n - 1);
      ExpandOfAppend(History(policy, rows, n - 1), [SampleOf(policy, rows[n - 1])]);
      SampleExpands(policy, rows[n - 1]);
    }
  }

  // The rule's summary after the n-th row, in terms of the rows.
  lemma SummaryReadsRows(policy: BlackPolicy, rows: seq<BlackRow>, n: nat)
    requires ValidPolicy(policy) && ThreeDecimals(policy.windowSec) && n < |rows|
    requires forall i :: 0 <= i <= n ==> ThreeDecimals(rows[i].durationSec)
    ensures var summary := Summarize(StateAt(policy, FRESH_BLACK, rows, n + 1).window);
            && summary.rollingRatio == LatestRatio(policy, rows, n)
            && (summary.observedWindowSec >= policy.windowSec <==> SeesWindow(policy, rows, n))
  {
    var history := History(policy, rows, n + 1);
    RatioIsMeanOfLatest(policy, rows, n + 1);
    HistoryExpands(policy, rows, n + 1);
    RoundedHistoryIsWhole(policy, rows, n + 1);
    ExpandedLength(history);
    assert Whole(policy.windowSec);
  }

  /**
   The rule decides as a reader of the rows would: an alert opens exactly when none is open and the
   row shows black, and it closes exactly when one is open and the row shows picture again.
   */
  lemma {:induction false} VerdictsFollowRows(policy: BlackPolicy, rows: seq<BlackRow>, n: nat)
    requires ValidPolicy(policy) && ThreeDecimals(policy.windowSec) && n < |rows|
    requires forall i :: 0 <= i <= n ==> ThreeDecimals(rows[i].durationSec)
    ensures StateAt(policy, FRESH_BLACK, rows, n).active == AlertOpen(policy, rows, n)
    ensures var decision := DecisionAt(policy, FRESH_BLACK, rows, n);
            && (Alerts(decision) <==> !AlertOpen(policy, rows, n) && ShowsBlack(policy, rows, n))
            && (decision.EnteredByContinuous?
                <==> !AlertOpen(policy, rows, n) && rows[n].longestBlackSec >= policy.alertDurationSec)
            && (decision.BlackRecovered? <==> AlertOpen(policy, rows, n) && ShowsPicture(policy, rows, n))
            && (decision.BlackActive? <==> AlertOpen(policy, rows, n) && !ShowsPicture(policy, rows, n))
  {
    if n > 0 {
      VerdictsFollowRows(policy, rows, n - 1);
    }
    SummaryReadsRows(policy, rows, n);
  }
}
