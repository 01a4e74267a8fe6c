/** The median as the standard library computes it, and what a median says about counts. */
module Statistics {

  function Insert(x: real, sorted: seq<real>): (longer: seq<real>)
    ensures |longer| == |sorted| + 1
  {
    if sorted == [] || x <= sorted[0] then [x] + sorted
    else [sorted[0]] + Insert(x, sorted[1..])
  }

  function Sort(values: seq<real>): (sorted: seq<real>)
    ensures |sorted| == |values|
  {
    if values == [] then [] else Insert(values[0], Sort(values[1..]))
  }

  function Median(values: seq<real>): real
    requires values != []
  {
    var sorted := Sort(values);
    var n := |values|;
    if n % 2 == 1 then sorted[n / 2] else (sorted[n / 2 - 1] + sorted[n / 2]) / 2.0
  }

  ghost predicate Ascending(values: seq<real>) {
    forall i, j :: 0 <= i <= j < |values| ==> values[i] <= values[j]
  }

  lemma {:induction false} InsertKeeps(x: real, sorted: seq<real>)
    ensures multiset(Insert(x, sorted)) == multiset(sorted) + multiset{x}
  {
    if sorted != [] && x > sorted[0] {
      InsertKeeps(x, sorted[1..]);
      assert sorted == [sorted[0]] + sorted[1..];
    }
  }

  lemma {:induction false} InsertKeepsOrder(x: real, sorted: seq<real>)
    requires Ascending(sorted)
    ensures Ascending(Insert(x, sorted))
    ensures Insert(x, sorted)[0] == (if sorted == [] || x <= sorted[0] then x else sorted[0])
  {
    if sorted != [] && x > sorted[0] {
      InsertKeepsOrder(x, sorted[1..]);
    }
  }

  lemma {:induction false} SortSorts(values: seq<real>)
    ensures Ascending(Sort(values)) && multiset(Sort(values)) == multiset(values)
    ensures |Sort(values)| == |values|
  {
    if values != [] {
      SortSorts(values[1..]);
      InsertKeepsOrder(values[0], Sort(values[1..]));
      InsertKeeps(values[0], Sort(values[1..]));
      assert values == [values[0]] + values[1..];
    }
    assert |multiset(Sort(values))| == |multiset(values)|;
  }

  function CountAtLeast(values: seq<real>, threshold: real): nat {
    if values == [] then 0
    else (if values[0] >= threshold then 1 else 0) + CountAtLeast(values[1..], threshold)
  }

  lemma {:induction false} InsertCounts(x: real, sorted: seq<real>, threshold: real)
    ensures CountAtLeast(Insert(x, sorted), threshold)
            == CountAtLeast(sorted, threshold) + if x >= threshold then 1 else 0
  {
    if sorted != [] && x > sorted[0] {
      InsertCounts(x, sorted[1..], threshold);
    }
  }

  lemma {:induction false} SortCounts(values: seq<real>, threshold: real)
    ensures CountAtLeast(Sort(values), threshold) == CountAtLeast(values, threshold)
  {
    if values != [] {
      SortCounts(values[1..], threshold);
      InsertCounts(values[0], Sort(values[1..]), threshold);
    }
  }

  // In ascending order the values at or above a threshold are the last ones.
  lemma {:induction false} AscendingCounts(sorted: seq<real>, threshold: real, k: nat)
    requires Ascending(sorted) && k < |sorted|
    ensures sorted[k] >= threshold <==> CountAtLeast(sorted, threshold) >= |sorted| - k
  {
    CountBounded(sorted, threshold);
    if k > 0 {
      AscendingCounts(sorted[1..], threshold, k - 1);
      CountBounded(sorted[1..], threshold);
    } else {
      AllCounted(sorted, threshold);
    }
  }

  lemma {:induction false} CountBounded(values: seq<real>, threshold: real)
    ensures CountAtLeast(values, threshold) <= |values|
  {
    if values != [] {
      CountBounded(values[1..], threshold);
    }
  }

  lemma {:induction false} AllCounted(values: seq<real>, threshold: real)
    ensures CountAtLeast(values, threshold) == |values|
            <==> forall i :: 0 <= i < |values| ==> values[i] >= threshold
  {
    if values != [] {
      AllCounted(values[1..], threshold);
      CountBounded(values[1..], threshold);
      assert forall i :: 0 <= i < |values[1..]| ==> values[1..][i] == values[i + 1];
      if forall i :: 0 <= i < |values[1..]| ==> values[1..][i] >= threshold {
        assert forall i :: 0 < i < |values| ==> values[i] == values[1..][i - 1];
      }
    }
  }

  /** The median of an odd number of values reaches a threshold exactly when a majority does. */
  lemma OddMedian(values: seq<real>, k: nat, threshold: real)
    requires |values| == 2 * k + 1
    ensures Median(values) >= threshold <==> CountAtLeast(values, threshold) >= k + 1
  {
    SortSorts(values);
    SortCounts(values, threshold);
    AscendingCounts(Sort(values), threshold, k);
  }

  function CountAtMost(values: seq<real>, threshold: real): nat {
    if values == [] then 0
    else (if values[0] <= threshold then 1 else 0) + CountAtMost(values[1..], threshold)
  }

  lemma {:induction false} InsertCountsAtMost(x: real, sorted: seq<real>, threshold: real)
    ensures CountAtMost(Insert(x, sorted), threshold)
            == CountAtMost(sorted, threshold) + if x <= threshold then 1 else 0
  {
    if sorted != [] && x > sorted[0] {
      InsertCountsAtMost(x, sorted[1..], threshold);
    }
  }

  lemma {:induction false} SortCountsAtMost(values: seq<real>, threshold: real)
    ensures CountAtMost(Sort(values), threshold) == CountAtMost(values, threshold)
  {
    if values != [] {
      SortCountsAtMost(values[1..], threshold);
      InsertCountsAtMost(values[0], Sort(values[1..]), threshold);
    }
  }

  lemma {:induction false} NoneAtMost(sorted: seq<real>, threshold: real)
    requires Ascending(sorted) && sorted != [] && sorted[0] > threshold
    ensures CountAtMost(sorted, threshold) == 0
  {
    if |sorted| > 1 {
      NoneAtMost(sorted[1..], threshold);
    }
  }

  // In ascending order the values at or below a threshold are the first ones.
  lemma {:induction false} AscendingCountsAtMost(sorted: seq<real>, threshold: real, k: nat)
    requires Ascending(sorted) && k < |sorted|
    ensures sorted[k] <= threshold <==> CountAtMost(sorted, threshold) >= k + 1
  {
    if sorted[0] > threshold {
      NoneAtMost(sorted, threshold);
    } else if k > 0 {
      AscendingCountsAtMost(sorted[1..], threshold, k - 1);
    }
  }

  /** It stays within a threshold exactly when a majority does. */
  lemma OddMedianAtMost(values: seq<real>, k: nat, threshold: real)
    requires |values| == 2 * k + 1
    ensures Median(values) <= threshold <==> CountAtMost(values, threshold) >= k + 1
  {
    SortSorts(values);
    SortCountsAtMost(values, threshold);
    AscendingCountsAtMost(Sort(values), threshold, k);
  }

  function Maximum(values: seq<real>): real
    requires values != []
  {
    if |values| == 1 then values[0]
    else
      var rest := Maximum(values[1..]);
      if values[0] >= rest then values[0] else rest
  }

  lemma {:induction false} MaximumIsReached(values: seq<real>, threshold: real)
    requires values != []
    ensures Maximum(values) >= threshold <==> CountAtLeast(values, threshold) > 0
  {
    if |values| > 1 {
      MaximumIsReached(values[1..], threshold);
    }
  }

  lemma {:induction false} CountedIfPresent(values: seq<real>, threshold: real, k: nat)
    requires k < |values| && values[k] >= threshold
    ensures CountAtLeast(values, threshold) > 0
  {
    if k > 0 {
      CountedIfPresent(values[1..], threshold, k - 1);
    }
  }
}
