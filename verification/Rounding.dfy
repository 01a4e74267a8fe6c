/** Rounding to three or six decimals, half to even, as the built-in round does on exact values. */
module Rounding {

  function HalfEven(x: real): int {
    var low := x.Floor;
    var rest := x - low as real;
    if rest < 0.5 then low
    else if rest > 0.5 then low + 1
    else if low % 2 == 0 then low
    else low + 1
  }

  function Round3(x: real): real {
    HalfEven(x * 1000.0) as real / 1000.0
  }

  function Round6(x: real): real {
    HalfEven(x * 1000000.0) as real / 1000000.0
  }

  // A value is written with at most three decimals.
  predicate ThreeDecimals(x: real) {
    (x * 1000.0).Floor as real == x * 1000.0
  }

  predicate SixDecimals(x: real) {
    (x * 1000000.0).Floor as real == x * 1000000.0
  }

  // A value with six decimals is its own rounding.
  lemma Round6Keeps(x: real)
    requires SixDecimals(x)
    ensures Round6(x) == x
  {
  }

  lemma HalfEvenMonotone(x: real, y: real)
    requires x <= y
    ensures HalfEven(x) <= HalfEven(y)
  {
    assert x.Floor <= y.Floor;
  }

  lemma Round3IsClose(x: real)
    ensures Round3(x) - 0.0005 <= x <= Round3(x) + 0.0005
  {
    var thousandths := HalfEven(x * 1000.0) as real;
    assert thousandths - 0.5 <= x * 1000.0 <= thousandths + 0.5;
  }

  // The mean of two values with six decimals reaches a threshold with three, once rounded, exactly
  // when their sum misses its double by a millionth at most.
  lemma Round6OfMean(a: real, b: real, threshold: real)
    requires SixDecimals(a) && SixDecimals(b) && ThreeDecimals(threshold)
    ensures Round6((a + b) / 2.0) >= threshold <==> a + b >= 2.0 * threshold - 0.000001
  {
    MeanOfUnits(a, b, threshold, (a * 1000000.0).Floor, (b * 1000000.0).Floor, (threshold * 1000.0).Floor);
  }

  lemma MeanOfUnits(a: real, b: real, threshold: real, x: int, y: int, thousandths: int)
    requires x as real == a * 1000000.0 && y as real == b * 1000000.0 && thousandths as real == threshold * 1000.0
    ensures Round6((a + b) / 2.0) >= threshold <==> a + b >= 2.0 * threshold - 0.000001
  {
    Millionths(a + b, threshold, x + y, 1000 * thousandths);
  }

  lemma Millionths(total: real, threshold: real, sum: int, units: int)
    requires total * 1000000.0 == sum as real && threshold * 1000000.0 == units as real && units % 2 == 0
    ensures Round6(total / 2.0) >= threshold <==> total >= 2.0 * threshold - 0.000001
  {
    HalfOfSum(sum, units);
    Quotient(total, threshold, sum, units);
    assert Round6(total / 2.0) == HalfEven(sum as real / 2.0) as real / 1000000.0;
  }

  lemma Quotient(total: real, threshold: real, sum: int, units: int)
    requires total * 1000000.0 == sum as real && threshold * 1000000.0 == units as real
    ensures total / 2.0 * 1000000.0 == sum as real / 2.0
    ensures total >= 2.0 * threshold - 0.000001 <==> sum >= 2 * units - 1
  {
  }

  lemma HalfOfSum(sum: int, even: int)
    requires even % 2 == 0
    ensures HalfEven(sum as real / 2.0) >= even <==> sum >= 2 * even - 1
  {
    assert (sum as real / 2.0).Floor == sum / 2;
  }

  // Rounding never carries a value across a threshold written with three decimals.
  lemma Round3KeepsThreshold(x: real, threshold: real)
    requires ThreeDecimals(threshold) && x >= threshold
    ensures Round3(x) >= threshold
  {
    HalfEvenMonotone(threshold * 1000.0, x * 1000.0);
    assert HalfEven(threshold * 1000.0) as real == threshold * 1000.0;
  }
}
