/** The rounding every indicator passes through, of src/campaign/metrics-evals.mjs. */
module Rounding {

  function Round(x: real): int { (x + 0.5).Floor }

  /** Rounding to four places; ties go up. */
  function Round4(x: real): real { Round(x * 10000.0) as real / 10000.0 }

  predicate IsTie(x: real) { (x + 0.5).Floor as real == x + 0.5 }

  lemma RoundNear(x: real)
    ensures x - 0.5 < Round(x) as real <= x + 0.5
  {
  }

  lemma Round4Near(x: real)
    ensures x - 0.00005 < Round4(x) <= x + 0.00005
  {
    RoundNear(x * 10000.0);
  }

  lemma RoundNegated(x: real)
    ensures Round(x) + Round(-x) == if IsTie(x) then 1 else 0
  {
    RoundNear(x);
    RoundNear(-x);
    if IsTie(x) {
      assert -x + 0.5 == (1 - (x + 0.5).Floor) as real;
    }
  }

  lemma Round4Negated(x: real)
    ensures Round4(x) + Round4(-x) == if IsTie(x * 10000.0) then 0.0001 else 0.0
  {
    RoundNegated(x * 10000.0);
    assert -x * 10000.0 == -(x * 10000.0);
  }

  lemma RoundMonotone(x: real, y: real)
    requires x <= y
    ensures Round(x) <= Round(y)
  {
  }

  lemma MultiplyOrdered(x: real, y: real, w: real)
    requires w > 0.0
    ensures x <= y <==> x * w <= y * w
  {
    if x > y {
      assert (x - y) * w > 0.0;
    } else {
      assert (y - x) * w >= 0.0;
    }
  }

  lemma PartOfWhole(part: real, whole: real)
    requires 0.0 <= part <= whole && whole > 0.0
    ensures 0.0 <= part / whole <= 1.0
  {
    var x := part / whole;
    assert x * whole == part && 0.0 * whole == 0.0 && 1.0 * whole == whole;
    MultiplyOrdered(0.0, x, whole);
    MultiplyOrdered(x, 1.0, whole);
  }

  lemma Round4Monotone(x: real, y: real)
    requires x <= y
    ensures Round4(x) <= Round4(y)
  {
    RoundMonotone(x * 10000.0, y * 10000.0);
  }

  /** A rounded mean, times the count, is the sum but for half a unit per element. */
  lemma MeanNear(sum: real, n: nat)
    requires n > 0
    ensures sum - 0.00005 * n as real <= Round4(sum / n as real) * n as real <= sum + 0.00005 * n as real
  {
    var mean, w := sum / n as real, n as real;
    var lo, r, hi := mean - 0.00005, Round4(mean), mean + 0.00005;
    Round4Near(mean);
    assert mean * w == sum;
    MultiplyOrdered(lo, r, w);
    MultiplyOrdered(r, hi, w);
    assert lo * w == sum - 0.00005 * w && hi * w == sum + 0.00005 * w;
  }

  lemma Round4OfFraction(x: real)
    requires 0.0 <= x <= 1.0
    ensures 0.0 <= Round4(x) <= 1.0
  {
    Round4Monotone(0.0, x);
    Round4Monotone(x, 1.0);
    assert Round(0.0) == 0 && Round(10000.0) == 10000;
  }
}
