/**
 * `Math.round` of a ratio of integers, computed exactly: `Math.round(x)` is
 * the integer nearest to `x`, halves rounding up, so `Math.round(a / b)` is
 * the floor of `(2a + b) / 2b`.
 */
module Rounding {
  import Seqs

  /** `Math.round(a / b)` for a positive `b`. */
  function RoundDiv(a: int, b: int): (r: int)
    requires b > 0
    ensures 2 * b * r <= 2 * a + b < 2 * b * (r + 1)
  {
    (2 * a + b) / (2 * b)
  }

  lemma MulLe(m: int, x: int, y: int)
    requires m >= 0 && x <= y
    ensures m * x <= m * y
  {
    assert m * y - m * x == m * (y - x);
  }

  /** Rounding is monotone in the numerator. */
  lemma RoundDivMonotone(a: int, a': int, b: int)
    requires b > 0 && a <= a'
    ensures RoundDiv(a, b) <= RoundDiv(a', b)
  {
    var r, r' := RoundDiv(a, b), RoundDiv(a', b);
    if r > r' {
      MulLe(2 * b, r' + 1, r);
      assert false;
    }
  }

  /** A value between m * r and m * (r + 1) determines r. */
  lemma FloorUnique(x: int, m: int, r: int, q: int)
    requires m > 0 && m * r <= x < m * (r + 1) && m * q <= x < m * (q + 1)
    ensures r == q
  {
    if r < q {
      MulLe(m, r + 1, q);
      assert false;
    } else if r > q {
      MulLe(m, q + 1, r);
      assert false;
    }
  }

  /** A whole ratio rounds to itself. */
  lemma RoundDivExact(q: int, b: int)
    requires b > 0
    ensures RoundDiv(q * b, b) == q
  {
    assert 2 * b * q <= 2 * (q * b) + b < 2 * b * (q + 1);
    FloorUnique(2 * (q * b) + b, 2 * b, RoundDiv(q * b, b), q);
  }

  /** The rounded mean of values in [lo, hi] lies in [lo, hi]. */
  lemma RoundDivBetween(a: int, b: int, lo: int, hi: int)
    requires b > 0 && lo * b <= a <= hi * b
    ensures lo <= RoundDiv(a, b) <= hi
  {
    RoundDivMonotone(lo * b, a, b);
    RoundDivMonotone(a, hi * b, b);
    RoundDivExact(lo, b);
    RoundDivExact(hi, b);
  }

  /** The percentage `Math.round(correct / total * 100)`, and 0 for no questions. */
  function Percent(correct: nat, total: nat): int
  {
    if total == 0 then 0 else RoundDiv(100 * correct, total)
  }

  /** A share of a total is a percentage between 0 and 100. */
  lemma PercentBounds(correct: nat, total: nat)
    requires correct <= total
    ensures 0 <= Percent(correct, total) <= 100
  {
    if total > 0 {
      RoundDivBetween(100 * correct, total, 0, 100);
    }
  }

  /** Everything correct scores 100; nothing correct scores 0. */
  lemma PercentExtremes(total: nat)
    ensures total > 0 ==> Percent(total, total) == 100
    ensures Percent(0, total) == 0
  {
    if total > 0 {
      RoundDivExact(100, total);
      RoundDivExact(0, total);
    }
  }

  /**
   * With fewer than 200 questions, a score of 100 means every answer was
   * correct: one wrong answer costs more than half a percentage point.
   */
  lemma PercentFullOnlyIfAll(correct: nat, total: nat)
    requires correct <= total < 200
    ensures Percent(correct, total) == 100 <==> total > 0 && correct == total
  {
    PercentExtremes(total);
    if total > 0 && correct < total {
      var r := Percent(correct, total);
      assert 2 * total * r <= 200 * correct + total;
      assert 200 * correct + total < 200 * total;
      if r >= 100 {
        MulLe(2 * total, 100, r);
        assert false;
      }
    }
  }

  /** From 200 questions on, 100 no longer implies all correct. */
  lemma PercentFullWithOneWrong()
    ensures Percent(199, 200) == 100
  {
  }

  /** Below one half of a percentage point, a score of 0 does not mean none correct. */
  lemma PercentZeroWithOneRight()
    ensures Percent(1, 201) == 0
  {
  }

  /** The rounded mean of a sequence of integers, and 0 for an empty one. */
  function Mean(s: seq<int>): int
  {
    if s == [] then 0 else RoundDiv(Seqs.Sum(s), |s|)
  }

  /** The mean of scores in [lo, hi] lies in [lo, hi]. */
  lemma MeanBetween(s: seq<int>, lo: int, hi: int)
    requires s != [] && forall i :: 0 <= i < |s| ==> lo <= s[i] <= hi
    ensures lo <= Mean(s) <= hi
  {
    Seqs.SumBounds(s, lo, hi);
    RoundDivBetween(Seqs.Sum(s), |s|, lo, hi);
  }
}
