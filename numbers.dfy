/** Numbers that the pages compute by floating-point division (a score over a
    question count, milestones completed over milestones) are kept exact here,
    as a fraction with a positive denominator. */
module Numbers {

  datatype Fraction = Fraction(num: int, den: int)

  /** num / den with den > 0 */
  type Ratio = f: Fraction | f.den > 0 witness Fraction(0, 1)

  function FromInt(i: int): Ratio {
    Fraction(i, 1)
  }

  /** x >= k */
  predicate AtLeast(x: Ratio, k: int) {
    x.num >= k * x.den
  }

  /** x > k */
  predicate Exceeds(x: Ratio, k: int) {
    x.num > k * x.den
  }

  /** Math.round: the integer nearest to x, a half rounded towards +infinity. */
  function Round(x: Ratio): (r: int)
    ensures x.den * (2 * r - 1) <= 2 * x.num < x.den * (2 * r + 1)
  {
    var q := (2 * x.num + x.den) / (2 * x.den);
    assert 2 * x.den * q <= 2 * x.num + x.den < 2 * x.den * q + 2 * x.den;
    q
  }

  lemma LessByPositiveFactor(d: int, x: int, y: int)
    requires d > 0 && d * x < d * y
    ensures x < y
  {
    assert d * (y - x) > 0;
  }

  /** Only one integer satisfies Round's contract, so it pins Math.round down. */
  lemma RoundUnique(x: Ratio, r: int)
    requires x.den * (2 * r - 1) <= 2 * x.num < x.den * (2 * r + 1)
    ensures r == Round(x)
  {
    var q := Round(x);
    LessByPositiveFactor(x.den, 2 * r - 1, 2 * q + 1);
    LessByPositiveFactor(x.den, 2 * q - 1, 2 * r + 1);
  }

  /** Rounding a whole number gives it back. */
  lemma RoundOfInt(i: int)
    ensures Round(FromInt(i)) == i
  {
    RoundUnique(FromInt(i), i);
  }

  /** Math.round((completed / total) * 100) */
  function ProgressPercent(completed: nat, total: nat): (p: int)
    requires completed <= total && 0 < total
    ensures 0 <= p <= 100
  {
    var p := Round(Fraction(100 * completed, total));
    LessByPositiveFactor(total, 2 * p - 1, 201);
    LessByPositiveFactor(total, 0, 2 * p + 1);
    p
  }

  /** More completed milestones never give a lower progress. */
  lemma ProgressMonotone(c1: nat, c2: nat, total: nat)
    requires c1 <= c2 <= total && 0 < total
    ensures ProgressPercent(c1, total) <= ProgressPercent(c2, total)
  {
    var p1, p2 := ProgressPercent(c1, total), ProgressPercent(c2, total);
    LessByPositiveFactor(total, 2 * p1 - 1, 2 * p2 + 1);
  }

  /** With fewer than 200 milestones, progress is 100 exactly when all are completed. */
  lemma ProgressFullIff(completed: nat, total: nat)
    requires completed <= total && 0 < total < 200
    ensures ProgressPercent(completed, total) == 100 <==> completed == total
  {
    if completed == total {
      RoundUnique(Fraction(100 * completed, total), 100);
    }
    if ProgressPercent(completed, total) == 100 {
      assert total * 199 <= 200 * completed;
    }
  }

  /** With at most 200 milestones, progress is 0 exactly when none is completed. */
  lemma ProgressZeroIff(completed: nat, total: nat)
    requires completed <= total && 0 < total <= 200
    ensures ProgressPercent(completed, total) == 0 <==> completed == 0
  {
    if completed == 0 {
      RoundUnique(Fraction(0, total), 0);
    }
    if ProgressPercent(completed, total) == 0 {
      assert 200 * completed < total;
    }
  }

  /** The bound in ProgressFullIff is needed: 199 of 200 rounds to 100. */
  lemma ProgressFullWithOneOpen()
    ensures ProgressPercent(199, 200) == 100
  {
    RoundUnique(Fraction(100 * 199, 200), 100);
  }

  /** The bound in ProgressZeroIff is needed: 1 of 201 rounds to 0. */
  lemma ProgressZeroWithOneDone()
    ensures ProgressPercent(1, 201) == 0
  {
    RoundUnique(Fraction(100, 201), 0);
  }
}
