/** Single-die distributions and the arithmetic the probability engine is
    built from (`C`, `F`, `standard`, `mastery`, `emphasis` in roll.py).
    Probabilities are exact reals; a distribution is a total map from a
    die total to its probability. */
module Pmf {

  function Fact(n: nat): (f: nat)
    ensures f >= 1
  {
    if n == 0 then 1 else n * Fact(n - 1)
  }

  /** `C(n, j)` as roll.py computes it: n! / (j! (n - j)!), a true division.
      The quotient is exact, and it is the binomial coefficient of Pascal's
      triangle. */
  function C(n: nat, j: nat): (c: real)
    requires j <= n
    ensures c == Binomial(n, j) as real
  {
    var d := Fact(j) * Fact(n - j);
    BinomialTimesFactorials(n, j);
    RealQuotient(Binomial(n, j), d, Fact(n));
    (Fact(n) as real) / (d as real)
  }

  /** Pascal's triangle: the reference definition of the binomial coefficient. */
  function Binomial(n: nat, j: nat): nat
    requires j <= n
  {
    if j == 0 || j == n then 1 else Binomial(n - 1, j - 1) + Binomial(n - 1, j)
  }

  lemma MulSwap(x: int, y: int, z: int)
    ensures x * (y * z) == y * (x * z)
  {
  }

  /** The inductive step of BinomialTimesFactorials, over plain integers:
      with fj = j * fj1 and fnj = (n - j) * fnj1, the two Pascal summands
      contribute j and n - j copies of (n - 1)!. */
  lemma PascalStep(n: int, j: int, a: int, b: int, g: int, fj1: int, fnj1: int)
    requires a * (fj1 * ((n - j) * fnj1)) == g
    requires b * ((j * fj1) * fnj1) == g
    ensures (a + b) * ((j * fj1) * ((n - j) * fnj1)) == n * g
  {
    var d := (j * fj1) * ((n - j) * fnj1);
    calc {
      a * d;
      { MulSwap(a, j, fj1 * ((n - j) * fnj1)); assert d == j * (fj1 * ((n - j) * fnj1)); }
      j * g;
    }
    calc {
      b * d;
      { assert d == (n - j) * ((j * fj1) * fnj1); MulSwap(b, n - j, (j * fj1) * fnj1); }
      (n - j) * g;
    }
  }

  lemma {:induction false} BinomialTimesFactorials(n: nat, j: nat)
    requires j <= n
    ensures Binomial(n, j) * (Fact(j) * Fact(n - j)) == Fact(n)
  {
    if j == 0 || j == n {
    } else {
      BinomialTimesFactorials(n - 1, j - 1);
      BinomialTimesFactorials(n - 1, j);
      assert n - 1 - (j - 1) == n - j;
      PascalStep(n, j, Binomial(n - 1, j - 1), Binomial(n - 1, j), Fact(n - 1), Fact(j - 1), Fact(n - 1 - j));
    }
  }

  /** An exact integer quotient survives the move to real division. */
  lemma RealQuotient(b: nat, d: nat, f: nat)
    requires d > 0 && b * d == f
    ensures (f as real) / (d as real) == b as real
  {
    assert (b as real) * (d as real) == f as real;
  }

  /** `x ** n` for a natural exponent; `0 ** 0` is 1, as in Python. */
  function Pow(x: real, n: nat): (p: real)
    ensures 0.0 <= x ==> 0.0 <= p
    ensures 0.0 <= x <= 1.0 ==> p <= 1.0
  {
    if n == 0 then 1.0
    else
      var q := Pow(x, n - 1);
      MulBounds(x, q);
      x * q
  }

  lemma MulBounds(a: real, b: real)
    ensures 0.0 <= a && 0.0 <= b ==> 0.0 <= a * b
    ensures 0.0 <= a <= 1.0 && 0.0 <= b <= 1.0 ==> a * b <= 1.0
  {
    if 0.0 <= a <= 1.0 && 0.0 <= b <= 1.0 {
      assert a * b <= 1.0 * b;
    }
  }

  /** Sum of D(1) + ... + D(t); zero when t < 1. */
  function SumTo(D: int -> real, t: int): real
    decreases t
  {
    if t < 1 then 0.0 else SumTo(D, t - 1) + D(t)
  }

  ghost predicate NonNegative(D: int -> real)
  {
    forall n :: D(n) >= 0.0
  }

  lemma {:induction false} SumToNonNegative(D: int -> real, t: int)
    requires NonNegative(D)
    ensures SumTo(D, t) >= 0.0
    decreases t
  {
    if t >= 1 {
      SumToNonNegative(D, t - 1);
    }
  }

  /** A sum of zero terms is zero. */
  lemma {:induction false} SumToZero(D: int -> real, t: int)
    requires forall n :: 1 <= n <= t ==> D(n) == 0.0
    ensures SumTo(D, t) == 0.0
    decreases t
  {
    if t >= 1 {
      SumToZero(D, t - 1);
    }
  }

  /** Sums over distributions that agree on 1 .. t agree. */
  lemma {:induction false} SumToCongruent(D: int -> real, E: int -> real, t: int)
    requires forall n :: 1 <= n <= t ==> D(n) == E(n)
    ensures SumTo(D, t) == SumTo(E, t)
    decreases t
  {
    if t >= 1 {
      SumToCongruent(D, E, t - 1);
    }
  }

  /** Adding non-negative terms never lowers a sum. */
  lemma {:induction false} SumToMonotone(D: int -> real, s: int, t: int)
    requires NonNegative(D)
    requires s <= t
    ensures SumTo(D, s) <= SumTo(D, t)
    decreases t - s
  {
    if s < t {
      SumToMonotone(D, s, t - 1);
      if t >= 1 {
        assert SumTo(D, t) == SumTo(D, t - 1) + D(t);
      }
    }
  }

  /** The chance of showing n on one ten-sided die (`F`). */
  function Face(n: int): (p: real)
    ensures 0.0 <= p <= 0.1
  {
    if n < 1 || n > 10 then 0.0 else 0.1
  }

  /** A standard roll: a 10 explodes, so a total of n >= 10 is a 10 (chance
      F(10) = 0.1) followed by a roll totalling n - 10. */
  function Standard(n: int): (p: real)
    ensures 0.0 <= p <= 0.1
    decreases n
  {
    if n < 10 then Face(n) else 0.1 * Standard(n - 10)
  }

  /** A mastery roll: a 9 or a 10 (each with chance F(9) = F(10) = 0.1)
      explodes. */
  function Mastery(n: int): (p: real)
    ensures 0.0 <= p <= 0.1
    decreases n
  {
    if n < 9 then Face(n) else 0.1 * Mastery(n - 9) + 0.1 * Mastery(n - 10)
  }

  /** An emphasis roll over D: a first die showing 1 (chance F(1) = 0.1) is
      rolled again, once; only a 1 followed by a 1 ends on 1. */
  function Emphasis(n: int, D: int -> real): (p: real)
    ensures (forall m :: 0.0 <= D(m) <= 0.1) ==> 0.0 <= p <= 0.11
  {
    if n == 1 then Face(1) * Face(1) else D(n) + Face(1) * D(n)
  }

  /** Emphasis ends on 1 only through two 1s in a row; on any other total it
      adds to D's chance the chance of a rerolled first 1. */
  lemma EmphasisValues(n: int, D: int -> real)
    ensures n == 1 ==> Emphasis(n, D) == 0.01
    ensures n != 1 ==> Emphasis(n, D) == 1.1 * D(n)
  {
  }

  /** Past the first ten totals, a standard roll is a 10 followed by a
      fresh standard roll. */
  lemma StandardPeriod(n: int)
    requires n >= 0
    ensures Standard(n + 10) == 0.1 * Standard(n)
  {
  }

  /** Totals that are multiples of 10 are never where a standard roll stops:
      a 10 always explodes. */
  lemma {:induction false} StandardMultipleOfTen(m: nat)
    ensures Standard(10 * m) == 0.0
  {
    if m > 0 {
      var n := 10 * (m - 1);
      StandardMultipleOfTen(m - 1);
      StandardPeriod(n);
      assert n + 10 == 10 * m;
    }
  }

  /** Below 10 a standard roll is a plain die; no total below 1 occurs. */
  lemma StandardLowValues(n: int)
    requires n <= 9
    ensures Standard(n) == if 1 <= n then 0.1 else 0.0
  {
  }

  /** A mastery roll never ends on exactly 9, and ends on 10 only by 9 then 1. */
  lemma MasteryValues()
    ensures Mastery(9) == 0.0
    ensures Mastery(10) == 0.01
  {
    assert Mastery(0) == 0.0 && Mastery(-1) == 0.0 && Mastery(1) == 0.1;
  }

  lemma {:induction false} FacePartialSum(D: int -> real, t: int)
    requires forall n :: D(n) == Face(n)
    ensures t <= 0 ==> SumTo(D, t) == 0.0
    ensures 0 <= t <= 10 ==> SumTo(D, t) == 0.1 * t as real
    ensures t >= 10 ==> SumTo(D, t) == 1.0
    decreases if t < 0 then 0 else t
  {
    if t >= 1 {
      FacePartialSum(D, t - 1);
    }
  }

  lemma {:induction false} StandardLowSum(D: int -> real, t: int)
    requires forall n :: D(n) == Standard(n)
    requires 0 <= t <= 9
    ensures SumTo(D, t) == 0.1 * t as real
  {
    if t >= 1 {
      StandardLowSum(D, t - 1);
    }
  }

  /** Splitting off the first ten totals of a standard roll. */
  lemma {:induction false} StandardSumShift(D: int -> real, t: nat)
    requires forall n :: D(n) == Standard(n)
    ensures SumTo(D, t + 10) == 0.9 + 0.1 * SumTo(D, t)
  {
    if t == 0 {
      StandardLowSum(D, 9);
      StandardPeriod(0);
    } else {
      StandardSumShift(D, t - 1);
      StandardPeriod(t);
      assert SumTo(D, t + 10) == SumTo(D, t + 9) + D(t + 10);
      assert SumTo(D, t) == SumTo(D, t - 1) + D(t);
      assert D(t + 10) == 0.1 * D(t);
    }
  }

  /** The first 10m totals of a standard roll carry all but 0.1^m of the mass. */
  lemma {:induction false} StandardPartialSum(D: int -> real, m: nat)
    requires forall n :: D(n) == Standard(n)
    ensures SumTo(D, 10 * m) == 1.0 - Pow(0.1, m)
  {
    if m > 0 {
      var t := 10 * (m - 1);
      assert 10 * m == t + 10;
      StandardPartialSum(D, m - 1);
      StandardSumShift(D, t);
    }
  }

  lemma {:induction false} MasteryLowSum(D: int -> real, t: int)
    requires forall n :: D(n) == Mastery(n)
    requires 0 <= t <= 8
    ensures SumTo(D, t) == 0.1 * t as real
  {
    if t >= 1 {
      MasteryLowSum(D, t - 1);
    }
  }

  /** From total 9 on, a mastery roll's mass splits into the branch that
      exploded on 9 and the one that exploded on 10. */
  lemma {:induction false} MasterySumSplit(D: int -> real, t: int)
    requires forall n :: D(n) == Mastery(n)
    requires t >= 8
    ensures SumTo(D, t) == 0.8 + 0.1 * SumTo(D, t - 9) + 0.1 * SumTo(D, t - 10)
  {
    if t == 8 {
      MasteryLowSum(D, 8);
    } else {
      MasterySumSplit(D, t - 1);
    }
  }

  /** No partial sum of a standard roll leaves [0, 1]. */
  lemma {:induction false} StandardSumBounds(D: int -> real, t: int)
    requires forall n :: D(n) == Standard(n)
    ensures 0.0 <= SumTo(D, t) <= 1.0
    decreases if t < 0 then 0 else t
  {
    if 0 <= t <= 9 {
      StandardLowSum(D, t);
    } else if t >= 10 {
      StandardSumBounds(D, t - 10);
      StandardSumShift(D, t - 10);
    }
  }

  /** No partial sum of a mastery roll leaves [0, 1]. */
  lemma {:induction false} MasterySumBounds(D: int -> real, t: int)
    requires forall n :: D(n) == Mastery(n)
    ensures 0.0 <= SumTo(D, t) <= 1.0
    decreases if t < 0 then 0 else t
  {
    if 0 <= t <= 8 {
      MasteryLowSum(D, t);
    } else if t >= 9 {
      MasterySumBounds(D, t - 9);
      MasterySumBounds(D, t - 10);
      MasterySumSplit(D, t);
      var x, y := SumTo(D, t - 9), SumTo(D, t - 10);
      assert 0.1 * x <= 0.1 && 0.1 * y <= 0.1;
    }
  }

  /** Emphasis moves D's mass at 1 (one tenth) onto a rerolled D, so its
      partial sums are 1.1 times D's less 0.1. */
  lemma {:induction false} EmphasisPartialSum(D: int -> real, E: int -> real, t: int)
    requires forall n :: E(n) == Emphasis(n, D)
    requires D(1) == 0.1
    requires t >= 1
    ensures SumTo(E, t) == 1.1 * SumTo(D, t) - 0.1
  {
    if t > 1 {
      EmphasisPartialSum(D, E, t - 1);
    }
  }

  /** The partial sums of an emphasis roll stay in [0, 1] when those of the
      underlying roll do not exceed 1. */
  lemma EmphasisSumBounds(D: int -> real, E: int -> real, t: int)
    requires forall n :: E(n) == Emphasis(n, D)
    requires NonNegative(D) && D(1) == 0.1
    requires SumTo(D, t) <= 1.0
    ensures 0.0 <= SumTo(E, t) <= 1.0
  {
    if t >= 1 {
      EmphasisPartialSum(D, E, t);
      SumToMonotone(D, 1, t);
      assert SumTo(D, 1) == D(1);
    }
  }
}
