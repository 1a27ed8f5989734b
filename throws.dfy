/** The probability engine of roll.py: the rank-constrained recursion `P`
    and the throw distribution built on it (`throw_v`, `throw_v_or_up`). */
module Throws {
  import Pmf
  import opened Wrappers
  import Notation

  /** The roll kinds: the five keys of the `pdf` table of throw_v, and
      emphasis on an unskilled roll, which `roll` performs but the table
      lacks. */
  datatype Kind = Std | Unskilled | Mastery | EmphStd | EmphMastery | EmphUnskilled

  /** The per-die distribution of each kind. */
  function Pdf(kind: Kind): int -> real
  {
    match kind
    case Std => n => Pmf.Standard(n)
    case Unskilled => n => Pmf.Face(n)
    case Mastery => n => Pmf.Mastery(n)
    case EmphStd => n => Pmf.Emphasis(n, m => Pmf.Standard(m))
    case EmphMastery => n => Pmf.Emphasis(n, m => Pmf.Mastery(m))
    case EmphUnskilled => n => Pmf.Emphasis(n, m => Pmf.Face(m))
  }

  /** The kind strings throw_v can look up, and what they select. */
  const PdfTable: map<string, Kind> :=
    map["" := Std, "u" := Unskilled, "m" := Mastery, "e" := EmphStd, "em" := EmphMastery]

  lemma PdfNonNegative(kind: Kind)
    ensures Pmf.NonNegative(Pdf(kind))
  {
  }

  /** Of n dice showing the ceiling, the ones that are kept. */
  function Kept(n: nat, k: nat): nat
  {
    if n <= k then n else k
  }

  /** The probability that r draws from D, keeping the k highest, sum to v
      while no draw exceeds t. */
  function P(r: nat, k: nat, v: int, t: int, D: int -> real): real
    decreases t, 1
  {
    if k == 0 && v == 0 then Pmf.Pow(Pmf.SumTo(D, t), r)
    else if r < 1 || k < 1 || v < 1 || t < 1 then 0.0
    else P(r, k, v, t - 1, D) + Tally(r, k, v, t, D, r)
  }

  /** The first m summands of the loop in `P`: n = 1 .. m draws show t. */
  function Tally(r: nat, k: nat, v: int, t: int, D: int -> real, m: nat): real
    requires 1 <= t && m <= r
    decreases t, 0, m
  {
    if m == 0 then 0.0 else Tally(r, k, v, t, D, m - 1) + Term(r, k, v, t, D, m)
  }

  /** The chance that a chosen set of exactly n of r draws shows the value
      whose chance is d, counted over the C(r, n) ways to choose the set
      (written with Binomial, which the contract of Pmf.C shows equal to C). */
  function Weight(r: nat, n: nat, d: real): real
    requires n <= r
  {
    (Pmf.Binomial(r, n) as real) * Pmf.Pow(d, n)
  }

  /** Exactly n of the r draws show t; the rest stay below t and fill the
      remaining kept places. */
  function Term(r: nat, k: nat, v: int, t: int, D: int -> real, n: nat): real
    requires 1 <= t && 1 <= n <= r
    decreases t, 0, 0
  {
    var kept := Kept(n, k);
    Weight(r, n, D(t)) * P(r - n, k - kept, v - kept * t, t - 1, D)
  }

  /** `P` as the source computes it: base cases, then a loop accumulating
      the recursive contributions. */
  method ComputeP(r: nat, k: nat, v: int, t: int, D: int -> real) returns (acc: real)
    ensures acc == P(r, k, v, t, D)
    decreases t
  {
    if k == 0 && v == 0 {
      var ltT := Pmf.SumTo(D, t);
      return Pmf.Pow(ltT, r);
    }
    if r < 1 || k < 1 || v < 1 || t < 1 {
      return 0.0;
    }
    acc := ComputeP(r, k, v, t - 1, D);
    for n := 1 to r + 1
      invariant acc == P(r, k, v, t - 1, D) + Tally(r, k, v, t, D, n - 1)
    {
      var c := Pmf.C(r, n);
      var w := c * Pmf.Pow(D(t), n);
      var kRest := k - Kept(n, k);
      var vRest := v - Kept(n, k) * t;
      var rest := ComputeP(r - n, kRest, vRest, t - 1, D);
      AccumulateStep(r, k, v, t, D, n, P(r, k, v, t - 1, D), acc, w, rest);
      acc := acc + w * rest;
    }
  }

  /** One more summand of the loop in `P`, written out. */
  lemma TallyStep(r: nat, k: nat, v: int, t: int, D: int -> real, n: nat)
    requires 1 <= t && 1 <= n <= r
    ensures Tally(r, k, v, t, D, n) == Tally(r, k, v, t, D, n - 1)
      + Weight(r, n, D(t)) * P(r - n, k - Kept(n, k), v - Kept(n, k) * t, t - 1, D)
  {
  }

  /** The loop body of ComputeP adds exactly the n-th summand. */
  lemma AccumulateStep(r: nat, k: nat, v: int, t: int, D: int -> real, n: nat,
                       base: real, acc: real, w: real, rest: real)
    requires 1 <= t && 1 <= n <= r
    requires acc == base + Tally(r, k, v, t, D, n - 1)
    requires w == Weight(r, n, D(t))
    requires rest == P(r - n, k - Kept(n, k), v - Kept(n, k) * t, t - 1, D)
    ensures acc + w * rest == base + Tally(r, k, v, t, D, n)
  {
    var sub := P(r - n, k - Kept(n, k), v - Kept(n, k) * t, t - 1, D);
    var y := Weight(r, n, D(t)) * sub;
    assert Tally(r, k, v, t, D, n) == Tally(r, k, v, t, D, n - 1) + y by {
      TallyStep(r, k, v, t, D, n);
    }
    assert w * rest == y by {
      MulCongruence(w, rest, Weight(r, n, D(t)), sub);
    }
    AddSame(acc, base, Tally(r, k, v, t, D, n - 1), Tally(r, k, v, t, D, n), w * rest, y);
  }

  lemma AddSame(acc: real, a: real, t1: real, t2: real, x: real, y: real)
    requires acc == a + t1 && t2 == t1 + y && x == y
    ensures acc + x == a + t2
  {
  }

  lemma MulCongruence(a: real, b: real, a': real, b': real)
    requires a == a' && b == b'
    ensures a * b == a' * b'
  {
  }

  lemma MulNonNegative(a: real, b: real)
    requires 0.0 <= a && 0.0 <= b
    ensures 0.0 <= a * b
  {
  }

  /** Every constrained probability is non-negative when D is. */
  lemma {:induction false} PNonNegative(r: nat, k: nat, v: int, t: int, D: int -> real)
    requires Pmf.NonNegative(D)
    ensures P(r, k, v, t, D) >= 0.0
    decreases t, 1
  {
    if k == 0 && v == 0 {
      Pmf.SumToNonNegative(D, t);
    } else if r < 1 || k < 1 || v < 1 || t < 1 {
    } else {
      PNonNegative(r, k, v, t - 1, D);
      TallyNonNegative(r, k, v, t, D, r);
    }
  }

  lemma {:induction false} TallyNonNegative(r: nat, k: nat, v: int, t: int, D: int -> real, m: nat)
    requires Pmf.NonNegative(D)
    requires 1 <= t && m <= r
    ensures Tally(r, k, v, t, D, m) >= 0.0
    decreases t, 0, m
  {
    if m > 0 {
      TallyNonNegative(r, k, v, t, D, m - 1);
      var kept := Kept(m, k);
      PNonNegative(r - m, k - kept, v - kept * t, t - 1, D);
      MulNonNegative(Pmf.Binomial(r, m) as real, Pmf.Pow(D(t), m));
      MulNonNegative(Weight(r, m, D(t)), P(r - m, k - kept, v - kept * t, t - 1, D));
    }
  }

  /** The outcomes a throw can have at all: keeping none sums to 0, and
      keeping k >= 1 of at least k dice, each between 1 and t, sums to
      between k and k * t. */
  predicate Reachable(r: nat, k: nat, v: int, t: int)
  {
    (k == 0 && v == 0) || (1 <= k <= r && k <= v <= k * t)
  }

  /** Whether the subproblem of the n-th summand of the loop is unreachable. */
  predicate SubUnreachable(r: nat, k: nat, v: int, t: int, n: nat)
    requires n <= r
  {
    var kept := Kept(n, k);
    !Reachable(r - n, k - kept, v - kept * t, t - 1)
  }

  lemma {:induction false} TallyVanishes(r: nat, k: nat, v: int, t: int, D: int -> real, m: nat)
    requires 1 <= t && m <= r
    requires forall n :: 1 <= n <= m ==> SubUnreachable(r, k, v, t, n)
    ensures Tally(r, k, v, t, D, m) == 0.0
    decreases t, 0, m
  {
    if m > 0 {
      TallyVanishes(r, k, v, t, D, m - 1);
      assert SubUnreachable(r, k, v, t, m);
      var kept := Kept(m, k);
      PVanishes(r - m, k - kept, v - kept * t, t - 1, D);
    }
  }

  /** Removing the n draws that show t from an unreachable outcome leaves an
      unreachable one. */
  lemma SubproblemUnreachable(r: nat, k: nat, v: int, t: int, n: nat)
    requires 1 <= k && 1 <= t && 1 <= n <= r
    requires !Reachable(r, k, v, t)
    ensures SubUnreachable(r, k, v, t, n)
  {
    assert n * t + (k - n) * (t - 1) == k * t - (k - n);
    assert n * t >= n && k * t >= k;
  }

  /** A throw puts no probability on an unreachable outcome. */
  lemma {:induction false} PVanishes(r: nat, k: nat, v: int, t: int, D: int -> real)
    requires !Reachable(r, k, v, t)
    ensures P(r, k, v, t, D) == 0.0
    decreases t, 1
  {
    if r < 1 || k < 1 || v < 1 || t < 1 {
    } else {
      assert !Reachable(r, k, v, t - 1) by {
        assert k * (t - 1) <= k * t;
      }
      PVanishes(r, k, v, t - 1, D);
      forall n | 1 <= n <= r
        ensures SubUnreachable(r, k, v, t, n)
      {
        SubproblemUnreachable(r, k, v, t, n);
      }
      TallyVanishes(r, k, v, t, D, r);
    }
  }

  /** Raising the ceiling above the target total adds nothing, since no kept
      die can exceed the total it is part of: this is why throw_v starts the
      recursion at t = v. */
  lemma {:induction false} PCeilingAboveTarget(r: nat, k: nat, v: int, t: int, D: int -> real)
    requires 1 <= k && v <= t
    ensures P(r, k, v, t, D) == P(r, k, v, v, D)
    decreases t
  {
    if t > v && r >= 1 && v >= 1 {
      PCeilingAboveTarget(r, k, v, t - 1, D);
      forall n | 1 <= n <= r
        ensures SubUnreachable(r, k, v, t, n)
      {
        assert Kept(n, k) * t >= t;
      }
      TallyVanishes(r, k, v, t, D, r);
    }
  }

  /** A throw of one die, keeping it, is distributed as the die itself. */
  lemma SingleDie(v: int, D: int -> real)
    ensures P(1, 1, v, v, D) == if v >= 1 then D(v) else 0.0
  {
    if v >= 1 {
      PVanishes(1, 1, v, v - 1, D);
      assert Pmf.Binomial(1, 1) == 1;
      assert Pmf.Pow(D(v), 1) == D(v);
      assert P(0, 0, 0, v - 1, D) == 1.0;
      assert Tally(1, 1, v, v, D, 1) == Term(1, 1, v, v, D, 1);
    }
  }

  /** throw_v as written: the kind string is looked up in the `pdf` table,
      and a string the table lacks raises KeyError (None here). */
  function ThrowVAsWritten(r: nat, k: nat, v: int, mods: string): (p: Option<real>)
    ensures p.Some? <==> mods in PdfTable
  {
    if mods in PdfTable then Some(P(r, k, v, v, Pdf(PdfTable[mods]))) else None
  }

  /** The kind a string of roll letters selects, read letter by letter as
      `roll` reads it: 'm' lowers the explosion threshold to 9, otherwise
      'u' raises it past 10, and 'e' adds the reroll of a first 1. */
  function KindOf(mods: string): Kind
  {
    var emphasis := 'e' in mods;
    if 'm' in mods then (if emphasis then EmphMastery else Mastery)
    else if 'u' in mods then (if emphasis then EmphUnskilled else Unskilled)
    else if emphasis then EmphStd
    else Std
  }

  /** Reading the letters agrees with the table wherever the table has an
      entry. */
  lemma KindOfExtendsTable(mods: string)
    requires mods in PdfTable
    ensures KindOf(mods) == PdfTable[mods]
  {
  }

  /** Only which letters occur matters, not their order or repetition. */
  lemma KindOfLetterSet(mods: string, mods': string)
    requires forall c :: c in mods <==> c in mods'
    ensures KindOf(mods) == KindOf(mods')
  {
  }

  /** The chance that a throw of r dice keeping k totals exactly v (before
      any static modifier), for any kind string `parse_input` accepts. */
  function ThrowV(r: nat, k: nat, v: int, mods: string): (p: real)
    ensures p >= 0.0
  {
    PdfNonNegative(KindOf(mods));
    PNonNegative(r, k, v, v, Pdf(KindOf(mods)));
    P(r, k, v, v, Pdf(KindOf(mods)))
  }

  /** Where the table has an entry, ThrowV is throw_v as written. */
  lemma ThrowVExtendsAsWritten(r: nat, k: nat, v: int, mods: string)
    requires mods in PdfTable
    ensures ThrowVAsWritten(r, k, v, mods) == Some(ThrowV(r, k, v, mods))
  {
    KindOfExtendsTable(mods);
  }

  /** The distribution of a throw's total. */
  function ThrowDist(r: nat, k: nat, mods: string): int -> real
  {
    i => ThrowV(r, k, i, mods)
  }

  /** The chance that a throw totals v or more: one less the chances of the
      totals 1 .. v - 1. */
  function ThrowVOrUp(r: nat, k: nat, v: int, mods: string): (p: real)
    ensures p <= 1.0
  {
    ThrowDistNonNegative(r, k, mods);
    Pmf.SumToNonNegative(ThrowDist(r, k, mods), v - 1);
    1.0 - Pmf.SumTo(ThrowDist(r, k, mods), v - 1)
  }

  lemma ThrowDistNonNegative(r: nat, k: nat, mods: string)
    ensures Pmf.NonNegative(ThrowDist(r, k, mods))
  {
  }

  /** No chance for a total that the dice cannot make: a non-zero total with
      nothing kept, keeping more dice than are rolled, or a total below the
      number of kept dice (each shows at least 1). */
  lemma ThrowVVanishes(r: nat, k: nat, v: int, mods: string)
    requires (k == 0 && v != 0) || (1 <= k && (r < k || v < k))
    ensures ThrowV(r, k, v, mods) == 0.0
  {
    PVanishes(r, k, v, v, Pdf(KindOf(mods)));
  }

  /** A target no higher than the number of kept dice is always met. */
  lemma ThrowVOrUpCertain(r: nat, k: nat, v: int, mods: string)
    requires k == 0 || v <= k
    ensures ThrowVOrUp(r, k, v, mods) == 1.0
  {
    var D := ThrowDist(r, k, mods);
    forall i | 1 <= i <= v - 1
      ensures D(i) == 0.0
    {
      ThrowVVanishes(r, k, i, mods);
    }
    Pmf.SumToZero(D, v - 1);
  }

  /** Raising the target by one loses exactly the chance of the old target. */
  lemma ThrowVOrUpStep(r: nat, k: nat, v: int, mods: string)
    requires v >= 1
    ensures ThrowVOrUp(r, k, v + 1, mods) == ThrowVOrUp(r, k, v, mods) - ThrowV(r, k, v, mods)
  {
  }

  /** A higher target is never likelier, and no target is likelier than 1. */
  lemma ThrowVOrUpMonotone(r: nat, k: nat, v: int, w: int, mods: string)
    requires v <= w
    ensures ThrowVOrUp(r, k, w, mods) <= ThrowVOrUp(r, k, v, mods) <= 1.0
  {
    ThrowDistNonNegative(r, k, mods);
    Pmf.SumToMonotone(ThrowDist(r, k, mods), v - 1, w - 1);
    Pmf.SumToNonNegative(ThrowDist(r, k, mods), v - 1);
  }

  /** One die, kept, is distributed as a single roll of its kind. */
  lemma SingleDieThrowV(v: int, mods: string)
    ensures ThrowV(1, 1, v, mods) == if v >= 1 then Pdf(KindOf(mods))(v) else 0.0
  {
    SingleDie(v, Pdf(KindOf(mods)));
  }

  /** A standard die never stops on 10, so one die kept never totals 10. */
  lemma StandardDieMissesTen()
    ensures ThrowV(1, 1, 10, "") == 0.0
  {
    SingleDieThrowV(10, "");
    Pmf.StandardMultipleOfTen(1);
  }

  /** One die, kept, meets v with the chance that a single roll of its kind
      is not below v. */
  lemma SingleDieThrowVOrUp(v: int, mods: string)
    ensures ThrowVOrUp(1, 1, v, mods) == 1.0 - Pmf.SumTo(Pdf(KindOf(mods)), v - 1)
  {
    forall i | 1 <= i <= v - 1
      ensures ThrowDist(1, 1, mods)(i) == Pdf(KindOf(mods))(i)
    {
      SingleDieThrowV(i, mods);
    }
    Pmf.SumToCongruent(ThrowDist(1, 1, mods), Pdf(KindOf(mods)), v - 1);
  }

  /** One standard die reaches 10 m + 1 only by exploding m times. */
  lemma StandardDieReaches(m: nat)
    ensures ThrowVOrUp(1, 1, 10 * m + 1, "") == Pmf.Pow(0.1, m)
  {
    SingleDieThrowVOrUp(10 * m + 1, "");
    Pmf.StandardPartialSum(Pdf(Std), m);
  }

  /** For one die of every kind, every target is met with a chance in [0, 1]. */
  lemma SingleDieThrowVOrUpBounds(v: int, mods: string)
    ensures 0.0 <= ThrowVOrUp(1, 1, v, mods) <= 1.0
  {
    SingleDieThrowVOrUp(v, mods);
    var t := v - 1;
    var D := Pdf(KindOf(mods));
    assert 0.0 <= Pmf.SumTo(D, t) <= 1.0 by {
      match KindOf(mods)
      case Std => Pmf.StandardSumBounds(D, t);
      case Mastery => Pmf.MasterySumBounds(D, t);
      case Unskilled => Pmf.FacePartialSum(D, t);
      case EmphStd =>
        var B := m => Pmf.Standard(m);
        Pmf.StandardSumBounds(B, t);
        Pmf.EmphasisSumBounds(B, D, t);
      case EmphMastery =>
        var B := m => Pmf.Mastery(m);
        Pmf.MasterySumBounds(B, t);
        Pmf.EmphasisSumBounds(B, D, t);
      case EmphUnskilled =>
        var B := m => Pmf.Face(m);
        Pmf.FacePartialSum(B, t);
        Pmf.EmphasisSumBounds(B, D, t);
    }
  }

  /** As written, a kind string that parses can be missing from the table:
      "6k3ue" (an unskilled roll with emphasis, which `roll` performs)
      parses, and throw_v has no distribution for it. */
  lemma UnlistedKindAsWritten()
    ensures Notation.ShowPar(6, 3, 0) + "ue" == "6k3ue"
    ensures Notation.Parse(Notation.ShowPar(6, 3, 0) + "ue") == Some(Notation.Throw(6, 3, "ue", 0))
    ensures forall v :: ThrowVAsWritten(6, 3, v, "ue") == None
  {
    Notation.ParseExampleUnlistedKind();
    UnlistedKindUntabulated();
  }

  lemma UnlistedKindUntabulated()
    ensures forall v :: ThrowVAsWritten(6, 3, v, "ue") == None
  {
    assert "ue" !in PdfTable;
  }

  /** Corrected: every kind string has a distribution, read as `roll` reads
      it, and one unskilled die with emphasis rerolls a first 1 once. */
  lemma UnlistedKindCorrected(v: int)
    ensures KindOf("ue") == EmphUnskilled
    ensures ThrowV(1, 1, v, "ue") == if v == 1 then 0.01 else if 2 <= v <= 10 then 0.11 else 0.0
  {
    SingleDieThrowV(v, "ue");
  }
}
