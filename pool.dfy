/** Pool normalisation: oversized roll-and-keep pools become smaller pools
    plus a flat bonus (`cap` in roll.py). */
module PoolCap {

  /** The throw parameters `cap` works on: dice rolled, dice kept, static bonus. */
  datatype Pool = Pool(rolled: nat, kept: nat, add: int)

  function Min(a: int, b: int): int { if a <= b then a else b }

  /** How many times the loop of `cap` trades two rolled dice for one kept die:
      it stops as soon as at most 11 dice are rolled or 10 are kept. */
  function Conversions(r: nat, k: nat): (m: nat)
    ensures 2 * m <= r
  {
    if r <= 11 || k >= 10 then 0 else Min((r - 10) / 2, 10 - k)
  }

  /** The pool `cap(r, k, add)` returns: after the conversions, every rolled
      or kept die beyond 10 is worth a flat +2. */
  function Capped(r: nat, k: nat, add: int): (p: Pool)
    ensures p.rolled <= 10 && p.kept <= 10
    ensures p.add >= add
    ensures r <= 10 && k <= 10 ==> p == Pool(r, k, add)
    ensures 1 <= k <= r ==> 1 <= p.kept <= p.rolled
    ensures 1 <= r ==> 1 <= p.rolled
  {
    var m := Conversions(r, k);
    var r1 := r - 2 * m;
    var k1 := k + m;
    Pool(Min(r1, 10), Min(k1, 10), add + 2 * (r1 - Min(r1, 10)) + 2 * (k1 - Min(k1, 10)))
  }

  /** `cap` as the source writes it: a conversion loop, then two clamps. */
  method Cap(r0: nat, k0: nat, add0: int) returns (r: nat, k: nat, add: int)
    ensures Pool(r, k, add) == Capped(r0, k0, add0)
  {
    r, k, add := r0, k0, add0;
    while r > 11 && k < 10
      invariant r + 2 * k == r0 + 2 * k0
      invariant k0 <= k && add == add0
      invariant k - k0 <= Conversions(r0, k0)
      invariant k > k0 ==> r0 > 11 && k0 < 10
      decreases r
    {
      r := r - 2;
      k := k + 1;
    }
    assert k - k0 == Conversions(r0, k0);
    if r > 10 {
      add := add + 2 * (r - 10);
      r := 10;
    }
    if k > 10 {
      add := add + 2 * (k - 10);
      k := 10;
    }
  }

  /** When cap leaves the dice alone it leaves the modifier alone too, so
      replacing the pool only when the dice changed is replacing it always. */
  lemma CappedSameDiceSameAdd(r: nat, k: nat, add: int)
    requires Capped(r, k, add).rolled == r && Capped(r, k, add).kept == k
    ensures Capped(r, k, add).add == add
  {
  }

  /** A capped pool is a fixed point of `cap`, so capping twice changes nothing. */
  lemma CappedIdempotent(r: nat, k: nat, add: int)
    ensures var p := Capped(r, k, add); Capped(p.rolled, p.kept, p.add) == p
  {
  }

  /** Worked values: twelve rolled dice lose two to gain one kept die, and a
      pool of 30 rolled dice fills the kept side before the rest becomes bonus. */
  lemma CappedExamples()
    ensures Capped(12, 3, 0) == Pool(10, 4, 0)
    ensures Capped(13, 3, 5) == Pool(10, 4, 7)
    ensures Capped(30, 1, 0) == Pool(10, 10, 4)
    ensures Capped(11, 11, -3) == Pool(10, 10, 1)
  {
  }
}
