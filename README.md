# Roll-and-keep dice: a verified model

roll.py rolls and rates roll-and-keep dice pools ("roll r ten-sided dice, keep
the k highest"). Each die explodes: a 10 is rolled again and added. Variants
are unskilled (no explosion), mastery (a 9 explodes as well) and emphasis (a
first 1 is rolled again, once). This project models the deterministic core of
the program in Dafny:

- `pool.dfy` (module `PoolCap`): `cap`. While more than eleven dice are rolled
  and fewer than ten kept, it trades two rolled dice for one kept die (every
  two rolled dice beyond ten). Rolled or kept dice beyond ten then become +2 each.
  The closed form `Capped` is the specification. The method `Cap` keeps the
  source's `while` loop and is proved equal to `Capped`.
- `notation.dfy` (module `Notation`): `parse_input` and `show_par`. The
  regular expression `(\d+)k(\d+)([mue]*)?(\s*[+-]\s*\d+)?(\s*b\s*)?\s*$` is
  deterministic, so it is written as a greedy scanner (`Match`). `Parse` is
  the value `parse_input` returns. The method `ParseInput` reassigns its locals
  step by step, as the source does, and is proved equal to `Parse`.
- `pmf.dfy` (module `Pmf`): `C`, `F` (`Face`), `standard`, `mastery` and
  `emphasis`. It also has the finite sums and powers the engine is built from.
- `throws.dfy` (module `Throws`): the recursion `P(r, k, v, t, D)`, `throw_v`
  and `throw_v_or_up`. `P` is the chance that r draws from D, keeping the k
  highest, sum to v with no draw above t. The function `P` is the
  specification. The method `ComputeP` keeps the source's accumulating `for`
  loop and is proved equal to it.
- `wrappers.dfy` (module `Wrappers`): `Option`, for the `None` results.

Probabilities are exact `real`s. A per-die distribution is a function
`int -> real`, passed to `P` as the source passes `D`.

Notes on the code of roll.py that the model follows:
- `cap(12, 3, 0)` is `(10, 4, 0)`: twelve rolled dice convert once to ten
  rolled and one more kept, and nothing is left for the bonus.
- The loop of `P` runs n over 1 .. r, keeping `min(n, k)` of the n dice that
  show t.
- Once the `k == 0 and v == 0` case is handled, every other base case of `P`
  (r, k, v or t below 1) returns 0.0.

## Model

| member | source | states |
|---|---|---|
| `PoolCap.Capped` | roll.py:172-194 | the capped pool has at most ten rolled and ten kept dice; its bonus is no smaller; a pool already within ten and ten is unchanged; a pool keeping 1 to r of r dice still keeps between 1 and its rolled dice |
| `PoolCap.Cap` | roll.py:182-194 | the loop (invariant: r + 2k is preserved) and the two overflow conversions compute exactly `Capped` |
| `PoolCap.CappedIdempotent` | roll.py:182-194 | capping a capped pool changes nothing |
| `PoolCap.CappedExamples` | roll.py:182-194 | 12k3 becomes 10k4 +0; 13k3 +5 becomes 10k4 +7; 30k1 becomes 10k10 +4; 11k11 -3 becomes 10k10 +1 |
| `PoolCap.CappedSameDiceSameAdd` | roll.py:153-159 | when cap leaves the dice alone it leaves the bonus alone, so replacing the pool only when the dice changed is the same as always replacing it |
| `Notation.Run` | roll.py:126-134 | a greedy character-class run: every character it covers qualifies, and the next one does not |
| `Notation.Match` | roll.py:126-139 | a match has a non-empty digit string for rolled and kept dice and only m/u/e in the kind |
| `Notation.MatchAlphabet` | roll.py:126-139 | only strings made of digits, k, m, u, e, +, -, b and whitespace match |
| `Notation.Parse` | roll.py:116-161 | the value `parse_input` returns: match, then the groups' meaning; no ensures of its own, its properties are `ParseKind`, `ParseCapsPool`, `ParseRejectsStrayCharacter`, `ParseRejectsLeadingNonDigit` and the round trips `ParseShowPar`, `ParseShowParUncapped`, `ParseShowParKind` |
| `Notation.ShowPar` | roll.py:164-169 | `show_par`'s text uses only the notation's characters; the round trips `ParseShowPar`, `ParseShowParUncapped` and `ParseShowParKind` show that `parse_input` reads it back |
| `Notation.ParseInput` | roll.py:115-161 | the step-by-step procedure returns exactly `Parse` |
| `Notation.ParseKind` | roll.py:138-147 | no match means None; otherwise the result is None exactly when the kind has both u and m, and its kind is the matched one with "me" written "em" |
| `Notation.ParseCapsPool` | roll.py:148-161 | without the `b` group the returned pool has at most ten rolled and ten kept dice and a bonus no smaller than the one written |
| `Notation.ParseRejectsStrayCharacter` | roll.py:126-139 | a string with any character outside the notation (an upper-case K, a stray letter) is refused |
| `Notation.ParseRejectsLeadingNonDigit` | roll.py:126-139 | a string that does not start with a digit (leading whitespace) is refused |
| `Notation.DecimalValueOfNatToString` | roll.py:164-169 | reading back the decimal digits `show_par` writes gives the number |
| `Notation.ModifierValueOfSignedText` | roll.py:148 | the " + m" or " - m" that `show_par` writes reads back as the modifier, once its whitespace is removed |
| `Notation.ParseShowPar` | roll.py:164-169 | `show_par`'s text parses back as the capped pool with kind "" and the same modifier, and exactly as written when r and k are at most 10 |
| `Notation.ParseShowParUncapped` | roll.py:164-169 | `show_par`'s text followed by " b" parses back exactly, for every r and k |
| `Notation.ParseShowParKind` | roll.py:138-161 | `show_par`'s text (without modifier) followed by kind letters parses as the capped pool with that kind ("me" as "em"), or is refused when the kind has both u and m |
| `Notation.ParseExamplePlain` | roll.py:115-161 | "6k3" parses as 6 rolled, 3 kept, no kind, no bonus |
| `Notation.ParseExampleCapped` | roll.py:152-159 | `show_par(12, 3, 0)` is "12k3", and it parses as 10k4 with bonus 0 |
| `Notation.ParseExampleLeadingSpace` | roll.py:136-138 | " 6k3" is refused |
| `Notation.ParseExampleUnlistedKind` | roll.py:138-161 | "6k3ue" parses, with kind "ue" |
| `Pmf.C` | roll.py:288-291 | the factorial quotient is exact and equals the Pascal-triangle binomial coefficient |
| `Pmf.BinomialTimesFactorials` | roll.py:288-291 | binomial(n, j) times j! (n - j)! is n! |
| `Pmf.Pow` | roll.py:367 | a power of a probability is a probability |
| `Pmf.Face` | roll.py:294-299 | every value of `F` lies in [0, 0.1]; `FacePartialSum` gives its mass |
| `Pmf.Standard` | roll.py:302-308 | every value of the standard distribution lies in [0, 0.1] |
| `Pmf.Mastery` | roll.py:311-320 | every value of the mastery distribution lies in [0, 0.1] |
| `Pmf.Emphasis` | roll.py:323-333 | over a distribution whose values lie in [0, 0.1], every value of emphasis lies in [0, 0.11] |
| `Pmf.EmphasisValues` | roll.py:323-333 | emphasis ends on 1 with chance 0.01, and elsewhere with 1.1 times the underlying chance |
| `Pmf.StandardPeriod` | roll.py:302-308 | past the first ten totals, a standard roll is a 10 followed by a fresh standard roll |
| `Pmf.StandardMultipleOfTen` | roll.py:302-308 | a standard roll never stops on a multiple of 10 |
| `Pmf.StandardLowValues` | roll.py:302-308 | below 10, a standard roll is 0.1 on 1 .. 9 and 0 on totals below 1 |
| `Pmf.MasteryValues` | roll.py:311-320 | a mastery roll never stops on 9, and stops on 10 with chance 0.01 |
| `Pmf.FacePartialSum` | roll.py:294-299 | the first t faces carry 0.1 t of the mass, and all of it from t = 10 |
| `Pmf.StandardPartialSum` | roll.py:302-308 | the totals 1 .. 10m of a standard roll carry 1 - 0.1^m |
| `Pmf.StandardSumBounds` | roll.py:302-308 | every partial sum of the standard distribution lies in [0, 1] |
| `Pmf.MasterySumSplit` | roll.py:311-320 | from 8 on, mastery's partial sum is 0.8 plus a tenth of the partial sums 9 and 10 back |
| `Pmf.MasterySumBounds` | roll.py:311-320 | every partial sum of the mastery distribution lies in [0, 1] |
| `Pmf.EmphasisPartialSum` | roll.py:323-333 | emphasis's partial sums are 1.1 times the underlying ones less 0.1 |
| `Pmf.EmphasisSumBounds` | roll.py:323-333 | emphasis keeps partial sums in [0, 1] |
| `Pmf.SumToMonotone` | roll.py:398 | adding non-negative chances never lowers a sum |
| `Throws.PdfNonNegative` | roll.py:385-391 | every tabulated distribution is non-negative |
| `Throws.ComputeP` | roll.py:336-379 | the base cases and the accumulating loop over n compute exactly `P` |
| `Throws.P` | roll.py:336-379 | the recursion on the ceiling t as written; no ensures of its own, its properties are `ComputeP`, `PNonNegative`, `PVanishes`, `PCeilingAboveTarget` and `SingleDie` |
| `Throws.PNonNegative` | roll.py:336-379 | every constrained throw probability is non-negative when the die's distribution is |
| `Throws.PVanishes` | roll.py:346-379 | an outcome the dice cannot make has chance 0: a non-zero total with nothing kept, more kept than rolled, or a total outside k .. k t |
| `Throws.PCeilingAboveTarget` | roll.py:357-392 | raising the ceiling t above the target v adds nothing, which is why throw_v starts at t = v |
| `Throws.SingleDie` | roll.py:346-379 | one die, kept, has the die's own distribution |
| `Throws.ThrowVAsWritten` | roll.py:382-392 | throw_v answers exactly for the five kind strings of its table, and fails (KeyError) for every other |
| `Throws.KindOf` | roll.py:230-235 | the kind a letter string selects, read as `roll` reads it; no ensures of its own, its properties are `KindOfExtendsTable` and `KindOfLetterSet` |
| `Throws.KindOfExtendsTable` | roll.py:384-391 | reading the kind letters as `roll` reads them agrees with the table wherever the table has an entry |
| `Throws.KindOfLetterSet` | roll.py:230-235 | only which letters occur decides the kind, not their order or repetition |
| `Throws.ThrowVExtendsAsWritten` | roll.py:382-392 | on the table's kind strings, `ThrowV` is throw_v as written |
| `Throws.ThrowV` | roll.py:382-392 | the chance of every total is non-negative; `ThrowVExtendsAsWritten`, `ThrowVVanishes` and `SingleDieThrowV` give its values |
| `Throws.ThrowVVanishes` | roll.py:382-392 | totals below the number of kept dice, pools keeping more than they roll, and non-zero totals with nothing kept have chance 0 |
| `Throws.ThrowVOrUp` | roll.py:395-398 | no target is met with chance above 1; `ThrowVOrUpCertain`, `ThrowVOrUpStep` and `ThrowVOrUpMonotone` relate its values |
| `Throws.ThrowVOrUpCertain` | roll.py:395-398 | a target no higher than the number of kept dice (every target v <= 1 in particular) is met with chance 1 |
| `Throws.ThrowVOrUpStep` | roll.py:395-398 | raising the target from v to v + 1 loses exactly the chance of v |
| `Throws.ThrowVOrUpMonotone` | roll.py:395-398 | a higher target is never likelier, and no target has chance above 1 |
| `Throws.SingleDieThrowV` | roll.py:382-392 | a one-die throw has the distribution of its kind: its chance of v is the kind's chance of v for v >= 1, and 0 below |
| `Throws.StandardDieMissesTen` | roll.py:382-392 | one standard die, kept, never totals 10 |
| `Throws.SingleDieThrowVOrUp` | roll.py:395-398 | one die meets v with one less the chance of the totals below v |
| `Throws.StandardDieReaches` | roll.py:395-398 | one standard die reaches 10m + 1 with chance 0.1^m |
| `Throws.SingleDieThrowVOrUpBounds` | roll.py:395-398 | for one die of every kind, every target is met with a chance in [0, 1] |
| `Throws.UnlistedKindAsWritten` | roll.py:138-147 | "6k3ue" parses, and throw_v as written has no distribution for kind "ue" |
| `Throws.UnlistedKindCorrected` | roll.py:230-242 | read as `roll` reads it, "ue" is emphasis over an unskilled die: 0.01 on 1, 0.11 on 2 .. 10 |

## Findings

| source | as written | input that shows it | evidently intended | confidence | as-written member | corrected member |
|---|---|---|---|---|---|---|
| roll.py:385-392 | `parse_input` accepts any string of m, u and e without both u and m, but throw_v's `pdf` table has only "", "u", "m", "e" and "em"; for kinds such as "ue", "eu", "ee" or "mm", asking for the odds raises KeyError | `prob 6k3ue` | the kind letters are read as `roll` reads them (roll.py:230-235): m or u sets the explosion, e adds the reroll, so "ue" is emphasis on an unskilled die | medium, not executed | `Throws.UnlistedKindAsWritten` | `Throws.UnlistedKindCorrected` |

`Throws.ThrowV` and `Throws.ThrowVOrUp` use the corrected lookup
`Throws.KindOf`. `Throws.ThrowVExtendsAsWritten` shows that they agree with
throw_v as written wherever the table has an entry.

## Left out

- `CommandLoop`, `main` and the `do_*` handlers: interactive console I/O.
- `d10`, `roll` and `throw`: random sampling and printing. `roll`'s reading of the kind letters is kept, in `Throws.KindOf`.
- `show_prob`: table printing. Its loop stops on a floating-point threshold.
- The notification `print` inside `parse_input`: only the returned value is modelled.
- `@cache`: the cached functions are pure, so the cache changes no result.
- IEEE-754 rounding: probabilities are exact reals. `C` divides factorials exactly, and 0.1 * 0.1 is exactly 0.01. The model does not claim bit-exact agreement with Python.
- Unicode `\d` and `\s`: the scanner accepts ASCII digits only, and as whitespace the ASCII characters `\s` matches (space, tab, line feed, carriage return, vertical tab, form feed, U+001C .. U+001F). Non-ASCII digits and whitespace are refused.
- Full normalisation of the per-die distributions over their infinite support: only finite partial sums are proved.
- Pmf.Standard: writes F(10) as the constant 0.1, and Pmf.Mastery writes F(9) and F(10) the same way; `F` is 0.1 at those points.
- Throws.ThrowVOrUpMonotone: states that the survival chance is at most 1, but not that it is at least 0 for pools of several dice. That needs the total mass of `P` to be at most 1, which is not proved. It is proved for single dice, in `Throws.SingleDieThrowVOrUpBounds`.
