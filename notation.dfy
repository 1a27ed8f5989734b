/** The roll notation of roll.py: `parse_input`, which reads strings such
    as "6k3", "8k4e + 7" or "14k5 b", and `show_par`, which writes a pool
    back out. The regular expression of `parse_input` is deterministic, so
    it is modelled as a scanner over ASCII characters. */
module Notation {
  import opened Wrappers
  import PoolCap

  /** What `parse_input` returns: dice rolled, dice kept, kind letters and
      static modifier. */
  datatype Throw = Throw(rolled: nat, kept: nat, mods: string, add: int)

  predicate IsDigit(c: char) { '0' <= c <= '9' }

  /** The ASCII characters `\s` matches in a str pattern: space, tab, line
      feed, carriage return, vertical tab, form feed and the four
      information separators U+001C .. U+001F. */
  predicate IsSpace(c: char)
  {
    c == ' ' || c == '\t' || c == '\n' || c == '\r' || c == '\U{0B}' || c == '\U{0C}'
    || ('\U{1C}' <= c <= '\U{1F}')
  }

  predicate IsKindLetter(c: char) { c == 'm' || c == 'u' || c == 'e' }

  predicate IsSign(c: char) { c == '+' || c == '-' }

  predicate AllDigits(s: string) { forall i :: 0 <= i < |s| ==> IsDigit(s[i]) }

  /** The characters the notation is written in. */
  predicate InAlphabet(c: char)
  {
    IsDigit(c) || c == 'k' || IsKindLetter(c) || IsSign(c) || IsSpace(c) || c == 'b'
  }

  /** The length of the longest prefix of s whose characters all satisfy p:
      what a greedy `p*` consumes. */
  function Run(s: string, p: char -> bool): (n: nat)
    ensures n <= |s|
    ensures forall i :: 0 <= i < n ==> p(s[i])
    ensures n < |s| ==> !p(s[n])
  {
    if |s| == 0 || !p(s[0]) then 0 else 1 + Run(s[1..], p)
  }

  /** The length matched by the optional group `(\s*[+-]\s*\d+)?` at the
      start of s; 0 when the group does not match. */
  function ModifierLength(s: string): (m: nat)
    ensures m <= |s|
    ensures forall i :: 0 <= i < m ==> IsSpace(s[i]) || IsSign(s[i]) || IsDigit(s[i])
  {
    var w1 := Run(s, IsSpace);
    if w1 == |s| || !IsSign(s[w1]) then 0
    else
      var w2 := Run(s[w1 + 1..], IsSpace);
      var d := Run(s[w1 + 1 + w2..], IsDigit);
      if d == 0 then 0 else w1 + 1 + w2 + d
  }

  /** The length matched by the optional group `(\s*b\s*)?` at the start of
      s; 0 when the group does not match. */
  function UncappedLength(s: string): (u: nat)
    ensures u <= |s|
    ensures forall i :: 0 <= i < u ==> IsSpace(s[i]) || s[i] == 'b'
  {
    var w := Run(s, IsSpace);
    if w < |s| && s[w] == 'b' then w + 1 + Run(s[w + 1..], IsSpace) else 0
  }

  /** The groups of a successful match: rolled digits, kept digits, kind
      letters, the modifier text if present, and whether the `b` group
      matched. */
  datatype Groups = Groups(rolled: string, kept: string, kind: string,
                           modifier: Option<string>, uncapped: bool)

  /** The optional `b` group and the end of the match (`\s*$`; the final
      newline `$` may stand before is whitespace too): whether the group
      matched, or None when something other than whitespace is left. */
  function MatchEnd(s: string): (g: Option<bool>)
    ensures g.Some? ==> forall i :: 0 <= i < |s| ==> IsSpace(s[i]) || s[i] == 'b'
  {
    var u := UncappedLength(s);
    var end := s[u..];
    if Run(end, IsSpace) < |end| then None else Some(u > 0)
  }

  /** What follows the kind letters: the optional modifier group's text,
      and the end of the match. */
  function MatchTail(s: string): (g: Option<(Option<string>, bool)>)
    ensures g.Some? ==> forall i :: 0 <= i < |s| ==>
      IsSpace(s[i]) || IsSign(s[i]) || IsDigit(s[i]) || s[i] == 'b'
  {
    var m := ModifierLength(s);
    match MatchEnd(s[m..])
    case None => None
    case Some(uncapped) => Some((if m == 0 then None else Some(s[..m]), uncapped))
  }

  /** What follows "k": the kept digits, the kind letters, and the tail. */
  function MatchKept(s: string): (g: Option<(string, string, Option<string>, bool)>)
    ensures g.Some? ==> 1 <= |g.value.0| && AllDigits(g.value.0)
    ensures g.Some? ==> forall i :: 0 <= i < |g.value.1| ==> IsKindLetter(g.value.1[i])
  {
    var b := Run(s, IsDigit);
    if b == 0 then None
    else
      var rest := s[b..];
      var c := Run(rest, IsKindLetter);
      match MatchTail(rest[c..])
      case None => None
      case Some((modifier, uncapped)) => Some((s[..b], rest[..c], modifier, uncapped))
  }

  /** `re.match` of the notation's expression against s. */
  function Match(s: string): (g: Option<Groups>)
    ensures g.Some? ==> 1 <= |g.value.rolled| && AllDigits(g.value.rolled)
    ensures g.Some? ==> 1 <= |g.value.kept| && AllDigits(g.value.kept)
    ensures g.Some? ==> forall i :: 0 <= i < |g.value.kind| ==> IsKindLetter(g.value.kind[i])
  {
    var a := Run(s, IsDigit);
    if a == 0 || a == |s| || s[a] != 'k' then None
    else
      match MatchKept(s[a + 1..])
      case None => None
      case Some((kept, kind, modifier, uncapped)) => Some(Groups(s[..a], kept, kind, modifier, uncapped))
  }

  function DigitValue(c: char): nat
    requires IsDigit(c)
  {
    c as int - '0' as int
  }

  /** `int` of a string of decimal digits. */
  function DecimalValue(s: string): nat
    requires AllDigits(s)
  {
    if |s| == 0 then 0 else 10 * DecimalValue(s[..|s| - 1]) + DigitValue(s[|s| - 1])
  }

  /** `re.sub(r"\s+", "", s)`: s with its whitespace removed. */
  function StripSpaces(s: string): (t: string)
    ensures |t| <= |s|
    ensures forall i :: 0 <= i < |t| ==> !IsSpace(t[i])
  {
    if |s| == 0 then ""
    else if IsSpace(s[0]) then StripSpaces(s[1..])
    else [s[0]] + StripSpaces(s[1..])
  }

  /** `int` of an optionally signed string of decimal digits. */
  function SignedValue(t: string): int
  {
    if 1 <= |t| && IsSign(t[0]) && AllDigits(t[1..]) then
      var n: int := DecimalValue(t[1..]);
      if t[0] == '-' then -n else n
    else if AllDigits(t) then DecimalValue(t)
    else 0
  }

  /** The modifier `parse_input` reads from the text of its group. */
  function ModifierValue(text: string): int
  {
    SignedValue(StripSpaces(text))
  }

  /** What `parse_input` makes of the groups of a match. */
  function FromGroups(g: Groups): Option<Throw>
    requires AllDigits(g.rolled) && AllDigits(g.kept)
  {
    var r := DecimalValue(g.rolled);
    var k := DecimalValue(g.kept);
    var mods := if g.kind == "me" then "em" else g.kind;
    if 'u' in mods && 'm' in mods then None
    else
      var add := if g.modifier.None? then 0 else ModifierValue(g.modifier.value);
      if g.uncapped then Some(Throw(r, k, mods, add))
      else
        var p := PoolCap.Capped(r, k, add);
        Some(Throw(p.rolled, p.kept, mods, p.add))
  }

  /** The value `parse_input` returns for s (its notification print aside).
      A kind it returns is made of m, u and e, never mixes u and m, and is
      never "me". */
  function Parse(s: string): Option<Throw>
  {
    match Match(s)
    case None => None
    case Some(g) => FromGroups(g)
  }

  /** `parse_input` as roll.py writes it, reassigning its locals step by
      step; the capped pool replaces the parsed one only when cap changed
      the dice. */
  method ParseInput(s: string) returns (res: Option<Throw>)
    ensures res == Parse(s)
  {
    var m := Match(s);
    if m.None? {
      return None;
    }
    var p := m.value;
    var r, k := DecimalValue(p.rolled), DecimalValue(p.kept);
    var mods := p.kind;
    mods := if mods == "me" then "em" else mods;
    if 'u' in mods && 'm' in mods {
      return None;
    }
    var add := if p.modifier.None? then 0 else ModifierValue(p.modifier.value);
    var capped := !p.uncapped;
    if capped {
      var rNew, kNew, addNew := PoolCap.Cap(r, k, add);
      if rNew != r || kNew != k {
        r, k, add := rNew, kNew, addNew;
      } else {
        PoolCap.CappedSameDiceSameAdd(r, k, add);
      }
    }
    return Some(Throw(r, k, mods, add));
  }

  /** The decimal digit of d. */
  function DigitChar(d: nat): (c: char)
    requires d < 10
    ensures IsDigit(c) && DigitValue(c) == d
  {
    ('0' as int + d) as char
  }

  /** `str` of a natural number: its decimal digits, no leading zeros. */
  function NatToString(n: nat): (s: string)
    ensures 1 <= |s| && AllDigits(s)
  {
    if n < 10 then [DigitChar(n)] else NatToString(n / 10) + [DigitChar(n % 10)]
  }

  /** The modifier as `show_par` writes it: " + m" or " - m". */
  function SignedText(mod: int): string
  {
    " " + (if mod > 0 then "+" else "-") + " " + NatToString(if mod > 0 then mod else -mod)
  }

  /** `show_par`: "{r}k{k}", followed by " + m" or " - m" when the
      modifier is not zero. */
  function ShowPar(r: nat, k: nat, mod: int): (s: string)
    ensures forall i :: 0 <= i < |s| ==> InAlphabet(s[i])
  {
    var pool := NatToString(r) + "k" + NatToString(k);
    if mod == 0 then pool else pool + SignedText(mod)
  }

  /** A greedy run stops exactly where the characters stop qualifying. */
  lemma {:induction false} RunConcat(x: string, y: string, p: char -> bool)
    requires forall i :: 0 <= i < |x| ==> p(x[i])
    requires |y| == 0 || !p(y[0])
    ensures Run(x + y, p) == |x|
  {
    if |x| > 0 {
      assert (x + y)[1..] == x[1..] + y;
      RunConcat(x[1..], y, p);
    }
  }

  /** `int(str(n)) == n`. */
  lemma {:induction false} DecimalValueOfNatToString(n: nat)
    ensures DecimalValue(NatToString(n)) == n
  {
    if n >= 10 {
      DecimalValueOfNatToString(n / 10);
      var s := NatToString(n);
      assert s[..|s| - 1] == NatToString(n / 10);
    }
  }

  /** Removing whitespace leaves a digit string unchanged. */
  lemma {:induction false} StripSpacesKeepsDigits(s: string)
    requires AllDigits(s)
    ensures StripSpaces(s) == s
  {
    if |s| > 0 {
      StripSpacesKeepsDigits(s[1..]);
    }
  }

  /** Removing the whitespace from " + n" leaves "+n". */
  lemma StripSigned(sign: string, n: string)
    requires sign == "+" || sign == "-"
    requires AllDigits(n)
    ensures StripSpaces(" " + sign + " " + n) == sign + n
  {
    StripSpacesKeepsDigits(n);
    var t := " " + sign + " " + n;
    assert t[1..] == sign + (" " + n);
    assert StripSpaces(t) == StripSpaces(t[1..]);
    var u := t[1..];
    assert u[1..] == " " + n;
    assert StripSpaces(u) == [u[0]] + StripSpaces(u[1..]);
    assert (" " + n)[1..] == n;
  }

  /** `int` of a sign followed by digits. */
  lemma SignedValueOf(sign: string, n: string)
    requires sign == "+" || sign == "-"
    requires AllDigits(n)
    ensures SignedValue(sign + n) == (if sign == "-" then -1 else 1) * DecimalValue(n)
  {
    assert (sign + n)[1..] == n;
  }

  /** The modifier `show_par` writes reads back as itself. */
  lemma ModifierValueOfSignedText(mod: int)
    requires mod != 0
    ensures ModifierValue(SignedText(mod)) == mod
  {
    var a := if mod > 0 then mod else -mod;
    var n := NatToString(a);
    var sign := if mod > 0 then "+" else "-";
    assert SignedText(mod) == " " + sign + " " + n;
    StripSigned(sign, n);
    SignedValueOf(sign, n);
    DecimalValueOfNatToString(a);
  }

  /** Digits then "k" scan as the rolled group, and the match goes on
      with what follows. */
  lemma MatchRolled(rs: string, rest: string)
    requires 1 <= |rs| && AllDigits(rs)
    ensures Match(rs + "k" + rest)
         == match MatchKept(rest)
            case None => None
            case Some((kept, kind, modifier, uncapped)) => Some(Groups(rs, kept, kind, modifier, uncapped))
  {
    var s := rs + "k" + rest;
    assert s == rs + ("k" + rest);
    RunConcat(rs, "k" + rest, IsDigit);
    assert s[|rs|] == 'k';
    assert s[..|rs|] == rs;
    assert s[|rs| + 1..] == rest;
  }

  /** Digits, kind letters, then something that does not start with a kind
      letter scan as the kept group, the kind group and the tail. */
  lemma MatchKeptOf(ks: string, kind: string, tail: string)
    requires 1 <= |ks| && AllDigits(ks)
    requires forall i :: 0 <= i < |kind| ==> IsKindLetter(kind[i])
    requires |tail| == 0 || tail[0] == ' '
    ensures MatchKept(ks + kind + tail)
         == match MatchTail(tail)
            case None => None
            case Some((modifier, uncapped)) => Some((ks, kind, modifier, uncapped))
  {
    var s := ks + kind + tail;
    assert s == ks + (kind + tail);
    RunConcat(ks, kind + tail, IsDigit);
    assert s[..|ks|] == ks;
    var rest := s[|ks|..];
    assert rest == kind + tail;
    RunConcat(kind, tail, IsKindLetter);
    assert rest[..|kind|] == kind;
    assert rest[|kind|..] == tail;
  }

  /** A pool written as digits, "k", digits, kind letters, then something
      that does not start with a kind letter, scans into those parts. */
  lemma MatchPool(rs: string, ks: string, kind: string, tail: string)
    requires 1 <= |rs| && AllDigits(rs)
    requires 1 <= |ks| && AllDigits(ks)
    requires forall i :: 0 <= i < |kind| ==> IsKindLetter(kind[i])
    requires |tail| == 0 || tail[0] == ' '
    ensures Match(rs + "k" + ks + kind + tail)
         == match MatchTail(tail)
            case None => None
            case Some((modifier, uncapped)) => Some(Groups(rs, ks, kind, modifier, uncapped))
  {
    assert rs + "k" + ks + kind + tail == rs + "k" + (ks + kind + tail);
    MatchRolled(rs, ks + kind + tail);
    MatchKeptOf(ks, kind, tail);
  }

  /** "" and " b" are what the `b` group and `\s*$` accept after the pool,
      with no modifier group in front. */
  lemma MatchEndSuffix(suffix: string)
    requires suffix == "" || suffix == " b"
    ensures MatchEnd(suffix) == Some(suffix == " b")
    ensures ModifierLength(suffix) == 0
  {
    if suffix == " b" {
      assert Run(suffix, IsSpace) == 1 by {
        assert suffix == " " + "b";
        RunConcat(" ", "b", IsSpace);
      }
      assert UncappedLength(suffix) == 2;
    }
  }

  /** The modifier group covers exactly " + n" or " - n". */
  lemma ModifierLengthSigned(sign: string, n: string, suffix: string)
    requires sign == "+" || sign == "-"
    requires 1 <= |n| && AllDigits(n)
    requires suffix == "" || suffix == " b"
    ensures ModifierLength(" " + sign + " " + n + suffix) == |" " + sign + " " + n|
  {
    var t := " " + sign + " " + n + suffix;
    assert t == " " + (sign + (" " + (n + suffix)));
    assert !IsSpace(sign[0]) && IsSign(t[1]);
    RunConcat(" ", sign + (" " + (n + suffix)), IsSpace);
    assert Run(t, IsSpace) == 1;
    assert t[2..] == " " + (n + suffix);
    assert !IsSpace(n[0]);
    RunConcat(" ", n + suffix, IsSpace);
    assert Run(t[2..], IsSpace) == 1;
    assert t[3..] == n + suffix;
    RunConcat(n, suffix, IsDigit);
    assert Run(t[3..], IsDigit) == |n|;
  }

  /** " + n" or " - n", optionally followed by " b", scans as the modifier
      group and the `b` group. */
  lemma MatchTailSigned(sign: string, n: string, suffix: string)
    requires sign == "+" || sign == "-"
    requires 1 <= |n| && AllDigits(n)
    requires suffix == "" || suffix == " b"
    ensures MatchTail(" " + sign + " " + n + suffix) == Some((Some(" " + sign + " " + n), suffix == " b"))
  {
    var text := " " + sign + " " + n;
    var t := text + suffix;
    ModifierLengthSigned(sign, n, suffix);
    assert t[..|text|] == text;
    assert t[|text|..] == suffix;
    MatchEndSuffix(suffix);
  }

  /** Without a modifier, "" or " b" scans as an absent modifier group and
      the `b` group. */
  lemma MatchTailPlain(suffix: string)
    requires suffix == "" || suffix == " b"
    ensures MatchTail(suffix) == Some((None, suffix == " b"))
  {
    MatchEndSuffix(suffix);
    assert suffix[0..] == suffix;
  }

  /** `show_par`'s output, optionally followed by " b", scans into its
      parts. */
  lemma MatchOfShowPar(r: nat, k: nat, mod: int, suffix: string)
    requires suffix == "" || suffix == " b"
    ensures Match(ShowPar(r, k, mod) + suffix)
         == Some(Groups(NatToString(r), NatToString(k), "",
                        if mod == 0 then None else Some(SignedText(mod)), suffix == " b"))
  {
    var rs, ks := NatToString(r), NatToString(k);
    if mod == 0 {
      assert ShowPar(r, k, mod) + suffix == rs + "k" + ks + "" + suffix;
      MatchPool(rs, ks, "", suffix);
      MatchTailPlain(suffix);
    } else {
      var sign := if mod > 0 then "+" else "-";
      var n := NatToString(if mod > 0 then mod else -mod);
      assert SignedText(mod) == " " + sign + " " + n;
      assert ShowPar(r, k, mod) + suffix == rs + "k" + ks + "" + (" " + sign + " " + n + suffix);
      MatchPool(rs, ks, "", " " + sign + " " + n + suffix);
      MatchTailSigned(sign, n, suffix);
    }
  }

  /** Parse is FromGroups of the match. */
  lemma ParseOfMatch(s: string, g: Groups)
    requires Match(s) == Some(g)
    ensures Parse(s) == FromGroups(g)
  {
  }

  /** What Parse makes of a match with no kind letters. */
  lemma ParseOfPlainGroups(s: string, rs: string, ks: string, modifier: Option<string>, uncapped: bool)
    requires AllDigits(rs) && AllDigits(ks)
    requires Match(s) == Some(Groups(rs, ks, "", modifier, uncapped))
    ensures var r, k := DecimalValue(rs), DecimalValue(ks);
            var add := if modifier.None? then 0 else ModifierValue(modifier.value);
            var p := PoolCap.Capped(r, k, add);
            Parse(s) == Some(if uncapped then Throw(r, k, "", add) else Throw(p.rolled, p.kept, "", p.add))
  {
  }

  /** With a trailing `b`, the pool `show_par` writes parses back exactly,
      whatever its size. */
  lemma ParseShowParUncapped(r: nat, k: nat, mod: int)
    ensures Parse(ShowPar(r, k, mod) + " b") == Some(Throw(r, k, "", mod))
  {
    MatchOfShowPar(r, k, mod, " b");
    ParseOfPlainGroups(ShowPar(r, k, mod) + " b", NatToString(r), NatToString(k),
                       if mod == 0 then None else Some(SignedText(mod)), true);
    DecimalValueOfNatToString(r);
    DecimalValueOfNatToString(k);
    if mod != 0 {
      ModifierValueOfSignedText(mod);
    }
  }

  /** Without it, the pool parses back as cap makes it; a pool within the
      limits of ten dice parses back exactly. */
  lemma ParseShowPar(r: nat, k: nat, mod: int)
    ensures var p := PoolCap.Capped(r, k, mod);
            Parse(ShowPar(r, k, mod)) == Some(Throw(p.rolled, p.kept, "", p.add))
    ensures r <= 10 && k <= 10 ==> Parse(ShowPar(r, k, mod)) == Some(Throw(r, k, "", mod))
  {
    MatchOfShowPar(r, k, mod, "");
    assert ShowPar(r, k, mod) + "" == ShowPar(r, k, mod);
    ParseOfPlainGroups(ShowPar(r, k, mod), NatToString(r), NatToString(k),
                       if mod == 0 then None else Some(SignedText(mod)), false);
    DecimalValueOfNatToString(r);
    DecimalValueOfNatToString(k);
    if mod != 0 {
      ModifierValueOfSignedText(mod);
    }
  }

  /** The stages of a match after "k": digits, kind letters, then a tail
      that matches. */
  predicate KeptStaged(s: string)
  {
    var rest := s[Run(s, IsDigit)..];
    MatchTail(rest[Run(rest, IsKindLetter)..]).Some?
  }

  /** A string that scans in stages uses only the notation's characters. */
  lemma KeptStagedAlphabet(s: string)
    requires KeptStaged(s)
    ensures forall i :: 0 <= i < |s| ==> InAlphabet(s[i])
  {
    var b := Run(s, IsDigit);
    var rest := s[b..];
    var c := Run(rest, IsKindLetter);
    var tail := rest[c..];
    forall i | 0 <= i < |s|
      ensures InAlphabet(s[i])
    {
      if i < b {
      } else if i < b + c {
        assert s[i] == rest[i - b];
      } else {
        assert s[i] == tail[i - b - c];
      }
    }
  }

  /** A successful kept-dice scan proceeds in stages. */
  lemma KeptStagedOfMatch(s: string)
    requires MatchKept(s).Some?
    ensures KeptStaged(s)
  {
  }

  /** The part after the `k` of a match uses only the notation's characters. */
  lemma KeptAlphabet(s: string)
    requires MatchKept(s).Some?
    ensures forall i :: 0 <= i < |s| ==> InAlphabet(s[i])
  {
    KeptStagedOfMatch(s);
    KeptStagedAlphabet(s);
  }

  /** The rolled digits and "k", then characters of the notation. */
  lemma AlphabetAfterK(s: string, a: nat, s1: string)
    requires a < |s| && s[a] == 'k' && s1 == s[a + 1..]
    requires forall i :: 0 <= i < a ==> IsDigit(s[i])
    requires forall i :: 0 <= i < |s1| ==> InAlphabet(s1[i])
    ensures forall i :: 0 <= i < |s| ==> InAlphabet(s[i])
  {
    forall i | a < i < |s|
      ensures InAlphabet(s[i])
    {
      assert s[i] == s1[i - a - 1];
    }
  }

  /** A match is a digit run, a `k`, and a successful kept-dice scan. */
  lemma MatchStages(s: string)
    requires Match(s).Some?
    ensures var a := Run(s, IsDigit);
            a < |s| && s[a] == 'k' && MatchKept(s[a + 1..]).Some?
  {
  }

  /** Only the characters of the notation ever match. */
  lemma MatchAlphabet(s: string)
    requires Match(s).Some?
    ensures forall i :: 0 <= i < |s| ==> InAlphabet(s[i])
  {
    MatchStages(s);
    var a := Run(s, IsDigit);
    KeptAlphabet(s[a + 1..]);
    AlphabetAfterK(s, a, s[a + 1..]);
  }

  /** A string with any character outside the notation (an upper-case K, a
      stray letter) is refused. */
  lemma ParseRejectsStrayCharacter(s: string, i: nat)
    requires i < |s| && !InAlphabet(s[i])
    ensures Parse(s) == None
  {
    if Match(s).Some? {
      MatchAlphabet(s);
    }
  }

  /** A string that does not start with a digit (leading whitespace, say)
      is refused. */
  lemma ParseRejectsLeadingNonDigit(s: string)
    requires |s| == 0 || !IsDigit(s[0])
    ensures Parse(s) == None
  {
  }

  /** The kind letters come back as matched, "me" written "em", and a kind
      mixing unskilled and mastery is refused. */
  lemma ParseKind(s: string)
    ensures Match(s).None? ==> Parse(s) == None
    ensures Match(s).Some? ==>
      var kind := Match(s).value.kind;
      (Parse(s).Some? <==> !('u' in kind && 'm' in kind))
      && (Parse(s).Some? ==> Parse(s).value.mods == if kind == "me" then "em" else kind)
  {
  }

  /** Unless the `b` group matched, the parsed pool is within cap's limits
      and its modifier no smaller than the one written. */
  lemma ParseCapsPool(s: string)
    requires Parse(s).Some? && !Match(s).value.uncapped
    ensures Parse(s).value.rolled <= 10 && Parse(s).value.kept <= 10
    ensures var g := Match(s).value;
            Parse(s).value.add >= if g.modifier.None? then 0 else ModifierValue(g.modifier.value)
  {
  }

  /** "6k3" is six rolled, three kept, standard, no modifier. */
  lemma ParseExamplePlain()
    ensures Parse("6k3") == Some(Throw(6, 3, "", 0))
  {
    ParseShowPar(6, 3, 0);
    assert ShowPar(6, 3, 0) == "6k3";
  }

  /** Twelve rolled dice become ten rolled and one more kept, with nothing
      left over for the modifier. */
  lemma ParseExampleCapped()
    ensures ShowPar(12, 3, 0) == "12k3"
    ensures Parse(ShowPar(12, 3, 0)) == Some(Throw(10, 4, "", 0))
  {
    assert ShowPar(12, 3, 0) == "12k3" by {
      assert NatToString(12) == "12";
    }
    assert Parse(ShowPar(12, 3, 0)) == Some(Throw(10, 4, "", 0)) by {
      ParseShowPar(12, 3, 0);
      PoolCap.CappedExamples();
    }
  }

  /** re.match is anchored at the start, so a leading space is refused. */
  lemma ParseExampleLeadingSpace()
    ensures Parse(" 6k3") == None
  {
  }

  /** A pool `show_par` writes, followed by kind letters, parses with the
      kind as ParseKind describes, the pool capped. */
  lemma ParseShowParKind(r: nat, k: nat, kind: string)
    requires forall i :: 0 <= i < |kind| ==> IsKindLetter(kind[i])
    ensures var p := PoolCap.Capped(r, k, 0);
            Parse(ShowPar(r, k, 0) + kind)
              == (if 'u' in kind && 'm' in kind then None
                  else Some(Throw(p.rolled, p.kept, if kind == "me" then "em" else kind, p.add)))
  {
    var rs, ks := NatToString(r), NatToString(k);
    var s := ShowPar(r, k, 0) + kind;
    assert s == rs + "k" + ks + kind + "";
    MatchPool(rs, ks, kind, "");
    MatchTailPlain("");
    var g := Groups(rs, ks, kind, None, false);
    ParseOfMatch(s, g);
    DecimalValueOfNatToString(r);
    DecimalValueOfNatToString(k);
  }

  /** A kind outside the five that throw_v tabulates is accepted: "6k3ue". */
  lemma ParseExampleUnlistedKind()
    ensures ShowPar(6, 3, 0) + "ue" == "6k3ue"
    ensures Parse(ShowPar(6, 3, 0) + "ue") == Some(Throw(6, 3, "ue", 0))
  {
    ParseShowParKind(6, 3, "ue");
  }
}
