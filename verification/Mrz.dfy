/** The machine readable zone, ICAO Doc 9303 parts 3 to 5: its check digits, and what is read from it. */
module Mrz {
  import opened Errors

  const DATE_LEN := 6
  const DOC_NUMBER_MAX := 20
  const INFO_MAX := 32

  // ---- Check digits ------------------------------------------------------------------------

  /** What a character weighs, and -1 for one that does not belong in a zone. */
  function CharValue(c: char): int {
    if c == '<' then 0
    else if '0' <= c <= '9' then c as int - '0' as int
    else if 'A' <= c <= 'Z' then c as int - 'A' as int + 10
    else -1
  }

  predicate Printable(s: string) {
    forall c :: c in s ==> CharValue(c) >= 0
  }

  /** The weights repeat across the whole field. */
  function Weight(i: nat): nat {
    if i % 3 == 0 then 7 else if i % 3 == 1 then 3 else 1
  }

  /** The weighted sum of a field whose first character stands at `index`. */
  function Sum(s: string, index: nat): int {
    if s == [] then 0 else CharValue(s[0]) * Weight(index) + Sum(s[1..], index + 1)
  }

  function Digit(n: int): char {
    '0' + (n % 10) as char
  }

  /** The check digit of a field, if every character in it has a value. */
  function CheckDigit(s: string): Option<char> {
    if Printable(s) then Some(Digit(Sum(s, 0))) else None
  }

  // ---- In numbers --------------------------------------------------------------------------

  /** The characters with a value of their own, in the order of their values. */
  const ALPHABET := "0123456789ABCDEFGHIJKLMNOPQRSTUVWXYZ"

  /** The ten digits stand for 0 to 9, the letters for 10 to 35 and the filler for nothing. */
  lemma ValuesInNumbers(i: nat)
    requires i < 36
    ensures CharValue(ALPHABET[i]) == i && CharValue('<') == 0
  {
  }

  /** No other character has a value. */
  lemma NoOtherValues(c: char)
    ensures CharValue(c) >= 0 && c != '<' ==> CharValue(c) < 36 && ALPHABET[CharValue(c)] == c
  {
  }

  /** The values at every third position, from `r` on, simply added up. */
  function PlainSum(s: string, r: nat): int {
    if s == [] then 0
    else
      var last := |s| - 1;
      PlainSum(s[..last], r) + if last % 3 == r then CharValue(s[last]) else 0
  }

  lemma {:induction false} SumByPosition(s: string)
    ensures Sum(s, 0) == 7 * PlainSum(s, 0) + 3 * PlainSum(s, 1) + PlainSum(s, 2)
    decreases |s|
  {
    hide CharValue;
    if s != [] {
      var last := |s| - 1;
      SumByPosition(s[..last]);
      SumSplit(s, last, 0);
      assert s[last + 1..] == [];
    }
  }

  /** The check digit is the last decimal digit of 7 A + 3 B + C, over the positions 0, 1 and 2 modulo 3. */
  lemma CheckDigitInNumbers(s: string)
    ensures CheckDigit(s).Some? <==> Printable(s)
    ensures Printable(s) ==>
      CheckDigit(s).value as int == '0' as int + (7 * PlainSum(s, 0) + 3 * PlainSum(s, 1) + PlainSum(s, 2)) % 10
  {
    hide Sum, PlainSum, CharValue;
    SumByPosition(s);
  }

  function Concat(ranges: seq<string>): string {
    if ranges == [] then [] else Concat(ranges[..|ranges| - 1]) + ranges[|ranges| - 1]
  }

  lemma {:induction false} SumAppend(a: string, b: string, index: nat)
    ensures Sum(a + b, index) == Sum(a, index) + Sum(b, index + |a|)
    decreases |a|
  {
    if a == [] {
      assert a + b == b;
    } else {
      assert (a + b)[1..] == a[1..] + b;
      SumAppend(a[1..], b, index + 1);
    }
  }

  lemma {:induction false} PrefixOfConcat(ranges: seq<string>, r: nat)
    requires r <= |ranges|
    ensures Concat(ranges[..r]) <= Concat(ranges)
    decreases |ranges|
  {
    if r < |ranges| {
      assert ranges[..|ranges| - 1][..r] == ranges[..r];
      PrefixOfConcat(ranges[..|ranges| - 1], r);
    } else {
      assert ranges[..r] == ranges;
    }
  }

  /** Weighing stretches as one field, with one running weight across all of them, is weighing them joined. */
  method CheckDigitRanges(ranges: seq<string>) returns (digit: Option<char>)
    ensures digit == CheckDigit(Concat(ranges))
  {
    var total, index := 0, 0;
    var r := 0;
    ghost var seen: string := "";
    assert ranges[..0] == [];
    while r < |ranges|
      invariant 0 <= r <= |ranges| && seen == Concat(ranges[..r]) && Printable(seen)
      invariant total == Sum(seen, 0) && index == |seen|
    {
      assert ranges[..r + 1][..r] == ranges[..r];
      var i := 0;
      ghost var before := seen;
      assert before + ranges[r][..0] == before;
      while i < |ranges[r]|
        invariant 0 <= i <= |ranges[r]| && seen == before + ranges[r][..i] && Printable(seen)
        invariant total == Sum(seen, 0) && index == |seen|
      {
        var value := CharValue(ranges[r][i]);
        if value < 0 {
          PrefixOfConcat(ranges, r + 1);
          assert ranges[r][i] in Concat(ranges[..r + 1]);
          assert ranges[r][i] in Concat(ranges);
          return None;
        }
        SumAppend(seen, [ranges[r][i]], 0);
        assert ranges[r][..i + 1] == ranges[r][..i] + [ranges[r][i]];
        seen := seen + [ranges[r][i]];
        total := total + value * Weight(index);
        index := index + 1;
        i := i + 1;
      }
      assert ranges[r][..i] == ranges[r];
      r := r + 1;
    }
    assert ranges[..r] == ranges;
    return Some(Digit(total));
  }

  /** Split a field at a place: what stands before it, the character there, and what follows. */
  lemma SumSplit(s: string, k: nat, index: nat)
    requires k < |s|
    ensures Sum(s, index) == Sum(s[..k], index) + CharValue(s[k]) * Weight(index + k) + Sum(s[k + 1..], index + k + 1)
  {
    assert s == s[..k] + s[k..];
    SumAppend(s[..k], s[k..], index);
    assert s[k..][1..] == s[k + 1..];
  }

  lemma DigitsDiffer(a: int, b: int)
    ensures Digit(a) == Digit(b) <==> (a - b) % 10 == 0
  {
  }

  /** A weight times a difference is a multiple of ten exactly when the difference is. */
  lemma WeightInvertible(d: int, index: nat)
    ensures (d * Weight(index)) % 10 == 0 <==> d % 10 == 0
  {
    var q, r := d / 10, d % 10;
    assert d == 10 * q + r;
    assert d * 7 == 10 * (7 * q) + 7 * r && d * 3 == 10 * (3 * q) + 3 * r;
  }

  /** Replacing one character changes the digit exactly when the two values differ modulo ten. */
  lemma ReplacementDetected(s: string, k: nat, c: char)
    requires Printable(s) && k < |s| && CharValue(c) >= 0
    ensures CheckDigit(s[k := c]) != CheckDigit(s) <==> CharValue(c) % 10 != CharValue(s[k]) % 10
  {
    hide Sum, Weight, CharValue, Digit;
    var t := s[k := c];
    assert Printable(t);
    SumSplit(s, k, 0);
    SumSplit(t, k, 0);
    assert t[..k] == s[..k] && t[k + 1..] == s[k + 1..];
    var d := CharValue(c) - CharValue(s[k]);
    Distribute(CharValue(c), CharValue(s[k]), Weight(k));
    DigitsDiffer(Sum(t, 0), Sum(s, 0));
    WeightInvertible(d, k);
    SameResidue(CharValue(c), CharValue(s[k]), 10);
  }

  lemma Distribute(a: int, b: int, w: int)
    ensures a * w - b * w == (a - b) * w
  {
  }

  lemma SameResidue(a: int, b: int, m: nat)
    requires m == 5 || m == 10
    ensures (a - b) % m == 0 <==> a % m == b % m
  {
    if m == 10 {
      TensVanish(a / 10 - b / 10, a % 10 - b % 10);
      assert a - b == 10 * (a / 10 - b / 10) + (a % 10 - b % 10);
    } else {
      FivesVanish(a / 5 - b / 5, a % 5 - b % 5);
      assert a - b == 5 * (a / 5 - b / 5) + (a % 5 - b % 5);
    }
  }

  lemma FivesVanish(k: int, x: int)
    ensures (5 * k + x) % 5 == x % 5
  {
  }

  lemma EvenMultiples(d: int)
    ensures (4 * d) % 10 == 0 <==> d % 5 == 0
    ensures (2 * d) % 10 == 0 <==> d % 5 == 0
    ensures (6 * d) % 10 == 0 <==> d % 5 == 0
  {
    var q, r := d / 5, d % 5;
    TensVanish(2 * q, 4 * r);
    TensVanish(q, 2 * r);
    TensVanish(3 * q, 6 * r);
    assert 4 * d == 10 * (2 * q) + 4 * r && 2 * d == 10 * q + 2 * r && 6 * d == 10 * (3 * q) + 6 * r;
    assert r == 0 || r == 1 || r == 2 || r == 3 || r == 4;
  }

  lemma TensVanish(k: int, x: int)
    ensures (10 * k + x) % 10 == x % 10
  {
  }

  lemma Negated(a: int)
    ensures (-a) % 10 == 0 <==> a % 10 == 0
  {
  }

  /** Neighbouring weights differ by 4, 2 or -6, so a difference is felt modulo five. */
  lemma NeighboursDiffer(d: int, index: nat)
    ensures (d * (Weight(index) - Weight(index + 1))) % 10 == 0 <==> d % 5 == 0
  {
    var w := Weight(index) - Weight(index + 1);
    WeightSteps(index);
    hide Weight;
    EvenMultiples(d);
    Negated(6 * d);
    if w == 4 {
      assert d * w == 4 * d;
    } else if w == 2 {
      assert d * w == 2 * d;
    } else {
      assert d * w == -(6 * d);
    }
  }

  lemma WeightSteps(index: nat)
    ensures Weight(index) - Weight(index + 1) == 4 || Weight(index) - Weight(index + 1) == 2
            || Weight(index) - Weight(index + 1) == -6
  {
  }

  lemma SwappedSums(a: int, b: int, v: int, w: int)
    ensures (a * v + b * w) - (b * v + a * w) == (a - b) * (v - w)
  {
  }

  /** Split a field around two neighbours. */
  lemma SumAroundPair(s: string, k: nat)
    requires k + 1 < |s|
    ensures Sum(s, 0) == Sum(s[..k], 0) + CharValue(s[k]) * Weight(k) + CharValue(s[k + 1]) * Weight(k + 1) + Sum(s[k + 2..], k + 2)
  {
    hide Weight, CharValue;
    SumSplit(s, k, 0);
    assert s[k + 1..][1..] == s[k + 2..];
  }

  /** Swapping two neighbours changes the digit exactly when their values differ modulo five. */
  lemma SwapDetected(s: string, k: nat)
    requires Printable(s) && k + 1 < |s|
    ensures CheckDigit(s[k := s[k + 1]][k + 1 := s[k]]) != CheckDigit(s) <==> CharValue(s[k]) % 5 != CharValue(s[k + 1]) % 5
  {
    hide Sum, Weight, CharValue, Digit;
    var t := s[k := s[k + 1]][k + 1 := s[k]];
    assert Printable(t);
    var a, b := CharValue(s[k]), CharValue(s[k + 1]);
    SumAroundPair(s, k);
    SumAroundPair(t, k);
    assert t[..k] == s[..k] && t[k + 2..] == s[k + 2..];
    SwappedSums(a, b, Weight(k), Weight(k + 1));
    DigitsDiffer(Sum(s, 0), Sum(t, 0));
    NeighboursDiffer(a - b, k);
    SameResidue(a, b, 5);
  }
}
