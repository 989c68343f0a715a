/** Big endian numbers, and the counter that steps through them. */
module Numbers {
  import opened Bytes

  /** The big endian number the bytes spell. */
  function BeValue(s: Bytes): nat {
    if s == [] then 0 else 256 * BeValue(s[..|s| - 1]) + s[|s| - 1]
  }

  function Pow256(n: nat): (p: nat)
    ensures p >= 1
  {
    if n == 0 then 1 else 256 * Pow256(n - 1)
  }

  lemma {:induction false} BeValueBound(s: Bytes)
    ensures BeValue(s) < Pow256(|s|)
    decreases |s|
  {
    if s != [] {
      BeValueBound(s[..|s| - 1]);
    }
  }

  lemma {:induction false} BeValueFront(b: byte, s: Bytes)
    ensures BeValue([b] + s) == b * Pow256(|s|) + BeValue(s)
    decreases |s|
  {
    var t := [b] + s;
    if s == [] {
      assert t[..0] == [];
      assert BeValue(t) == 256 * BeValue(t[..0]) + t[0] as int;
    } else {
      assert t[..|t| - 1] == [b] + s[..|s| - 1];
      BeValueFront(b, s[..|s| - 1]);
      var p := Pow256(|s| - 1);
      assert 256 * (b * p) == b * (256 * p);
    }
  }

  function BeBytes(v: nat, n: nat): (s: Bytes)
    ensures |s| == n
  {
    if n == 0 then [] else BeBytes(v / 256, n - 1) + [v % 256]
  }

  lemma {:induction false} BeBytesOfValue(s: Bytes)
    ensures BeBytes(BeValue(s), |s|) == s
    decreases |s|
  {
    if s != [] {
      BeBytesOfValue(s[..|s| - 1]);
    }
  }

  lemma BeValueShort(s: Bytes)
    ensures |s| == 1 ==> BeValue(s) == s[0]
    ensures |s| == 2 ==> BeValue(s) == 256 * (s[0] as int) + s[1] as int
    ensures |s| == 3 ==> BeValue(s) == 65536 * (s[0] as int) + 256 * (s[1] as int) + s[2] as int
  {
    if |s| == 3 {
      BeValueShort(s[..2]);
    } else if |s| == 2 {
      BeValueShort(s[..1]);
    } else if |s| == 1 {
      assert BeValue(s[..0]) == 0;
    }
  }

  lemma OneWrap(p: nat, v: nat)
    requires v < p
    ensures v % p == v && (p + v) % p == v
  {
    assert (p + v) / p == 1 by {
      assert p + v == p * 1 + v;
    }
  }

  // ---- Counting ----------------------------------------------------------------------------

  /** One more, as wide as before: from all ones it wraps to zero. */
  function Inc(s: Bytes): (t: Bytes)
    ensures |t| == |s|
  {
    if s == [] then []
    else
      var n := |s| - 1;
      if s[n] == 0xFF then Inc(s[..n]) + [0] else s[..n] + [s[n] + 1]
  }

  function IncBy(s: Bytes, n: nat): (t: Bytes)
    ensures |t| == |s|
  {
    if n == 0 then s else Inc(IncBy(s, n - 1))
  }

  lemma {:induction false} IncIsPlusOne(s: Bytes)
    ensures BeValue(Inc(s)) == if BeValue(s) + 1 == Pow256(|s|) then 0 else BeValue(s) + 1
    decreases |s|
  {
    if s != [] {
      var n := |s| - 1;
      BeValueBound(s[..n]);
      if s[n] == 0xFF {
        IncIsPlusOne(s[..n]);
        assert Inc(s)[..n] == Inc(s[..n]);
      } else {
        assert Inc(s)[..n] == s[..n];
      }
    }
  }

  lemma PlusOneModulo(v: nat, n: nat, p: nat)
    requires p >= 1
    ensures (v + n + 1) % p == if (v + n) % p + 1 == p then 0 else (v + n) % p + 1
  {
    var q, r := (v + n) / p, (v + n) % p;
    assert v + n == p * q + r;
    if r + 1 == p {
      assert v + n + 1 == p * (q + 1) + 0;
      DivModUnique(v + n + 1, p, q + 1, 0);
    } else {
      DivModUnique(v + n + 1, p, q, r + 1);
    }
  }

  lemma MulMagnitude(p: nat, k: int)
    ensures k >= 1 ==> p * k >= p
    ensures k <= -1 ==> p * k + p <= 0
    ensures k == 0 ==> p * k == 0
  {
    if k >= 1 {
      assert p * k == p + p * (k - 1);
    } else if k <= -1 {
      assert p * k + p == p * (k + 1);
    }
  }

  lemma DivModUnique(a: nat, p: nat, q: nat, r: nat)
    requires a == p * q + r && r < p
    ensures a % p == r
  {
    var q1, r1 := a / p, a % p;
    assert a == p * q1 + r1;
    MulMagnitude(p, q - q1);
    assert p * (q - q1) == r1 - r;
  }

  /** Any number of steps is addition modulo 256 to the width of the counter. */
  lemma {:induction false} IncByAdds(s: Bytes, n: nat)
    ensures BeValue(IncBy(s, n)) == (BeValue(s) + n) % Pow256(|s|)
  {
    hide Inc, BeValue, Pow256;
    BeValueBound(s);
    if n == 0 {
      OneWrap(Pow256(|s|), BeValue(s));
    } else {
      IncByAdds(s, n - 1);
      IncIsPlusOne(IncBy(s, n - 1));
      PlusOneModulo(BeValue(s), n - 1, Pow256(|s|));
    }
  }

  lemma {:induction false} IncByCompose(s: Bytes, m: nat, n: nat)
    ensures IncBy(IncBy(s, m), n) == IncBy(s, m + n)
  {
    hide Inc;
    if n > 0 {
      IncByCompose(s, m, n - 1);
    }
  }

  /** The counter stepped where it lies: carry from the last byte until one does not wrap. */
  method IncrementInPlace(counter: array<byte>, width: nat)
    requires width <= counter.Length
    modifies counter
    ensures counter[..width] == Inc(old(counter[..width]))
    ensures forall i :: width <= i < counter.Length ==> counter[i] == old(counter[i])
  {
    var i := width;
    ghost var was := counter[..width];
    ghost var zeros: Bytes := [];
    assert was[..width] == was;
    while i > 0
      invariant 0 <= i <= width && |zeros| == width - i
      invariant Inc(was) == Inc(was[..i]) + zeros
      invariant forall k :: i <= k < width ==> counter[k] == zeros[k - i]
      invariant forall k :: 0 <= k < i || width <= k < counter.Length ==> counter[k] == old(counter[k])
    {
      var b := counter[i - 1];
      assert b == was[i - 1] && was[..i][..i - 1] == was[..i - 1];
      counter[i - 1] := if b == 0xFF then 0 else b + 1;
      if counter[i - 1] != 0 {
        assert counter[..width] == was[..i - 1] + [b + 1] + zeros;
        return;
      }
      zeros := [0] + zeros;
      i := i - 1;
    }
    assert counter[..width] == zeros;
  }
}
