/** Bytes, the bit operations the protocols use on them, and big endian numbers. */
module Bytes {
  type byte = b: int | 0 <= b < 256
  type Bytes = seq<byte>

  /** The mask test `a & b`, as the C code writes it on two uint8_t values. */
  function And(a: byte, b: byte): byte {
    ((a as bv8) & (b as bv8)) as byte
  }

  function Or(a: byte, b: byte): byte {
    ((a as bv8) | (b as bv8)) as byte
  }

  function Pow2(n: nat): (p: nat)
    ensures p >= 1
  {
    if n == 0 then 1 else 2 * Pow2(n - 1)
  }

  /** Exclusive or of the lowest n bits, bit by bit. */
  function XorBits(a: nat, b: nat, n: nat): (c: nat)
    ensures c < Pow2(n)
  {
    if n == 0 then 0 else 2 * XorBits(a / 2, b / 2, n - 1) + (a % 2 + b % 2) % 2
  }

  function Xor(a: byte, b: byte): byte {
    assert Pow2(8) == 256;
    XorBits(a, b, 8)
  }

  lemma XorBitsStep(a: nat, b: nat, n: nat)
    requires n > 0
    ensures XorBits(a, b, n) == 2 * XorBits(a / 2, b / 2, n - 1) + (a % 2 + b % 2) % 2
  {
  }

  lemma HalfAndLow(x: nat, s: nat)
    requires s <= 1
    ensures (2 * x + s) / 2 == x && (2 * x + s) % 2 == s
  {
  }

  lemma BitCancel(s: nat, t: nat)
    requires s <= 1 && t <= 1
    ensures ((s + t) % 2 + t) % 2 == s && (s + t) % 2 <= 1
  {
  }

  lemma {:induction false} XorBitsCancel(a: nat, b: nat, n: nat)
    requires a < Pow2(n)
    ensures XorBits(XorBits(a, b, n), b, n) == a
    decreases n
  {
    if n > 0 {
      assert a / 2 < Pow2(n - 1);
      XorBitsCancel(a / 2, b / 2, n - 1);
      XorBitsUndone(a, b, n);
    }
  }

  lemma XorBitsUndone(a: nat, b: nat, n: nat)
    requires n > 0 && XorBits(XorBits(a / 2, b / 2, n - 1), b / 2, n - 1) == a / 2
    ensures XorBits(XorBits(a, b, n), b, n) == a
  {
    hide XorBits;
    var x, t := XorBits(a / 2, b / 2, n - 1), (a % 2 + b % 2) % 2;
    XorBitsStep(a, b, n);
    XorBitsStep(2 * x + t, b, n);
    HalfAndLow(x, t);
    BitCancel(a % 2, b % 2);
  }

  lemma XorCancel(a: byte, b: byte)
    ensures Xor(Xor(a, b), b) == a
  {
    assert Pow2(8) == 256;
    XorBitsCancel(a, b, 8);
  }

  lemma {:induction false} NothingAbove(a: nat, b: nat, n: nat)
    requires a < Pow2(n) && b < Pow2(n)
    ensures XorBits(a, b, n + 1) == XorBits(a, b, n)
    decreases n
  {
    if n > 0 {
      NothingAbove(a / 2, b / 2, n - 1);
    }
  }

  lemma SevenBits()
    ensures Pow2(7) == 128
  {
  }

  /** Exclusive or in numbers: one bit in each place, set when the two differ there. */
  lemma XorInNumbers(a: byte, b: byte)
    ensures Xor(a, b) % 2 == (a % 2 + b % 2) % 2 && Xor(a, b) / 2 == Xor(a / 2, b / 2)
  {
    hide Pow2, XorBits;
    assert Pow2(7) == 128 by { SevenBits(); }
    NothingAbove(a / 2, b / 2, 7);
    XorBitsStep(a, b, 8);
    HalfAndLow(XorBits(a / 2, b / 2, 7), (a % 2 + b % 2) % 2);
  }

  function XorBytes(a: Bytes, b: Bytes): (c: Bytes)
    requires |a| == |b|
    ensures |c| == |a|
  {
    seq(|a|, i requires 0 <= i < |a| => Xor(a[i], b[i]))
  }

  lemma XorBytesCancel(a: Bytes, b: Bytes)
    requires |a| == |b|
    ensures XorBytes(XorBytes(a, b), b) == a
  {
    forall i | 0 <= i < |a| ensures XorBytes(XorBytes(a, b), b)[i] == a[i] {
      XorCancel(a[i], b[i]);
    }
  }

  function Zeros(n: nat): (z: Bytes)
    ensures |z| == n
  {
    seq(n, i => 0)
  }

  lemma XorNothing(a: byte)
    ensures Xor(a, 0) == a
  {
    assert Pow2(8) == 256;
    XorBitsNothing(a, 8);
  }

  lemma {:induction false} XorBitsNothing(a: nat, n: nat)
    requires a < Pow2(n)
    ensures XorBits(a, 0, n) == a
    decreases n
  {
    if n > 0 {
      XorBitsNothing(a / 2, n - 1);
    }
  }

  /** Zeros change nothing. */
  lemma XorZeros(a: Bytes, z: Bytes)
    requires |a| == |z| && forall i :: 0 <= i < |z| ==> z[i] == 0
    ensures XorBytes(a, z) == a
  {
    forall i | 0 <= i < |a| ensures XorBytes(a, z)[i] == a[i] {
      XorNothing(a[i]);
    }
  }

  function Max(a: nat, b: nat): nat {
    if a < b then b else a
  }

  function Min(a: nat, b: nat): nat {
    if a < b then a else b
  }

  lemma SliceOfSlice<T>(s: seq<T>, a: nat, b: nat, c: nat, d: nat)
    requires a <= b <= |s| && c <= d <= b - a
    ensures s[a..b][c..d] == s[a + c..a + d]
  {
    var t := s[a..b];
    forall i | 0 <= i < d - c ensures t[c..d][i] == s[a + c..a + d][i] {
      assert t[c..d][i] == t[c + i] == s[a + (c + i)];
    }
    assert |t[c..d]| == |s[a + c..a + d]|;
  }

  /** memcpy: place `src` at `at`, leaving the rest of the buffer alone. */
  method CopyInto(dst: array<byte>, at: nat, src: Bytes)
    requires at + |src| <= dst.Length
    modifies dst
    ensures dst[..at] == old(dst[..at]) && dst[at..at + |src|] == src
    ensures dst[..at + |src|] == old(dst[..at]) + src
    ensures forall i :: 0 <= i < at || at + |src| <= i < dst.Length ==> dst[i] == old(dst[i])
  {
    forall i | 0 <= i < |src| {
      dst[at + i] := src[i];
    }
  }
}
