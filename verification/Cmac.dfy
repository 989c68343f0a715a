/**
 * AES-CMAC: the byte and carry arithmetic of the code, and sections 2.3 and 2.4 of RFC 4493 as
 * arithmetic on 128 bit numbers, which it is proved to agree with for every message.
 */
module Cmac {
  import opened Bytes
  import opened Errors
  import opened Cipher
  import opened Mac
  import opened Numbers

  // ---- The shift ---------------------------------------------------------------------------

  /** Shifted left by one bit: the bit that falls off the front, and the bytes. */
  function Shl(s: Bytes): (r: (nat, Bytes))
    ensures r.0 <= 1 && |r.1| == |s|
  {
    if s == [] then (0, [])
    else
      var (carry, rest) := Shl(s[1..]);
      (s[0] / 0x80, [(2 * (s[0] as int)) % 256 + carry] + rest)
  }

  /** Twice a byte: its top bit, and an even number that leaves room for a carry. */
  lemma TwiceByte(b: byte)
    ensures 2 * (b as int) == 256 * (b / 0x80) + 2 * (b as int) % 256 && 2 * (b as int) % 256 <= 254
  {
  }

  /** The definition at the front byte, in whole numbers. */
  lemma ShlStep(s: Bytes)
    requires s != []
    ensures Shl(s[1..]).0 <= 1 && |Shl(s[1..]).1| == |s[1..]|
    ensures
      var low: nat := 2 * (s[0] as int) % 256;
      && low + Shl(s[1..]).0 < 256 && 2 * (s[0] as int) == 256 * (s[0] / 0x80) + low
      && Shl(s) == (s[0] / 0x80, [low + Shl(s[1..]).0] + Shl(s[1..]).1)
  {
    TwiceByte(s[0]);
  }

  lemma {:induction false} ShlDoubles(s: Bytes)
    ensures Shl(s).0 * Pow256(|s|) + BeValue(Shl(s).1) == 2 * BeValue(s)
    ensures s != [] ==> Shl(s).0 == s[0] / 0x80
    decreases |s|
  {
    hide *;
    if s == [] {
      EmptyValue();
    } else {
      var tail := s[1..];
      ShlDoubles(tail);
      ShlStep(s);
      var low: byte := 2 * (s[0] as int) % 256;
      assert s == [s[0]] + tail;
      BeValueFront(s[0], tail);
      BeValueFront(low + Shl(tail).0, Shl(tail).1);
      Pow256Step(|tail|);
      OneByteMore(s[0], s[0] / 0x80, low, Shl(tail).0, Pow256(|tail|), BeValue(Shl(tail).1), BeValue(tail));
    }
  }

  lemma EmptyValue()
    ensures BeValue([]) == 0 && Shl([]) == (0, [])
  {
  }

  lemma Pow256Step(n: nat)
    ensures Pow256(n + 1) == 256 * Pow256(n)
  {
  }

  /** A byte more in front, in numbers: its top bit falls off, and the carry from behind fills its lowest. */
  lemma OneByteMore(b: int, top: int, low: int, carry: int, p: int, shifted: int, rest: int)
    requires 2 * b == 256 * top + low && carry * p + shifted == 2 * rest
    ensures top * (256 * p) + ((low + carry) * p + shifted) == 2 * (b * p + rest)
  {
    assert (2 * b) * p == (256 * top + low) * p;
  }

  lemma WrapCases(carry: nat, p: nat, v: nat, twice: nat)
    requires carry <= 1 && v < p && carry * p + v == twice
    ensures v == twice % p
  {
    OneWrap(p, v);
    if carry == 0 {
      assert twice == v;
    } else {
      assert twice == p + v;
    }
  }

  /** The shift by one bit is doubling modulo 2^128. */
  lemma ShlIsDoublingModulo(s: Bytes)
    ensures BeValue(Shl(s).1) == (2 * BeValue(s)) % Pow256(|s|)
  {
    hide BeValue, Pow256;
    ShlDoubles(s);
    BeValueBound(Shl(s).1);
    WrapCases(Shl(s).0, Pow256(|s|), BeValue(Shl(s).1), 2 * BeValue(s));
  }

  /** The carry loop, from the last byte to the first. */
  method ShiftLeft(input: Bytes) returns (out: Bytes)
    ensures out == Shl(input).1
  {
    var carry: nat, i := 0, |input|;
    out := [];
    while i > 0
      invariant 0 <= i <= |input|
      invariant (carry, out) == Shl(input[i..])
    {
      var b := input[i - 1] as int;
      assert input[i - 1..][1..] == input[i..];
      out := [(2 * b) % 256 + carry] + out;
      carry := b / 0x80 % 2;
      i := i - 1;
    }
    assert input[0..] == input;
  }

  // ---- RFC 4493 ----------------------------------------------------------------------------

  /** The constant of section 2.3: x^7 + x^2 + x + 1 in the last byte. */
  function RB(): (r: Bytes)
    ensures |r| == 16
  {
    Zeros(15) + [0x87]
  }

  /** Section 2.3: shift left by one bit, and add Rb when the first bit was set. */
  function Double(l: Bytes): (k: Bytes)
    requires |l| == 16
    ensures |k| == 16
  {
    var shifted := BeBytes((2 * BeValue(l)) % Pow256(16), 16);
    if l[0] >= 0x80 then XorBytes(shifted, RB()) else shifted
  }

  function BlockCount(len: nat): nat {
    if len == 0 then 1 else (len + 15) / 16
  }

  /** Section 2.4: the last block, complete or padded, under the subkey that says which. */
  function LastBlock(c: BlockCipher, m: Bytes): (b: Bytes)
    requires Permutation(c) && c.size == 16
    ensures |b| == 16
  {
    OneBlock(c, Zeros(16));
    var k1 := Double(c.enc(Zeros(16)));
    var rest := m[16 * (BlockCount(|m|) - 1)..];
    if |rest| == 16 then XorBytes(rest, k1)
    else XorBytes(rest + [0x80] + Zeros(15 - |rest|), Double(k1))
  }

  /** Section 2.4: chain all blocks but the last, and encrypt the last. */
  function AesCmac(c: BlockCipher, m: Bytes): (mac: Bytes)
    requires Permutation(c) && c.size == 16
    ensures |mac| == 16
  {
    var n := 16 * (BlockCount(|m|) - 1);
    var x := CbcMac(c, Zeros(16), m[..n]);
    OneBlock(c, XorBytes(LastBlock(c, m), x));
    c.enc(XorBytes(LastBlock(c, m), x))
  }

  lemma BlocksBefore(head: nat, rest: nat)
    requires head % 16 == 0 && rest <= 16 && (rest == 0 ==> head == 0)
    ensures 16 * (BlockCount(head + rest) - 1) == head && Whole(head, 16)
  {
    var n := head / 16;
    assert head == 16 * n;
  }

  /** A last block under the first subkey, or filled up with 80 and zeros and under the second. */
  function Finished(rest: Bytes, k1: Bytes): (b: Bytes)
    requires |rest| <= 16 && |k1| == 16
    ensures |b| == 16
  {
    if |rest| == 16 then XorBytes(rest, k1) else XorBytes(rest + [0x80] + Zeros(15 - |rest|), Double(k1))
  }

  lemma LastBlockIs(c: BlockCipher, m: Bytes, n: nat)
    requires Permutation(c) && c.size == 16 && n <= |m| <= n + 16 && n == 16 * (BlockCount(|m|) - 1)
    ensures |c.enc(Zeros(16))| == 16 && LastBlock(c, m) == Finished(m[n..], Double(c.enc(Zeros(16))))
  {
    hide Permutation, Double, XorBytes, BlockCount;
    OneBlock(c, Zeros(16));
  }

  /** The last block stands behind those before it. */
  lemma SplitCmac(c: BlockCipher, head: Bytes, rest: Bytes)
    requires Permutation(c) && c.size == 16 && |head| % 16 == 0 && |rest| <= 16 && (rest == [] ==> head == [])
    ensures Whole(|head|, 16) && |c.enc(Zeros(16))| == 16
    ensures AesCmac(c, head + rest)
            == c.enc(XorBytes(Finished(rest, Double(c.enc(Zeros(16)))), CbcMac(c, Zeros(16), head)))
  {
    hide Permutation, CbcMac, Double, XorBytes, BlockCount, LastBlock, Finished;
    BlocksBefore(|head|, |rest|);
    var m := head + rest;
    LastBlockIs(c, m, |head|);
    assert m[..|head|] == head && m[|head|..] == rest;
  }

  /** Doubling in numbers: twice the value, and 87 added to the last byte when that ran over. */
  lemma DoubleInNumbers(l: Bytes)
    requires |l| == 16
    ensures
      var twice := BeBytes((2 * BeValue(l)) % Pow256(16), 16);
      Double(l) == if l[0] < 128 then twice else twice[..15] + [Xor(twice[15], 0x87)]
  {
    hide BeValue, BeBytes, Pow256;
    AddRbTouchesLastByte(BeBytes((2 * BeValue(l)) % Pow256(16), 16));
  }

  // ---- The code ----------------------------------------------------------------------------

  lemma {:induction false} XorBitsCommutes(a: nat, b: nat, n: nat)
    ensures XorBits(a, b, n) == XorBits(b, a, n)
    decreases n
  {
    if n > 0 {
      XorBitsCommutes(a / 2, b / 2, n - 1);
    }
  }

  lemma XorBytesCommutes(a: Bytes, b: Bytes)
    requires |a| == |b|
    ensures XorBytes(a, b) == XorBytes(b, a)
  {
    forall i | 0 <= i < |a| ensures XorBytes(a, b)[i] == XorBytes(b, a)[i] {
      XorBitsCommutes(a[i], b[i], 8);
    }
  }

  lemma {:induction false} XorBitsZero(a: nat, n: nat)
    requires a < Pow2(n)
    ensures XorBits(a, 0, n) == a
    decreases n
  {
    if n > 0 {
      XorBitsZero(a / 2, n - 1);
    }
  }

  /** Adding Rb is touching the last byte alone. */
  lemma AddRbTouchesLastByte(s: Bytes)
    requires |s| == 16
    ensures XorBytes(s, RB()) == s[..15] + [Xor(s[15], 0x87)]
  {
    assert Pow2(8) == 256;
    var out := s[..15] + [Xor(s[15], 0x87)];
    forall i | 0 <= i < 16 ensures XorBytes(s, RB())[i] == out[i] {
      if i < 15 {
        assert RB()[i] == 0;
        XorBitsZero(s[i], 8);
      }
    }
  }

  /** One subkey from the value before it. */
  method Subkey(l: Bytes) returns (k: Bytes)
    requires |l| == 16
    ensures k == Double(l)
  {
    k := ShiftLeft(l);
    ShlIsDoublingModulo(l);
    BeBytesOfValue(k);
    if l[0] >= 0x80 {
      AddRbTouchesLastByte(k);
      k := k[..15] + [Xor(k[15], 0x87)];
    }
  }

  method ComputeCmac(p: Primitives, key: Bytes, data: Bytes, macLen: nat) returns (mac: Option<Bytes>)
    requires Lawful(p)
    ensures mac == if macLen == 0 || macLen > 16 || |key| !in {16, 24, 32} then None
                   else (KeyedCiphers(p, key); Some(AesCmac(p.aes(key), data)[..macLen]))
  {
    if macLen == 0 || macLen > 16 {
      return None;
    }
    if |key| !in {16, 24, 32} {
      return None;
    }
    KeyedCiphers(p, key);
    var tag := CmacBlocks(p.aes(key), data);
    mac := Some(tag[..macLen]);
  }

  method CmacBlocks(c: BlockCipher, data: Bytes) returns (tag: Bytes)
    requires Permutation(c) && c.size == 16
    ensures tag == AesCmac(c, data)
  {
    hide Permutation, XorBytes, CbcMac, Double;
    OneBlock(c, Zeros(16));
    var k1 := Subkey(c.enc(Zeros(16)));
    var k2 := Subkey(k1);
    var complete := |data| != 0 && |data| % 16 == 0;
    var blocks := if complete then |data| / 16 else |data| / 16 + 1;
    assert blocks == BlockCount(|data|);
    var x, n := Zeros(16), 0;
    assert CbcMac(c, Zeros(16), data[..0]) == x by { CbcMacNothing(c, x); assert data[..0] == []; }
    while n < blocks - 1
      invariant 0 <= n <= blocks - 1 && |x| == 16
      invariant x == CbcMac(c, Zeros(16), data[..16 * n])
    {
      var block := data[16 * n..16 * n + 16];
      CbcMacAppend(c, Zeros(16), data[..16 * n], block);
      assert data[..16 * n] + block == data[..16 * (n + 1)];
      XorBytesCommutes(x, block);
      OneBlock(c, XorBytes(block, x));
      x := c.enc(XorBytes(x, block));
      n := n + 1;
    }
    var rest := data[16 * (blocks - 1)..];
    var last: Bytes;
    if complete {
      last := XorBytes(rest, k1);
    } else {
      last := XorBytes(rest + [0x80] + Zeros(16 - |rest| - 1), k2);
    }
    assert last == LastBlock(c, data);
    XorBytesCommutes(x, last);
    tag := c.enc(XorBytes(x, last));
  }
}
