/** ISO/IEC 9797-1: padding method 2, CBC chaining, and the Retail MAC (algorithm 3). */
module Mac {
  import opened Bytes
  import opened Errors
  import opened Cipher

  // ---- Padding -----------------------------------------------------------------------------

  function PaddedLen(len: nat, block: nat): (n: nat)
    requires block == 8 || block == 16
    ensures Whole(n, block) && len < n <= len + block
  {
    (len / block + 1) * block
  }

  function Pad(x: Bytes, block: nat): (out: Bytes)
    requires block == 8 || block == 16
    ensures |out| == PaddedLen(|x|, block)
  {
    x + [0x80] + Zeros(PaddedLen(|x|, block) - |x| - 1)
  }

  /** What precedes the last byte that is not zero, when that byte is the marker. */
  function Unpad(data: Bytes): Option<Bytes> {
    if data == [] then None
    else if data[|data| - 1] == 0 then Unpad(data[..|data| - 1])
    else if data[|data| - 1] == 0x80 then Some(data[..|data| - 1])
    else None
  }

  /** Padding applied where the message lies. */
  method PadOver(buffer: array<byte>, at: nat, len: nat, block: nat) returns (padded: nat)
    requires block == 8 || block == 16
    requires at + PaddedLen(len, block) <= buffer.Length
    modifies buffer
    ensures padded == PaddedLen(len, block)
    ensures buffer[..at] == old(buffer[..at]) && buffer[at..at + padded] == Pad(old(buffer[at..at + len]), block)
    ensures buffer[..at + padded] == old(buffer[..at]) + Pad(old(buffer[at..at + len]), block)
    ensures forall i :: 0 <= i < at || at + padded <= i < buffer.Length ==> buffer[i] == old(buffer[i])
  {
    padded := PaddedLen(len, block);
    ghost var message := buffer[at..at + len];
    var tail := [0x80] + Zeros(padded - len - 1);
    CopyInto(buffer, at + len, tail);
    assert Pad(message, block) == message + tail;
    hide PaddedLen, Pad;
    assert buffer[at..at + padded] == message + tail;
  }

  method UnpadLength(data: array<byte>, at: nat, len: nat) returns (r: Option<nat>)
    requires at + len <= data.Length
    ensures r.Some? ==> r.value < len
    ensures Unpad(data[at..at + len]) == if r.Some? then Some(data[at..at + r.value]) else None
  {
    var i := len;
    while i > 0 && data[at + i - 1] == 0x00
      invariant 0 <= i <= len
      invariant Unpad(data[at..at + len]) == Unpad(data[at..at + i])
    {
      assert data[at..at + i][..i - 1] == data[at..at + i - 1];
      i := i - 1;
    }
    if i == 0 || data[at + i - 1] != 0x80 {
      return None;
    }
    assert data[at..at + i][..i - 1] == data[at..at + i - 1];
    return Some(i - 1);
  }

  lemma {:induction false} UnpadZeros(x: Bytes, n: nat)
    ensures Unpad(x + [0x80] + Zeros(n)) == Some(x)
    decreases n
  {
    var data := x + [0x80] + Zeros(n);
    if n == 0 {
      assert data == x + [0x80] && data[..|data| - 1] == x;
    } else {
      assert data[..|data| - 1] == x + [0x80] + Zeros(n - 1);
      UnpadZeros(x, n - 1);
    }
  }

  /** `data` is `x`, the marker, and nothing but zeros. */
  predicate IsPadded(x: Bytes, data: Bytes) {
    |x| < |data| && data == x + [0x80] + Zeros(|data| - |x| - 1)
  }

  /** Unpadding succeeds exactly on x || 80 || zeros, and returns that x. */
  lemma {:induction false} UnpadExact(data: Bytes, x: Bytes)
    ensures Unpad(data) == Some(x) <==> IsPadded(x, data)
    ensures Unpad(data).Some? <==> exists y :: IsPadded(y, data)
    decreases |data|
  {
    if IsPadded(x, data) {
      UnpadZeros(x, |data| - |x| - 1);
    }
    if exists y :: IsPadded(y, data) {
      var y :| IsPadded(y, data);
      UnpadZeros(y, |data| - |y| - 1);
    }
    if Unpad(data).Some? {
      UnpadShape(data);
    }
  }

  lemma {:induction false} UnpadShape(data: Bytes)
    requires Unpad(data).Some?
    ensures IsPadded(Unpad(data).value, data)
    decreases |data|
  {
    var n := |data| - 1;
    if data[n] == 0 {
      UnpadShape(data[..n]);
      var x := Unpad(data).value;
      assert Zeros(n - |x| - 1) + [0] == Zeros(|data| - |x| - 1);
      assert data == data[..n] + [0];
    } else {
      assert Zeros(0) == [];
      assert data == data[..n] + [0x80];
    }
  }

  /** Padding is undone, whatever the message: one that itself ends in zeros or 80 included. */
  lemma PadRoundTrip(x: Bytes, block: nat)
    requires block == 8 || block == 16
    ensures Unpad(Pad(x, block)) == Some(x)
  {
    UnpadZeros(x, PaddedLen(|x|, block) - |x| - 1);
  }

  // ---- Retail MAC --------------------------------------------------------------------------

  /** CBC without output: the chaining value after the data, from h. */
  function CbcMac(c: BlockCipher, h: Bytes, data: Bytes): (out: Bytes)
    requires Permutation(c) && |h| == c.size && Whole(|data|, c.size)
    ensures |out| == c.size
    decreases |data|
  {
    if data == [] then h
    else
      WholeSteps(|data|, c.size);
      CbcMac(c, c.enc(XorBytes(data[..c.size], h)), data[c.size..])
  }

  /** Algorithm 3: CBC-MAC under K1, then decrypt under K2 and encrypt under K1. */
  function Algorithm3(k1: BlockCipher, k2: BlockCipher, data: Bytes): (mac: Bytes)
    requires Permutation(k1) && Permutation(k2) && k1.size == k2.size == 8 && |data| % 8 == 0
    ensures |mac| == 8
  {
    var h := CbcMac(k1, Zeros(8), data);
    OneBlock(k2, h);
    OneBlock(k1, k2.dec(h));
    k1.enc(k2.dec(h))
  }

  function RetailMac(p: Primitives, key: Bytes, data: Bytes): (mac: Bytes)
    requires Lawful(p) && |key| >= 16 && |data| % 8 == 0
    ensures |mac| == 8
  {
    KeyedCiphers(p, key[..8]);
    KeyedCiphers(p, key[8..16]);
    Algorithm3(p.des(key[..8]), p.des(key[8..16]), data)
  }

  /** The chaining value is the last block CBC encryption would have written. */
  lemma {:induction false} CbcMacIsLastBlock(c: BlockCipher, iv: Bytes, data: Bytes)
    requires Permutation(c) && |iv| == c.size && Whole(|data|, c.size) && data != []
    ensures |data| >= c.size
    ensures CbcMac(c, iv, data) == CbcEncrypt(c, iv, data)[|data| - c.size..]
    decreases |data|
  {
    hide Permutation, XorBytes;
    var x := XorBytes(data[..c.size], iv);
    OneBlock(c, x);
    var rest := data[c.size..];
    var out := CbcEncrypt(c, c.enc(x), rest);
    assert CbcEncrypt(c, iv, data) == c.enc(x) + out;
    if rest == [] {
      assert out == [] && c.enc(x) + [] == c.enc(x);
    } else {
      CbcMacIsLastBlock(c, c.enc(x), rest);
      assert (c.enc(x) + out)[|data| - c.size..] == out[|rest| - c.size..];
    }
  }

  lemma CbcMacNothing(c: BlockCipher, h: Bytes)
    requires Permutation(c) && |h| == c.size
    ensures CbcMac(c, h, []) == h
  {
  }

  /** One more block at the end is one more turn of the chain. */
  lemma {:induction false} CbcMacAppend(c: BlockCipher, h: Bytes, data: Bytes, block: Bytes)
    requires Permutation(c) && |h| == |block| == c.size && Whole(|data|, c.size)
    ensures Whole(|data + block|, c.size)
    ensures CbcMac(c, h, data + block) == c.enc(XorBytes(block, CbcMac(c, h, data)))
    decreases |data|
  {
    hide Permutation, XorBytes, Whole;
    WholeSteps(|data|, c.size);
    if data == [] {
      assert data + block == block && block[..c.size] == block && block[c.size..] == [];
      OneBlock(c, XorBytes(block, h));
      CbcMacNothing(c, c.enc(XorBytes(block, h)));
    } else {
      var x := XorBytes(data[..c.size], h);
      OneBlock(c, x);
      assert (data + block)[..c.size] == data[..c.size] && (data + block)[c.size..] == data[c.size..] + block;
      CbcMacAppend(c, c.enc(x), data[c.size..], block);
    }
  }

  lemma CbcMacStep(c: BlockCipher, h: Bytes, data: Bytes, offset: nat)
    requires Permutation(c) && |h| == c.size == 8 && Whole(|data|, 8) && Whole(offset, 8) && offset <= |data|
    ensures offset == |data| ==> CbcMac(c, h, data[offset..]) == h
    ensures offset < |data| ==>
      && offset + 8 <= |data| && Whole(|data| - offset - 8, 8)
      && |c.enc(XorBytes(data[offset..offset + 8], h))| == 8
      && CbcMac(c, h, data[offset..]) == CbcMac(c, c.enc(XorBytes(data[offset..offset + 8], h)), data[offset + 8..])
  {
    hide Permutation, XorBytes;
    if offset < |data| {
      OneBlock(c, XorBytes(data[offset..offset + 8], h));
      assert data[offset..][..8] == data[offset..offset + 8] && data[offset..][8..] == data[offset + 8..];
    }
  }

  /**
   * Algorithm 3 another way: the chain runs under single DES, and only the last block goes through
   * triple DES.
   */
  lemma RetailMacIsTripleOnLastBlock(p: Primitives, key: Bytes, data: Bytes, last: Bytes)
    requires Lawful(p) && |key| >= 16 && |data| % 8 == 0 && |last| == 8
    ensures |data + last| % 8 == 0 && Permutation(p.des(key[..8])) && p.des(key[..8]).size == 8 && Whole(|data|, 8)
    ensures RetailMac(p, key, data + last)
            == Tdes(p, key).enc(XorBytes(last, CbcMac(p.des(key[..8]), Zeros(8), data)))
  {
    hide Lawful, Permutation, CbcMac, XorBytes;
    KeyedCiphers(p, key[..8]);
    KeyedCiphers(p, key[8..16]);
    EightByteBlocks(|data|);
    Eights(|data|, |data|);
    CbcMacAppend(p.des(key[..8]), Zeros(8), data, last);
  }

  lemma EightByteBlocks(len: nat)
    ensures Whole(len, 8) <==> len % 8 == 0
  {
  }

  method ComputeCbcMac(c: BlockCipher, data: Bytes) returns (h: Bytes)
    requires Permutation(c) && c.size == 8 && Whole(|data|, 8)
    ensures h == CbcMac(c, Zeros(8), data) && |h| == 8
  {
    hide Permutation, XorBytes, CbcMac, Whole;
    var offset := 0;
    h := Zeros(8);
    EightByteBlocks(0);
    assert data[0..] == data;
    while offset < |data|
      invariant 0 <= offset <= |data| && Whole(offset, 8) && Whole(|data| - offset, 8) && |h| == 8
      invariant CbcMac(c, Zeros(8), data) == CbcMac(c, h, data[offset..])
    {
      CbcMacStep(c, h, data, offset);
      h := c.enc(XorBytes(data[offset..offset + 8], h));
      AnotherBlock(offset, |data|, 8);
      offset := offset + 8;
    }
    CbcMacStep(c, h, data, offset);
  }

  method ComputeRetailMac(p: Primitives, key: Bytes, data: Bytes) returns (mac: Option<Bytes>)
    requires Lawful(p) && |key| >= 16
    ensures mac == if |data| % 8 == 0 then Some(RetailMac(p, key, data)) else None
  {
    hide Permutation, Lawful, CbcMac;
    if |data| % 8 != 0 {
      return None;
    }
    KeyedCiphers(p, key[..8]);
    KeyedCiphers(p, key[8..16]);
    var h := ComputeCbcMac(p.des(key[..8]), data);
    return Some(p.des(key[..8]).enc(p.des(key[8..16]).dec(h)));
  }
}
