/**
 * Block ciphers as abstract keyed permutations, and CBC mode on top of them. Nothing is assumed
 * of a cipher but that decryption inverts encryption on blocks.
 */
module Cipher {
  import opened Bytes

  /** One keyed block cipher: how wide its blocks are, and the two directions. */
  datatype BlockCipher = BlockCipher(size: nat, enc: Bytes -> Bytes, dec: Bytes -> Bytes)

  ghost predicate Permutation(c: BlockCipher) {
    && (c.size == 8 || c.size == 16)
    && forall b: Bytes | |b| == c.size ::
         && |c.enc(b)| == c.size && |c.dec(b)| == c.size
         && c.dec(c.enc(b)) == b && c.enc(c.dec(b)) == b
  }

  /** What a permutation does to one block. */
  lemma OneBlock(c: BlockCipher, b: Bytes)
    requires Permutation(c) && |b| == c.size
    ensures c.size == 8 || c.size == 16
    ensures |c.enc(b)| == c.size && |c.dec(b)| == c.size && c.dec(c.enc(b)) == b && c.enc(c.dec(b)) == b
  {
  }

  /** A whole number of blocks, of the eight bytes of DES or the sixteen of AES. */
  predicate Whole(len: nat, size: nat) {
    if size == 8 then len % 8 == 0 else size == 16 && len % 16 == 0
  }

  lemma WholeSteps(len: nat, size: nat)
    requires Whole(len, size)
    ensures len > 0 ==> len >= size && Whole(len - size, size)
    ensures Whole(len + size, size)
  {
    if size == 8 {
      Eights(len, len);
    } else {
      Sixteens(len, len);
    }
  }

  /** Single DES and AES, each a block cipher for every key. */
  datatype Primitives = Primitives(des: Bytes -> BlockCipher, aes: Bytes -> BlockCipher)

  ghost predicate Lawful(p: Primitives) {
    && (forall key: Bytes :: Permutation(p.des(key)) && p.des(key).size == 8)
    && (forall key: Bytes :: Permutation(p.aes(key)) && p.aes(key).size == 16)
  }

  /** Two key triple DES: encrypt under K1, decrypt under K2, encrypt under K1. */
  function Tdes(p: Primitives, key: Bytes): (c: BlockCipher)
    requires |key| >= 16
  {
    var k1, k2 := p.des(key[..8]), p.des(key[8..16]);
    BlockCipher(8, b => k1.enc(k2.dec(k1.enc(b))), b => k1.dec(k2.enc(k1.dec(b))))
  }

  lemma TripleInverts(k1: BlockCipher, k2: BlockCipher, b: Bytes)
    requires Permutation(k1) && Permutation(k2) && k1.size == k2.size == |b|
    ensures |k1.enc(k2.dec(k1.enc(b)))| == |k1.dec(k2.enc(k1.dec(b)))| == |b|
    ensures k1.dec(k2.enc(k1.dec(k1.enc(k2.dec(k1.enc(b)))))) == b
    ensures k1.enc(k2.dec(k1.enc(k1.dec(k2.enc(k1.dec(b)))))) == b
  {
    hide Permutation;
    OneBlock(k1, b);
    OneBlock(k2, k1.enc(b));
    OneBlock(k1, k2.dec(k1.enc(b)));
    OneBlock(k2, k1.dec(b));
    OneBlock(k1, k2.enc(k1.dec(b)));
  }

  lemma KeyedCiphers(p: Primitives, key: Bytes)
    requires Lawful(p)
    ensures Permutation(p.des(key)) && p.des(key).size == 8
    ensures Permutation(p.aes(key)) && p.aes(key).size == 16
  {
  }

  lemma TdesBlock(p: Primitives, key: Bytes, b: Bytes)
    requires Lawful(p) && |key| >= 16 && |b| == 8
    ensures
      var c := Tdes(p, key);
      |c.enc(b)| == 8 && |c.dec(b)| == 8 && c.dec(c.enc(b)) == b && c.enc(c.dec(b)) == b
  {
    hide Lawful, Permutation;
    KeyedCiphers(p, key[..8]);
    KeyedCiphers(p, key[8..16]);
    TripleInverts(p.des(key[..8]), p.des(key[8..16]), b);
  }

  lemma TdesIsPermutation(p: Primitives, key: Bytes)
    requires Lawful(p) && |key| >= 16
    ensures Permutation(Tdes(p, key))
  {
    hide Lawful, Tdes;
    assert Tdes(p, key).size == 8 by { TdesSize(p, key); }
    forall b: Bytes | |b| == 8
      ensures
        var c := Tdes(p, key);
        |c.enc(b)| == 8 && |c.dec(b)| == 8 && c.dec(c.enc(b)) == b && c.enc(c.dec(b)) == b
    {
      TdesBlock(p, key, b);
    }
  }

  lemma TdesSize(p: Primitives, key: Bytes)
    requires |key| >= 16
    ensures Tdes(p, key).size == 8
  {
  }

  function CbcEncrypt(c: BlockCipher, iv: Bytes, data: Bytes): (out: Bytes)
    requires Permutation(c) && |iv| == c.size && Whole(|data|, c.size)
    ensures |out| == |data|
    decreases |data|
  {
    if data == [] then []
    else
      WholeSteps(|data|, c.size);
      var block := c.enc(XorBytes(data[..c.size], iv));
      block + CbcEncrypt(c, block, data[c.size..])
  }

  function CbcDecrypt(c: BlockCipher, iv: Bytes, data: Bytes): (out: Bytes)
    requires Permutation(c) && |iv| == c.size && Whole(|data|, c.size)
    ensures |out| == |data|
    decreases |data|
  {
    if data == [] then []
    else
      WholeSteps(|data|, c.size);
      XorBytes(c.dec(data[..c.size]), iv) + CbcDecrypt(c, data[..c.size], data[c.size..])
  }

  /**
   * CBC block by block: each ciphertext block is the cipher of the plaintext block exclusive-or the ciphertext
   * block before it, and the initialisation vector stands before the first.
   */
  lemma {:induction false} CbcByBlocks(c: BlockCipher, iv: Bytes, data: Bytes, at: nat)
    requires Permutation(c) && |iv| == c.size && Whole(|data|, c.size) && Whole(at, c.size) && at < |data|
    ensures at + c.size <= |data| && (at > 0 ==> at >= c.size)
    ensures
      var out := CbcEncrypt(c, iv, data);
      out[at..at + c.size] == c.enc(XorBytes(data[at..at + c.size], if at == 0 then iv else out[at - c.size..at]))
    decreases at
  {
    hide Permutation, XorBytes, Whole;
    AnotherBlock(at, |data|, c.size);
    WholeSteps(at, c.size);
    WholeSteps(|data|, c.size);
    var first := c.enc(XorBytes(data[..c.size], iv));
    OneBlock(c, XorBytes(data[..c.size], iv));
    var rest, out := CbcEncrypt(c, first, data[c.size..]), CbcEncrypt(c, iv, data);
    assert out == first + rest && data[0..c.size] == data[..c.size];
    if at > 0 {
      var back := at - c.size;
      CbcByBlocks(c, first, data[c.size..], back);
      assert out[at..at + c.size] == rest[back..back + c.size];
      assert data[at..at + c.size] == data[c.size..][back..back + c.size];
      assert out[at - c.size..at] == if back == 0 then first else rest[back - c.size..back];
    }
  }

  /** Triple DES under one key twice over is single DES under that key. */
  lemma TdesOfOneKey(p: Primitives, key: Bytes, b: Bytes)
    requires Lawful(p) && |key| == 16 && key[..8] == key[8..16] && |b| == 8
    ensures Tdes(p, key).enc(b) == p.des(key[..8]).enc(b) && Tdes(p, key).dec(b) == p.des(key[..8]).dec(b)
  {
    hide Lawful, Permutation;
    KeyedCiphers(p, key[..8]);
    OneBlock(p.des(key[..8]), b);
  }

  /** Decryption undoes encryption, for every cipher, initialisation vector and message. */
  lemma {:induction false} CbcRoundTrip(c: BlockCipher, iv: Bytes, data: Bytes)
    requires Permutation(c) && |iv| == c.size && Whole(|data|, c.size)
    ensures CbcDecrypt(c, iv, CbcEncrypt(c, iv, data)) == data
    decreases |data|
  {
    hide Permutation, XorBytes;
    if data != [] {
      var x := XorBytes(data[..c.size], iv);
      OneBlock(c, x);
      var block := c.enc(x);
      var out := CbcEncrypt(c, iv, data);
      assert out[..c.size] == block && out[c.size..] == CbcEncrypt(c, block, data[c.size..]);
      CbcRoundTrip(c, block, data[c.size..]);
      XorBytesCancel(data[..c.size], iv);
      assert data == data[..c.size] + data[c.size..];
    }
  }

  /** And encryption undoes decryption: every ciphertext is that of its decryption. */
  lemma {:induction false} CbcRoundTripBack(c: BlockCipher, iv: Bytes, data: Bytes)
    requires Permutation(c) && |iv| == c.size && Whole(|data|, c.size)
    ensures CbcEncrypt(c, iv, CbcDecrypt(c, iv, data)) == data
    decreases |data|
  {
    hide Permutation, XorBytes;
    if data != [] {
      var block := data[..c.size];
      OneBlock(c, block);
      var plain := XorBytes(c.dec(block), iv);
      var out := CbcDecrypt(c, iv, data);
      assert out[..c.size] == plain && out[c.size..] == CbcDecrypt(c, block, data[c.size..]);
      XorBytesCancel(c.dec(block), iv);
      CbcRoundTripBack(c, block, data[c.size..]);
      assert data == block + data[c.size..];
    }
  }

  /** Decryption block by block, appended at the end, is decryption. */
  lemma {:induction false} CbcDecryptAppend(c: BlockCipher, iv: Bytes, data: Bytes, block: Bytes)
    requires Permutation(c) && |iv| == |block| == c.size && Whole(|data|, c.size)
    ensures Whole(|data| + |block|, c.size) && Whole(|data + block|, c.size)
    ensures
      var previous := if data == [] then iv else data[|data| - c.size..];
      && (data != [] ==> |data| >= c.size)
      && CbcDecrypt(c, iv, data + block) == CbcDecrypt(c, iv, data) + XorBytes(c.dec(block), previous)
    decreases |data|
  {
    hide Permutation, XorBytes, Whole;
    OneBlock(c, block);
    WholeSteps(|data|, c.size);
    if data == [] {
      assert data + block == block && block[..c.size] == block && block[c.size..] == [];
      assert CbcDecrypt(c, block, []) == [];
      assert CbcDecrypt(c, iv, block) == XorBytes(c.dec(block), iv) + [];
    } else {
      var first, rest := data[..c.size], data[c.size..];
      WholeSteps(|rest|, c.size);
      CbcDecryptAppend(c, first, rest, block);
      assert (data + block)[..c.size] == first && (data + block)[c.size..] == rest + block;
      if rest != [] {
        assert rest[|rest| - c.size..] == data[|data| - c.size..];
      } else {
        assert data == first;
      }
    }
  }

  /** One block: read whole from the source, and only then written to the destination. */
  method DecryptBlockInto(c: BlockCipher, previous: Bytes, src: array<byte>, from: nat, dst: array<byte>, to: nat)
    returns (block: Bytes)
    requires Permutation(c) && |previous| == c.size
    requires from + c.size <= src.Length && to + c.size <= dst.Length
    modifies dst
    ensures |block| == |c.dec(block)| == c.size
    ensures forall i :: 0 <= i < c.size ==> block[i] == old(src[from + i])
    ensures forall i :: 0 <= i < c.size ==> dst[to + i] == XorBytes(c.dec(block), previous)[i]
    ensures forall i :: 0 <= i < to || to + c.size <= i < dst.Length ==> dst[i] == old(dst[i])
  {
    hide Permutation, XorBytes;
    block := src[from..from + c.size];
    OneBlock(c, block);
    var plain := XorBytes(c.dec(block), previous);
    forall i | 0 <= i < c.size {
      dst[to + i] := plain[i];
    }
  }

  /** So much of the input is plaintext in the destination, and the rest still unread in the source. */
  ghost predicate Halfway(input: Bytes, plain: Bytes, src: array<byte>, from: nat, dst: array<byte>, to: nat)
    requires |plain| <= |input| && from + |input| <= src.Length && to + |input| <= dst.Length
    reads src, dst
  {
    && (forall i :: 0 <= i < |plain| ==> dst[to + i] == plain[i])
    && (forall i :: |plain| <= i < |input| ==> src[from + i] == input[i])
  }

  /** The next block of the input, in step with the blocks before it. */
  method DecryptNextInto(c: BlockCipher, previous: Bytes, src: array<byte>, from: nat, dst: array<byte>, to: nat,
                         done: nat, ghost input: Bytes, ghost plain: Bytes)
    returns (block: Bytes, ghost longer: Bytes)
    requires Permutation(c) && |previous| == c.size && |plain| == done <= done + c.size <= |input|
    requires from + |input| <= src.Length && to + |input| <= dst.Length && (src == dst ==> to <= from)
    requires Halfway(input, plain, src, from, dst, to)
    modifies dst
    ensures block == input[done..done + c.size] && |c.dec(block)| == c.size
    ensures longer == plain + XorBytes(c.dec(block), previous) && |longer| == done + c.size
    ensures Halfway(input, longer, src, from, dst, to)
    ensures forall i :: 0 <= i < to || to + |longer| <= i < dst.Length ==> dst[i] == old(dst[i])
  {
    hide Permutation, XorBytes;
    block := DecryptBlockInto(c, previous, src, from + done, dst, to + done);
    assert forall i | 0 <= i < c.size :: block[i] == input[done + i];
    longer := plain + XorBytes(c.dec(block), previous);
  }

  /**
   * Decryption from one buffer into another, or into the same one at the same place or lower. Each
   * block is read whole before anything is written, so no ciphertext is overwritten unread.
   */
  method CbcDecryptInto(c: BlockCipher, iv: Bytes, src: array<byte>, from: nat, len: nat, dst: array<byte>, to: nat)
    requires Permutation(c) && |iv| == c.size && Whole(len, c.size)
    requires from + len <= src.Length && to + len <= dst.Length
    requires src == dst ==> to <= from
    modifies dst
    ensures dst[to..to + len] == CbcDecrypt(c, iv, old(src[from..from + len]))
    ensures forall i :: 0 <= i < to || to + len <= i < dst.Length ==> dst[i] == old(dst[i])
  {
    hide Permutation, XorBytes, CbcDecrypt, Whole;
    ghost var input := src[from..from + len];
    ghost var plain: Bytes := [];
    var previous, done := iv, 0;
    CbcDecryptNothing(c, iv);
    assert input[..0] == [];
    while done < len
      invariant 0 <= done <= len && Whole(done, c.size) && |previous| == c.size
      invariant done > 0 ==> done >= c.size
      invariant previous == if done == 0 then iv else input[done - c.size..done]
      invariant plain == CbcDecrypt(c, iv, input[..done]) && |plain| == done
      invariant Halfway(input, plain, src, from, dst, to)
      invariant forall i :: 0 <= i < to || to + done <= i < dst.Length ==> dst[i] == old(dst[i])
    {
      AnotherBlock(done, len, c.size);
      var block;
      ghost var was := previous;
      block, plain := DecryptNextInto(c, previous, src, from, dst, to, done, input, plain);
      CbcDecryptNext(c, iv, input, done, was);
      previous, done := block, done + c.size;
    }
    assert input[..len] == input;
  }

  lemma CbcDecryptNext(c: BlockCipher, iv: Bytes, input: Bytes, done: nat, previous: Bytes)
    requires Permutation(c) && |iv| == |previous| == c.size && Whole(done, c.size)
    requires done + c.size <= |input| && (done > 0 ==> done >= c.size)
    requires previous == if done == 0 then iv else input[done - c.size..done]
    ensures Whole(done + c.size, c.size)
    ensures
      var block := input[done..done + c.size];
      && |c.dec(block)| == c.size
      && CbcDecrypt(c, iv, input[..done + c.size])
         == CbcDecrypt(c, iv, input[..done]) + XorBytes(c.dec(block), previous)
  {
    hide Permutation, XorBytes, CbcDecrypt, Whole;
    var block := input[done..done + c.size];
    OneBlock(c, block);
    assert input[..done] + block == input[..done + c.size];
    assert done > 0 ==> input[..done][done - c.size..] == previous;
    CbcDecryptAppend(c, iv, input[..done], block);
  }

  lemma CbcDecryptNothing(c: BlockCipher, iv: Bytes)
    requires Permutation(c) && |iv| == c.size
    ensures c.size == 8 || c.size == 16
    ensures CbcDecrypt(c, iv, []) == [] && Whole(0, c.size)
  {
  }

  lemma AnotherBlock(done: nat, len: nat, size: nat)
    requires Whole(done, size) && Whole(len, size) && done < len
    ensures 0 < size && done + size <= len && Whole(done + size, size)
  {
    if size == 8 {
      Eights(done, len);
    } else {
      Sixteens(done, len);
    }
  }

  lemma Eights(a: nat, b: nat)
    requires a % 8 == 0 && b % 8 == 0
    ensures (a + 8) % 8 == 0 && (a < b ==> a + 8 <= b) && (b >= 8 ==> (b - 8) % 8 == 0) && (b > 0 ==> b >= 8)
  {
    var p, q := a / 8, b / 8;
    assert a == 8 * p && b == 8 * q;
  }

  lemma Sixteens(a: nat, b: nat)
    requires a % 16 == 0 && b % 16 == 0
    ensures (a + 16) % 16 == 0 && (a < b ==> a + 16 <= b) && (b >= 16 ==> (b - 16) % 16 == 0) && (b > 0 ==> b >= 16)
  {
    var p, q := a / 16, b / 16;
    assert a == 16 * p && b == 16 * q;
  }
}
