/**
 * The reader's Secure Messaging session as the program keeps it: a counter stepped in place and
 * envelopes assembled in fixed buffers through moving offsets.
 */
module SmReader {
  import opened Bytes
  import opened Errors
  import opened Numbers
  import opened Tlv
  import opened Cipher
  import opened Mac
  import opened Cmac
  import opened Apdu
  import SM = SecureMessaging
  import opened SecureMessaging

  class Sm {
    var suite: Suite
    var ksEnc: Bytes
    var ksMac: Bytes
    const ssc: array<byte>
    var established: bool

    ghost predicate Valid()
      reads this, ssc
    {
      ssc.Length == 16 && Keyed(View())
    }

    function View(): Session
      requires ssc.Length == 16
      reads this, ssc
    {
      Session(suite, ksEnc, ksMac, ssc[..BlockSize(suite)], established)
    }

    /** No session: every call refuses until one is opened. */
    constructor ()
      ensures Valid() && !established && fresh(ssc)
    {
      suite, ksEnc, ksMac, established := TripleDes, Zeros(16), Zeros(16), false;
      ssc := new byte[16](i => 0);
    }

    /** Open a session; a counter that is not given starts at zero. */
    method Init(suite: Suite, ksEnc: Bytes, ksMac: Bytes, start: Option<Bytes>)
      requires ssc.Length == 16
      requires |ksEnc| == |ksMac| == KeySize(suite)
      requires start.Some? ==> |start.value| == BlockSize(suite)
      modifies this, ssc
      ensures Valid()
      ensures View() == Session(suite, ksEnc, ksMac, if start.Some? then start.value else Zeros(BlockSize(suite)), true)
    {
      forall i | 0 <= i < 16 {
        ssc[i] := 0;
      }
      this.suite, this.ksEnc, this.ksMac := suite, ksEnc, ksMac;
      if start.Some? {
        CopyInto(ssc, 0, start.value);
      }
      established := true;
      assert ssc[..BlockSize(suite)] == if start.Some? then start.value else Zeros(BlockSize(suite));
    }

    method Clear()
      requires ssc.Length == 16
      modifies this, ssc
      ensures Valid() && View() == NoSession()
    {
      suite, ksEnc, ksMac, established := TripleDes, Zeros(16), Zeros(16), false;
      forall i | 0 <= i < 16 {
        ssc[i] := 0;
      }
      assert ssc[..8] == Zeros(8);
    }

    method IncrementSsc()
      requires Valid()
      modifies ssc
      ensures Valid() && View() == Step(old(View()))
    {
      IncrementInPlace(ssc, BlockSize(suite));
    }

    /** Checksum what the buffer holds in its first `len` bytes, padding it where it lies. */
    method Mac(p: Primitives, buffer: array<byte>, len: nat) returns (mac: Result<Bytes>)
      requires Valid() && Lawful(p) && len <= buffer.Length && buffer != ssc
      modifies buffer
      ensures mac == if PaddedLen(len, BlockSize(suite)) > buffer.Length then Err(BufferTooSmall)
                     else Ok(Checksum(p, View(), old(buffer[..len])))
    {
      hide Pad, PaddedLen, RetailMac, AesCmac, Lawful, Checksum, Cipher.Whole;
      var block := BlockSize(suite);
      if PaddedLen(len, block) > buffer.Length {
        return Err(BufferTooSmall);
      }
      ghost var m := buffer[..len];
      assert buffer[0..len] == m;
      var padded := PadOver(buffer, 0, len, block);
      assert buffer[..padded] == Pad(m, block);
      ChecksumIs(p, View(), m);
      var computed: Option<Bytes>;
      if suite == TripleDes {
        computed := ComputeRetailMac(p, ksMac, buffer[..padded]);
      } else {
        computed := ComputeCmac(p, ksMac, buffer[..padded], MAC_SIZE);
      }
      mac := Ok(computed.value);
    }

    /** DO'87': the plaintext placed where it will be encrypted, padded and encrypted there. */
    method WriteDo87(p: Primitives, buffer: array<byte>, at: nat, data: Bytes) returns (end: nat)
      requires Valid() && Lawful(p) && buffer != ssc && data != []
      requires at + Do87Len(View(), |data|) <= buffer.Length
      modifies buffer
      ensures end == at + Do87Len(View(), |data|)
      ensures buffer[..end] == old(buffer[..at]) + Do87(p, View(), data)
    {
      hide Pad, PaddedLen, SM.Encrypt, Lawful, EncodeLength, EncodedLengthSize, Do87, Do87Len, Cipher.Whole;
      Do87Parts(p, View(), data);
      var block := BlockSize(suite);
      var cryptogramLen := PaddedLen(|data|, block);
      var lead := [DO_CRYPTOGRAM_PADDED] + EncodeLength(1 + cryptogramLen) + [PADDING_INDICATOR];
      CopyInto(buffer, at, lead);
      var start := at + |lead|;
      CopyInto(buffer, start, data);
      var padded := PadOver(buffer, start, |data|, block);
      end := start + cryptogramLen;
      CopyInto(buffer, start, SM.Encrypt(p, View(), buffer[start..end]));
    }

    /** The objects the checksum covers, written from `at` on. */
    method WriteObjects(p: Primitives, buffer: array<byte>, at: nat, c: Command) returns (end: nat)
      requires Valid() && Lawful(p) && buffer != ssc && LeValid(c.le)
      requires at + Do87Len(View(), |c.data|) + Do97Len(c.le) <= buffer.Length
      modifies buffer
      ensures end == at + Do87Len(View(), |c.data|) + Do97Len(c.le)
      ensures buffer[..end] == old(buffer[..at]) + Objects(p, View(), c)
    {
      hide Do87, Do87Len, Do97, Do97Len;
      end := at;
      if c.data != [] {
        end := WriteDo87(p, buffer, at, c.data);
      } else {
        NoDo87(p, View());
      }
      end := WriteDo97(buffer, end, c.le);
    }

    method WriteDo97(buffer: array<byte>, at: nat, le: int) returns (end: nat)
      requires LeValid(le) && at + Do97Len(le) <= buffer.Length
      modifies buffer
      ensures end == at + Do97Len(le)
      ensures buffer[..end] == old(buffer[..at]) + Do97(le)
    {
      hide Do97, Be16;
      Do97Parts(le);
      end := at;
      if le != LE_NONE {
        var header: Bytes := [DO_LE, if le <= LE_MAX then 1 else 2];
        var value: Bytes := if le > LE_MAX then Be16(if le >= 65536 then 0 else le)
        else [if le == LE_MAX then 0x00 else le];
        assert Do97(le) == header + value;
        CopyInto(buffer, end, header + value);
        end := end + |header| + |value|;
      }
    }

    /** Wrap a command; the result is the complete serialised APDU. */
    method Protect(p: Primitives, c: Command, out: array<byte>, outSize: nat) returns (r: Result<nat>)
      requires Valid() && Lawful(p) && outSize <= out.Length && out != ssc
      modifies ssc, out
      ensures Valid()
      ensures
        var (t, wire) := SM.Protect(p, old(View()), c, outSize);
        && View() == t
        && (wire.Ok? ==> r == Ok(|wire.value|) && |wire.value| <= outSize && out[..|wire.value|] == wire.value)
        && (wire.Err? ==> r == Err(wire.error) && out[..] == old(out[..]))
    {
      hide Objects, Checksum, Pad, PaddedLen, Encode, Inc, Do87Len, Lawful;
      ghost var s0 := View();
      ProtectAllOrNothing(p, s0, c, outSize);
      LengthsIgnoreCounter(s0, c);
      if !established {
        return Err(SecureMessaging);
      }
      if !LeValid(c.le) {
        return Err(InvalidInput);
      }
      var block := BlockSize(suite);
      var do87, do97 := Do87Len(View(), |c.data|), Do97Len(c.le);
      if do87 + do97 + 2 + MAC_SIZE > PAYLOAD_MAX {
        return Err(BufferTooSmall);
      }
      if PaddedLen(block + block + do87 + do97, block) > MAC_INPUT_MAX {
        return Err(BufferTooSmall);
      }
      if 4 + 1 + do87 + do97 + 2 + MAC_SIZE + 1 > outSize {
        return Err(BufferTooSmall);
      }
      IncrementSsc();
      var payload := BuildPayload(p, c);
      r := EncodeInto(Command(SetSm(c.cla), c.ins, c.p1, c.p2, payload, LE_MAX), out, outSize);
    }

    /** What the checksum of a command covers, laid out in one buffer. */
    method BuildMacInput(p: Primitives, c: Command, macInput: array<byte>) returns (end: nat)
      requires Valid() && Lawful(p) && LeValid(c.le) && macInput != ssc
      requires BlockSize(suite) + BlockSize(suite) + Do87Len(View(), |c.data|) + Do97Len(c.le) <= macInput.Length
      modifies macInput
      ensures end == BlockSize(suite) + BlockSize(suite) + Do87Len(View(), |c.data|) + Do97Len(c.le)
      ensures macInput[BlockSize(suite) + BlockSize(suite)..end] == Objects(p, View(), c)
      ensures macInput[..end] == CommandMacInput(View(), [SetSm(c.cla), c.ins, c.p1, c.p2], Objects(p, View(), c))
    {
      hide Objects, Pad, PaddedLen, Do87, Do97, Do87Len, Lawful, Do97Len;
      var block := BlockSize(suite);
      var header: Bytes := [SetSm(c.cla), c.ins, c.p1, c.p2];
      FourBytesPad(block);
      CopyInto(macInput, 0, ssc[..block]);
      CopyInto(macInput, block, header);
      var padded := PadOver(macInput, block, 4, block);
      ghost var front := macInput[..block + block];
      end := WriteObjects(p, macInput, block + block, c);
      ObjectLengths(p, View(), c);
      assert front == ssc[..block] + Pad(header, block);
    }

    /** The data field of the envelope: the objects and their checksum. */
    method BuildPayload(p: Primitives, c: Command) returns (data: Bytes)
      requires Valid() && Lawful(p) && LeValid(c.le) && PayloadLen(View(), c) <= PAYLOAD_MAX
      requires PaddedLen(BlockSize(suite) + BlockSize(suite) + Do87Len(View(), |c.data|) + Do97Len(c.le), BlockSize(suite)) <= MAC_INPUT_MAX
      ensures data == Envelope(p, View(), c).data
    {
      hide Objects, Checksum, Pad, PaddedLen, Do87Len, Lawful, Do97Len, CommandMacInput;
      var block := BlockSize(suite);
      var macInput := new byte[MAC_INPUT_MAX];
      var payload := new byte[PAYLOAD_MAX];
      var end := BuildMacInput(p, c, macInput);
      ghost var objects := Objects(p, View(), c);
      var used := end - block - block;
      CopyInto(payload, 0, macInput[block + block..end]);
      var mac := Mac(p, macInput, end);
      var trailer: Bytes := [DO_MAC, MAC_SIZE] + mac.value;
      assert payload[..used] == objects;
      CopyInto(payload, used, trailer);
      data := payload[..used + |trailer|];
      assert Object(DO_MAC, mac.value) == trailer;
    }

    /** Everything that can be refused before the counter moves. */
    method InspectResponse(response: array<byte>, responseLen: nat, outSize: nat) returns (r: Result<Layout>)
      requires responseLen <= response.Length
      ensures r == Inspect(response[..responseLen], BlockSize(suite), outSize)
    {
      hide Collect, Walk, ReadNode;
      var block := BlockSize(suite);
      if responseLen < 2 || responseLen > APDU_MAX_SIZE {
        return Err(SecureMessaging);
      }
      var data := response[..responseLen];
      var end := responseLen - 2;
      var outer := StatusWord(response[end], response[end + 1]);
      WalkInside(data, end, 0);
      CollectedAreNodes(Walk(data, end, 0).0);
      var found, exhausted := Gather(data, end);
      if found.None? || !exhausted {
        return Err(SecureMessaging);
      }
      var f := found.value;
      if f.checksum.None? {
        return Err(if outer == 0x9000 then SecureMessaging else FromSw(outer).value);
      }
      var n := f.checksum.value;
      if n.valueLen != MAC_SIZE || n.End() != end {
        return Err(SecureMessaging);
      }
      if f.status.Some? && f.status.value.valueLen != 2 {
        return Err(SecureMessaging);
      }
      var sw := outer;
      if f.status.Some? {
        sw := StatusWord(response[f.status.value.valueStart], response[f.status.value.valueStart + 1]);
      }
      var mac := data[n.valueStart..n.End()];
      if f.cryptogram.None? {
        return Ok(Layout(n.start, mac, None, sw));
      }
      var cryptogram := f.cryptogram.value;
      var at, len := cryptogram.valueStart, cryptogram.valueLen;
      if cryptogram.tag == DO_CRYPTOGRAM_PADDED as int {
        if len < 1 || response[at] != PADDING_INDICATOR {
          return Err(SecureMessaging);
        }
        at, len := at + 1, len - 1;
      }
      if len == 0 || !Whole(len, block) {
        return Err(SecureMessaging);
      }
      if len > outSize {
        return Err(BufferTooSmall);
      }
      return Ok(Layout(n.start, mac, Some((at, len)), sw));
    }

    /** The checksum of the stepped counter and the covered bytes is the one the response carries. */
    method ChecksumMatches(p: Primitives, response: array<byte>, l: Layout) returns (ok: bool)
      requires Valid() && Lawful(p) && l.covered <= response.Length && l.covered <= APDU_MAX_SIZE
      ensures ok <==> Checksum(p, View(), View().ssc + response[..l.covered]) == l.mac
    {
      hide Checksum, Lawful, PaddedLen;
      var block := BlockSize(suite);
      var macInput := new byte[MAC_INPUT_MAX];
      CopyInto(macInput, 0, ssc[..block]);
      CopyInto(macInput, block, response[..l.covered]);
      PaddedFits(block + l.covered, block);
      var mac := Mac(p, macInput, block + l.covered);
      ok := mac.value == l.mac;
    }

    method Crypt(p: Primitives, response: array<byte>, at: nat, len: nat, out: array<byte>)
      requires Valid() && Lawful(p) && out != ssc && Whole(len, BlockSize(suite))
      requires at + len <= response.Length && len <= out.Length
      modifies out
      ensures out[..len] == Decrypt(p, View(), old(response[at..at + len]))
      ensures forall i :: len <= i < out.Length ==> out[i] == old(out[i])
    {
      hide Lawful, CbcDecrypt, Whole, SM.Encryption, Iv;
      CbcDecryptInto(SM.Encryption(p, View()), Iv(p, View()), response, at, len, out, 0);
      assert out[0..len] == out[..len];
    }

    /** Decrypt and unpad; a plaintext without its marker is wiped again. */
    method DecryptOver(p: Primitives, response: array<byte>, at: nat, len: nat, out: array<byte>) returns (n: Option<nat>)
      requires Valid() && Lawful(p) && out != ssc && Whole(len, BlockSize(suite))
      requires at + len <= response.Length && len <= out.Length
      modifies out
      ensures
        match Unpad(Decrypt(p, View(), old(response[at..at + len])))
        case None => n == None && out[..len] == Zeros(len)
        case Some(plain) => n == Some(|plain|) && |plain| < len && out[..|plain|] == plain
      ensures forall i :: len <= i < out.Length ==> out[i] == old(out[i])
    {
      hide Lawful, Unpad, Whole, Decrypt;
      Crypt(p, response, at, len, out);
      n := WipeUnlessPadded(out, len);
    }

    /** Every check there is, the checksum last; a response refused before it leaves the counter alone. */
    method Verify(p: Primitives, response: array<byte>, responseLen: nat, outSize: nat) returns (r: Result<Layout>)
      requires Valid() && Lawful(p) && responseLen <= response.Length && response != ssc
      modifies ssc
      ensures Valid() && (View(), r) == SM.Verify(p, old(View()), response[..responseLen], outSize)
    {
      hide Checksum, Lawful, Inspect, Inc, Whole;
      if !established {
        return Err(SecureMessaging);
      }
      r := InspectResponse(response, responseLen, outSize);
      if r.Err? {
        return;
      }
      LayoutFits(response[..responseLen], BlockSize(suite), outSize);
      IncrementSsc();
      assert response[..responseLen][..r.value.covered] == response[..r.value.covered];
      var ok := ChecksumMatches(p, response, r.value);
      if !ok {
        r := Err(SecureMessaging);
      }
    }

    /**
     * Verify, then decrypt in place. `out` may be the response itself: its plaintext then lands at the
     * front of the buffer it was read from, and is the plaintext a separate buffer would have got.
     * Nothing is written to `out` before the checksum has matched.
     */
    method Unprotect(p: Primitives, response: array<byte>, responseLen: nat, out: array<byte>, outSize: nat)
      returns (r: Result<(nat, nat)>)
      requires Valid() && Lawful(p) && responseLen <= response.Length && outSize <= out.Length
      requires response != ssc && out != ssc
      modifies ssc, out
      ensures Valid()
      ensures
        var (t, answer) := SM.Unprotect(p, old(View()), old(response[..responseLen]), outSize);
        && View() == t
        && match answer
           case Err(e) => r == Err(e)
           case Ok(a) => r == Ok((|a.data|, a.sw)) && |a.data| <= outSize && out[..|a.data|] == a.data
      ensures
        match SM.Verify(p, old(View()), old(response[..responseLen]), outSize).1
        case Err(_) => out[..] == old(out[..])
        case Ok(l) =>
          && CipherLen(l) <= outSize
          && (forall i :: CipherLen(l) <= i < out.Length ==> out[i] == old(out[i]))
          && (r.Err? ==> out[..CipherLen(l)] == Zeros(CipherLen(l)))
    {
      hide Lawful, SM.Verify, Unpad, Whole, Decrypt;
      ghost var s0, before := View(), response[..responseLen];
      var verified := Verify(p, response, responseLen, outSize);
      assert (View(), verified) == SM.Verify(p, s0, before, outSize);
      if verified.Err? {
        return Err(verified.error);
      }
      var l := verified.value;
      VerifiedFits(p, s0, before, outSize);
      if l.cipher.None? {
        return Ok((0, l.sw));
      }
      var (at, len) := l.cipher.value;
      assert before[at..at + len] == response[at..at + len];
      var n := DecryptOver(p, response, at, len, out);
      r := if n.Some? then Ok((n.value, l.sw)) else Err(SecureMessaging);
    }
  }

  /** Unpad where the plaintext lies; what carries no marker is wiped. */
  method WipeUnlessPadded(out: array<byte>, len: nat) returns (n: Option<nat>)
    requires len <= out.Length
    modifies out
    ensures
      match Unpad(old(out[..len]))
      case None => n == None && out[..len] == Zeros(len)
      case Some(plain) => n == Some(|plain|) && |plain| < len && out[..|plain|] == plain
    ensures forall i :: len <= i < out.Length ==> out[i] == old(out[i])
  {
    hide Unpad;
    assert out[0..len] == out[..len];
    n := UnpadLength(out, 0, len);
    if n.None? {
      forall i | 0 <= i < len {
        out[i] := 0;
      }
      assert out[..len] == Zeros(len);
    } else {
      assert out[0..n.value] == out[..n.value];
    }
  }

  function CipherLen(l: Layout): nat {
    if l.cipher.Some? then l.cipher.value.1 else 0
  }

  lemma LayoutFits(response: Bytes, block: nat, outSize: nat)
    requires block == 8 || block == 16
    requires Inspect(response, block, outSize).Ok?
    ensures
      var l := Inspect(response, block, outSize).value;
      l.covered <= |response| <= APDU_MAX_SIZE && CipherLen(l) <= outSize
  {
    hide Walk, Collect;
  }

  lemma VerifiedFits(p: Primitives, s: Session, response: Bytes, outSize: nat)
    requires Lawful(p) && Keyed(s)
    requires SM.Verify(p, s, response, outSize).1.Ok?
    ensures
      var l := SM.Verify(p, s, response, outSize).1.value;
      && CipherLen(l) <= outSize
      && (l.cipher.Some? ==>
            l.cipher.value.0 + l.cipher.value.1 <= |response| && Whole(l.cipher.value.1, BlockSize(s.suite)))
  {
    hide Checksum, Inspect;
    LayoutFits(response, BlockSize(s.suite), outSize);
  }

  lemma ChecksumIs(p: Primitives, s: Session, m: Bytes)
    requires Lawful(p) && Keyed(s)
    ensures |Pad(m, 8)| % 8 == 0 && Permutation(p.aes(s.ksMac)) && p.aes(s.ksMac).size == 16
    ensures Checksum(p, s, m) == if s.suite == TripleDes then RetailMac(p, s.ksMac, Pad(m, 8))
                                 else AesCmac(p.aes(s.ksMac), Pad(m, 16))[..8]
  {
    hide Pad, PaddedLen, RetailMac, AesCmac, Lawful;
    EightByteBlocks(PaddedLen(|m|, 8));
    KeyedCiphers(p, s.ksMac);
  }

  lemma PaddedFits(len: nat, block: nat)
    requires block == 8 || block == 16
    ensures PaddedLen(len, block) <= len + block
  {
  }

  lemma CollectNext(seen: seq<Node>, n: Node)
    ensures Collect(seen + [n]) == if Collect(seen).Some? then Gathered(Collect(seen).value, n) else None
  {
    assert (seen + [n])[..|seen|] == seen;
  }

  lemma {:induction false} CollectStaysRefused(seen: seq<Node>, rest: seq<Node>)
    requires Collect(seen).None?
    ensures Collect(seen + rest).None?
    decreases |rest|
  {
    if rest == [] {
      assert seen + rest == seen;
    } else {
      CollectNext(seen, rest[0]);
      CollectStaysRefused(seen + [rest[0]], rest[1..]);
      assert seen + rest == seen + [rest[0]] + rest[1..];
    }
  }

  /** Walk the objects of a response, in order, stopping at the first that comes twice. */
  method Gather(data: Bytes, end: nat) returns (found: Option<Found>, exhausted: bool)
    requires end <= |data| && end < SIZE_MAX
    ensures found == Collect(Walk(data, end, 0).0)
    ensures found.Some? ==> exhausted == Walk(data, end, 0).1
  {
    hide Collect, Walk, ReadNode;
    var iter := new Iter(data, 0, end);
    ghost var seen: seq<Node> := [];
    ghost var all := Walk(data, end, 0).0;
    var f := Found(None, None, None);
    assert Collect(seen) == Some(f) by { CollectNothing(); }
    assert seen + all == all;
    while true
      invariant iter.Valid() && iter.data == data && iter.end == end
      invariant all == seen + Walk(data, end, iter.offset).0
      invariant Walk(data, end, 0).1 == Walk(data, end, iter.offset).1
      invariant Collect(seen) == Some(f)
      decreases if iter.offset <= end then end - iter.offset + 1 else 0
    {
      ghost var rest := Walk(data, end, iter.offset).0;
      var node := iter.Next();
      if node.None? {
        assert seen + [] == seen;
        return Some(f), iter.Exhausted();
      }
      assert seen + ([node.value] + Walk(data, end, iter.offset).0) == seen + [node.value] + Walk(data, end, iter.offset).0;
      CollectNext(seen, node.value);
      seen := seen + [node.value];
      var next := Gathered(f, node.value);
      if next.None? {
        CollectStaysRefused(seen, Walk(data, end, iter.offset).0);
        return None, false;
      }
      f := next.value;
    }
  }

  lemma CollectNothing()
    ensures Collect([]) == Some(Found(None, None, None))
  {
  }

  lemma NoDo87(p: Primitives, s: Session)
    requires Lawful(p) && Keyed(s)
    ensures Do87(p, s, []) == [] && Do87Len(s, 0) == 0
  {
  }

  lemma Do87Parts(p: Primitives, s: Session, data: Bytes)
    requires Lawful(p) && Keyed(s) && data != []
    ensures
      var padded := Pad(data, BlockSize(s.suite));
      && |padded| == PaddedLen(|data|, BlockSize(s.suite)) && Cipher.Whole(|padded|, BlockSize(s.suite))
      && Do87(p, s, data)
         == [DO_CRYPTOGRAM_PADDED] + EncodeLength(1 + |padded|) + [PADDING_INDICATOR] + SM.Encrypt(p, s, padded)
      && Do87Len(s, |data|) == 1 + EncodedLengthSize(1 + |padded|) + 1 + |padded|
  {
    hide SM.Encrypt, Pad, PaddedLen, Lawful, EncodeLength;
  }

  lemma Do97Parts(le: int)
    requires LeValid(le)
    ensures Do97(le) == if le == LE_NONE then []
                        else if le <= LE_MAX then [DO_LE, 1, if le == LE_MAX then 0x00 else le]
                        else [DO_LE, 2] + Be16(if le >= 65536 then 0 else le)
  {
  }

  lemma FourBytesPad(block: nat)
    requires block == 8 || block == 16
    ensures PaddedLen(4, block) == block
  {
  }
}
