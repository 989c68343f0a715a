/**
 * Secure Messaging, ICAO Doc 9303 part 11 section 9.8: the reader's side as functions of the
 * session. The object in SmReader is proved to compute these.
 */
module SecureMessaging {
  import opened Bytes
  import opened Errors
  import opened Numbers
  import opened Tlv
  import opened Cipher
  import opened Mac
  import opened Cmac
  import opened Apdu

  datatype Suite = TripleDes | Aes128 | Aes192 | Aes256

  function BlockSize(suite: Suite): nat {
    if suite == TripleDes then 8 else 16
  }

  function KeySize(suite: Suite): nat {
    match suite
    case TripleDes => 16
    case Aes128 => 16
    case Aes192 => 24
    case Aes256 => 32
  }

  datatype Session = Session(suite: Suite, ksEnc: Bytes, ksMac: Bytes, ssc: Bytes, established: bool)

  predicate Keyed(s: Session) {
    |s.ksEnc| == |s.ksMac| == KeySize(s.suite) && |s.ssc| == BlockSize(s.suite)
  }

  /** What is left of a session that has been wiped. */
  function NoSession(): (s: Session)
    ensures Keyed(s) && !s.established
  {
    Session(TripleDes, Zeros(16), Zeros(16), Zeros(8), false)
  }

  function Step(s: Session): (t: Session)
    ensures Keyed(s) ==> Keyed(t)
  {
    s.(ssc := Inc(s.ssc))
  }

  const DO_CRYPTOGRAM_PADDED: byte := 0x87
  const DO_CRYPTOGRAM_PLAIN: byte := 0x85
  const DO_LE: byte := 0x97
  const DO_STATUS: byte := 0x99
  const DO_MAC: byte := 0x8E
  const PADDING_INDICATOR: byte := 0x01
  const MAC_SIZE := 8
  const PAYLOAD_MAX := APDU_MAX_SIZE - 6
  const MAC_INPUT_MAX := 2 * 16 + APDU_MAX_SIZE + 16

  // ---- The keyed operations ----------------------------------------------------------------

  /** The cipher of the session's confidentiality. */
  function Encryption(p: Primitives, s: Session): (c: BlockCipher)
    requires Lawful(p) && Keyed(s)
    ensures Permutation(c) && c.size == BlockSize(s.suite)
  {
    if s.suite == TripleDes then
      TdesIsPermutation(p, s.ksEnc);
      Tdes(p, s.ksEnc)
    else
      KeyedCiphers(p, s.ksEnc);
      p.aes(s.ksEnc)
  }

  /** Zero for triple DES; for AES the counter encrypted, in both directions. */
  function Iv(p: Primitives, s: Session): (iv: Bytes)
    requires Lawful(p) && Keyed(s)
    ensures |iv| == BlockSize(s.suite)
  {
    if s.suite == TripleDes then Zeros(8)
    else
      KeyedCiphers(p, s.ksEnc);
      OneBlock(p.aes(s.ksEnc), s.ssc);
      p.aes(s.ksEnc).enc(s.ssc)
  }

  function Encrypt(p: Primitives, s: Session, plain: Bytes): (out: Bytes)
    requires Lawful(p) && Keyed(s) && Whole(|plain|, BlockSize(s.suite))
    ensures |out| == |plain|
  {
    CbcEncrypt(Encryption(p, s), Iv(p, s), plain)
  }

  function Decrypt(p: Primitives, s: Session, data: Bytes): (out: Bytes)
    requires Lawful(p) && Keyed(s) && Whole(|data|, BlockSize(s.suite))
    ensures |out| == |data|
  {
    CbcDecrypt(Encryption(p, s), Iv(p, s), data)
  }

  lemma DecryptInverts(p: Primitives, s: Session, plain: Bytes)
    requires Lawful(p) && Keyed(s) && Whole(|plain|, BlockSize(s.suite))
    ensures Decrypt(p, s, Encrypt(p, s, plain)) == plain
  {
    CbcRoundTrip(Encryption(p, s), Iv(p, s), plain);
  }

  /** The checksum of the suite over a message that is padded first, for both families. */
  function Checksum(p: Primitives, s: Session, m: Bytes): (mac: Bytes)
    requires Lawful(p) && Keyed(s)
    ensures |mac| == MAC_SIZE
  {
    if s.suite == TripleDes then
      EightByteBlocks(PaddedLen(|m|, 8));
      RetailMac(p, s.ksMac, Pad(m, 8))
    else
      KeyedCiphers(p, s.ksMac);
      AesCmac(p.aes(s.ksMac), Pad(m, 16))[..8]
  }

  // ---- A protected command -----------------------------------------------------------------

  /** The class byte with the Secure Messaging bits 0C set, and with them cleared. */
  function SetSm(cla: byte): byte {
    cla - (cla / 4 % 4) * 4 + 0x0C
  }

  function ClearSm(cla: byte): byte {
    cla - (cla / 4 % 4) * 4
  }

  function Do87Len(s: Session, dataLen: nat): nat {
    if dataLen == 0 then 0
    else
      var valueLen := 1 + PaddedLen(dataLen, BlockSize(s.suite));
      1 + EncodedLengthSize(valueLen) + valueLen
  }

  function Do97Len(le: int): nat {
    if le == LE_NONE then 0 else if le <= LE_MAX then 3 else 4
  }

  function PayloadLen(s: Session, c: Command): nat {
    Do87Len(s, |c.data|) + Do97Len(c.le) + 2 + MAC_SIZE
  }

  /** DO'87': the data padded and encrypted behind the padding indicator. */
  function Do87(p: Primitives, s: Session, data: Bytes): Bytes
    requires Lawful(p) && Keyed(s)
  {
    if data == [] then []
    else Object(DO_CRYPTOGRAM_PADDED, [PADDING_INDICATOR] + Encrypt(p, s, Pad(data, BlockSize(s.suite))))
  }

  function Do97(le: int): Bytes
    requires LeValid(le)
  {
    if le == LE_NONE then []
    else if le <= LE_MAX then Object(DO_LE, [if le == LE_MAX then 0 else le])
    else Object(DO_LE, Be16(if le >= 65536 then 0 else le))
  }

  function Objects(p: Primitives, s: Session, c: Command): Bytes
    requires Lawful(p) && Keyed(s) && LeValid(c.le)
  {
    Do87(p, s, c.data) + Do97(c.le)
  }

  /** What the checksum of a command covers: the counter, the padded header, the objects. */
  function CommandMacInput(s: Session, header: Bytes, objects: Bytes): Bytes {
    s.ssc + Pad(header, BlockSize(s.suite)) + objects
  }

  /** The envelope of a command under the session `s`, whose counter has been stepped. */
  function Envelope(p: Primitives, s: Session, c: Command): (e: Command)
    requires Lawful(p) && Keyed(s) && LeValid(c.le)
  {
    var outer := Command(SetSm(c.cla), c.ins, c.p1, c.p2, [], LE_MAX);
    var objects := Objects(p, s, c);
    var mac := Checksum(p, s, CommandMacInput(s, Header(outer), objects));
    outer.(data := objects + Object(DO_MAC, mac))
  }

  /** Why a command is refused before anything happens, if it is. */
  function Refusal(s: Session, c: Command, outSize: nat): Option<Error> {
    if !s.established then Some(SecureMessaging)
    else if !LeValid(c.le) then Some(InvalidInput)
    else if PayloadLen(s, c) > PAYLOAD_MAX then Some(BufferTooSmall)
    else
      var block := BlockSize(s.suite);
      var macInputLen := block + block + Do87Len(s, |c.data|) + Do97Len(c.le);
      if PaddedLen(macInputLen, block) > MAC_INPUT_MAX then Some(BufferTooSmall)
      else if 4 + 1 + PayloadLen(s, c) + 1 > outSize then Some(BufferTooSmall)
      else None
  }

  function Protect(p: Primitives, s: Session, c: Command, outSize: nat): (Session, Result<Bytes>)
    requires Lawful(p) && Keyed(s)
  {
    match Refusal(s, c, outSize)
    case Some(e) => (s, Err(e))
    case None => (Step(s), Encode(Envelope(p, Step(s), c), outSize))
  }

  lemma ObjectLengths(p: Primitives, s: Session, c: Command)
    requires Lawful(p) && Keyed(s) && LeValid(c.le)
    ensures |Do87(p, s, c.data)| == Do87Len(s, |c.data|) && |Do97(c.le)| == Do97Len(c.le)
    ensures |Objects(p, s, c)| == Do87Len(s, |c.data|) + Do97Len(c.le)
  {
    hide Encrypt, Pad, PaddedLen;
  }

  lemma EnvelopeLength(p: Primitives, s: Session, c: Command)
    requires Lawful(p) && Keyed(s) && LeValid(c.le)
    ensures |Envelope(p, s, c).data| == PayloadLen(s, c)
  {
    hide Checksum, Objects, Do87Len, Do97Len;
    ObjectLengths(p, s, c);
  }

  /**
   * All or nothing. A refusal leaves the session as it was; and once the counter has moved nothing
   * can refuse any more: the checksum's buffer and the encoder always have the room.
   */
  lemma ProtectAllOrNothing(p: Primitives, s: Session, c: Command, outSize: nat)
    requires Lawful(p) && Keyed(s)
    ensures
      var (t, r) := Protect(p, s, c, outSize);
      && (r.Err? ==> t == s)
      && (r.Ok? ==> t.ssc == Inc(s.ssc) && t == s.(ssc := t.ssc)
                    && |r.value| == 4 + 1 + PayloadLen(s, c) + 1 <= Min(outSize, 256))
      && (r.Ok? <==> s.established && LeValid(c.le) && PayloadLen(s, c) <= 250
                     && 4 + 1 + PayloadLen(s, c) + 1 <= outSize)
  {
    hide Checksum, Objects, Do87Len, Do97Len;
    if s.established && LeValid(c.le) {
      EnvelopeLength(p, Step(s), c);
      assert PayloadLen(Step(s), c) == PayloadLen(s, c) by { LengthsIgnoreCounter(s, c); }
    }
  }

  /** Why a command is not protected: no session, an Le that is none, or want of room, in this order. */
  lemma RefusedAs(p: Primitives, s: Session, c: Command, outSize: nat)
    requires Lawful(p) && Keyed(s)
    ensures
      var r := Protect(p, s, c, outSize).1;
      r.Err? ==> r.error == if !s.established then SecureMessaging
                            else if !(c.le == -1 || 1 <= c.le <= 65536) then InvalidInput else BufferTooSmall
  {
    hide Lawful, Envelope, Encode, Do87Len, Do97Len;
    ProtectAllOrNothing(p, s, c, outSize);
  }

  // ---- In bytes ----------------------------------------------------------------------------

  /** A length in its two shortest forms. */
  function LengthBytes(n: nat): Bytes {
    if n < 0x80 then [n] else [0x81, n % 256]
  }

  /** DO'87' in bytes: what is encrypted is padded, and 01 in front says so. */
  function SealedBytes(p: Primitives, t: Session, data: Bytes): Bytes
    requires Lawful(p) && Keyed(t)
  {
    if data == [] then []
    else
      var sealed := Encrypt(p, t, Pad(data, BlockSize(t.suite)));
      [0x87] + LengthBytes(1 + |sealed|) + [0x01] + sealed
  }

  /** DO'97' in bytes: 256 is one zero, 65536 two of them. */
  function LeBytes(le: int): Bytes {
    if le < 0 then []
    else if le <= 256 then [0x97, 0x01, le % 256]
    else [0x97, 0x02, le / 256 % 256, le % 256]
  }

  /** A header that is checksummed is filled up to a block: 80 and three zeros, or 80 and eleven. */
  function FilledHeader(suite: Suite, h: Bytes): Bytes {
    h + [0x80] + Zeros(if suite == TripleDes then 3 else 11)
  }

  lemma SealedIs(p: Primitives, t: Session, data: Bytes)
    requires Lawful(p) && Keyed(t) && Do87Len(t, |data|) <= PAYLOAD_MAX
    ensures Do87(p, t, data) == SealedBytes(p, t, data)
  {
    hide Lawful, Encrypt, Pad, PaddedLen;
  }

  lemma LeIs(le: int)
    requires LeValid(le)
    ensures Do97(le) == LeBytes(le)
  {
  }

  lemma FilledIs(suite: Suite, h: Bytes)
    requires |h| == 4
    ensures Pad(h, BlockSize(suite)) == FilledHeader(suite, h)
  {
  }

  /** What is sent of a command under Secure Messaging, behind its header and length. */
  function PayloadInBytes(p: Primitives, t: Session, c: Command): Bytes
    requires Lawful(p) && Keyed(t)
  {
    var head: Bytes := [c.cla - c.cla / 4 % 4 * 4 + 0x0C, c.ins, c.p1, c.p2];
    var objects := SealedBytes(p, t, c.data) + LeBytes(c.le);
    objects + [0x8E, 0x08] + Checksum(p, t, t.ssc + FilledHeader(t.suite, head) + objects)
  }

  lemma EnvelopeInBytes(p: Primitives, t: Session, c: Command)
    requires Lawful(p) && Keyed(t) && LeValid(c.le) && PayloadLen(t, c) <= PAYLOAD_MAX
    ensures
      var e := Envelope(p, t, c);
      && Header(e) == [c.cla - c.cla / 4 % 4 * 4 + 0x0C, c.ins, c.p1, c.p2]
      && e.data == PayloadInBytes(p, t, c) && e.le == 256
  {
    hide Lawful, Checksum, Pad, Do87, Do97, Do87Len, Do97Len, SealedBytes, LeBytes, FilledHeader;
    SealedIs(p, t, c.data);
    LeIs(c.le);
    FilledIs(t.suite, Header(Envelope(p, t, c)));
    var e := Envelope(p, t, c);
    var mac := Checksum(p, t, t.ssc + FilledHeader(t.suite, Header(e)) + Objects(p, t, c));
    assert Object(DO_MAC, mac) == [0x8E, 0x08] + mac;
  }

  /**
   * A protected command byte by byte, as section 9.8 of ICAO Doc 9303 part 11 lays it out: the class byte
   * with 0C, the header as it was, the objects, their checksum over counter, filled header and objects, and
   * an Le of one zero, which leaves the chip all the room it may need.
   */
  lemma ProtectedInBytes(p: Primitives, s: Session, c: Command, outSize: nat)
    requires Lawful(p) && Keyed(s) && Protect(p, s, c, outSize).1.Ok?
    ensures
      var payload := PayloadInBytes(p, Step(s), c);
      && |payload| <= 250
      && Protect(p, s, c, outSize).1.value
         == [c.cla - c.cla / 4 % 4 * 4 + 0x0C, c.ins, c.p1, c.p2] + [|payload|] + payload + [0x00]
    ensures
      var read := Read7816(Protect(p, s, c, outSize).1.value);
      && read.Some? && read.value.le == 256 && read.value.cla / 4 % 4 == 3
      && read.value.ins == c.ins && read.value.p1 == c.p1 && read.value.p2 == c.p2
  {
    hide Lawful, Inc, PayloadInBytes, Envelope, Read7816, Encode, Do87Len, Do97Len, SetSm;
    ProtectAllOrNothing(p, s, c, outSize);
    LengthsIgnoreCounter(s, c);
    var e := Envelope(p, Step(s), c);
    EnvelopeInBytes(p, Step(s), c);
    EnvelopeLength(p, Step(s), c);
    EncodeRoundTrip(e, outSize);
    FullShort(e, outSize);
    SameHeader(e, c.cla - c.cla / 4 % 4 * 4 + 0x0C, c.ins, c.p1, c.p2);
    ClassBitsSet(c.cla);
  }

  lemma SameHeader(e: Command, cla: byte, ins: byte, p1: byte, p2: byte)
    requires Header(e) == [cla, ins, p1, p2]
    ensures e.cla == cla && e.ins == ins && e.p1 == p1 && e.p2 == p2
  {
  }

  /** A short command with data that asks for 256 bytes. */
  lemma FullShort(e: Command, outSize: nat)
    requires 0 < |e.data| <= 0xFF && e.le == 256 && Encode(e, outSize).Ok?
    ensures Encode(e, outSize).value == Header(e) + [|e.data|] + e.data + [0x00]
  {
  }

  lemma ClassBitsSet(cla: byte)
    ensures (cla - cla / 4 % 4 * 4 + 0x0C) / 4 % 4 == 3
  {
    var q, low: nat := cla / 4, cla % 4;
    var high: nat := q / 4;
    assert cla == 4 * q + low && q == 4 * high + q % 4;
    assert cla - cla / 4 % 4 * 4 + 0x0C == 4 * (4 * high + 3) + low;
  }

  lemma LengthsIgnoreCounter(s: Session, c: Command)
    ensures PayloadLen(Step(s), c) == PayloadLen(s, c)
  {
  }

  /** The worst case growth a caller budgets for. */
  function CommandOverhead(s: Session, dataLen: nat): int {
    if !s.established then 0
    else if dataLen == 0 then 3 + 2 + MAC_SIZE
    else
      var valueLen := 1 + PaddedLen(dataLen, BlockSize(s.suite));
      (1 + EncodedLengthSize(valueLen) + valueLen - dataLen) + 3 + 2 + MAC_SIZE
  }

  /** For an Le of 1 to 256 the data field grows by exactly that overhead. */
  lemma OverheadExact(p: Primitives, s: Session, c: Command, outSize: nat)
    requires Lawful(p) && Keyed(s) && 1 <= c.le <= 256
    ensures
      var r := Protect(p, s, c, outSize).1;
      r.Ok? ==> exists e :: Read7816(r.value) == Some(e) && |e.data| == |c.data| + CommandOverhead(s, |c.data|)
                            && e.le == 256 && e.ins == c.ins && e.p1 == c.p1 && e.p2 == c.p2
  {
    hide Checksum, Objects, PaddedLen;
    var (t, r) := Protect(p, s, c, outSize);
    if r.Ok? {
      EnvelopeLength(p, t, c);
      EncodeRoundTrip(Envelope(p, t, c), outSize);
      assert Read7816(r.value) == Some(Envelope(p, t, c));
    }
  }

  // ---- A protected response ----------------------------------------------------------------

  /** The objects of a response that matter, each at most once. */
  datatype Found = Found(cryptogram: Option<Node>, status: Option<Node>, checksum: Option<Node>)

  /** Add one object to what has been picked out; None when its place is taken. */
  function Gathered(f: Found, n: Node): Option<Found> {
    if n.tag == DO_CRYPTOGRAM_PADDED as int || n.tag == DO_CRYPTOGRAM_PLAIN as int then
      if f.cryptogram.Some? then None else Some(f.(cryptogram := Some(n)))
    else if n.tag == DO_STATUS as int then
      if f.status.Some? then None else Some(f.(status := Some(n)))
    else if n.tag == DO_MAC as int then
      if f.checksum.Some? then None else Some(f.(checksum := Some(n)))
    else Some(f)
  }

  /** Pick the objects out in order; None when one of them comes twice. */
  function Collect(nodes: seq<Node>): Option<Found> {
    if nodes == [] then Some(Found(None, None, None))
    else
      var n := nodes[|nodes| - 1];
      match Collect(nodes[..|nodes| - 1])
      case None => None
      case Some(f) => Gathered(f, n)
  }

  /** Where the ciphertext lies, once the padding indicator has been looked at. */
  function Ciphertext(response: Bytes, n: Node, block: nat): Option<(nat, nat)>
    requires n.End() <= |response| && (block == 8 || block == 16)
  {
    if n.tag == DO_CRYPTOGRAM_PADDED as int && (n.valueLen < 1 || response[n.valueStart] != PADDING_INDICATOR) then None
    else
      var skip := if n.tag == DO_CRYPTOGRAM_PADDED as int then 1 else 0;
      var len := n.valueLen - skip;
      if len == 0 || !Whole(len, block) then None else Some((n.valueStart + skip, len))
  }

  /** A response laid out: the bytes covered, the checksum, the ciphertext, and the status word. */
  datatype Layout = Layout(covered: nat, mac: Bytes, cipher: Option<(nat, nat)>, sw: nat)

  /** Everything that is decided before the counter moves. */
  function Inspect(response: Bytes, block: nat, outSize: nat): (r: Result<Layout>)
    requires block == 8 || block == 16
    ensures r.Ok? ==> r.value.covered <= |response| && |r.value.mac| == MAC_SIZE
    ensures r.Ok? && r.value.cipher.Some? ==>
      r.value.cipher.value.0 + r.value.cipher.value.1 <= |response| && Whole(r.value.cipher.value.1, block)
  {
    if |response| < 2 || |response| > APDU_MAX_SIZE then Err(SecureMessaging)
    else
      var end := |response| - 2;
      var outer := StatusWord(response[end], response[end + 1]);
      var (nodes, exhausted) := Walk(response, end, 0);
      WalkInside(response, end, 0);
      CollectedAreNodes(nodes);
      match Collect(nodes)
      case None => Err(SecureMessaging)
      case Some(f) =>
        if !exhausted then Err(SecureMessaging)
        else if f.checksum.None? then Err(if outer == 0x9000 then SecureMessaging else FromSw(outer).value)
        else if f.checksum.value.valueLen != MAC_SIZE || f.checksum.value.End() != end then Err(SecureMessaging)
        else if f.status.Some? && f.status.value.valueLen != 2 then Err(SecureMessaging)
        else
          var n := f.checksum.value;
          var mac := response[n.valueStart..n.End()];
          var sw := if f.status.Some? then
                      StatusWord(response[f.status.value.valueStart], response[f.status.value.valueStart + 1])
                    else outer;
          if f.cryptogram.None? then Ok(Layout(n.start, mac, None, sw))
          else
            match Ciphertext(response, f.cryptogram.value, block)
            case None => Err(SecureMessaging)
            case Some((at, len)) =>
              if len > outSize then Err(BufferTooSmall)
              else Ok(Layout(n.start, mac, Some((at, len)), sw))
  }

  /** Which objects count: '87' or '85', '99' and '8E', each once; any other is passed over. */
  lemma ObjectsInNumbers(f: Found, n: Node)
    ensures n.tag in {0x85, 0x87} ==> Gathered(f, n) == if f.cryptogram.Some? then None else Some(f.(cryptogram := Some(n)))
    ensures n.tag == 0x99 ==> Gathered(f, n) == if f.status.Some? then None else Some(f.(status := Some(n)))
    ensures n.tag == 0x8E ==> Gathered(f, n) == if f.checksum.Some? then None else Some(f.(checksum := Some(n)))
    ensures n.tag !in {0x85, 0x87, 0x8E, 0x99} ==> Gathered(f, n) == Some(f)
  {
  }

  /** The ciphertext is all of an '85', and all of an '87' behind its 01; whole blocks, and at least one. */
  lemma CiphertextInNumbers(response: Bytes, n: Node, block: nat)
    requires n.End() <= |response| && (block == 8 || block == 16) && n.tag in {0x85, 0x87}
    ensures n.tag == 0x85 ==>
      Ciphertext(response, n, block)
      == if n.valueLen > 0 && n.valueLen % block == 0 then Some((n.valueStart, n.valueLen)) else None
    ensures n.tag == 0x87 ==>
      Ciphertext(response, n, block)
      == if n.valueLen > 1 && response[n.valueStart] == 0x01 && (n.valueLen - 1) % block == 0 then
           Some((n.valueStart + 1, n.valueLen - 1))
         else None
  {
  }

  /** Exactly these responses reach their checksum: everything that is looked at before the counter moves is in order. */
  lemma InspectExact(response: Bytes, block: nat, outSize: nat)
    requires block == 8 || block == 16
    ensures Inspect(response, block, outSize).Ok? <==>
      && 2 <= |response| <= 256
      && var (nodes, exhausted) := Walk(response, |response| - 2, 0);
         && exhausted && Collect(nodes).Some?
         && var f := Collect(nodes).value;
            && f.checksum.Some? && f.checksum.value.valueLen == 8 && f.checksum.value.End() == |response| - 2
            && (f.status.Some? ==> f.status.value.valueLen == 2)
            && (f.cryptogram.Some? ==>
                  && f.cryptogram.value.End() <= |response|
                  && Ciphertext(response, f.cryptogram.value, block).Some?
                  && Ciphertext(response, f.cryptogram.value, block).value.1 <= outSize)
    ensures
      2 <= |response| <= 256 ==>
        var outer := StatusWord(response[|response| - 2], response[|response| - 1]);
        var (nodes, exhausted) := Walk(response, |response| - 2, 0);
        exhausted && Collect(nodes).Some? && Collect(nodes).value.checksum.None? ==>
          Inspect(response, block, outSize) == Err(if outer == 0x9000 then SecureMessaging else FromSw(outer).value)
    ensures Inspect(response, block, outSize).Err? ==>
      Inspect(response, block, outSize).error in {SecureMessaging, BufferTooSmall}
      || (|response| >= 2 && FromSw(StatusWord(response[|response| - 2], response[|response| - 1]))
                             == Some(Inspect(response, block, outSize).error))
  {
    hide Ciphertext, Collect, Walk;
    if |response| >= 2 {
      WalkInside(response, |response| - 2, 0);
      CollectedAreNodes(Walk(response, |response| - 2, 0).0);
    }
  }

  lemma {:induction false} WalkInside(data: Bytes, end: nat, offset: nat)
    requires end <= |data|
    ensures forall n :: n in Walk(data, end, offset).0 ==> n.start < n.valueStart <= n.End() <= end
    decreases end - offset
  {
    if offset < end && ReadNode(data, end, offset).Some? {
      WalkInside(data, end, ReadNode(data, end, offset).value.End());
    }
  }

  lemma {:induction false} CollectedAreNodes(nodes: seq<Node>)
    ensures Collect(nodes).Some? ==>
      var f := Collect(nodes).value;
      && (f.cryptogram.Some? ==> f.cryptogram.value in nodes)
      && (f.status.Some? ==> f.status.value in nodes)
      && (f.checksum.Some? ==> f.checksum.value in nodes && f.checksum.value.tag == DO_MAC as int)
    decreases |nodes|
  {
    if nodes != [] {
      CollectedAreNodes(nodes[..|nodes| - 1]);
    }
  }

  /** Everything up to the checksum, after which the plaintext may be written. */
  function Verify(p: Primitives, s: Session, response: Bytes, outSize: nat): (Session, Result<Layout>)
    requires Lawful(p) && Keyed(s)
  {
    if !s.established then (s, Err(SecureMessaging))
    else
      match Inspect(response, BlockSize(s.suite), outSize)
      case Err(e) => (s, Err(e))
      case Ok(l) =>
        var t := Step(s);
        (t, if Checksum(p, t, t.ssc + response[..l.covered]) == l.mac then Ok(l) else Err(SecureMessaging))
  }

  function Deliver(p: Primitives, t: Session, response: Bytes, l: Layout): Result<Response>
    requires Lawful(p) && Keyed(t)
    requires l.cipher.Some? ==>
      l.cipher.value.0 + l.cipher.value.1 <= |response| && Whole(l.cipher.value.1, BlockSize(t.suite))
  {
    if l.cipher.None? then Ok(Response([], l.sw))
    else
      var (at, len) := l.cipher.value;
      match Unpad(Decrypt(p, t, response[at..at + len]))
      case None => Err(SecureMessaging)
      case Some(plain) => Ok(Response(plain, l.sw))
  }

  function Unprotect(p: Primitives, s: Session, response: Bytes, outSize: nat): (Session, Result<Response>)
    requires Lawful(p) && Keyed(s)
  {
    var (t, verified) := Verify(p, s, response, outSize);
    match verified
    case Err(e) => (t, Err(e))
    case Ok(l) => (t, Deliver(p, t, response, l))
  }

  /**
   * Why an answer is not accepted, and what becomes of the counter: it moves exactly when a session is there
   * and the answer reaches its checksum, and what fails from there on is the session's failure.
   */
  lemma RejectedAs(p: Primitives, s: Session, response: Bytes, outSize: nat)
    requires Lawful(p) && Keyed(s)
    ensures
      var (t, r) := Unprotect(p, s, response, outSize);
      var inspected := Inspect(response, BlockSize(s.suite), outSize);
      if !s.established then t == s && r == Err(SecureMessaging)
      else if inspected.Err? then t == s && r == Err(inspected.error)
      else t == Step(s) && (r.Err? ==> r.error == SecureMessaging)
  {
    hide Lawful, Checksum, Decrypt, Unpad, Inspect;
  }

  /** `n` is the last object before the status word and holds the checksum over all before it. */
  ghost predicate Authenticates(p: Primitives, t: Session, response: Bytes, n: Node)
    requires Lawful(p) && Keyed(t) && |response| >= 2
  {
    && n.tag == DO_MAC as int && n.start < n.valueStart && n.End() == |response| - 2
    && ReadNode(response, |response| - 2, n.start) == Some(n)
    && response[n.valueStart..n.End()] == Checksum(p, t, t.ssc + response[..n.start])
  }

  /**
   * What acceptance means, for any bytes at all that arrive: they are covered bytes, then the one
   * DO'8E' there is, then the outer status word; and that object holds the checksum taken over the
   * stepped counter and every covered byte.
   */
  lemma AcceptedMeansAuthenticated(p: Primitives, s: Session, response: Bytes, outSize: nat)
    requires Lawful(p) && Keyed(s)
    ensures
      var (t, r) := Unprotect(p, s, response, outSize);
      r.Ok? ==>
        && s.established && t == Step(s) && 2 <= |response| <= 256
        && var nodes := Walk(response, |response| - 2, 0).0;
           exists n :: n in nodes && Authenticates(p, t, response, n)
                       && forall m :: m in nodes && m.tag == DO_MAC as int ==> m == n
  {
    hide Checksum, Decrypt, Unpad, Ciphertext, Inspect, Walk, Collect;
    var (t, r) := Unprotect(p, s, response, outSize);
    if r.Ok? {
      AcceptedLayout(response, BlockSize(s.suite), outSize);
      var nodes := Walk(response, |response| - 2, 0).0;
      var n := Collect(nodes).value.checksum.value;
      assert Authenticates(p, t, response, n);
    }
  }

  lemma AcceptedLayout(response: Bytes, block: nat, outSize: nat)
    requires block == 8 || block == 16
    requires Inspect(response, block, outSize).Ok?
    ensures 2 <= |response| <= APDU_MAX_SIZE
    ensures
      var end := |response| - 2;
      var nodes := Walk(response, end, 0).0;
      var l := Inspect(response, block, outSize).value;
      && Collect(nodes).Some? && Collect(nodes).value.checksum.Some?
      && var n := Collect(nodes).value.checksum.value;
         && n in nodes && n.tag == DO_MAC as int && n.start < n.valueStart && n.End() == end
         && ReadNode(response, end, n.start) == Some(n)
         && l.covered == n.start && l.mac == response[n.valueStart..n.End()]
         && forall m :: m in nodes && m.tag == DO_MAC as int ==> m == n
  {
    hide Ciphertext, Walk, Collect;
    var end := |response| - 2;
    var nodes := Walk(response, end, 0).0;
    WalkInside(response, end, 0);
    WalkReads(response, end, 0);
    CollectedAreNodes(nodes);
    OneChecksum(nodes);
  }

  lemma {:induction false} OneChecksum(nodes: seq<Node>)
    requires Collect(nodes).Some?
    ensures forall m :: m in nodes && m.tag == DO_MAC as int ==> Collect(nodes).value.checksum == Some(m)
    decreases |nodes|
  {
    if nodes != [] {
      var k := |nodes| - 1;
      OneChecksum(nodes[..k]);
      assert forall m :: m in nodes <==> m in nodes[..k] || m == nodes[k] by {
        assert nodes == nodes[..k] + [nodes[k]];
      }
    }
  }

  lemma {:induction false} WalkReads(data: Bytes, end: nat, offset: nat)
    requires end <= |data|
    ensures forall n :: n in Walk(data, end, offset).0 ==> ReadNode(data, end, n.start) == Some(n)
    decreases end - offset
  {
    if offset < end && ReadNode(data, end, offset).Some? {
      WalkReads(data, end, ReadNode(data, end, offset).value.End());
    }
  }
}
