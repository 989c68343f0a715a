/**
 * The chip's half of Secure Messaging, written independently of the reader's: its own reader of
 * commands and data objects, its own order of checks, its own envelope.
 */
module SimChip {
  import opened Bytes
  import opened Errors
  import opened Cipher
  import opened Mac
  import opened Cmac
  import opened Apdu
  import opened SecureMessaging

  const SW_OK := 0x9000
  const SW_WRONG_LENGTH := 0x6700
  const SW_SM_MISSING := 0x6987
  const SW_SM_INCORRECT := 0x6988

  /** A command taken apart on the chip's side; `le` is 0 when nothing was asked for. */
  datatype SimCommand = SimCommand(cla: byte, ins: byte, p1: byte, p2: byte, data: Bytes, le: nat)

  function ParseCommand(apdu: Bytes): Option<SimCommand> {
    if |apdu| < 4 then None
    else
      var bare := SimCommand(apdu[0], apdu[1], apdu[2], apdu[3], [], 0);
      if |apdu| == 4 then Some(bare)
      else if |apdu| == 5 then Some(bare.(le := if apdu[4] == 0 then 256 else apdu[4]))
      else
        var lc: nat := apdu[4];
        if lc == 0 || 5 + lc > |apdu| then None
        else
          var c := bare.(data := apdu[5..5 + lc]);
          if |apdu| == 5 + lc then Some(c)
          else if |apdu| == 6 + lc then Some(c.(le := if apdu[5 + lc] == 0 then 256 else apdu[5 + lc]))
          else None
  }

  /** The chip's view of a command that a reader of ISO/IEC 7816-4 would give. */
  function ViewOf(c: Command): SimCommand
    requires LeValid(c.le)
  {
    SimCommand(c.cla, c.ins, c.p1, c.p2, c.data, if c.le == LE_NONE then 0 else c.le)
  }

  /** For short commands the chip's parser is a reader of section 5.1 of ISO/IEC 7816-4. */
  lemma ParseReadsShortCommands(c: Command, outSize: nat)
    requires LeValid(c.le) && !Extended(c) && Needed(c) <= outSize
    ensures ParseCommand(Encode(c, outSize).value) == Some(ViewOf(c))
  {
    var out := Encode(c, outSize).value;
    assert out[..4] == Header(c);
    HeaderRead(c, out);
    assert out[4..] == ShortBody(c);
    assert forall i :: 4 <= i < |out| ==> out[i] == out[4..][i - 4];
    if |c.data| > 0 {
      assert out[5..5 + |c.data|] == out[4..][1..1 + |c.data|] == c.data;
    }
  }

  // ---- Data objects ------------------------------------------------------------------------

  /** One object with a one byte tag and a length of at most two bytes. */
  datatype Do = Do(tag: byte, start: nat, len: nat) {
    function End(): nat { start + len }
  }

  function ReadDo(data: Bytes, offset: nat): (r: Option<Do>)
    ensures r.Some? ==> offset + 2 <= r.value.start && r.value.End() <= |data|
  {
    if offset + 2 > |data| then None
    else
      var tag, first := data[offset], data[offset + 1];
      if first < 0x80 then
        if first > |data| - (offset + 2) then None else Some(Do(tag, offset + 2, first))
      else if first != 0x81 || offset + 2 >= |data| then None
      else
        var len := data[offset + 2];
        if len > |data| - (offset + 3) then None else Some(Do(tag, offset + 3, len))
  }

  function SimLength(len: nat): Bytes {
    if len < 0x80 then [len] else [0x81, len % 256]
  }

  function SimDo(tag: byte, value: Bytes): Bytes {
    [tag] + SimLength(|value|) + value
  }

  /** What has been picked out of a protected command so far. */
  datatype Picked = Picked(cryptogram: Option<Bytes>, le: nat, checksum: Option<Bytes>, covered: nat)

  /** Object by object until the checksum; None when something is not an object. */
  function Pick(data: Bytes, offset: nat, acc: Picked): Option<Picked>
    decreases |data| - offset
  {
    if offset >= |data| then Some(acc)
    else
      match ReadDo(data, offset)
      case None => None
      case Some(o) =>
        var value := data[o.start..o.End()];
        if o.tag == DO_MAC then Some(acc.(checksum := Some(value), covered := offset))
        else if o.tag == DO_CRYPTOGRAM_PADDED then Pick(data, o.End(), acc.(cryptogram := Some(value)))
        else if o.tag == DO_LE then
          Pick(data, o.End(), acc.(le := if o.len == 1 then if value[0] == 0 then 256 else value[0] else 0))
        else Pick(data, o.End(), acc)
  }

  // ---- The chip's own primitives -----------------------------------------------------------

  /** A zero block, overwritten for AES with the counter encrypted. */
  function SimIv(p: Primitives, s: Session): (iv: Bytes)
    requires Lawful(p) && Keyed(s)
    ensures |iv| == BlockSize(s.suite)
  {
    if s.suite != TripleDes then
      KeyedCiphers(p, s.ksEnc);
      OneBlock(p.aes(s.ksEnc), s.ssc);
      p.aes(s.ksEnc).enc(s.ssc)
    else Zeros(8)
  }

  function SimEncrypt(p: Primitives, s: Session, data: Bytes): (out: Bytes)
    requires Lawful(p) && Keyed(s) && Whole(|data|, BlockSize(s.suite))
    ensures |out| == |data|
  {
    TdesIsPermutation(p, s.ksEnc);
    KeyedCiphers(p, s.ksEnc);
    if s.suite == TripleDes then TdesSize(p, s.ksEnc); CbcEncrypt(Tdes(p, s.ksEnc), SimIv(p, s), data)
    else CbcEncrypt(p.aes(s.ksEnc), SimIv(p, s), data)
  }

  function SimDecrypt(p: Primitives, s: Session, data: Bytes): (out: Bytes)
    requires Lawful(p) && Keyed(s) && Whole(|data|, BlockSize(s.suite))
    ensures |out| == |data|
  {
    TdesIsPermutation(p, s.ksEnc);
    KeyedCiphers(p, s.ksEnc);
    if s.suite == TripleDes then TdesSize(p, s.ksEnc); CbcDecrypt(Tdes(p, s.ksEnc), SimIv(p, s), data)
    else CbcDecrypt(p.aes(s.ksEnc), SimIv(p, s), data)
  }

  function SimMac(p: Primitives, s: Session, m: Bytes): (mac: Bytes)
    requires Lawful(p) && Keyed(s)
    ensures |mac| == MAC_SIZE
  {
    var padded := Pad(m, BlockSize(s.suite));
    if s.suite == TripleDes then
      EightByteBlocks(|padded|);
      RetailMac(p, s.ksMac, padded)
    else
      KeyedCiphers(p, s.ksMac);
      AesCmac(p.aes(s.ksMac), padded)[..8]
  }

  /** The two sides encrypt, decrypt and checksum alike. */
  lemma SimCipherIsSession(p: Primitives, s: Session, data: Bytes)
    requires Lawful(p) && Keyed(s) && Whole(|data|, BlockSize(s.suite))
    ensures SimEncrypt(p, s, data) == Encrypt(p, s, data) && SimDecrypt(p, s, data) == Decrypt(p, s, data)
  {
    hide Lawful, Permutation, CbcEncrypt, CbcDecrypt, Tdes, Whole;
    KeyedCiphers(p, s.ksEnc);
    OneBlockOfCounter(p, s);
  }

  lemma OneBlockOfCounter(p: Primitives, s: Session)
    requires Lawful(p) && Keyed(s)
    ensures SimIv(p, s) == Iv(p, s)
  {
    hide Lawful, Permutation;
  }

  lemma SimMacIsChecksum(p: Primitives, s: Session, m: Bytes)
    requires Lawful(p) && Keyed(s)
    ensures SimMac(p, s, m) == Checksum(p, s, m)
  {
    hide Lawful, Permutation, Pad, PaddedLen, RetailMac, AesCmac;
  }

  // ---- A protected exchange ----------------------------------------------------------------

  /** What the chip runs once a command is in the clear: its state moves, and it answers. */
  type Application<!A> = (A, SimCommand) -> (A, Response)

  datatype Handled<A> = Handled(session: Session, app: A, body: Bytes, sw: nat)

  /** The command inside the envelope, or the status word that refuses it. `s` is stepped. */
  function Unwrap(p: Primitives, s: Session, c: SimCommand): (r: (nat, Option<SimCommand>))
    requires Lawful(p) && Keyed(s)
  {
    match Pick(c.data, 0, Picked(None, 0, None, 0))
    case None => (SW_SM_INCORRECT, None)
    case Some(o) =>
      if o.checksum.None? || |o.checksum.value| != MAC_SIZE || o.covered > |c.data| then (SW_SM_MISSING, None)
      else
        var block := BlockSize(s.suite);
        var input := s.ssc + Pad([c.cla, c.ins, c.p1, c.p2], block) + c.data[..o.covered];
        if SimMac(p, s, input) != o.checksum.value then (SW_SM_INCORRECT, None)
        else
          var inner := SimCommand(ClearSm(c.cla), c.ins, c.p1, c.p2, [], o.le);
          match o.cryptogram
          case None => (SW_OK, Some(inner))
          case Some(x) =>
            if |x| < 2 || x[0] != PADDING_INDICATOR || !Whole(|x| - 1, block) || |x| - 1 > APDU_MAX_SIZE then
              (SW_SM_INCORRECT, None)
            else
              match Unpad(SimDecrypt(p, s, x[1..]))
              case None => (SW_SM_INCORRECT, None)
              case Some(plain) => (SW_OK, Some(inner.(data := plain)))
  }

  /** The objects of an answer that the checksum covers. */
  function AnswerObjects(p: Primitives, s: Session, answer: Response): Bytes
    requires Lawful(p) && Keyed(s) && answer.sw <= 0xFFFF
  {
    (if answer.data == [] then []
     else SimDo(DO_CRYPTOGRAM_PADDED, [PADDING_INDICATOR] + SimEncrypt(p, s, Pad(answer.data, BlockSize(s.suite)))))
    + SimDo(DO_STATUS, Be16(answer.sw))
  }

  /** Room for the cryptogram of an answer, as the chip checks it. */
  predicate CryptogramFits(s: Session, dataLen: nat) {
    dataLen == 0 || 3 + PaddedLen(dataLen, BlockSize(s.suite)) <= APDU_MAX_SIZE
  }

  function Sealed(p: Primitives, s: Session, objects: Bytes): Bytes
    requires Lawful(p) && Keyed(s)
  {
    objects + SimDo(DO_MAC, SimMac(p, s, s.ssc + objects))
  }

  /** The answer wrapped under the stepped counter, or 6700 when it has outgrown the buffer. */
  function Wrap(p: Primitives, s: Session, answer: Response): (Bytes, nat)
    requires Lawful(p) && Keyed(s) && answer.sw <= 0xFFFF
  {
    if !CryptogramFits(s, |answer.data|) then ([], SW_WRONG_LENGTH)
    else if |AnswerObjects(p, s, answer)| + 10 > APDU_MAX_SIZE then ([], SW_WRONG_LENGTH)
    else (Sealed(p, s, AnswerObjects(p, s, answer)), SW_OK)
  }

  function HandleProtected<A>(p: Primitives, run: Application<A>, s: Session, app: A, c: SimCommand): Handled<A>
    requires Lawful(p) && Keyed(s)
  {
    if !s.established then Handled(s, app, [], SW_SM_MISSING)
    else
      var s1 := Step(s);
      var (sw, inner) := Unwrap(p, s1, c);
      if inner.None? then Handled(s1, app, [], sw)
      else
        var (app1, answer) := run(app, inner.value);
        var s2 := Step(s1);
        var (body, outer) := Wrap(p, s2, answer.(sw := answer.sw % 0x10000));
        Handled(s2, app1, body, outer)
  }

  /** The port: what goes back over the wire for one APDU of a chip whose session is open. */
  function Transceive<A>(p: Primitives, run: Application<A>, s: Session, app: A, tx: Bytes): (Session, A, Bytes)
    requires Lawful(p) && Keyed(s)
  {
    match ParseCommand(tx)
    case None => (s, app, Be16(SW_WRONG_LENGTH))
    case Some(c) =>
      if c.cla / 4 % 4 == 0 then (s, app, Be16(SW_SM_MISSING))
      else
        var h := HandleProtected(p, run, s, app, c);
        (h.session, h.app, h.body + Be16(h.sw % 0x10000))
  }
}
