/**
 * The chip while access to it is being negotiated: its half of BAC and of PACE, and the port that
 * commands reach it through before a session exists.
 */
module AccessChip {
  import opened Bytes
  import opened Errors
  import opened Numbers
  import opened Cipher
  import opened Mac
  import opened Cmac
  import opened Apdu
  import opened SecureMessaging
  import opened SimChip
  import opened Digests

  const SW_CONDITIONS := 0x6985
  const SW_WRONG_PARAMETERS := 0x6A80
  const SW_AUTH_FAILED := 0x6300
  const SW_NOT_SUPPORTED := 0x6D00
  const SW_TRIES_LEFT := 0x63C2

  // ---- The curve ---------------------------------------------------------------------------

  /**
   * Points other than the one at infinity, multiplication by a scalar from 1 to one below the order,
   * the generic mapping s * G + H (none when that is the point at infinity), and how points travel.
   */
  datatype Curve<!G> = Curve(
    size: nat,
    order: nat,
    base: G,
    mul: (nat, G) -> G,
    mapped: (nat, G) -> Option<G>,
    encode: G -> Bytes,
    decode: Bytes -> Option<G>
  )

  predicate IsScalar<G>(c: Curve<G>, k: nat) {
    1 <= k < c.order
  }

  /** The curves this build computes on have coordinates of at most 32 bytes. */
  ghost predicate LawfulCurve<G(!new)>(c: Curve<G>) {
    && 1 <= c.size <= 32
    && (forall a: nat, b: nat, g: G :: IsScalar(c, a) && IsScalar(c, b) ==> c.mul(a, c.mul(b, g)) == c.mul(b, c.mul(a, g)))
    && (forall g: G :: |c.encode(g)| == 1 + 2 * c.size && c.decode(c.encode(g)) == Some(g))
    && (forall b: Bytes :: c.decode(b).Some? ==> |b| == 1 + 2 * c.size)
  }

  lemma Commutes<G(!new)>(c: Curve<G>, a: nat, b: nat, g: G)
    requires LawfulCurve(c) && IsScalar(c, a) && IsScalar(c, b)
    ensures c.mul(a, c.mul(b, g)) == c.mul(b, c.mul(a, g))
  {
  }

  lemma PointTravels<G(!new)>(c: Curve<G>, g: G)
    requires LawfulCurve(c)
    ensures 1 <= c.size <= 32 && |c.encode(g)| == 1 + 2 * c.size && c.decode(c.encode(g)) == Some(g)
  {
  }

  lemma OnlyPointsDecode<G(!new)>(c: Curve<G>, b: Bytes)
    requires LawfulCurve(c) && c.decode(b).Some?
    ensures |b| == 1 + 2 * c.size && c.size <= 32
  {
  }

  // ---- Primitives both protocols use -------------------------------------------------------

  /** A suite's cipher under a key, in CBC mode with an initialisation vector of zeros. */
  function SuiteCipher(p: Primitives, suite: Suite, key: Bytes): (c: BlockCipher)
    requires Lawful(p) && |key| == KeySize(suite)
    ensures Permutation(c) && c.size == BlockSize(suite)
  {
    Encryption(p, Session(suite, key, key, Zeros(BlockSize(suite)), true))
  }

  function ZeroIvEncrypt(p: Primitives, suite: Suite, key: Bytes, data: Bytes): (out: Bytes)
    requires Lawful(p) && |key| == KeySize(suite) && Cipher.Whole(|data|, BlockSize(suite))
    ensures |out| == |data|
  {
    CbcEncrypt(SuiteCipher(p, suite, key), Zeros(BlockSize(suite)), data)
  }

  function ZeroIvDecrypt(p: Primitives, suite: Suite, key: Bytes, data: Bytes): (out: Bytes)
    requires Lawful(p) && |key| == KeySize(suite) && Cipher.Whole(|data|, BlockSize(suite))
    ensures |out| == |data|
  {
    CbcDecrypt(SuiteCipher(p, suite, key), Zeros(BlockSize(suite)), data)
  }

  lemma ZeroIvInverse(p: Primitives, suite: Suite, key: Bytes, data: Bytes)
    requires Lawful(p) && |key| == KeySize(suite) && Cipher.Whole(|data|, BlockSize(suite))
    ensures ZeroIvDecrypt(p, suite, key, ZeroIvEncrypt(p, suite, key, data)) == data
    ensures ZeroIvEncrypt(p, suite, key, ZeroIvDecrypt(p, suite, key, data)) == data
  {
    hide SuiteCipher;
    CbcRoundTrip(SuiteCipher(p, suite, key), Zeros(BlockSize(suite)), data);
    CbcRoundTripBack(SuiteCipher(p, suite, key), Zeros(BlockSize(suite)), data);
  }

  /** BAC's sealed message: 32 bytes encrypted, and the checksum over them. */
  function Sealed32(p: Primitives, kEnc: Bytes, kMac: Bytes, s: Bytes): (m: Bytes)
    requires Lawful(p) && |kEnc| == |kMac| == 16 && |s| == 32
    ensures |m| == 40
  {
    var e := ZeroIvEncrypt(p, TripleDes, kEnc, s);
    e + BacMac(p, kMac, e)
  }

  function BacMac(p: Primitives, kMac: Bytes, e: Bytes): (mac: Bytes)
    requires Lawful(p) && |kMac| == 16
    ensures |mac| == 8
  {
    EightByteBlocks(PaddedLen(|e|, 8));
    RetailMac(p, kMac, Pad(e, 8))
  }

  /** A block of a message encrypted with triple DES: each after the first is chained to the one before. */
  lemma ZeroIvBlock(p: Primitives, key: Bytes, s: Bytes, at: nat, e: Bytes)
    requires Lawful(p) && |key| == 16 && |s| == 32 && at in {0, 8, 16, 24} && Cipher.Whole(32, 8)
    requires e == ZeroIvEncrypt(p, TripleDes, key, s)
    ensures |e| == 32
    ensures e[at..at + 8] == Tdes(p, key).enc(if at == 0 then s[..8] else XorBytes(s[at..at + 8], e[at - 8..at]))
  {
    hide Lawful, Permutation, Cipher.Whole, CbcEncrypt, Tdes, XorBytes;
    EightByteBlocks(at);
    CbcByBlocks(SuiteCipher(p, TripleDes, key), Zeros(8), s, at);
    XorZeros(s[..8], Zeros(8));
    assert s[0..8] == s[..8];
  }

  /** The checksum over 32 bytes is taken with 80 and seven zeros behind them. */
  lemma MacOfBlocks(p: Primitives, kMac: Bytes, e: Bytes)
    requires Lawful(p) && |kMac| == 16 && |e| == 32
    ensures BacMac(p, kMac, e) == RetailMac(p, kMac, e + [0x80, 0, 0, 0, 0, 0, 0, 0])
  {
    hide Lawful, RetailMac;
    EightByteBlocks(PaddedLen(32, 8));
    assert Pad(e, 8) == e + [0x80, 0, 0, 0, 0, 0, 0, 0];
  }

  /** Four blocks chained to each other, the first to nothing. */
  predicate Chained(c: BlockCipher, s: Bytes, e: Bytes)
    requires |s| == 32 && |e| >= 32
  {
    && e[0..8] == c.enc(s[..8]) && e[8..16] == c.enc(XorBytes(s[8..16], e[0..8]))
    && e[16..24] == c.enc(XorBytes(s[16..24], e[8..16])) && e[24..32] == c.enc(XorBytes(s[24..32], e[16..24]))
  }

  lemma EncryptedIsChained(p: Primitives, key: Bytes, s: Bytes)
    requires Lawful(p) && |key| == 16 && |s| == 32
    ensures Cipher.Whole(32, 8) && Chained(Tdes(p, key), s, ZeroIvEncrypt(p, TripleDes, key, s))
  {
    hide Lawful, ZeroIvEncrypt, Tdes, XorBytes;
    EightByteBlocks(32);
    var e := ZeroIvEncrypt(p, TripleDes, key, s);
    ZeroIvBlock(p, key, s, 0, e);
    ZeroIvBlock(p, key, s, 8, e);
    ZeroIvBlock(p, key, s, 16, e);
    ZeroIvBlock(p, key, s, 24, e);
  }

  /** BAC's sealed message block by block: the cryptogram, and its Retail MAC in the last eight bytes. */
  lemma SealedInBlocks(p: Primitives, kEnc: Bytes, kMac: Bytes, s: Bytes, sealed: Bytes)
    requires Lawful(p) && |kEnc| == |kMac| == 16 && |s| == 32 && sealed == Sealed32(p, kEnc, kMac, s)
    ensures |sealed| == 40 && Chained(Tdes(p, kEnc), s, sealed)
    ensures sealed[32..] == RetailMac(p, kMac, sealed[..32] + [0x80, 0, 0, 0, 0, 0, 0, 0])
  {
    hide Lawful, BacMac, RetailMac, ZeroIvEncrypt, Tdes, XorBytes;
    EncryptedIsChained(p, kEnc, s);
    var e := ZeroIvEncrypt(p, TripleDes, kEnc, s);
    MacOfBlocks(p, kMac, e);
    assert sealed == e + BacMac(p, kMac, e) && sealed[..32] == e;
    assert forall i, j | 0 <= i <= j <= 32 :: sealed[i..j] == e[i..j];
  }

  /** What a sealed message holds, if its checksum is right; it is checked before anything is decrypted. */
  function Open32(p: Primitives, kEnc: Bytes, kMac: Bytes, m: Bytes): Option<Bytes>
    requires Lawful(p) && |kEnc| == |kMac| == 16 && |m| == 40
  {
    hide Lawful, BacMac, ZeroIvDecrypt;
    if BacMac(p, kMac, m[..32]) != m[32..] then None else Some(ZeroIvDecrypt(p, TripleDes, kEnc, m[..32]))
  }

  lemma OpenedLength(p: Primitives, kEnc: Bytes, kMac: Bytes, m: Bytes)
    requires Lawful(p) && |kEnc| == |kMac| == 16 && |m| == 40 && Open32(p, kEnc, kMac, m).Some?
    ensures |Open32(p, kEnc, kMac, m).value| == 32
  {
    hide Lawful, BacMac, ZeroIvDecrypt;
  }

  /** The two keys that the printed data page gives. */
  function BacKeys(h: Hashes, information: Bytes): (k: (Bytes, Bytes))
    requires LawfulHashes(h)
    ensures |k.0| == |k.1| == 16
  {
    DigestLengths(h, information);
    var seed := h.sha1(information)[..16];
    (Derive(h, TripleDes, seed, COUNTER_ENC), Derive(h, TripleDes, seed, COUNTER_MAC))
  }

  /** They come from the first 16 bytes of SHA-1 over the printed characters, with counters 1 and 2. */
  lemma BacKeysAre(h: Hashes, information: Bytes)
    requires LawfulHashes(h)
    ensures |h.sha1(information)| == 20
    ensures
      var seed := h.sha1(information)[..16];
      && IsHead(h, TripleDes, seed + [0, 0, 0, 1], BacKeys(h, information).0)
      && IsHead(h, TripleDes, seed + [0, 0, 0, 2], BacKeys(h, information).1)
  {
    hide IsHead, Derive;
    DigestLengths(h, information);
    DerivedKey(h, TripleDes, h.sha1(information)[..16], 1);
    DerivedKey(h, TripleDes, h.sha1(information)[..16], 2);
  }

  /** The checksum a PACE token is: the message is padded only where the checksum cannot pad itself. */
  function Token(p: Primitives, suite: Suite, ksMac: Bytes, input: Bytes): (t: Bytes)
    requires Lawful(p) && |ksMac| == KeySize(suite)
    ensures |t| == 8
  {
    if suite == TripleDes then BacMac(p, ksMac, input)
    else
      KeyedCiphers(p, ksMac);
      AesCmac(p.aes(ksMac), input)[..8]
  }

  /** The chip's own layout of what a token is taken over: 7F49 { 06 oid, 86 point }. */
  function SimTokenInput(oid: Bytes, point: Bytes): Bytes {
    var inner := SimDo(0x06, oid) + SimDo(0x86, point);
    [0x7F, 0x49] + SimLength(|inner|) + inner
  }

  // ---- The chip ----------------------------------------------------------------------------

  /** What the chip was made with, and the random values it is going to draw. */
  datatype Card<!G> = Card(
    bac: bool,
    pace: bool,
    information: Bytes,
    suite: Suite,
    kpi: Bytes,
    oid: Bytes,
    curve: Curve<G>,
    nonce: Bytes,
    mappingKey: nat,
    agreementKey: nat,
    challenge: Bytes,
    kIc: Bytes
  )

  datatype State = State(
    challenge: Option<Bytes>,
    paceSelected: bool,
    mappingShared: Bytes,
    ksEnc: Bytes,
    ksMac: Bytes,
    agreementIfd: Bytes,
    agreementIc: Bytes,
    session: Option<Session>
  )

  predicate Sound<G>(c: Card<G>, s: State) {
    |s.ksEnc| == |s.ksMac| == KeySize(c.suite)
  }

  ghost predicate LawfulCard<G(!new)>(c: Card<G>) {
    && |c.kpi| == KeySize(c.suite) && |c.nonce| == BlockSize(c.suite)
    && |c.challenge| == 8 && |c.kIc| == 16 && 1 <= |c.oid| <= 16
    && LawfulCurve(c.curve) && IsScalar(c.curve, c.mappingKey) && IsScalar(c.curve, c.agreementKey)
  }

  datatype Reply = Reply(state: State, body: Bytes, sw: nat)

  function Refuse(s: State, sw: nat): Reply {
    Reply(s, [], sw)
  }

  function ExternalAuthenticate<G(!new)>(p: Primitives, h: Hashes, card: Card<G>, s: State, data: Bytes): (r: Reply)
    requires Lawful(p) && LawfulHashes(h) && LawfulCard(card) && Sound(card, s)
    ensures Sound(card, r.state)
  {
    hide Lawful, LawfulHashes, LawfulCurve, BacKeys, Open32, Sealed32, SessionOf, XorBytes;
    if !card.bac || s.challenge.None? || |data| != 40 then Refuse(s, SW_CONDITIONS)
    else
      var (kEnc, kMac) := BacKeys(h, card.information);
      var sealed := Open32(p, kEnc, kMac, data);
      if sealed.None? then Refuse(s, SW_AUTH_FAILED)
      else
        OpenedLength(p, kEnc, kMac, data);
        var plain := sealed.value;
        var rndIfd, kIfd := plain[..8], plain[16..];
        if plain[8..16] != s.challenge.value then Refuse(s, SW_AUTH_FAILED)
        else
          var answer := card.challenge + rndIfd + card.kIc;
          var session := SessionOf(h, TripleDes, XorBytes(kIfd, card.kIc), card.challenge[4..] + rndIfd[4..]);
          Reply(s.(challenge := None, session := Some(session)), Sealed32(p, kEnc, kMac, answer), SW_OK)
  }

  /** One General Authenticate round; the object inside the wrapper says which. */
  function GeneralAuthenticate<G(!new)>(p: Primitives, h: Hashes, card: Card<G>, s: State, data: Bytes): (r: Reply)
    requires Lawful(p) && LawfulHashes(h) && LawfulCard(card) && Sound(card, s)
    ensures Sound(card, r.state)
  {
    if !card.pace || !s.paceSelected then Refuse(s, SW_CONDITIONS)
    else if |data| < 2 || data[0] != 0x7C then Refuse(s, SW_WRONG_PARAMETERS)
    else
      match ReadDo(data, 0)
      case None => Refuse(s, SW_WRONG_PARAMETERS)
      case Some(wrapper) =>
        var inner := data[wrapper.start..wrapper.End()];
        if inner == [] then GiveNonce(p, card, s)
        else
          match ReadDo(inner, 0)
          case None => Refuse(s, SW_WRONG_PARAMETERS)
          case Some(o) =>
            var value := inner[o.start..o.End()];
            if o.tag == 0x81 then MapGenerator(card, s, value)
            else if o.tag == 0x83 then AgreeOnKey(h, card, s, value)
            else if o.tag == 0x85 then CheckToken(p, card, s, value)
            else Refuse(s, SW_WRONG_PARAMETERS)
  }

  function Answer(s: State, tag: byte, value: Bytes): Reply {
    Reply(s, SimDo(0x7C, SimDo(tag, value)), SW_OK)
  }

  function GiveNonce<G(!new)>(p: Primitives, card: Card<G>, s: State): (r: Reply)
    requires Lawful(p) && LawfulCard(card) && Sound(card, s)
    ensures Sound(card, r.state)
  {
    Answer(s, 0x80, ZeroIvEncrypt(p, card.suite, card.kpi, card.nonce))
  }

  function MapGenerator<G(!new)>(card: Card<G>, s: State, value: Bytes): (r: Reply)
    requires Sound(card, s)
    ensures Sound(card, r.state)
  {
    match card.curve.decode(value)
    case None => Refuse(s, SW_WRONG_PARAMETERS)
    case Some(point) =>
      var shared := card.curve.encode(card.curve.mul(card.mappingKey, point));
      Answer(s.(mappingShared := shared), 0x82, card.curve.encode(card.curve.mul(card.mappingKey, card.curve.base)))
  }

  function AgreeOnKey<G(!new)>(h: Hashes, card: Card<G>, s: State, value: Bytes): (r: Reply)
    requires LawfulHashes(h) && LawfulCard(card) && Sound(card, s)
    ensures Sound(card, r.state)
  {
    var curve := card.curve;
    match curve.decode(value)
    case None => Refuse(s, SW_WRONG_PARAMETERS)
    case Some(point) =>
      PointTravels(curve, curve.mul(card.agreementKey, point));
      var secret := curve.encode(curve.mul(card.agreementKey, point))[1..1 + curve.size];
      var t := s.(ksEnc := Derive(h, card.suite, secret, COUNTER_ENC), ksMac := Derive(h, card.suite, secret, COUNTER_MAC),
                  agreementIfd := value);
      var shared := curve.decode(s.mappingShared);
      if shared.None? then Refuse(t, SW_CONDITIONS)
      else
        match curve.mapped(BeValue(card.nonce), shared.value)
        case None => Refuse(t, SW_CONDITIONS)
        case Some(generator) =>
          var ic := curve.encode(curve.mul(card.agreementKey, generator));
          Answer(t.(agreementIc := ic), 0x84, ic)
  }

  function CheckToken<G(!new)>(p: Primitives, card: Card<G>, s: State, value: Bytes): (r: Reply)
    requires Lawful(p) && Sound(card, s)
    ensures Sound(card, r.state)
  {
    if value != Token(p, card.suite, s.ksMac, SimTokenInput(card.oid, s.agreementIc)) then Refuse(s, SW_TRIES_LEFT)
    else
      var token := Token(p, card.suite, s.ksMac, SimTokenInput(card.oid, s.agreementIfd));
      var session := Session(card.suite, s.ksEnc, s.ksMac, Zeros(BlockSize(card.suite)), true);
      Answer(s.(session := Some(session)), 0x86, token)
  }

  function SetAt<G(!new)>(card: Card<G>, s: State, data: Bytes): (r: Reply)
    requires Sound(card, s)
    ensures Sound(card, r.state)
  {
    if !card.pace then Refuse(s, SW_CONDITIONS)
    else if |data| < 2 + |card.oid| || data[0] != 0x80 || data[1] as int != |card.oid| || data[2..2 + |card.oid|] != card.oid then
      Refuse(s, SW_WRONG_PARAMETERS)
    else Reply(s.(paceSelected := true), [], SW_OK)
  }

  /** A command in the clear. Commands inside a session, once there is one, are SimChip's. */
  function React<G(!new)>(p: Primitives, h: Hashes, card: Card<G>, s: State, c: SimCommand): (r: Reply)
    requires Lawful(p) && LawfulHashes(h) && LawfulCard(card) && Sound(card, s)
    ensures Sound(card, r.state)
  {
    hide Lawful, LawfulHashes, LawfulCurve, ExternalAuthenticate, GeneralAuthenticate, SetAt;
    if c.cla / 4 % 4 != 0 || s.session.Some? then Refuse(s, SW_SM_MISSING)
    else if c.ins == 0x84 then
      if !card.bac then Refuse(s, SW_CONDITIONS)
      else Reply(s.(challenge := Some(card.challenge)), card.challenge, SW_OK)
    else if c.ins == 0x82 then ExternalAuthenticate(p, h, card, s, c.data)
    else if c.ins == 0x22 then SetAt(card, s, c.data)
    else if c.ins == 0x86 then GeneralAuthenticate(p, h, card, s, c.data)
    else Refuse(s, SW_NOT_SUPPORTED)
  }

  /** The port of the chip: the APDU as it arrives, and the answer as it leaves. */
  function Transceive<G(!new)>(p: Primitives, h: Hashes, card: Card<G>, s: State, tx: Bytes): (r: (State, Result<Bytes>))
    requires Lawful(p) && LawfulHashes(h) && LawfulCard(card) && Sound(card, s)
    ensures Sound(card, r.0)
  {
    match ParseCommand(tx)
    case None => (s, Ok(Be16(SW_WRONG_LENGTH)))
    case Some(c) =>
      var r := React(p, h, card, s, c);
      if |r.body| + 2 > APDU_MAX_SIZE then (r.state, Err(BufferTooSmall))
      else (r.state, Ok(r.body + Be16(r.sw % 0x10000)))
  }
}
