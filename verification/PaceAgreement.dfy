/** An honest run of PACE: it succeeds for all random values but those that map to no generator. */
module PaceAgreement {
  import opened Bytes
  import opened Errors
  import opened Numbers
  import opened Tlv
  import opened Cipher
  import opened Apdu
  import opened SecureMessaging
  import opened SimChip
  import opened SmRefinement
  import opened Digests
  import opened AccessChip
  import opened AccessPort
  import opened Pace
  import opened BacAgreement

  // ---- Objects on the way ------------------------------------------------------------------

  /** One object and nothing else is one node. */
  lemma OneObject(tag: byte, value: Bytes)
    requires tag != 0x00 && tag != 0xFF && tag % 0x20 != 0x1F && |value| <= 0xFF
    ensures
      var data := Object(tag, value);
      var n := ReadNode(data, |data|, 0);
      && n.Some? && n.value.tag == tag as int && n.value.End() == |data|
      && data[n.value.valueStart..n.value.End()] == value
      && Walk(data, |data|, 0) == ([n.value], true)
  {
    hide ReadNode;
    var data := Object(tag, value);
    ObjectRoundTrip([], tag, value, []);
    assert [] + data + [] == data;
    var n := ReadNode(data, |data|, 0).value;
    assert Walk(data, |data|, n.End()) == ([], true) && [n] + [] == [n];
  }

  /** The chip's answer in a round is what the reader takes out of it. */
  lemma AnswerIsRead(expected: byte, value: Bytes)
    requires 0x80 <= expected <= 0x86 && |value| <= 100
    ensures
      var body := SimDo(0x7C, SimDo(expected, value));
      |body| <= 200 && RoundResult(Response(body, SW_OK), expected) == Ok(value)
  {
    hide ReadNode, Walk;
    var inner := Object(expected, value);
    SimDoIsObject(expected, value);
    SimDoIsObject(0x7C, inner);
    OneObject(expected, value);
    OneObject(0x7C, inner);
  }

  /** The reader's round is dispatched by the object it carries. */
  lemma RoundDispatched<G(!new)>(p: Primitives, h: Hashes, card: Card<G>, s: State, tag: byte, value: Bytes)
    requires Lawful(p) && LawfulHashes(h) && LawfulCard(card) && Sound(card, s) && card.pace && s.paceSelected
    requires tag in {0x81, 0x83, 0x85} && |value| <= 100
    ensures
      GeneralAuthenticate(p, h, card, s, Dynamic(Some((tag, value))))
      == if tag == 0x81 then MapGenerator(card, s, value)
         else if tag == 0x83 then AgreeOnKey(h, card, s, value)
         else CheckToken(p, card, s, value)
  {
    hide Lawful, LawfulHashes, LawfulCurve, ReadDo, MapGenerator, AgreeOnKey, CheckToken, EncodeLength;
    var inner := Object(tag, value);
    var data := Object(0x7C, inner);
    ReadDoOfObject([], tag, value, []);
    ReadDoOfObject([], 0x7C, inner, []);
    assert [] + inner + [] == inner && [] + data + [] == data;
  }

  lemma NonceDispatched<G(!new)>(p: Primitives, h: Hashes, card: Card<G>, s: State)
    requires Lawful(p) && LawfulHashes(h) && LawfulCard(card) && Sound(card, s) && card.pace && s.paceSelected
    ensures GeneralAuthenticate(p, h, card, s, Dynamic(None)) == GiveNonce(p, card, s)
  {
    hide Lawful, LawfulHashes, LawfulCurve, ReadDo, GiveNonce, EncodeLength;
    ReadDoOfObject([], 0x7C, [], []);
    assert [] + Object(0x7C, []) + [] == Object(0x7C, []);
  }

  lemma RoundFits(inner: Option<(byte, Bytes)>, chaining: bool)
    requires inner.Some? ==> |inner.value.1| <= 100
    ensures
      var c := RoundApdu(inner, chaining);
      && |Dynamic(inner)| <= DYNAMIC_MAX && LeValid(c.le) && !Extended(c) && Needed(c) <= APDU_MAX_SIZE
      && ViewOf(c) == SimCommand(c.cla, 0x86, 0, 0, Dynamic(inner), LE_MAX) && c.cla / 4 % 4 == 0
  {
  }

  /** One round, both ways. */
  lemma RoundAnswered<G(!new)>(p: Primitives, h: Hashes, card: Card<G>, s: State, inner: Option<(byte, Bytes)>,
                               chaining: bool, expected: byte, t: State, value: Bytes)
    requires Lawful(p) && LawfulHashes(h) && LawfulCard(card) && Sound(card, s) && s.session == None
    requires (inner.Some? ==> |inner.value.1| <= 100) && 0x80 <= expected <= 0x86 && |value| <= 100
    requires GeneralAuthenticate(p, h, card, s, Dynamic(inner)) == Answer(t, expected, value)
    ensures Round(LinkTo(p, h, card), s, inner, chaining, expected) == (t, Ok(value))
  {
    hide Lawful, LawfulHashes, LawfulCurve, LawfulCard, GeneralAuthenticate, Exchange, RoundResult, Dynamic, SimDo, LeValid, Extended, Needed;
    RoundFits(inner, chaining);
    AnswerIsRead(expected, value);
    Reached(p, h, card, s, RoundApdu(inner, chaining));
  }

  // ---- The honest run ----------------------------------------------------------------------

  /** Reader and chip hold the same credentials and speak of the same curve. */
  ghost predicate SameCredentials<G(!new)>(i: Info<G>, card: Card<G>) {
    i.suite == card.suite && i.oid == card.oid && i.curve == card.curve && i.kpi == card.kpi
  }

  /** The point both sides reach in the mapping exchange. */
  function SharedPoint<G(!new)>(card: Card<G>, d: Draw): G {
    card.curve.mul(card.mappingKey, card.curve.mul(d.mapping, card.curve.base))
  }

  /** The generator both sides map the nonce to, unless that is the point at infinity. */
  function HonestGenerator<G(!new)>(card: Card<G>, d: Draw): Option<G> {
    card.curve.mapped(BeValue(card.nonce), SharedPoint(card, d))
  }

  lemma SetAtAccepted<G(!new)>(p: Primitives, h: Hashes, card: Card<G>, s: State, i: Info<G>)
    requires Lawful(p) && LawfulHashes(h) && LawfulCard(card) && Sound(card, s) && card.pace && s.session == None
    requires LawfulInfo(i) && SameCredentials(i, card)
    ensures Exchange(LinkTo(p, h, card), s, SetAtApdu(i)) == (s.(paceSelected := true), Ok(Response([], SW_OK)))
  {
    hide Lawful, LawfulHashes, LawfulCurve, Exchange;
    var data := SetAtApdu(i).data;
    assert data[2..2 + |i.oid|] == i.oid;
    assert SetAt(card, s, data) == Reply(s.(paceSelected := true), [], SW_OK);
    SetAtFits(i);
    hide SetAt, LeValid, Extended, Needed;
    Reached(p, h, card, s, SetAtApdu(i));
  }

  lemma SetAtFits<G>(i: Info<G>)
    requires 1 <= |i.oid| <= 16
    ensures var c := SetAtApdu(i); LeValid(c.le) && !Extended(c) && Needed(c) <= APDU_MAX_SIZE
  {
  }

  /** The nonce as the reader decrypts it is the chip's. */
  lemma NonceArrives<G(!new)>(p: Primitives, h: Hashes, card: Card<G>, s: State, i: Info<G>)
    requires Lawful(p) && LawfulHashes(h) && LawfulCard(card) && Sound(card, s) && card.pace && s.paceSelected && s.session == None
    requires LawfulInfo(i) && SameCredentials(i, card)
    ensures
      var sealed := ZeroIvEncrypt(p, card.suite, card.kpi, card.nonce);
      && Round(LinkTo(p, h, card), s, None, true, DO_NONCE) == (s, Ok(sealed))
      && Nonce(p, i, sealed) == Ok(card.nonce)
  {
    hide Lawful, LawfulHashes, LawfulCurve, Round, ZeroIvEncrypt, ZeroIvDecrypt, GeneralAuthenticate, Dynamic, Answer;
    ZeroIvInverse(p, card.suite, card.kpi, card.nonce);
    NonceDispatched(p, h, card, s);
    RoundAnswered(p, h, card, s, None, true, DO_NONCE, s, ZeroIvEncrypt(p, card.suite, card.kpi, card.nonce));
  }

  /** The mapping exchange leaves both sides with the shared point. */
  lemma MappingExchanged<G(!new)>(p: Primitives, h: Hashes, card: Card<G>, s: State, d: Draw)
    requires Lawful(p) && LawfulHashes(h) && LawfulCard(card) && Sound(card, s) && card.pace && s.paceSelected && s.session == None
    ensures
      var c := card.curve;
      Round(LinkTo(p, h, card), s, Some((DO_MAP_IFD, c.encode(c.mul(d.mapping, c.base)))), true, DO_MAP_IC)
      == (s.(mappingShared := c.encode(SharedPoint(card, d))), Ok(c.encode(c.mul(card.mappingKey, c.base))))
  {
    hide Lawful, LawfulHashes, LawfulCurve, Round, GeneralAuthenticate, Dynamic, Answer;
    var c := card.curve;
    var point := c.mul(d.mapping, c.base);
    PointTravels(c, point);
    PointTravels(c, c.mul(card.mappingKey, c.base));
    RoundDispatched(p, h, card, s, DO_MAP_IFD, c.encode(point));
    RoundAnswered(p, h, card, s, Some((DO_MAP_IFD, c.encode(point))), true, DO_MAP_IC,
                  s.(mappingShared := c.encode(SharedPoint(card, d))), c.encode(c.mul(card.mappingKey, c.base)));
  }

  /** The state of the chip once the generator is mapped. */
  function Mapped<G(!new)>(card: Card<G>, s: State, d: Draw): State {
    s.(paceSelected := true, mappingShared := card.curve.encode(SharedPoint(card, d)))
  }

  lemma MapHonest<G(!new)>(p: Primitives, h: Hashes, card: Card<G>, s: State, i: Info<G>, d: Draw)
    requires Lawful(p) && LawfulHashes(h) && LawfulCard(card) && Sound(card, s) && card.pace && s.session == None
    requires LawfulInfo(i) && SameCredentials(i, card) && IsScalar(card.curve, d.mapping)
    ensures
      Map(p, i, d, LinkTo(p, h, card), s)
      == (Mapped(card, s, d),
          match HonestGenerator(card, d) case None => Err(PaceFailed) case Some(g) => Ok(g))
  {
    hide Lawful, LawfulHashes, LawfulCurve, Exchange, Round, Nonce, ZeroIvEncrypt, BeValue;
    var c := card.curve;
    var s1 := s.(paceSelected := true);
    SetAtAccepted(p, h, card, s, i);
    NonceArrives(p, h, card, s1, i);
    MappingExchanged(p, h, card, s1, d);
    PointTravels(c, c.mul(card.mappingKey, c.base));
    Commutes(c, d.mapping, card.mappingKey, c.base);
  }

  // ---- The key agreement -------------------------------------------------------------------

  /** The session both sides derive from a generator. */
  function HonestSession<G(!new)>(h: Hashes, card: Card<G>, d: Draw, generator: G): (s: Session)
    requires LawfulHashes(h) && LawfulCurve(card.curve)
    ensures Keyed(s) && s.established && s.suite == card.suite
  {
    var secret := card.curve.mul(card.agreementKey, card.curve.mul(d.agreement, generator));
    SessionOf(h, card.suite, X(card.curve, secret), Zeros(BlockSize(card.suite)))
  }

  function AgreedState<G(!new)>(h: Hashes, card: Card<G>, s: State, d: Draw, generator: G): State
    requires LawfulHashes(h) && LawfulCurve(card.curve)
  {
    var session := HonestSession(h, card, d, generator);
    s.(ksEnc := session.ksEnc, ksMac := session.ksMac,
       agreementIfd := card.curve.encode(card.curve.mul(d.agreement, generator)),
       agreementIc := card.curve.encode(card.curve.mul(card.agreementKey, generator)))
  }

  lemma AgreementExchanged<G(!new)>(p: Primitives, h: Hashes, card: Card<G>, s: State, d: Draw, generator: G)
    requires Lawful(p) && LawfulHashes(h) && LawfulCard(card) && Sound(card, s) && card.pace && s.paceSelected && s.session == None
    requires s.mappingShared == card.curve.encode(SharedPoint(card, d)) && HonestGenerator(card, d) == Some(generator)
    ensures
      var c := card.curve;
      Round(LinkTo(p, h, card), s, Some((DO_KA_IFD, c.encode(c.mul(d.agreement, generator)))), true, DO_KA_IC)
      == (AgreedState(h, card, s, d, generator), Ok(c.encode(c.mul(card.agreementKey, generator))))
  {
    hide Lawful, LawfulHashes, LawfulCurve, Round, GeneralAuthenticate, Dynamic, Answer, Derive, BeValue;
    var c := card.curve;
    var point := c.mul(d.agreement, generator);
    PointTravels(c, point);
    PointTravels(c, SharedPoint(card, d));
    PointTravels(c, c.mul(card.agreementKey, generator));
    RoundDispatched(p, h, card, s, DO_KA_IFD, c.encode(point));
    RoundAnswered(p, h, card, s, Some((DO_KA_IFD, c.encode(point))), true, DO_KA_IC,
                  AgreedState(h, card, s, d, generator), c.encode(c.mul(card.agreementKey, generator)));
  }

  /** The two layouts of the token input agree. */
  lemma TokenInputsAgree(oid: Bytes, point: Bytes)
    requires |oid| <= 16 && |point| <= 65
    ensures TokenInput(oid, point) == SimTokenInput(oid, point)
  {
    SimDoIsObject(0x06, oid);
    SimDoIsObject(0x86, point);
  }

  lemma TokensExchanged<G(!new)>(p: Primitives, h: Hashes, card: Card<G>, s: State, ic: Bytes, ifd: Bytes)
    requires Lawful(p) && LawfulHashes(h) && LawfulCard(card) && Sound(card, s) && card.pace && s.paceSelected && s.session == None
    requires s.agreementIc == ic && s.agreementIfd == ifd && |ic| <= 65 && |ifd| <= 65
    ensures
      var session := Session(card.suite, s.ksEnc, s.ksMac, Zeros(BlockSize(card.suite)), true);
      Round(LinkTo(p, h, card), s, Some((DO_TOKEN_IFD, Token(p, card.suite, s.ksMac, TokenInput(card.oid, ic)))), false, DO_TOKEN_IC)
      == (s.(session := Some(session)), Ok(Token(p, card.suite, s.ksMac, TokenInput(card.oid, ifd))))
  {
    hide Lawful, LawfulHashes, LawfulCurve, Round, GeneralAuthenticate, Dynamic, Answer, Token, TokenInput, SimTokenInput;
    TokenInputsAgree(card.oid, ic);
    TokenInputsAgree(card.oid, ifd);
    var token := Token(p, card.suite, s.ksMac, TokenInput(card.oid, ic));
    RoundDispatched(p, h, card, s, DO_TOKEN_IFD, token);
    var session := Session(card.suite, s.ksEnc, s.ksMac, Zeros(BlockSize(card.suite)), true);
    RoundAnswered(p, h, card, s, Some((DO_TOKEN_IFD, token)), false, DO_TOKEN_IC,
                  s.(session := Some(session)), Token(p, card.suite, s.ksMac, TokenInput(card.oid, ifd)));
  }

  lemma AgreeHonest<G(!new)>(p: Primitives, h: Hashes, card: Card<G>, s: State, i: Info<G>, d: Draw, generator: G)
    requires Lawful(p) && LawfulHashes(h) && LawfulCard(card) && Sound(card, s) && card.pace && s.paceSelected && s.session == None
    requires LawfulInfo(i) && SameCredentials(i, card) && IsScalar(card.curve, d.agreement)
    requires s.mappingShared == card.curve.encode(SharedPoint(card, d)) && HonestGenerator(card, d) == Some(generator)
    ensures
      var session := HonestSession(h, card, d, generator);
      Agree(p, h, i, d, generator, LinkTo(p, h, card), s)
      == (AgreedState(h, card, s, d, generator).(session := Some(session)), Ok(session))
  {
    hide Lawful, LawfulHashes, LawfulCurve, Round, X, Token, Derive, TokenInput;
    var c := card.curve;
    var ic, ifd := c.mul(card.agreementKey, generator), c.mul(d.agreement, generator);
    AgreementExchanged(p, h, card, s, d, generator);
    PointTravels(c, ic);
    PointTravels(c, ifd);
    Commutes(c, d.agreement, card.agreementKey, generator);
    var t := AgreedState(h, card, s, d, generator);
    TokensExchanged(p, h, card, t, c.encode(ic), c.encode(ifd));
  }

  /**
   * With the same credentials, from any state of a chip without a session, for every nonce and every
   * choice of the four ephemeral keys: the run succeeds exactly when the nonce maps to a generator at
   * all, and then both sides hold the same keys and a counter of zero.
   */
  lemma PaceAgrees<G(!new)>(p: Primitives, h: Hashes, card: Card<G>, s: State, i: Info<G>, d: Draw)
    requires Lawful(p) && LawfulHashes(h) && LawfulCard(card) && Sound(card, s) && card.pace && s.session == None
    requires LawfulInfo(i) && SameCredentials(i, card)
    requires IsScalar(card.curve, d.mapping) && IsScalar(card.curve, d.agreement)
    ensures
      var (end, r) := Pace.Run(p, h, i, d, LinkTo(p, h, card), s);
      && (r.Ok? <==> HonestGenerator(card, d).Some?)
      && (r.Ok? ==> Keyed(r.value) && r.value.established && end.session == Some(r.value)
                    && r.value.ssc == Zeros(BlockSize(card.suite)))
      && (r.Err? ==> r.error == PaceFailed && end.session == None)
  {
    hide Lawful, LawfulHashes, LawfulCurve, Map, Agree, HonestGenerator, X, Derive;
    MapHonest(p, h, card, s, i, d);
    if HonestGenerator(card, d).Some? {
      AgreeHonest(p, h, card, Mapped(card, s, d), i, d, HonestGenerator(card, d).value);
    }
  }

  // ---- A curve on which a run can fail -----------------------------------------------------

  function Times(k: nat, g: byte): byte {
    k * g % 5
  }

  function Sum(s: nat, h: byte): Option<byte> {
    if (s + h) % 5 == 0 then None else Some((s + h) % 5)
  }

  /** The additive group modulo five: a group of prime order, generated by one, with zero as its infinity. */
  function SmallCurve(): Curve<byte> {
    Curve(1, 5, 1, Times, Sum, (g: byte) => [0x04, g, 0x00], (b: Bytes) => if |b| == 3 then Some(b[1]) else None)
  }

  lemma TimesRemainder(k: nat, x: nat)
    ensures k * (x % 5) % 5 == k * x % 5
  {
    var q, r := x / 5, x % 5;
    assert k * x == 5 * (k * q) + k * r by {
      assert x == 5 * q + r;
    }
    FivesGone(k * q, k * r);
  }

  lemma FivesGone(m: nat, y: nat)
    ensures (5 * m + y) % 5 == y % 5
  {
  }

  lemma TimesIsProduct(a: nat, b: nat, g: byte)
    ensures Times(a, Times(b, g)) == a * (b * g) % 5 == Times(b, Times(a, g))
  {
    TimesRemainder(a, b * g);
    TimesRemainder(b, a * g);
    assert a * (b * g) == b * (a * g);
  }

  lemma SmallCurveIsLawful()
    ensures LawfulCurve(SmallCurve())
  {
    hide Times;
    var c := SmallCurve();
    forall a: nat, b: nat, g: byte | IsScalar(c, a) && IsScalar(c, b) ensures c.mul(a, c.mul(b, g)) == c.mul(b, c.mul(a, g)) {
      TimesIsProduct(a, b, g);
    }
  }

  /**
   * The condition is a real one. On this curve an honest run fails exactly when nonce and shared point
   * cancel, and whatever the ephemeral keys are, there is a nonce of any length with which they do.
   */
  lemma SomeNonceMayFail(card: Card<byte>, d: Draw, length: nat)
    requires card.curve == SmallCurve() && IsScalar(card.curve, card.mappingKey) && IsScalar(card.curve, d.mapping)
    requires length >= 1
    ensures LawfulCurve(card.curve)
    ensures HonestGenerator(card, d) == None <==> (BeValue(card.nonce) + card.mappingKey * d.mapping) % 5 == 0
    ensures exists nonce: Bytes :: |nonce| == length && HonestGenerator(card.(nonce := nonce), d) == None
  {
    hide BeValue, Times, LawfulCurve;
    SmallCurveIsLawful();
    var shared := card.mappingKey * d.mapping;
    TimesIsProduct(card.mappingKey, d.mapping, 1);
    Cancels(BeValue(card.nonce), shared);
    var low: byte := (5 - shared % 5) % 5;
    var nonce := Zeros(length - 1) + [low];
    LowByte(length - 1, low);
    Cancels(low, shared);
    assert HonestGenerator(card.(nonce := nonce), d) == None;
  }

  lemma Cancels(s: nat, shared: nat)
    ensures (s + shared % 5) % 5 == (s + shared) % 5
    ensures ((5 - shared % 5) % 5 + shared) % 5 == 0
  {
    var q: nat, r: nat := shared / 5, shared % 5;
    assert s + shared == 5 * q + (s + r);
    FivesGone(q, s + r);
    if r == 0 {
      assert (5 - r) % 5 + shared == 5 * q + 0;
      FivesGone(q, 0);
    } else {
      assert (5 - r) % 5 + shared == 5 * (q + 1) + 0;
      FivesGone(q + 1, 0);
    }
  }

  lemma {:induction false} LowByte(n: nat, low: byte)
    ensures BeValue(Zeros(n) + [low]) == low
  {
    var s := Zeros(n) + [low];
    assert s[..|s| - 1] == Zeros(n);
    if n > 0 {
      assert Zeros(n) == Zeros(n - 1) + [0];
      LowByte(n - 1, 0);
    }
  }
}
