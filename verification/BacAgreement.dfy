/** An honest run of BAC: whatever is drawn, both sides end with the same session. */
module BacAgreement {
  import opened Bytes
  import opened Errors
  import opened Cipher
  import opened Apdu
  import opened SecureMessaging
  import opened SimChip
  import opened Digests
  import opened AccessChip
  import opened AccessPort
  import opened Bac

  /** The chip at the other end of the link. */
  function LinkTo<G(!new)>(p: Primitives, h: Hashes, card: Card<G>): Link<State>
    requires Lawful(p) && LawfulHashes(h) && LawfulCard(card)
  {
    (s: State, tx: Bytes) => if Sound(card, s) then AccessChip.Transceive(p, h, card, s, tx) else (s, Err(Internal))
  }

  /** A short command gets the chip's own reaction to it. */
  lemma Reached<G(!new)>(p: Primitives, h: Hashes, card: Card<G>, s: State, c: Command)
    requires Lawful(p) && LawfulHashes(h) && LawfulCard(card) && Sound(card, s)
    requires LeValid(c.le) && !Extended(c) && Needed(c) <= APDU_MAX_SIZE
    requires var r := React(p, h, card, s, ViewOf(c)); |r.body| + 2 <= APDU_MAX_SIZE && r.sw <= 0xFFFF
    ensures
      var r := React(p, h, card, s, ViewOf(c));
      Exchange(LinkTo(p, h, card), s, c) == (r.state, Ok(Response(r.body, r.sw)))
  {
    hide Lawful, LawfulHashes, LawfulCard, React, ParseCommand, Exchange, LeValid, Extended, Needed;
    var r := React(p, h, card, s, ViewOf(c));
    ExchangeReaches(LinkTo(p, h, card), s, c, r.state, r.body, r.sw);
  }

  /** The chip on the reader's honest message. */
  lemma ChipOpens<G(!new)>(p: Primitives, h: Hashes, card: Card<G>, k: (Bytes, Bytes), s: State, d: Draw)
    requires Lawful(p) && LawfulHashes(h) && LawfulCard(card) && Sound(card, s)
    requires card.bac && s.challenge == Some(card.challenge) && LawfulDraw(d)
    requires |k.0| == |k.1| == 16 && k == BacKeys(h, card.information)
    ensures
      var r := ExternalAuthenticate(p, h, card, s, ReaderMessage(p, k, card.challenge, d));
      && r.sw == SW_OK && r.body == HonestAnswer(p, k, card.challenge, d.rndIfd, card.kIc)
      && r.state.session == Some(SharedSession(h, d, card.challenge, card.kIc))
  {
    hide Lawful, LawfulHashes, LawfulCurve, BacKeys, Open32, SessionOf, Sealed32, XorBytes;
    var m := d.rndIfd + card.challenge + d.kIfd;
    SealOpens(p, k.0, k.1, m);
    assert m[..8] == d.rndIfd && m[8..16] == card.challenge && m[16..] == d.kIfd;
  }

  /**
   * With the same credentials on both sides, from any state of a chip without a session, for every
   * choice of the four random values: the run succeeds and the sessions are equal - keys, counter, all.
   */
  lemma BacAgrees<G(!new)>(p: Primitives, h: Hashes, card: Card<G>, s: State, d: Draw)
    requires Lawful(p) && LawfulHashes(h) && LawfulCard(card) && Sound(card, s)
    requires card.bac && s.session == None && LawfulDraw(d)
    ensures
      var (end, r) := Bac.Run(p, h, card.information, d, LinkTo(p, h, card), s);
      r.Ok? && Keyed(r.value) && r.value.established && end.session == Some(r.value)
  {
    hide Lawful, LawfulHashes, LawfulCurve, BacKeys, SharedSession, ReaderMessage, HonestAnswer, Exchange, ProcessResponse, ExternalAuthenticate;
    hide LeValid, Needed, Extended;
    var k := BacKeys(h, card.information);
    var link := LinkTo(p, h, card);
    BacCommands(ReaderMessage(p, k, card.challenge, d));
    Reached(p, h, card, s, GET_CHALLENGE);
    var s1 := s.(challenge := Some(card.challenge));
    assert Exchange(link, s, GET_CHALLENGE) == (s1, Ok(Response(card.challenge, SW_OK)));
    ChipOpens(p, h, card, k, s1, d);
    Reached(p, h, card, s1, ExternalAuthenticateApdu(ReaderMessage(p, k, card.challenge, d)));
    HonestAnswerAccepted(p, h, k, card.challenge, d, card.kIc);
  }

  lemma BacCommands(payload: Bytes)
    requires |payload| == 40
    ensures
      var c := ExternalAuthenticateApdu(payload);
      && LeValid(c.le) && !Extended(c) && Needed(c) <= APDU_MAX_SIZE
      && LeValid(GET_CHALLENGE.le) && !Extended(GET_CHALLENGE) && Needed(GET_CHALLENGE) <= APDU_MAX_SIZE
  {
  }
}
