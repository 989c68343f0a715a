/** Basic Access Control, ICAO Doc 9303 part 11 section 4.3: the reader's side, and an honest run. */
module Bac {
  import opened Bytes
  import opened Errors
  import opened Cipher
  import opened Mac
  import opened Apdu
  import opened SecureMessaging
  import opened SmReader
  import opened Digests
  import opened Credentials
  import opened AccessChip
  import opened AccessPort

  const GET_CHALLENGE := Command(0x00, 0x84, 0x00, 0x00, [], 8)

  function ExternalAuthenticateApdu(data: Bytes): Command {
    Command(0x00, 0x82, 0x00, 0x00, data, ClampLe(|data|))
  }

  /** The values of one run that the reader chooses. */
  datatype Draw = Draw(rndIfd: Bytes, kIfd: Bytes)

  predicate LawfulDraw(d: Draw) {
    |d.rndIfd| == 8 && |d.kIfd| == 16
  }

  /** The reader's half of the exchange, sealed. */
  function ReaderMessage(p: Primitives, k: (Bytes, Bytes), rndIc: Bytes, d: Draw): (m: Bytes)
    requires Lawful(p) && |k.0| == |k.1| == 16 && |rndIc| == 8 && LawfulDraw(d)
    ensures |m| == 40
  {
    hide Lawful, Sealed32;
    Sealed32(p, k.0, k.1, d.rndIfd + rndIc + d.kIfd)
  }

  /** The session of one run: both halves of the secret, and a counter from the two challenges. */
  function SharedSession(h: Hashes, d: Draw, rndIc: Bytes, kIc: Bytes): (s: Session)
    requires LawfulHashes(h) && LawfulDraw(d) && |rndIc| == 8 && |kIc| == 16
    ensures Keyed(s) && s.established
  {
    hide LawfulHashes, SessionOf, XorBytes;
    SessionOf(h, TripleDes, XorBytes(d.kIfd, kIc), rndIc[4..] + d.rndIfd[4..])
  }

  /** What the reader makes of the chip's sealed answer. */
  function ProcessResponse(p: Primitives, h: Hashes, k: (Bytes, Bytes), response: Bytes, rndIc: Bytes, d: Draw): Result<Session>
    requires Lawful(p) && LawfulHashes(h) && |k.0| == |k.1| == 16 && |rndIc| == 8 && LawfulDraw(d)
  {
    hide Lawful, LawfulHashes, Open32, SharedSession;
    if |response| != 40 then Err(Protocol)
    else
      match Open32(p, k.0, k.1, response)
      case None => Err(WrongKey)
      case Some(plain) =>
        OpenedLength(p, k.0, k.1, response);
        if plain[..8] != rndIc || plain[8..16] != d.rndIfd then Err(WrongKey)
        else Ok(SharedSession(h, d, rndIc, plain[16..]))
  }

  function Run<S>(p: Primitives, h: Hashes, information: Bytes, d: Draw, link: Link<S>, s: S): (S, Result<Session>)
    requires Lawful(p) && LawfulHashes(h) && LawfulDraw(d)
  {
    hide Lawful, LawfulHashes, BacKeys, ReaderMessage, Exchange, ProcessResponse;
    var k := BacKeys(h, information);
    var (s1, challenge) := Exchange(link, s, GET_CHALLENGE);
    if challenge.Err? then (s1, Err(challenge.error))
    else if challenge.value.sw != 0x9000 then (s1, Err(FromSw(challenge.value.sw).value))
    else if |challenge.value.data| != 8 then (s1, Err(Protocol))
    else
      var rndIc := challenge.value.data;
      var payload := ReaderMessage(p, k, rndIc, d);
      var (s2, answer) := Exchange(link, s1, ExternalAuthenticateApdu(payload));
      if answer.Err? then (s2, Err(answer.error))
      else if answer.value.sw != 0x9000 then
        (s2, Err(if answer.value.sw / 256 == 0x63 then WrongKey else FromSw(answer.value.sw).value))
      else (s2, ProcessResponse(p, h, k, answer.value.data, rndIc, d))
  }

  // ---- In bytes ----------------------------------------------------------------------------

  /** E.IFD || M.IFD: RND.IFD, RND.IC and K.IFD under triple DES, chained, and the Retail MAC of that. */
  lemma MessageInBlocks(p: Primitives, k: (Bytes, Bytes), rndIc: Bytes, d: Draw)
    requires Lawful(p) && |k.0| == |k.1| == 16 && |rndIc| == 8 && LawfulDraw(d)
    ensures
      var m := ReaderMessage(p, k, rndIc, d);
      && Chained(Tdes(p, k.0), d.rndIfd + rndIc + d.kIfd, m)
      && m[32..] == RetailMac(p, k.1, m[..32] + [0x80, 0, 0, 0, 0, 0, 0, 0])
  {
    hide Lawful, Chained, Tdes, RetailMac, Sealed32;
    SealedInBlocks(p, k.0, k.1, d.rndIfd + rndIc + d.kIfd, ReaderMessage(p, k, rndIc, d));
  }

  /**
   * The session of a run: its keys come from the two halves of the secret, byte by byte exclusive-or, with
   * the counters 1 and 2, and its own counter begins with the last four bytes of RND.IC and of RND.IFD.
   */
  lemma SessionInBytes(h: Hashes, d: Draw, rndIc: Bytes, kIc: Bytes, secret: Bytes)
    requires LawfulHashes(h) && LawfulDraw(d) && |rndIc| == 8 && |kIc| == 16
    requires |secret| == 16 && forall i :: 0 <= i < 16 ==> secret[i] == Xor(d.kIfd[i], kIc[i])
    ensures
      var s := SharedSession(h, d, rndIc, kIc);
      && s.ssc == [rndIc[4], rndIc[5], rndIc[6], rndIc[7], d.rndIfd[4], d.rndIfd[5], d.rndIfd[6], d.rndIfd[7]]
      && s.suite == TripleDes && s.established
      && IsHead(h, TripleDes, secret + [0, 0, 0, 1], s.ksEnc) && IsHead(h, TripleDes, secret + [0, 0, 0, 2], s.ksMac)
  {
    hide LawfulHashes, SessionOf, IsHead;
    assert secret == XorBytes(d.kIfd, kIc);
    SessionKeysAre(h, TripleDes, secret, rndIc[4..] + d.rndIfd[4..]);
  }

  /** Without a challenge of eight bytes nothing more is sent, and the run ends with what was wrong. */
  lemma NoChallenge<S(!new)>(p: Primitives, h: Hashes, information: Bytes, d: Draw, link: Link<S>, s: S)
    requires Lawful(p) && LawfulHashes(h) && LawfulDraw(d)
    ensures
      var (s1, challenge) := Exchange(link, s, GET_CHALLENGE);
      && (challenge.Err? ==> Run(p, h, information, d, link, s) == (s1, Err(challenge.error)))
      && (challenge.Ok? && challenge.value.sw != 0x9000 ==>
            Run(p, h, information, d, link, s) == (s1, Err(FromSw(challenge.value.sw).value)))
      && (challenge.Ok? && challenge.value.sw == 0x9000 && |challenge.value.data| != 8 ==>
            Run(p, h, information, d, link, s) == (s1, Err(Protocol)))
  {
    hide Lawful, LawfulHashes, BacKeys, ReaderMessage, Exchange, ProcessResponse;
  }

  /** A challenge of eight bytes was given, and this came of the sealed message. */
  ghost predicate Answered<S(!new)>(p: Primitives, h: Hashes, information: Bytes, d: Draw, link: Link<S>, s: S,
                                    end: S, answer: Result<Response>)
    requires Lawful(p) && LawfulHashes(h) && LawfulDraw(d)
  {
    hide Lawful, LawfulHashes, BacKeys, ReaderMessage, Exchange;
    var (s1, challenge) := Exchange(link, s, GET_CHALLENGE);
    && challenge.Ok? && challenge.value.sw == 0x9000 && |challenge.value.data| == 8
    && var sealed := ReaderMessage(p, BacKeys(h, information), challenge.value.data, d);
       (end, answer) == Exchange(link, s1, ExternalAuthenticateApdu(sealed))
  }

  /** A chip that answers the sealed message with 63XX says that the key is wrong; other words mean what they always do. */
  lemma ChipRefuses<S(!new)>(p: Primitives, h: Hashes, information: Bytes, d: Draw, link: Link<S>, s: S,
                             end: S, answer: Response)
    requires Lawful(p) && LawfulHashes(h) && LawfulDraw(d)
    requires Answered(p, h, information, d, link, s, end, Ok(answer)) && answer.sw != 0x9000
    ensures Run(p, h, information, d, link, s)
            == (end, Err(if 0x6300 <= answer.sw <= 0x63FF then WrongKey else FromSw(answer.sw).value))
  {
    hide Lawful, LawfulHashes, BacKeys, ReaderMessage, Exchange, ProcessResponse;
  }

  // ---- The reader's code -------------------------------------------------------------------

  /** E.IFD || M.IFD, encrypted and checksummed where it lies. */
  method BuildExternalAuth(p: Primitives, k: (Bytes, Bytes), rndIc: Bytes, d: Draw, out: array<byte>)
    requires Lawful(p) && |k.0| == |k.1| == 16 && |rndIc| == 8 && LawfulDraw(d) && out.Length == 40
    modifies out
    ensures out[..] == ReaderMessage(p, k, rndIc, d)
  {
    hide Lawful, BacMac, ZeroIvEncrypt;
    var s := d.rndIfd + rndIc + d.kIfd;
    CopyInto(out, 0, ZeroIvEncrypt(p, TripleDes, k.0, s));
    CopyInto(out, 32, BacMac(p, k.1, out[..32]));
    assert out[..] == out[..40];
  }

  /** Verify the checksum before the cryptogram is touched; only then is there a session. */
  method Process(p: Primitives, h: Hashes, k: (Bytes, Bytes), response: Bytes, rndIc: Bytes, d: Draw, session: Sm)
    returns (e: Option<Error>)
    requires Lawful(p) && LawfulHashes(h) && |k.0| == |k.1| == 16 && |rndIc| == 8 && LawfulDraw(d)
    requires session.ssc.Length == 16
    modifies session, session.ssc
    ensures
      match ProcessResponse(p, h, k, response, rndIc, d)
      case Ok(s) => e == None && session.Valid() && session.View() == s
      case Err(error) => e == Some(error) && session.View() == old(session.View())
  {
    hide Lawful, LawfulHashes, BacMac, ZeroIvDecrypt, Derive, XorBytes;
    if |response| != 40 {
      return Some(Protocol);
    }
    if BacMac(p, k.1, response[..32]) != response[32..] {
      return Some(WrongKey);
    }
    var r := ZeroIvDecrypt(p, TripleDes, k.0, response[..32]);
    if r[..8] != rndIc || r[8..16] != d.rndIfd {
      return Some(WrongKey);
    }
    var seed := XorBytes(d.kIfd, r[16..]);
    session.Init(TripleDes, Derive(h, TripleDes, seed, COUNTER_ENC), Derive(h, TripleDes, seed, COUNTER_MAC),
                 Some(rndIc[4..] + d.rndIfd[4..]));
    return None;
  }

  /** Credentials that cannot be used are refused before anything is sent, and the session is left alone. */
  method Authenticate<S(!new)>(p: Primitives, h: Hashes, c: Credentials, d: Draw, port: Port<S>, session: Sm)
    returns (e: Option<Error>)
    requires Lawful(p) && LawfulHashes(h) && LawfulDraw(d) && session.ssc.Length == 16
    modifies port, session, session.ssc
    ensures
      match BacInformation(c)
      case Err(error) =>
        e == Some(error) && port.state == old(port.state) && session.View() == old(session.View())
      case Ok(information) =>
        var (s, r) := Run(p, h, information, d, port.link, old(port.state));
        && port.state == s
        && match r
           case Ok(begun) => e == None && session.Valid() && session.View() == begun
           case Err(error) => e == Some(error) && session.Valid() && !session.established
  {
    hide Lawful, LawfulHashes, BacKeys, ReaderMessage, Exchange, ProcessResponse, InformationBytes, ValidMrz;
    if !ValidMrz(c) {
      return Some(InvalidInput);
    }
    var information := InformationBytes(c);
    if information.Err? {
      return Some(information.error);
    }
    var k := BacKeys(h, information.value);
    var answer := port.Send(GET_CHALLENGE);
    e := if answer.Err? then Some(answer.error)
    else if answer.value.sw != 0x9000 then FromSw(answer.value.sw)
    else if |answer.value.data| != 8 then Some(Protocol)
    else None;
    if e.None? {
      var rndIc := answer.value.data;
      var payload := new byte[40];
      BuildExternalAuth(p, k, rndIc, d, payload);
      answer := port.Send(ExternalAuthenticateApdu(payload[..]));
      e := if answer.Err? then Some(answer.error)
      else if answer.value.sw == 0x9000 then None
      else if answer.value.sw / 256 == 0x63 then Some(WrongKey)
      else FromSw(answer.value.sw);
      if e.None? {
        e := Process(p, h, k, answer.value.data, rndIc, d, session);
      }
    }
    if e.Some? {
      session.Clear();
    }
  }

  // ---- An honest run -----------------------------------------------------------------------

  /** What the chip seals and what the reader seals, opened again. */
  lemma SealOpens(p: Primitives, kEnc: Bytes, kMac: Bytes, s: Bytes)
    requires Lawful(p) && |kEnc| == |kMac| == 16 && |s| == 32
    ensures Open32(p, kEnc, kMac, Sealed32(p, kEnc, kMac, s)) == Some(s)
  {
    hide Lawful, ZeroIvEncrypt, ZeroIvDecrypt, BacMac;
    assert Sealed32(p, kEnc, kMac, s)[..32] == ZeroIvEncrypt(p, TripleDes, kEnc, s);
    ZeroIvInverse(p, TripleDes, kEnc, s);
  }

  /** And nothing else opens: what passes is what sealing that plaintext gives. */
  lemma OpenedWasSealed(p: Primitives, kEnc: Bytes, kMac: Bytes, m: Bytes)
    requires Lawful(p) && |kEnc| == |kMac| == 16 && |m| == 40 && Open32(p, kEnc, kMac, m).Some?
    ensures |Open32(p, kEnc, kMac, m).value| == 32
    ensures m == Sealed32(p, kEnc, kMac, Open32(p, kEnc, kMac, m).value)
  {
    hide Lawful, ZeroIvEncrypt, ZeroIvDecrypt, BacMac;
    ZeroIvInverse(p, TripleDes, kEnc, m[..32]);
    assert m == m[..32] + m[32..];
  }

  /** The chip's answer to the challenge, for one choice of its half of the secret. */
  function HonestAnswer(p: Primitives, k: (Bytes, Bytes), rndIc: Bytes, rndIfd: Bytes, kIc: Bytes): (m: Bytes)
    requires Lawful(p) && |k.0| == |k.1| == 16 && |rndIc| == |rndIfd| == 8 && |kIc| == 16
    ensures |m| == 40
  {
    Sealed32(p, k.0, k.1, rndIc + rndIfd + kIc)
  }

  /** An honest answer opens the session of that chip's half of the secret. */
  lemma HonestAnswerAccepted(p: Primitives, h: Hashes, k: (Bytes, Bytes), rndIc: Bytes, d: Draw, kIc: Bytes)
    requires Lawful(p) && LawfulHashes(h) && |k.0| == |k.1| == 16 && |rndIc| == 8 && LawfulDraw(d) && |kIc| == 16
    ensures ProcessResponse(p, h, k, HonestAnswer(p, k, rndIc, d.rndIfd, kIc), rndIc, d) == Ok(SharedSession(h, d, rndIc, kIc))
  {
    hide Lawful, LawfulHashes, Open32, SharedSession, Sealed32;
    var s := rndIc + d.rndIfd + kIc;
    SealOpens(p, k.0, k.1, s);
    assert s[..8] == rndIc && s[8..16] == d.rndIfd && s[16..] == kIc;
  }

  /** An answer that is not forty bytes is no answer; every other one that opens no session says that the key is wrong. */
  lemma RejectedBy(p: Primitives, h: Hashes, k: (Bytes, Bytes), response: Bytes, rndIc: Bytes, d: Draw)
    requires Lawful(p) && LawfulHashes(h) && |k.0| == |k.1| == 16 && |rndIc| == 8 && LawfulDraw(d)
    requires ProcessResponse(p, h, k, response, rndIc, d).Err?
    ensures ProcessResponse(p, h, k, response, rndIc, d).error == if |response| == 40 then WrongKey else Protocol
  {
    hide Lawful, LawfulHashes, Open32, SharedSession;
  }

  /** And a session is opened on no other bytes whatever: an accepted answer is an honest one. */
  lemma AcceptedIsHonest(p: Primitives, h: Hashes, k: (Bytes, Bytes), response: Bytes, rndIc: Bytes, d: Draw)
    requires Lawful(p) && LawfulHashes(h) && |k.0| == |k.1| == 16 && |rndIc| == 8 && LawfulDraw(d)
    requires ProcessResponse(p, h, k, response, rndIc, d).Ok?
    ensures exists kIc: Bytes :: |kIc| == 16 && response == HonestAnswer(p, k, rndIc, d.rndIfd, kIc)
  {
    hide Lawful, LawfulHashes, Open32, SharedSession, Sealed32;
    OpenedWasSealed(p, k.0, k.1, response);
    var plain := Open32(p, k.0, k.1, response).value;
    assert plain == plain[..8] + plain[8..16] + plain[16..];
    assert response == HonestAnswer(p, k, rndIc, d.rndIfd, plain[16..]);
  }
}
