/**
 * PACE with the generic mapping, ICAO Doc 9303 part 11 section 4.4: the reader's side, round by
 * round, over an abstract curve.
 */
module Pace {
  import opened Bytes
  import opened Errors
  import opened Numbers
  import opened Tlv
  import opened Cipher
  import opened Mac
  import opened Cmac
  import opened Apdu
  import opened SecureMessaging
  import opened SmReader
  import opened Digests
  import opened Credentials
  import opened AccessChip
  import opened AccessPort

  const DO_DYNAMIC: byte := 0x7C
  const DO_NONCE: byte := 0x80
  const DO_MAP_IFD: byte := 0x81
  const DO_MAP_IC: byte := 0x82
  const DO_KA_IFD: byte := 0x83
  const DO_KA_IC: byte := 0x84
  const DO_TOKEN_IFD: byte := 0x85
  const DO_TOKEN_IC: byte := 0x86
  const POINT_MAX := 133
  const DYNAMIC_MAX := 6 + POINT_MAX
  const OID_MAX := 16
  const TOKEN_INPUT_MAX := 8 + OID_MAX + POINT_MAX

  /** What the document announced, and the password's key. */
  datatype Info<!G> = Info(suite: Suite, oid: Bytes, curve: Curve<G>, kpi: Bytes, can: bool)

  /** The two ephemeral keys of one run. */
  datatype Draw = Draw(mapping: nat, agreement: nat)

  ghost predicate LawfulInfo<G(!new)>(i: Info<G>) {
    |i.kpi| == KeySize(i.suite) && 1 <= |i.oid| <= OID_MAX && LawfulCurve(i.curve)
  }

  // ---- One round ---------------------------------------------------------------------------

  function SetAtApdu<G>(i: Info<G>): Command
    requires 1 <= |i.oid| <= OID_MAX
  {
    Command(0x00, 0x22, 0xC1, 0xA4, [0x80, |i.oid|] + i.oid + [0x83, 0x01, if i.can then 0x02 else 0x01], LE_NONE)
  }

  /** The dynamic authentication data: empty in the first round, one object in the others. */
  function Dynamic(inner: Option<(byte, Bytes)>): Bytes {
    Object(DO_DYNAMIC, if inner.None? then [] else Object(inner.value.0, inner.value.1))
  }

  /** Every round but the last is one link of a chain, marked in the class byte. */
  function RoundApdu(inner: Option<(byte, Bytes)>, chaining: bool): Command {
    Command(if chaining then 0x10 else 0x00, 0x86, 0x00, 0x00, Dynamic(inner), LE_MAX)
  }

  function StatusError(sw: nat, tokenStep: bool): Error {
    if tokenStep && sw / 256 == 0x63 then WrongKey
    else if FromSw(sw).None? then Protocol
    else FromSw(sw).value
  }

  /** 63XX in answer to the token says that the key is wrong; elsewhere a word means what it always does. */
  lemma RefusedRound(r: Response, expected: byte)
    requires r.sw != 0x9000
    ensures RoundResult(r, expected)
            == Err(if expected == 0x86 && 0x6300 <= r.sw <= 0x63FF then WrongKey else FromSw(r.sw).value)
  {
  }

  /** An accepted answer is a 7C that holds an object of the tag expected; anything else cannot be parsed. */
  lemma MalformedRound(r: Response, expected: byte)
    requires r.sw == 0x9000
    ensures RoundResult(r, expected).Err? ==> RoundResult(r, expected).error == Error.Parse
    ensures r.data == [] || r.data[0] != 0x7C ==> RoundResult(r, expected).Err?
  {
    hide ReadLength, Walk;
  }

  /** A round goes out when its value has at most 133 bytes, which is a point of 66 byte coordinates. */
  lemma RoomForPoint(tag: byte, value: Bytes)
    ensures |Dynamic(Some((tag, value)))| <= DYNAMIC_MAX <==> |value| <= 133
  {
  }

  /** The object a round was to bring back. */
  function RoundResult(r: Response, expected: byte): Result<Bytes> {
    if r.sw != 0x9000 then Err(StatusError(r.sw, expected == DO_TOKEN_IC))
    else
      match ReadNode(r.data, |r.data|, 0)
      case None => Err(Error.Parse)
      case Some(wrapper) =>
        if wrapper.tag != DO_DYNAMIC as int then Err(Error.Parse)
        else
          var inner := r.data[wrapper.valueStart..wrapper.End()];
          WalkInside(inner, |inner|, 0);
          match FirstTag(Walk(inner, |inner|, 0).0, expected)
          case None => Err(Error.Parse)
          case Some(n) =>
            FirstTagIsNode(Walk(inner, |inner|, 0).0, expected);
            Ok(inner[n.valueStart..n.End()])
  }

  lemma {:induction false} FirstTagIsNode(nodes: seq<Node>, tag: nat)
    ensures FirstTag(nodes, tag).Some? ==> FirstTag(nodes, tag).value in nodes
    decreases |nodes|
  {
    if nodes != [] {
      FirstTagIsNode(nodes[1..], tag);
    }
  }

  function Round<S>(link: Link<S>, s: S, inner: Option<(byte, Bytes)>, chaining: bool, expected: byte): (S,
                    Result<Bytes>) {
    if |Dynamic(inner)| > DYNAMIC_MAX then (s, Err(BufferTooSmall))
    else
      var (t, r) := Exchange(link, s, RoundApdu(inner, chaining));
      (t, match r case Err(e) => Err(e) case Ok(a) => RoundResult(a, expected))
  }

  /** A value that has no room in its buffer is refused before anything is sent. */
  lemma LongRound<S>(link: Link<S>, s: S, tag: byte, value: Bytes, chaining: bool, expected: byte)
    requires |value| > 133
    ensures Round(link, s, Some((tag, value)), chaining, expected) == (s, Err(BufferTooSmall))
  {
    RoomForPoint(tag, value);
  }

  // ---- The protocol ------------------------------------------------------------------------

  /** What a token is taken over: 7F49 { 06 oid, 86 point }. */
  function TokenInput(oid: Bytes, point: Bytes): Bytes {
    var inner := Object(0x06, oid) + Object(0x86, point);
    [0x7F, 0x49] + EncodeLength(|inner|) + inner
  }

  /** The x coordinate of a point. */
  function X<G(!new)>(c: Curve<G>, g: G): (x: Bytes)
    requires LawfulCurve(c)
    ensures |x| == c.size
  {
    PointTravels(c, g);
    c.encode(g)[1..1 + c.size]
  }

  /** The mapped generator, from the nonce as the chip sent it and the chip's mapping point. */
  function MappedGenerator<G(!new)>(p: Primitives, i: Info<G>, d: Draw, nonce: Bytes, peer: Bytes): Result<G>
    requires Lawful(p) && LawfulInfo(i) && |nonce| == BlockSize(i.suite)
  {
    match i.curve.decode(peer)
    case None => Err(PaceFailed)
    case Some(mappingIc) =>
      match i.curve.mapped(BeValue(nonce), i.curve.mul(d.mapping, mappingIc))
      case None => Err(PaceFailed)
      case Some(generator) => Ok(generator)
  }

  function Nonce<G(!new)>(p: Primitives, i: Info<G>, peer: Bytes): (r: Result<Bytes>)
    requires Lawful(p) && LawfulInfo(i)
    ensures r.Ok? ==> |r.value| == BlockSize(i.suite)
  {
    hide Lawful, LawfulCurve;
    if |peer| != BlockSize(i.suite) then Err(Protocol)
    else Ok(ZeroIvDecrypt(p, i.suite, i.kpi, peer))
  }

  /** The first three exchanges: the protocol named, the nonce, and the generator it maps to. */
  function Map<S, G(!new)>(p: Primitives, i: Info<G>, d: Draw, link: Link<S>, s: S): (S, Result<G>)
    requires Lawful(p) && LawfulInfo(i)
  {
    hide Lawful, LawfulCurve, Exchange, Round, Nonce, MappedGenerator;
    var (s1, at) := Exchange(link, s, SetAtApdu(i));
    if at.Err? then (s1, Err(at.error))
    else if at.value.sw != 0x9000 then (s1, Err(StatusError(at.value.sw, false)))
    else
      var (s2, sealed) := Round(link, s1, None, true, DO_NONCE);
      if sealed.Err? then (s2, Err(sealed.error))
      else
        var nonce := Nonce(p, i, sealed.value);
        if nonce.Err? then (s2, Err(nonce.error))
        else
          var point := i.curve.encode(i.curve.mul(d.mapping, i.curve.base));
          var (s3, peer) := Round(link, s2, Some((DO_MAP_IFD, point)), true, DO_MAP_IC);
          if peer.Err? then (s3, Err(peer.error))
          else (s3, MappedGenerator(p, i, d, nonce.value, peer.value))
  }

  /** The last two: the key agreement over that generator, and the tokens that prove it. */
  function Agree<S, G(!new)>(p: Primitives, h: Hashes, i: Info<G>, d: Draw, generator: G, link: Link<S>, s: S): (S,
                      Result<Session>)
    requires Lawful(p) && LawfulHashes(h) && LawfulInfo(i)
  {
    hide Lawful, LawfulHashes, LawfulCurve, Round, X, Token, SessionOf;
    var point := i.curve.encode(i.curve.mul(d.agreement, generator));
    var (s4, peer) := Round(link, s, Some((DO_KA_IFD, point)), true, DO_KA_IC);
    if peer.Err? then (s4, Err(peer.error))
    else
      match i.curve.decode(peer.value)
      case None => (s4, Err(PaceFailed))
      case Some(agreementIc) =>
        var session := SessionOf(h, i.suite, X(i.curve, i.curve.mul(d.agreement, agreementIc)), Zeros(BlockSize(i.suite)));
        var tokenIfd := Token(p, i.suite, session.ksMac, TokenInput(i.oid, peer.value));
        var expected := Token(p, i.suite, session.ksMac, TokenInput(i.oid, point));
        var (s5, token) := Round(link, s4, Some((DO_TOKEN_IFD, tokenIfd)), false, DO_TOKEN_IC);
        if token.Err? then (s5, Err(token.error))
        else if token.value != expected then (s5, Err(PaceFailed))
        else (s5, Ok(session))
  }

  function Run<S, G(!new)>(p: Primitives, h: Hashes, i: Info<G>, d: Draw, link: Link<S>, s: S): (S, Result<Session>)
    requires Lawful(p) && LawfulHashes(h) && LawfulInfo(i)
  {
    var (t, generator) := Map(p, i, d, link, s);
    if generator.Err? then (t, Err(generator.error)) else Agree(p, h, i, d, generator.value, link, t)
  }

  // ---- Any chip at all -----------------------------------------------------------------------

  /** A chip that does not take the protocol is asked nothing more. */
  lemma SetAtRefused<S, G(!new)>(p: Primitives, i: Info<G>, d: Draw, link: Link<S>, s: S)
    requires Lawful(p) && LawfulInfo(i)
    ensures
      var (s1, at) := Exchange(link, s, SetAtApdu(i));
      && (at.Err? ==> Map(p, i, d, link, s) == (s1, Err(at.error)))
      && (at.Ok? && at.value.sw != 0x9000 ==> Map(p, i, d, link, s) == (s1, Err(FromSw(at.value.sw).value)))
  {
    hide Lawful, LawfulCurve, Exchange, Round, Nonce, MappedGenerator;
  }

  /** The two exchanges of the mapping: the nonce as it came, and the chip's point for the reader's. */
  ghost predicate Mapped<S, G(!new)>(i: Info<G>, d: Draw, link: Link<S>, s: S, sealed: Result<Bytes>, peer: Result<Bytes>,
                                     end: S)
    requires LawfulInfo(i)
  {
    hide LawfulCurve, Round;
    var (s2, nonce) := Round(link, Exchange(link, s, SetAtApdu(i)).0, None, true, 0x80);
    && nonce == sealed
    && (end, peer) == Round(link, s2, Some((0x81, i.curve.encode(i.curve.mul(d.mapping, i.curve.base)))), true, 0x82)
  }

  /** What those two come to: the generator that nonce and points map to, or Protocol, or PaceFailed, in this order. */
  lemma GeneratorIs<S, G(!new)>(p: Primitives, i: Info<G>, d: Draw, link: Link<S>, s: S, sealed: Bytes, peer: Bytes, end: S)
    requires Lawful(p) && LawfulInfo(i) && Mapped(i, d, link, s, Ok(sealed), Ok(peer), end)
    requires Exchange(link, s, SetAtApdu(i)).1.Ok? && Exchange(link, s, SetAtApdu(i)).1.value.sw == 0x9000
    requires |sealed| == BlockSize(i.suite)
    ensures Cipher.Whole(|sealed|, BlockSize(i.suite))
    ensures
      var nonce := ZeroIvDecrypt(p, i.suite, i.kpi, sealed);
      var ic := i.curve.decode(peer);
      var generator := if ic == None then None else i.curve.mapped(BeValue(nonce), i.curve.mul(d.mapping, ic.value));
      Map(p, i, d, link, s) == (end, if generator == None then Err(PaceFailed) else Ok(generator.value))
  {
    hide Lawful, LawfulCurve, Exchange, Round, ZeroIvDecrypt, BeValue;
  }

  /** A nonce that is not one block breaches the protocol. */
  lemma OddNonce<S, G(!new)>(p: Primitives, i: Info<G>, d: Draw, link: Link<S>, s: S)
    requires Lawful(p) && LawfulInfo(i)
    requires Exchange(link, s, SetAtApdu(i)).1.Ok? && Exchange(link, s, SetAtApdu(i)).1.value.sw == 0x9000
    ensures
      var (s2, sealed) := Round(link, Exchange(link, s, SetAtApdu(i)).0, None, true, 0x80);
      && (sealed.Err? ==> Map(p, i, d, link, s) == (s2, Err(sealed.error)))
      && (sealed.Ok? && |sealed.value| != BlockSize(i.suite) ==> Map(p, i, d, link, s) == (s2, Err(Protocol)))
  {
    hide Lawful, LawfulCurve, Exchange, Round, MappedGenerator;
  }

  /** The two exchanges of the key agreement: what came back to the reader's point, and what to its token. */
  ghost predicate Agreed<S, G(!new)>(p: Primitives, i: Info<G>, d: Draw, generator: G, link: Link<S>, s: S, ic: G,
                                     session: Session, token: Result<Bytes>)
    requires Lawful(p) && LawfulInfo(i) && Keyed(session) && session.suite == i.suite
  {
    hide Lawful, LawfulCurve, Round, Token;
    var point := i.curve.encode(i.curve.mul(d.agreement, generator));
    var (s4, peer) := Round(link, s, Some((0x83, point)), true, 0x84);
    && peer.Ok? && i.curve.decode(peer.value) == Some(ic)
    && token == Round(link, s4, Some((0x85, Token(p, i.suite, session.ksMac, TokenInput(i.oid, peer.value)))), false, 0x86).1
  }

  /**
   * A session is opened on nothing but the right token, whatever the chip: its keys are those of the x coordinate
   * of the shared point, with the counters 1 and 2, its own counter is zero, and the token that came back is
   * the checksum over the reader's own point under the session's key.
   */
  lemma OnlyOnToken<S, G(!new)>(p: Primitives, h: Hashes, i: Info<G>, d: Draw, generator: G, link: Link<S>, s: S)
    requires Lawful(p) && LawfulHashes(h) && LawfulInfo(i)
    requires Agree(p, h, i, d, generator, link, s).1.Ok?
    ensures
      var session := Agree(p, h, i, d, generator, link, s).1.value;
      && Keyed(session) && session.suite == i.suite && session.established
      && (forall k :: 0 <= k < |session.ssc| ==> session.ssc[k] == 0)
      && exists ic: G ::
           var secret := X(i.curve, i.curve.mul(d.agreement, ic));
           var point := i.curve.encode(i.curve.mul(d.agreement, generator));
           && IsHead(h, i.suite, secret + [0, 0, 0, 1], session.ksEnc)
           && IsHead(h, i.suite, secret + [0, 0, 0, 2], session.ksMac)
           && Agreed(p, i, d, generator, link, s, ic, session, Ok(Token(p, i.suite, session.ksMac, TokenInput(i.oid, point))))
  {
    hide Lawful, LawfulHashes, LawfulCurve, Round, X, Token, SessionOf, IsHead;
    var point := i.curve.encode(i.curve.mul(d.agreement, generator));
    var (s4, peer) := Round(link, s, Some((DO_KA_IFD, point)), true, DO_KA_IC);
    var ic := i.curve.decode(peer.value).value;
    var secret := X(i.curve, i.curve.mul(d.agreement, ic));
    SessionKeysAre(h, i.suite, secret, Zeros(BlockSize(i.suite)));
    var session := Agree(p, h, i, d, generator, link, s).1.value;
    assert session == SessionOf(h, i.suite, secret, Zeros(BlockSize(i.suite)));
    assert Agreed(p, i, d, generator, link, s, ic, session, Ok(Token(p, i.suite, session.ksMac, TokenInput(i.oid, point))));
  }

  /** With a point and a token from the chip, a run that opens no session has failed as PACE. */
  lemma WrongToken<S, G(!new)>(p: Primitives, h: Hashes, i: Info<G>, d: Draw, generator: G, link: Link<S>, s: S)
    requires Lawful(p) && LawfulHashes(h) && LawfulInfo(i)
    ensures
      var (s4, peer) := Round(link, s, Some((0x83, i.curve.encode(i.curve.mul(d.agreement, generator)))), true, 0x84);
      var (end, r) := Agree(p, h, i, d, generator, link, s);
      && (peer.Err? ==> end == s4 && r == Err(peer.error))
      && (peer.Ok? && i.curve.decode(peer.value) == None ==> end == s4 && r == Err(PaceFailed))
      && (peer.Ok? && i.curve.decode(peer.value).Some? && r.Err? ==>
            r.error == PaceFailed || exists t: Bytes :: Round(link, s4, Some((0x85, t)), false, 0x86) == (end, Err(r.error)))
  {
    hide Lawful, LawfulHashes, LawfulCurve, Round, X, Token, SessionOf;
  }

  // ---- Before anything is sent -------------------------------------------------------------

  /** One protocol the document announced, as its description was read. */
  datatype Announced<!G> = Announced(
    ecdh: bool,
    generic: bool,
    suite: Suite,
    oid: Bytes,
    curve: Option<Curve<G>>,
    usable: bool,
    reason: Option<Error>
  )

  /** What this build cannot do is refused by name. */
  function Refusal<G>(a: Announced<G>, c: Credentials): Option<Error> {
    if !a.ecdh then Some(PaceUnsupportedDh)
    else if !a.generic then Some(PaceUnsupportedMapping)
    else if a.curve.None? then Some(PaceUnsupportedCurve)
    else if !a.usable then (if a.reason.Some? then a.reason else Some(Unsupported))
    else if !UsesCan(c) && !ValidMrz(c) then Some(InvalidInput)
    else None
  }

  /** What is refused and what is not: the refusal names the first thing that is wrong. */
  lemma RefusalNames<G>(a: Announced<G>, c: Credentials)
    ensures Refusal(a, c) == None <==> a.ecdh && a.generic && a.curve.Some? && a.usable && (UsesCan(c) || ValidMrz(c))
    ensures a.ecdh && a.generic && a.curve.Some? && !a.usable ==>
      Refusal(a, c) == Some(if a.reason.Some? then a.reason.value else Unsupported)
    ensures a.ecdh && a.generic && a.curve.Some? && a.usable && !(c.hasCan && c.can != "") && !ValidMrz(c) ==>
      Refusal(a, c) == Some(InvalidInput)
    ensures !a.ecdh ==> Refusal(a, c) == Some(PaceUnsupportedDh)
    ensures a.ecdh && !a.generic ==> Refusal(a, c) == Some(PaceUnsupportedMapping)
    ensures a.ecdh && a.generic && a.curve == None ==> Refusal(a, c) == Some(PaceUnsupportedCurve)
  {
  }

  /** What a run needs, once nothing has been refused. */
  function Prepared<G(!new)>(h: Hashes, a: Announced<G>, c: Credentials): (r: Result<Info<G>>)
    requires LawfulHashes(h) && Refusal(a, c).None?
    ensures r.Ok? && LawfulCurve(a.curve.value) ==> LawfulInfo(r.value)
  {
    hide LawfulCurve;
    match PasswordKey(h, a.suite, c)
    case Err(e) => Err(e)
    case Ok(kpi) =>
      if |a.oid| == 0 || |a.oid| > OID_MAX then Err(InvalidInput)
      else Ok(Info(a.suite, a.oid, a.curve.value, kpi, UsesCan(c)))
  }

  /** An identifier of one to sixteen bytes can be named to the chip. */
  lemma IdentifierInNumbers<G(!new)>(h: Hashes, a: Announced<G>, c: Credentials)
    requires LawfulHashes(h) && Refusal(a, c).None? && PasswordKey(h, a.suite, c).Ok?
    ensures Prepared(h, a, c).Ok? <==> 1 <= |a.oid| <= 16
    ensures Prepared(h, a, c).Ok? || Prepared(h, a, c) == Err(InvalidInput)
    ensures Prepared(h, a, c).Ok? ==>
      var i := Prepared(h, a, c).value;
      && i.suite == a.suite && i.oid == a.oid && Some(i.curve) == a.curve && i.kpi == PasswordKey(h, a.suite, c).value
      && (i.can <==> c.hasCan && c.can != "")
  {
    hide PasswordKey, ValidMrz;
  }

  // ---- The reader's code -------------------------------------------------------------------

  /** The port and the buffers of one run; an answer stays in `response` only until the next round. */
  class PaceIo<S(!new)> {
    const port: Port<S>
    const dynamic: array<byte>
    const response: array<byte>
    const tokenInput: array<byte>

    predicate Valid() {
      dynamic.Length == DYNAMIC_MAX && response.Length == APDU_MAX_SIZE && tokenInput.Length == TOKEN_INPUT_MAX
    }

    constructor (port: Port<S>)
      ensures Valid() && this.port == port && fresh(dynamic) && fresh(response) && fresh(tokenInput)
    {
      this.port := port;
      dynamic, response, tokenInput := new byte[DYNAMIC_MAX], new byte[APDU_MAX_SIZE], new byte[TOKEN_INPUT_MAX];
    }

    /** Send one command; the data of its answer is then where the response buffer begins. */
    method Send(c: Command) returns (sw: Result<nat>, len: nat)
      requires Valid()
      modifies port, response
      ensures port.state == Exchange(port.link, old(port.state), c).0
      ensures
        match Exchange(port.link, old(port.state), c).1
        case Err(e) => sw == Err(e)
        case Ok(a) => sw == Ok(a.sw) && len == |a.data| <= response.Length && response[..len] == a.data
    {
      hide Exchange;
      ShortAnswer(port.link, port.state, c);
      var answer := port.Send(c);
      if answer.Err? {
        return Err(answer.error), 0;
      }
      len := |answer.value.data|;
      CopyInto(response, 0, answer.value.data);
      sw := Ok(answer.value.sw);
    }

    /** 7C { tag value }, written where it is sent from. */
    method BuildDynamic(inner: Option<(byte, Bytes)>) returns (len: Result<nat>)
      requires Valid()
      modifies dynamic
      ensures |Dynamic(inner)| > DYNAMIC_MAX ==> len == Err(BufferTooSmall)
      ensures |Dynamic(inner)| <= DYNAMIC_MAX ==> len == Ok(|Dynamic(inner)|) && dynamic[..len.value] == Dynamic(inner)
    {
      hide EncodeLength, EncodedLengthSize;
      var innerLen := if inner.None? then 0 else 1 + EncodedLengthSize(|inner.value.1|) + |inner.value.1|;
      if 1 + EncodedLengthSize(innerLen) + innerLen > DYNAMIC_MAX {
        return Err(BufferTooSmall);
      }
      var header := [DO_DYNAMIC] + EncodeLength(innerLen);
      CopyInto(dynamic, 0, header);
      assert dynamic[..|header|] == header;
      if inner.None? {
        assert header == header + [];
        return Ok(|header|);
      }
      var end := PutObject(dynamic, |header|, inner.value.0, inner.value.1);
      len := Ok(end);
    }

    /** One General Authenticate round; what it brings back lies in the response buffer. */
    method RunRound(inner: Option<(byte, Bytes)>, chaining: bool, expected: byte)
      returns (e: Option<Error>, start: nat, len: nat)
      requires Valid()
      modifies port, response, dynamic
      ensures port.state == Round(port.link, old(port.state), inner, chaining, expected).0
      ensures
        match Round(port.link, old(port.state), inner, chaining, expected).1
        case Err(error) => e == Some(error)
        case Ok(value) => e == None && start + len <= response.Length && response[start..start + len] == value
    {
      hide Exchange, RoundResult, Dynamic;
      start, len := 0, 0;
      var built := BuildDynamic(inner);
      if built.Err? {
        return Some(built.error), start, len;
      }
      var sw, dataLen := Send(Command(if chaining then 0x10 else 0x00, 0x86, 0x00, 0x00, dynamic[..built.value], LE_MAX));
      if sw.Err? {
        return Some(sw.error), start, len;
      }
      e, start, len := ReadRound(sw.value, dataLen, expected);
    }

    method ReadRound(sw: nat, dataLen: nat, expected: byte) returns (e: Option<Error>, start: nat, len: nat)
      requires Valid() && dataLen <= response.Length
      ensures
        match RoundResult(Response(response[..dataLen], sw), expected)
        case Err(error) => e == Some(error)
        case Ok(value) => e == None && start + len <= response.Length && response[start..start + len] == value
    {
      hide ReadNode, Walk, FirstTag;
      start, len := 0, 0;
      var data := response[..dataLen];
      if sw != 0x9000 {
        return Some(StatusError(sw, expected == DO_TOKEN_IC)), start, len;
      }
      var wrapper := ReadNode(data, |data|, 0);
      if wrapper.None? || wrapper.value.tag != DO_DYNAMIC as int {
        return Some(Error.Parse), start, len;
      }
      var inner := data[wrapper.value.valueStart..wrapper.value.End()];
      WalkInside(inner, |inner|, 0);
      FirstTagIsNode(Walk(inner, |inner|, 0).0, expected);
      var node := Find(inner, 0, |inner|, expected);
      if node.None? {
        return Some(Error.Parse), start, len;
      }
      start, len := wrapper.value.valueStart + node.value.valueStart, node.value.valueLen;
      SliceOfSlice(data, wrapper.value.valueStart, wrapper.value.End(), node.value.valueStart, node.value.End());
      assert response[start..start + len] == data[start..start + len];
      e := None;
    }

    /** What a token is taken over, laid out in its buffer. */
    method BuildTokenInput(oid: Bytes, point: Bytes) returns (len: Result<nat>)
      requires Valid()
      modifies tokenInput
      ensures |oid| == 0 || |oid| > 0x7F || |point| == 0 ==> len == Err(InvalidInput)
      ensures 1 <= |oid| <= 0x7F && |point| > 0 ==>
        if |TokenInput(oid, point)| > TOKEN_INPUT_MAX then len == Err(BufferTooSmall)
        else len == Ok(|TokenInput(oid, point)|) && tokenInput[..len.value] == TokenInput(oid, point)
    {
      hide EncodeLength, EncodedLengthSize, TokenInput, Object;
      if |oid| == 0 || |oid| > 0x7F || |point| == 0 {
        return Err(InvalidInput);
      }
      TokenInputParts(oid, point);
      var innerLen := 2 + |oid| + 1 + EncodedLengthSize(|point|) + |point|;
      if 2 + EncodedLengthSize(innerLen) + innerLen > tokenInput.Length {
        return Err(BufferTooSmall);
      }
      var header := [0x7F, 0x49] + EncodeLength(innerLen);
      CopyInto(tokenInput, 0, header);
      assert tokenInput[..|header|] == header;
      var offset := PutObject(tokenInput, |header|, 0x06, oid);
      offset := PutObject(tokenInput, offset, 0x86, point);
      len := Ok(offset);
    }

    /** The token over what the buffer holds, padded where it lies when the checksum does not pad itself. */
    method MakeToken(p: Primitives, suite: Suite, ksMac: Bytes, len: nat) returns (token: Result<Bytes>)
      requires Valid() && Lawful(p) && |ksMac| == KeySize(suite) && len <= tokenInput.Length
      modifies tokenInput
      ensures suite == TripleDes && PaddedLen(len, 8) > tokenInput.Length ==> token == Err(BufferTooSmall)
      ensures suite != TripleDes || PaddedLen(len, 8) <= tokenInput.Length ==>
        token == Ok(Token(p, suite, ksMac, old(tokenInput[..len])))
    {
      hide Lawful, Pad, PaddedLen, RetailMac, AesCmac;
      ghost var input := tokenInput[..len];
      var mac: Option<Bytes>;
      if suite == TripleDes {
        if PaddedLen(len, 8) > tokenInput.Length {
          return Err(BufferTooSmall);
        }
        assert tokenInput[0..len] == input;
        var padded := PadOver(tokenInput, 0, len, 8);
        assert tokenInput[..padded] == Pad(input, 8);
        EightByteBlocks(PaddedLen(len, 8));
        mac := ComputeRetailMac(p, ksMac, tokenInput[..padded]);
      } else {
        mac := ComputeCmac(p, ksMac, tokenInput[..len], 8);
      }
      token := Ok(mac.value);
    }
  }

  lemma TokenInputParts(oid: Bytes, point: Bytes)
    requires |oid| <= 0x7F
    ensures
      var innerLen := 2 + |oid| + 1 + EncodedLengthSize(|point|) + |point|;
      && TokenInput(oid, point) == [0x7F, 0x49] + EncodeLength(innerLen) + Object(0x06, oid) + Object(0x86, point)
      && |TokenInput(oid, point)| == 2 + EncodedLengthSize(innerLen) + innerLen
  {
    ShortLength(|oid|);
    hide EncodeLength, EncodedLengthSize;
    var inner := Object(0x06, oid) + Object(0x86, point);
    var header := [0x7F, 0x49] + EncodeLength(|inner|);
    assert header + Object(0x06, oid) + Object(0x86, point) == header + inner;
  }

  /** The buffer is one byte short of the longest identifier with the longest point; on the curves there are, all fits. */
  lemma TokenInputFits(oid: Bytes, point: Bytes)
    requires 1 <= |oid| <= 16 && 1 <= |point| <= 133
    ensures |TokenInput(oid, point)| > TOKEN_INPUT_MAX <==> |oid| == 16 && |point| == 133
    ensures |point| <= 65 ==> |TokenInput(oid, point)| <= 91
  {
    hide EncodeLength;
  }

  /** What a token is taken over, in bytes: the public key object of ICAO Doc 9303 part 11 section 4.4.3.4. */
  lemma TokenInputInBytes(oid: Bytes, point: Bytes)
    requires |oid| <= 16 && |point| <= 65
    ensures TokenInput(oid, point)
            == [0x7F, 0x49, 4 + |oid| + |point|, 0x06, |oid|] + oid + [0x86, |point|] + point
  {
    assert Object(0x06, oid) == [0x06, |oid|] + oid && Object(0x86, point) == [0x86, |point|] + point;
  }

  /** A data object, written behind what the buffer already holds. */
  method PutObject(buffer: array<byte>, at: nat, tag: byte, value: Bytes) returns (end: nat)
    requires at + |Object(tag, value)| <= buffer.Length
    modifies buffer
    ensures end == at + |Object(tag, value)| && buffer[..end] == old(buffer[..at]) + Object(tag, value)
  {
    hide EncodeLength, EncodedLengthSize;
    var header := [tag] + EncodeLength(|value|);
    ghost var before := buffer[..at];
    CopyInto(buffer, at, header);
    CopyInto(buffer, at + |header|, value);
    assert before + header + value == before + (header + value);
    end := at + |header| + |value|;
  }

  lemma ShortAnswer<S>(link: Link<S>, s: S, c: Command)
    ensures Exchange(link, s, c).1.Ok? ==> |Exchange(link, s, c).1.value.data| <= APDU_MAX_SIZE
  {
  }

  lemma ShortLength(n: nat)
    requires n <= 0x7F
    ensures EncodeLength(n) == [n] && EncodedLengthSize(n) == 1
  {
  }

  /** The first three exchanges. */
  method RunMapping<S(!new), G(!new)>(p: Primitives, i: Info<G>, d: Draw, io: PaceIo<S>) returns (r: Result<G>)
    requires Lawful(p) && LawfulInfo(i) && io.Valid()
    modifies io.port, io.response, io.dynamic
    ensures io.port.state == Map(p, i, d, io.port.link, old(io.port.state)).0
    ensures r == Map(p, i, d, io.port.link, old(io.port.state)).1
  {
    hide Lawful, LawfulCurve, Exchange, Round, ZeroIvDecrypt, BeValue;
    var sw, _ := io.Send(SetAtApdu(i));
    if sw.Err? {
      return Err(sw.error);
    }
    if sw.value != 0x9000 {
      return Err(StatusError(sw.value, false));
    }
    var e, start, len := io.RunRound(None, true, DO_NONCE);
    if e.Some? {
      return Err(e.value);
    }
    if len != BlockSize(i.suite) {
      return Err(Protocol);
    }
    var nonce := ZeroIvDecrypt(p, i.suite, i.kpi, io.response[start..start + len]);
    var point := i.curve.encode(i.curve.mul(d.mapping, i.curve.base));
    e, start, len := io.RunRound(Some((DO_MAP_IFD, point)), true, DO_MAP_IC);
    if e.Some? {
      return Err(e.value);
    }
    var mappingIc := i.curve.decode(io.response[start..start + len]);
    if mappingIc.None? {
      return Err(PaceFailed);
    }
    var generator := i.curve.mapped(BeValue(nonce), i.curve.mul(d.mapping, mappingIc.value));
    r := if generator.None? then Err(PaceFailed) else Ok(generator.value);
  }

  /** Both tokens, while the chip's point is still in the response buffer. */
  method MakeTokens<S(!new), G(!new)>(p: Primitives, i: Info<G>, ksMac: Bytes, io: PaceIo<S>, start: nat, len: nat,
                      point: Bytes)
    returns (ours: Result<Bytes>, expected: Result<Bytes>)
    requires Lawful(p) && LawfulInfo(i) && io.Valid() && |ksMac| == KeySize(i.suite)
    requires start + len <= io.response.Length && 1 <= len <= 65 && 1 <= |point| <= 65
    modifies io.tokenInput
    ensures ours == Ok(Token(p, i.suite, ksMac, TokenInput(i.oid, io.response[start..start + len])))
    ensures expected == Ok(Token(p, i.suite, ksMac, TokenInput(i.oid, point)))
  {
    hide Lawful, LawfulCurve, Token, TokenInput, PaddedLen;
    var peer := io.response[start..start + len];
    TokenInputFits(i.oid, peer);
    TokenInputFits(i.oid, point);
    PaddedGrowsLittle(|TokenInput(i.oid, peer)|);
    PaddedGrowsLittle(|TokenInput(i.oid, point)|);
    var inputLen := io.BuildTokenInput(i.oid, peer);
    ours := io.MakeToken(p, i.suite, ksMac, inputLen.value);
    inputLen := io.BuildTokenInput(i.oid, point);
    expected := io.MakeToken(p, i.suite, ksMac, inputLen.value);
  }

  lemma PaddedGrowsLittle(n: nat)
    ensures PaddedLen(n, 8) <= n + 8
  {
  }

  /** The key agreement and the tokens; a session is begun only when the chip's token is the one expected. */
  method RunAgreement<S(!new), G(!new)>(p: Primitives, h: Hashes, i: Info<G>, d: Draw, generator: G, io: PaceIo<S>,
                        session: Sm)
    returns (e: Option<Error>)
    requires Lawful(p) && LawfulHashes(h) && LawfulInfo(i) && session.ssc.Length == 16 && io.Valid()
    requires session.ssc != io.response && session.ssc != io.dynamic && session.ssc != io.tokenInput
    modifies io.port, io.response, io.dynamic, io.tokenInput, session, session.ssc
    ensures
      var (s, r) := Agree(p, h, i, d, generator, io.port.link, old(io.port.state));
      && io.port.state == s
      && match r
         case Ok(begun) => e == None && session.Valid() && session.View() == begun
         case Err(error) => e == Some(error)
  {
    hide Lawful, LawfulHashes, LawfulCurve, Round, X, Token, Derive, TokenInput;
    var point := i.curve.encode(i.curve.mul(d.agreement, generator));
    PointTravels(i.curve, i.curve.mul(d.agreement, generator));
    var start, len;
    e, start, len := io.RunRound(Some((DO_KA_IFD, point)), true, DO_KA_IC);
    if e.Some? {
      return;
    }
    var agreementIc := i.curve.decode(io.response[start..start + len]);
    if agreementIc.None? {
      return Some(PaceFailed);
    }
    OnlyPointsDecode(i.curve, io.response[start..start + len]);
    var x := X(i.curve, i.curve.mul(d.agreement, agreementIc.value));
    var ksEnc, ksMac := Derive(h, i.suite, x, COUNTER_ENC), Derive(h, i.suite, x, COUNTER_MAC);
    var tokenIfd, expected := MakeTokens(p, i, ksMac, io, start, len, point);
    e, start, len := io.RunRound(Some((DO_TOKEN_IFD, tokenIfd.value)), false, DO_TOKEN_IC);
    if e.Some? {
      return;
    }
    if io.response[start..start + len] != expected.value {
      return Some(PaceFailed);
    }
    session.Init(i.suite, ksEnc, ksMac, Some(Zeros(BlockSize(i.suite))));
    return None;
  }

  /**
   * PACE as the reader runs it. What it cannot do is refused before anything is sent, and the session is
   * left alone; after that a failure of any kind leaves no session behind.
   */
  method RunPace<S(!new), G(!new)>(p: Primitives, h: Hashes, a: Announced<G>, c: Credentials, d: Draw,
                   port: Port<S>, session: Sm)
    returns (e: Option<Error>)
    requires Lawful(p) && LawfulHashes(h) && (a.curve.Some? ==> LawfulCurve(a.curve.value)) && session.ssc.Length == 16
    modifies port, session, session.ssc
    ensures
      if Refusal(a, c).Some? then
        e == Refusal(a, c) && port.state == old(port.state) && session.View() == old(session.View())
      else
        match Prepared(h, a, c)
        case Err(error) => e == Some(error) && port.state == old(port.state) && session.Valid() && !session.established
        case Ok(i) =>
          var (s, r) := Run(p, h, i, d, port.link, old(port.state));
          && port.state == s && session.Valid()
          && match r
             case Ok(begun) => e == None && session.View() == begun
             case Err(error) => e == Some(error) && !session.established
  {
    hide Lawful, LawfulHashes, LawfulCurve, Map, Agree, PasswordKey, ValidMrz;
    e := Refusal(a, c);
    if e.Some? {
      return;
    }
    var prepared := Prepared(h, a, c);
    if prepared.Err? {
      e := Some(prepared.error);
    } else {
      var io := new PaceIo(port);
      var generator := RunMapping(p, prepared.value, d, io);
      if generator.Err? {
        e := Some(generator.error);
      } else {
        e := RunAgreement(p, h, prepared.value, d, generator.value, io, session);
      }
    }
    if e.Some? {
      session.Clear();
    }
  }
}
