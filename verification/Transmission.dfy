/**
 * One command of the worker: in the clear until there is a session, and through it from then on. An
 * answer that is not wrapped is not believed; a bare status word means that the session is gone.
 */
module Transmission {
  import opened Bytes
  import opened Errors
  import opened Cipher
  import opened Numbers
  import opened Tlv
  import opened Apdu
  import opened SecureMessaging
  import opened SmReader
  import AccessPort
  import opened SmRefinement
  import Chip = SimChip

  const APDU_BUFFER_SIZE := 512

  /** The worker's end of the line: whether commands go through the session, and the session. */
  datatype Line = Line(active: bool, session: Session)

  /** What goes out for a command. */
  function Outgoing(p: Primitives, l: Line, c: Command): (r: (Line, Result<Bytes>))
    requires Lawful(p) && Keyed(l.session)
    ensures Keyed(r.0.session)
  {
    if l.active then
      var (t, wire) := Protect(p, l.session, c, APDU_BUFFER_SIZE);
      (Line(true, t), wire)
    else (l, Encode(c, APDU_BUFFER_SIZE))
  }

  /** What is made of the answer. */
  function Incoming(p: Primitives, l: Line, rx: Bytes): (r: (Line, Result<Response>))
    requires Lawful(p) && Keyed(l.session)
    ensures Keyed(r.0.session)
  {
    if !l.active then (l, Decode(rx))
    else if |rx| == 2 then (Line(false, NoSession()), Err(SecureMessaging))
    else
      UnprotectKeepsKeys(p, l.session, rx);
      var (t, answer) := Unprotect(p, l.session, rx, APDU_BUFFER_SIZE);
      (Line(true, t), answer)
  }

  lemma UnprotectKeepsKeys(p: Primitives, s: Session, rx: Bytes)
    requires Lawful(p) && Keyed(s)
    ensures
      var t := Unprotect(p, s, rx, APDU_BUFFER_SIZE).0;
      Keyed(t) && (t == s || t == Step(s))
  {
    hide Lawful, Inspect, Checksum, Deliver, Inc;
  }

  /** An answer no longer than the buffer, and with a status word. */
  function Received(r: Result<Bytes>): Result<Bytes> {
    if r.Ok? && !(2 <= |r.value| <= APDU_BUFFER_SIZE) then Err(Protocol) else r
  }

  lemma ReceivedInNumbers(bytes: Bytes)
    ensures Received(Ok(bytes)) == if 2 <= |bytes| <= 512 then Ok(bytes) else Err(Protocol)
  {
  }

  /** A command over the line, to whatever chip is at the other end. */
  function Exchange<S>(p: Primitives, link: AccessPort.Link<S>, l: Line, s: S, c: Command): (r: (Line, S, Result<Response>))
    requires Lawful(p) && Keyed(l.session)
    ensures Keyed(r.0.session)
  {
    var (l1, wire) := Outgoing(p, l, c);
    match wire
    case Err(e) => (l1, s, Err(e))
    case Ok(tx) =>
      var (t, rx) := link(s, tx);
      match Received(rx)
      case Err(e) => (l1, t, Err(e))
      case Ok(bytes) =>
        var (l2, answer) := Incoming(p, l1, bytes);
        (l2, t, answer)
  }

  // ---- The worker's buffers ----------------------------------------------------------------

  class Transmitter<S(!new)> {
    const p: Primitives
    const link: AccessPort.Link<S>
    const sm: Sm
    const command: array<byte>
    const response: array<byte>
    var chip: S
    var smActive: bool

    ghost predicate Valid()
      reads this, sm, sm.ssc
    {
      && Lawful(p) && sm.Valid() && command.Length == response.Length == APDU_BUFFER_SIZE
      && command != response && command != sm.ssc && response != sm.ssc
    }

    function View(): Line
      requires sm.ssc.Length == 16
      reads this, sm, sm.ssc
    {
      Line(smActive, sm.View())
    }

    constructor (p: Primitives, link: AccessPort.Link<S>, chip: S)
      requires Lawful(p)
      ensures Valid() && !smActive && this.p == p && this.link == link && this.chip == chip
      ensures fresh(sm) && fresh(sm.ssc) && fresh(command) && fresh(response)
    {
      this.p, this.link, this.chip, smActive := p, link, chip, false;
      sm := new Sm();
      command := new byte[APDU_BUFFER_SIZE](_ => 0);
      response := new byte[APDU_BUFFER_SIZE](_ => 0);
    }

    /** Put a command on the wire; how long it is there. */
    method Put(c: Command) returns (r: Result<nat>)
      requires Valid()
      modifies sm.ssc, command
      ensures Valid()
      ensures
        var (l, wire) := Outgoing(p, old(View()), c);
        && View() == l
        && match wire
           case Err(e) => r == Err(e)
           case Ok(tx) => r == Ok(|tx|) && |tx| <= APDU_BUFFER_SIZE && command[..|tx|] == tx
    {
      hide Lawful, Protect, Encode;
      if smActive {
        r := sm.Protect(p, c, command, APDU_BUFFER_SIZE);
      } else {
        r := EncodeInto(c, command, APDU_BUFFER_SIZE);
      }
    }

    /** What is made of the answer in the response buffer, whose plaintext ends up at its front. */
    method Take(len: nat) returns (r: Result<(nat, nat)>)
      requires Valid() && 2 <= len <= APDU_BUFFER_SIZE
      modifies `smActive, sm, sm.ssc, response
      ensures Valid()
      ensures
        var (l, answer) := Incoming(p, old(View()), old(response[..len]));
        && View() == l
        && match answer
           case Err(e) => r == Err(e)
           case Ok(a) => r == Ok((|a.data|, a.sw)) && |a.data| <= APDU_BUFFER_SIZE && response[..|a.data|] == a.data
    {
      hide Lawful, Unprotect;
      if !smActive {
        assert response[..len][..len - 2] == response[..len - 2];
        return Ok((len - 2, StatusWord(response[len - 2], response[len - 1])));
      }
      if len == 2 {
        smActive := false;
        sm.Clear();
        return Err(SecureMessaging);
      }
      r := sm.Unprotect(p, response, len, response, APDU_BUFFER_SIZE);
    }

    /** Exchange one APDU, through Secure Messaging once there is a session. */
    method Transmit(c: Command) returns (r: Result<(nat, nat)>)
      requires Valid()
      modifies `smActive, `chip, sm, sm.ssc, command, response
      ensures Valid()
      ensures
        var (l, s, answer) := Exchange(p, link, old(View()), old(chip), c);
        && View() == l && chip == s
        && match answer
           case Err(e) => r == Err(e)
           case Ok(a) => r == Ok((|a.data|, a.sw)) && |a.data| <= APDU_BUFFER_SIZE && response[..|a.data|] == a.data
    {
      hide Lawful, Outgoing, Incoming;
      var sent := Put(c);
      if sent.Err? {
        return Err(sent.error);
      }
      var (t, rx) := link(chip, command[..sent.value]);
      chip := t;
      if rx.Err? {
        return Err(rx.error);
      }
      if |rx.value| < 2 || |rx.value| > APDU_BUFFER_SIZE {
        return Err(Protocol);
      }
      CopyInto(response, 0, rx.value);
      assert response[..|rx.value|] == rx.value;
      r := Take(|rx.value|);
    }
  }

  // ---- What a session is worth -------------------------------------------------------------

  /** The bytes covered by a checksum under the session that verified: what an answer stands on. */
  ghost predicate Verified(p: Primitives, t: Session, rx: Bytes)
    requires Lawful(p) && Keyed(t)
  {
    2 <= |rx| && exists n :: n in Walk(rx, |rx| - 2, 0).0 && Authenticates(p, t, rx, n)
  }

  /**
   * With a session, whatever came over the air: an answer is handed up only when a checksum under the
   * stepped counter verified; a bare status word ends the session, and nothing else does.
   */
  lemma SessionAnswers(p: Primitives, l: Line, rx: Bytes)
    requires Lawful(p) && Keyed(l.session) && l.active
    ensures
      var (m, answer) := Incoming(p, l, rx);
      && (answer.Ok? ==> m == Line(true, Step(l.session)) && Verified(p, m.session, rx))
      && (|rx| == 2 <==> !m.active)
      && (|rx| == 2 ==> answer == Err(SecureMessaging) && m.session == NoSession())
  {
    hide Lawful, Unprotect, Authenticates, Inc;
    AcceptedMeansAuthenticated(p, l.session, rx, APDU_BUFFER_SIZE);
  }

  /** So over the line: with a session, what is handed up came in an answer whose checksum verified. */
  lemma AnswerIsVerified<S>(p: Primitives, link: AccessPort.Link<S>, l: Line, s: S, c: Command)
    requires Lawful(p) && Keyed(l.session) && l.active
    ensures
      var (m, t, answer) := Exchange(p, link, l, s, c);
      answer.Ok? ==>
        && m.active && Outgoing(p, l, c).1.Ok?
        && var rx := link(s, Outgoing(p, l, c).1.value).1;
           rx.Ok? && Verified(p, m.session, rx.value)
  {
    hide Lawful, Protect, Unprotect, Authenticates, Verified;
    var (l1, wire) := Outgoing(p, l, c);
    if wire.Ok? && Received(link(s, wire.value).1).Ok? {
      SessionAnswers(p, l1, Received(link(s, wire.value).1).value);
    }
  }

  /** One command without a session opens none; with one, it keeps it or says that it is gone. */
  lemma SessionKeptOrReported<S>(p: Primitives, link: AccessPort.Link<S>, l: Line, s: S, c: Command)
    requires Lawful(p) && Keyed(l.session)
    ensures
      var (m, t, answer) := Exchange(p, link, l, s, c);
      && (!l.active ==> m == l)
      && (l.active && !m.active ==> answer == Err(SecureMessaging))
  {
    hide Lawful, Unprotect, Protect, Encode, Decode;
  }

  // ---- To a chip in the same session -------------------------------------------------------

  /** The chip's end of the line: its session and its application. */
  function ChipLink<A>(p: Primitives, run: Chip.Application<A>): AccessPort.Link<(Session, A)>
    requires Lawful(p)
  {
    (s: (Session, A), tx: Bytes) =>
      if !Keyed(s.0) then (s, Err(Internal))
      else
        var (t, app, rx) := Chip.Transceive(p, run, s.0, s.1, tx);
        ((t, app), Ok(rx))
  }

  lemma BareIsRefused(p: Primitives, s: Session, rx: Bytes)
    requires Lawful(p) && Keyed(s) && Unprotect(p, s, rx, APDU_BUFFER_SIZE).1.Ok?
    ensures 2 < |rx| <= APDU_BUFFER_SIZE
  {
    hide Lawful, Checksum, Deliver, Inc;
    AcceptedMeansAuthenticated(p, s, rx, APDU_BUFFER_SIZE);
  }

  /** A command over a line whose two ends are in the same session is the plain command. */
  lemma LineRefinesPlain<A>(p: Primitives, run: Chip.Application<A>, s: Session, app: A, c: Command)
    requires Lawful(p) && Keyed(s) && s.established && Exchangeable(run, s, app, c)
    ensures
      var (app1, answer) := run(app, Chip.ViewOf(c));
      var t := s.(ssc := IncBy(s.ssc, 2));
      Exchange(p, ChipLink(p, run), Line(true, s), (s, app), c) == (Line(true, t), (t, app1), Ok(answer))
  {
    hide Lawful, Chip.Transceive, Unprotect, Protect, Exchangeable;
    ExchangeRefinesPlain(p, run, s, app, c, APDU_BUFFER_SIZE);
    ProtectAllOrNothing(p, s, c, APDU_BUFFER_SIZE);
    var (r1, tx) := Protect(p, s, c, APDU_BUFFER_SIZE);
    var (c1, app1, rx) := Chip.Transceive(p, run, s, app, tx.value);
    BareIsRefused(p, r1, rx);
  }
}
