/** One command in the clear, over a link to whatever chip is at the other end. */
module AccessPort {
  import opened Bytes
  import opened Errors
  import opened Apdu
  import opened SimChip

  /** A chip as the reader sees it: its state, and the raw answer to a raw APDU. */
  type Link<!S> = (S, Bytes) -> (S, Result<Bytes>)

  /** Serialise, exchange, and split the answer; one without a status word is no answer. */
  function Exchange<S>(link: Link<S>, s: S, c: Command): (S, Result<Response>) {
    match Encode(c, APDU_MAX_SIZE)
    case Err(e) => (s, Err(e))
    case Ok(tx) =>
      var (t, r) := link(s, tx);
      match r
      case Err(e) => (t, Err(e))
      case Ok(rx) => (t, if |rx| > APDU_MAX_SIZE then Err(Protocol) else Decode(rx))
  }

  class Port<S(!new)> {
    const link: Link<S>
    var state: S

    constructor (link: Link<S>, state: S)
      ensures this.link == link && this.state == state
    {
      this.link, this.state := link, state;
    }

    method Send(c: Command) returns (r: Result<Response>)
      modifies this
      ensures (state, r) == Exchange(link, old(state), c)
    {
      var tx := Encode(c, APDU_MAX_SIZE);
      if tx.Err? {
        return Err(tx.error);
      }
      var (t, rx) := link(state, tx.value);
      state := t;
      if rx.Err? {
        return Err(rx.error);
      }
      r := if |rx.value| > APDU_MAX_SIZE then Err(Protocol) else Decode(rx.value);
    }
  }

  /** An answer of two to 256 bytes is split; any other is refused, and an error of the link is handed on. */
  lemma AnswerTaken<S>(link: Link<S>, s: S, c: Command, tx: Bytes)
    requires Encode(c, 256) == Ok(tx)
    ensures
      var (t, r) := link(s, tx);
      var (end, answer) := Exchange(link, s, c);
      && end == t
      && (r.Err? ==> answer == Err(r.error))
      && (r.Ok? ==> (answer.Ok? <==> 2 <= |r.value| <= 256) && (answer.Err? ==> answer.error == Protocol))
      && (answer.Ok? ==> answer == Decode(r.value))
  {
    hide Encode;
  }

  /** A short command reaches a chip that parses it, and its short answer comes back whole. */
  lemma ExchangeReaches<S>(link: Link<S>, s: S, c: Command, t: S, body: Bytes, sw: nat)
    requires LeValid(c.le) && !Extended(c) && Needed(c) <= APDU_MAX_SIZE
    requires |body| + 2 <= APDU_MAX_SIZE && sw <= 0xFFFF
    requires forall tx: Bytes :: ParseCommand(tx) == Some(ViewOf(c)) ==> link(s, tx) == (t, Ok(body + Be16(sw)))
    ensures Exchange(link, s, c) == (t, Ok(Response(body, sw)))
  {
    ParseReadsShortCommands(c, APDU_MAX_SIZE);
    hide ParseCommand, Encode;
    var rx := body + Be16(sw);
    assert rx[..|rx| - 2] == body;
  }
}
