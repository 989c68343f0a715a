/**
 * The theorems about whole exchanges and whole sessions: exactly once under loss, how much loss
 * is survived, and the same over any number of commands up to the first failure.
 */
module IsoDepSession {
  import opened Bytes
  import opened Errors
  import opened IsoDepBlocks
  import opened IsoDepProtocol
  import opened IsoDepBounds
  import opened IsoDepChip
  import opened IsoDepExactlyOnce

  /** An exchange given up for any reason but loss had more S(WTX) requests than the reader grants. */
  predicate GaveUpOnLossOrTime(w: World<State>, a: Answer) {
    a.Failed? ==> Recoverable(a) || w.wtx > WTX_ROUNDS_MAX
  }

  /** The card has answered: with a request for time before block k, or with the block. */
  ghost predicate Brought(env: Env, s: State, a: Answer, n: bit, log: seq<Bytes>, k: nat) {
    (Asking(env, s, n, log, k) || Given(env, s, n, log, k)) && a == Frame(s.last)
  }

  /** A request for time is told from a block. */
  lemma TimeOrBlock(env: Env, s: State, a: Answer, n: bit, log: seq<Bytes>, k: nat)
    requires Brought(env, s, a, n, log, k)
    ensures if AsksForTime(a) then Asking(env, s, n, log, k) else Given(env, s, n, log, k)
    ensures s.executed == log
  {
    BuiltBlocksAreRecognised(n, true);
    BuiltBlocksAreRecognised(n, false);
    hide IsSWtx, IPcb;
  }

  /** Time granted: the card asks again or brings the block, and recovery repeats neither. */
  lemma GrantSent(env: Env, w: World<State>, a: Answer, recovery: byte, n: bit, log: seq<Bytes>, k: nat)
    requires RuleFollowing(env) && (recovery == RNak(n) || recovery == RAck(n))
    requires Asking(env, w.card, n, log, k) && a == Frame(w.card.last)
    ensures
      var (w1, b) := SendBlock(Behaviour(env), w, [PCB_S_WTX, Wtxm(a.bytes)], recovery, n);
      && w1.card.executed == log
      && (b.Frame? ==> Brought(env, w1.card, b, n, log, k))
      && (b.Failed? ==> Recoverable(b) || !BlocksFit(env.app(log)))
  {
    hide IPcb, RNak, RAck, SendBlock, React, Recovers, BlocksFit;
    GrantStage(env, w.card, n, log, k);
    SendOther(env, w, [PCB_S_WTX, Wtxm(a.bytes)], recovery, n, true);
  }

  lemma {:induction false} ServeWtxStage(env: Env, w: World<State>, a: Answer, recovery: byte, n: bit, log: seq<Bytes>, k: nat, rounds: nat)
    requires RuleFollowing(env) && rounds <= WTX_ROUNDS_MAX
    requires recovery == RNak(n) || recovery == RAck(n)
    requires Brought(env, w.card, a, n, log, k)
    ensures
      var (w1, b) := ServeWtx(Behaviour(env), w, a, recovery, n, rounds);
      && w1.card.executed == log
      && (b.Frame? ==> Given(env, w1.card, n, log, k) && b == Frame(w1.card.last))
      && (BlocksFit(env.app(log)) ==> GaveUpOnLossOrTime(w1, b))
    decreases WTX_ROUNDS_MAX - rounds
  {
    hide IsSWtx, RNak, RAck, Wtxm, SendBlock, Asking, Given, BlocksFit, RuleFollowing;
    TimeOrBlock(env, w.card, a, n, log, k);
    if AsksForTime(a) && rounds < WTX_ROUNDS_MAX {
      GrantSent(env, w, a, recovery, n, log, k);
      var (w1, b) := SendBlock(Behaviour(env), w, [PCB_S_WTX, Wtxm(a.bytes)], recovery, n);
      if b.Frame? {
        ServeWtxStage(env, w1, b, recovery, n, log, k, rounds + 1);
      }
    }
  }

  /** The last block of a command sent: answered, the command has run once. */
  lemma LastBlockSent(env: Env, w: World<State>, n: bit, inf: Bytes)
    requires RuleFollowing(env) && w.card.activated && w.card.number == Flip(n)
    ensures
      var log := w.card.executed + [w.card.command + inf];
      var (w1, b) := SendBlock(Behaviour(env), w, [IPcb(n, false)] + inf, RNak(n), n);
      && (b.Frame? ==> Brought(env, w1.card, b, n, log, 0))
      && (w1.card.executed == w.card.executed || w1.card.executed == log)
      && (b.Failed? && |w.card.command| + |inf| <= APDU_MAX ==> Recoverable(b) || !BlocksFit(env.app(log)))
  {
    hide IsIBlock, IsRBlock, IsSWtx, IPcb, RNak, RAck, SendBlock, React, BeginPiece, BlocksFit;
    var frame := [IPcb(n, false)] + inf;
    var log := w.card.executed + [w.card.command + inf];
    Dispatch(env, w.card, n, false, inf);
    BuiltBlocksAreRecognised(n, false);
    SendIBlock(env, w, n, false, inf);
    var (s1, a1) := React(env, w.card, frame);
    var s2 := w.card.(number := n, command := [], executed := log, reply := env.app(log), sent := 0);
    if |w.card.command| + |inf| <= APDU_MAX {
      assert frame[1..] == inf;
      assert (s1, a1) == BeginPiece(s2);
      BeginPieceStage(env, s2, n, log);
    }
  }

  /** The last block of a command: answered, it has run once and block 0 of its answer is here. */
  lemma ExchangeLast(env: Env, w: World<State>, n: bit, inf: Bytes)
    requires RuleFollowing(env) && w.card.activated && w.card.number == Flip(n)
    ensures
      var log := w.card.executed + [w.card.command + inf];
      var (w1, b) := Exchange(Behaviour(env), w, [IPcb(n, false)] + inf, RNak(n), n);
      && (b.Frame? ==> Given(env, w1.card, n, log, 0) && b == Frame(w1.card.last))
      && (w1.card.executed == w.card.executed || w1.card.executed == log)
      && (BlocksFit(env.app(log)) && |w.card.command| + |inf| <= APDU_MAX ==> GaveUpOnLossOrTime(w1, b))
  {
    hide IsSWtx, IPcb, RNak, RAck, SendBlock, Brought, Given, BlocksFit, RuleFollowing;
    LastBlockSent(env, w, n, inf);
    var (w1, b) := SendBlock(Behaviour(env), w, [IPcb(n, false)] + inf, RNak(n), n);
    if b.Frame? {
      ServeWtxStage(env, w1, b, RNak(n), n, w.card.executed + [w.card.command + inf], 0, 0);
    }
  }

  /** A block of the command but not the last: acknowledged, the card has it once. */
  lemma ExchangeChained(env: Env, w: World<State>, n: bit, inf: Bytes)
    requires w.card.activated && w.card.number == Flip(n)
    ensures
      var (w1, b) := Exchange(Behaviour(env), w, [IPcb(n, true)] + inf, RNak(n), n);
      && w1.card.executed == w.card.executed
      && (b.Frame? ==> Acknowledges(b, n) && Ready(w1.card, Flip(n), w.card.command + inf, w.card.executed))
      && (|w.card.command| + |inf| <= APDU_MAX ==> GaveUpOnLossOrTime(w1, b))
  {
    var frame := [IPcb(n, true)] + inf;
    Dispatch(env, w.card, n, true, inf);
    BuiltBlocksAreRecognised(n, true);
    SendIBlock(env, w, n, true, inf);
    var (w1, b) := SendBlock(Behaviour(env), w, frame, RNak(n), n);
    assert frame[1..] == inf;
    hide IsIBlock, IsRBlock, IsSWtx, IPcb, RNak, RAck, SendBlock, React, BlockNumber, IsRNak;
  }

  /** The acknowledgement of block k is its own recovery: sent again, it repeats or it carries on. */
  lemma AckStage(env: Env, s: State, n: bit, log: seq<Bytes>, k: nat)
    requires Given(env, s, n, log, k) && k + 1 < |s.reply.pieces|
    ensures
      var ack := [RAck(Flip(n))];
      var (s1, a) := React(env, s, ack);
      && Recovers(env, s, ack, RAck(Flip(n)), false)
      && s1.executed == log
      && (a.Frame? ==> a == Frame(s1.last)
                       && (Asking(env, s1, Flip(n), log, k + 1) || Given(env, s1, Flip(n), log, k + 1)))
      && (a.Failed? ==> !BlocksFit(s.reply))
  {
    var next := Flip(n);
    Dispatch(env, s, next, false, []);
    BuiltBlocksAreRecognised(next, false);
    var (s1, a) := React(env, s, [RAck(next)]);
    hide IsIBlock, IsRBlock, IsRNak, BlockNumber, IPcb, RNak, RAck, React, BeginPiece, BlocksFit;
    assert (s1, a) == BeginPiece(s.(number := next));
    BeginPieceStage(env, s.(number := next), next, log);
    if a.Frame? {
      RepeatsLast(env, s1, next);
    }
    RepeatsLast(env, s, n);
  }

  /** The acknowledgement of block k sent: answered, block k + 1 or a request for time is here. */
  lemma AckSent(env: Env, w: World<State>, n: bit, log: seq<Bytes>, k: nat)
    requires Given(env, w.card, n, log, k) && k + 1 < |w.card.reply.pieces|
    ensures
      var next := Flip(n);
      var (w1, b) := SendBlock(Behaviour(env), w, [RAck(next)], RAck(next), next);
      && w1.card.executed == log
      && (b.Frame? ==> Brought(env, w1.card, b, next, log, k + 1))
      && (b.Failed? ==> Recoverable(b) || !BlocksFit(env.app(log)))
  {
    hide IPcb, RAck, SendBlock, React, Recovers, BlocksFit;
    AckStage(env, w.card, n, log, k);
    SendOther(env, w, [RAck(Flip(n))], RAck(Flip(n)), Flip(n), false);
  }

  /** An R(ACK) inside a chained answer: it brings the next block, neither skipping nor repeating. */
  lemma ExchangeAck(env: Env, w: World<State>, n: bit, log: seq<Bytes>, k: nat)
    requires RuleFollowing(env) && Given(env, w.card, n, log, k) && k + 1 < |w.card.reply.pieces|
    ensures
      var next := Flip(n);
      var (w1, b) := Exchange(Behaviour(env), w, [RAck(next)], RAck(next), next);
      && w1.card.executed == log
      && (b.Frame? ==> Given(env, w1.card, next, log, k + 1) && b == Frame(w1.card.last))
      && (BlocksFit(env.app(log)) ==> GaveUpOnLossOrTime(w1, b))
  {
    hide IsSWtx, RNak, RAck, SendBlock, Brought, Given, BlocksFit, RuleFollowing;
    var next := Flip(n);
    AckSent(env, w, n, log, k);
    var (w1, b) := SendBlock(Behaviour(env), w, [RAck(next)], RAck(next), next);
    if b.Frame? {
      ServeWtxStage(env, w1, b, RAck(next), next, log, k + 1, 0);
    }
  }

  lemma {:induction false} JoinedPrefix(pieces: seq<Piece>, k: nat)
    requires k <= |pieces|
    ensures |Joined(pieces[..k])| <= |Joined(pieces)|
    ensures k < |pieces| ==> Joined(pieces[..k + 1]) == Joined(pieces[..k]) + pieces[k].inf
    decreases |pieces|
  {
    if k < |pieces| {
      assert pieces[..k + 1][..k] == pieces[..k];
      assert pieces[..|pieces| - 1][..k] == pieces[..k];
      JoinedPrefix(pieces[..|pieces| - 1], k);
    } else {
      assert pieces[..k] == pieces;
    }
  }

  /** The failures a caller may still see: loss, too many requests for time. */
  predicate LossOrTime<S>(o: Outcome<S>) {
    o.rx.Err? ==> Lost(o.rx) || o.w.wtx > WTX_ROUNDS_MAX
  }

  /** What receiving from block k on comes to, when `blocks` more blocks may be taken. */
  ghost predicate ReceivedFrom(env: Env, o: Outcome<State>, log: seq<Bytes>, k: nat, cap: nat, blocks: nat) {
    var reply := env.app(log);
    && o.w.card.executed == log
    && (o.rx.Ok? ==> o.rx.value == Joined(reply.pieces) && Ready(o.w.card, o.number, [], log))
    && (BlocksFit(reply) && |Joined(reply.pieces)| <= cap && |reply.pieces| - k <= blocks ==> LossOrTime(o))
  }

  /** Block k is taken: it is the last, or the next one is asked for. */
  lemma ReceiveStep(env: Env, w: World<State>, n: bit, log: seq<Bytes>, k: nat, cap: nat, got: Bytes, blocks: nat)
    requires Given(env, w.card, n, log, k) && blocks > 0
    requires got == Joined(env.app(log).pieces[..k]) && |got| <= cap
    ensures
      var pieces := env.app(log).pieces;
      var o := Receive(Behaviour(env), w, n, cap, got, Frame(w.card.last), blocks);
      var (w1, b) := Exchange(Behaviour(env), w, [RAck(Flip(n))], RAck(Flip(n)), Flip(n));
      if |got| + |pieces[k].inf| > cap then
        o == Outcome(w, n, Err(BufferTooSmall)) && |Joined(pieces)| > cap
      else if k + 1 == |pieces| then o == Outcome(w, Flip(n), Ok(Joined(pieces)))
      else if b.Failed? then o == Outcome(w1, Flip(n), Err(b.error))
      else Joined(pieces[..k + 1]) == got + pieces[k].inf
           && o == Receive(Behaviour(env), w1, Flip(n), cap, got + pieces[k].inf, b, blocks - 1)
  {
    var pieces := env.app(log).pieces;
    var a := Frame(w.card.last);
    BuiltBlocksAreRecognised(n, k + 1 < |pieces|);
    JoinedPrefix(pieces, k);
    JoinedPrefix(pieces, k + 1);
    hide IsIBlock, IsChained, HeaderLen, IPcb, RAck, Exchange, Joined;
    assert a.bytes[1..] == pieces[k].inf;
    if k + 1 == |pieces| {
      assert pieces[..k + 1] == pieces;
    }
  }

  lemma {:induction false} ReceiveStage(env: Env, w: World<State>, n: bit, log: seq<Bytes>, k: nat, cap: nat, got: Bytes, blocks: nat)
    requires RuleFollowing(env) && Given(env, w.card, n, log, k)
    requires got == Joined(env.app(log).pieces[..k]) && |got| <= cap
    ensures
      ReceivedFrom(env, Receive(Behaviour(env), w, n, cap, got, Frame(w.card.last), blocks), log, k, cap, blocks)
    decreases blocks
  {
    hide Receive, Exchange, RAck, Joined, BlocksFit;
    if blocks == 0 {
      assert Receive(Behaviour(env), w, n, cap, got, Frame(w.card.last), blocks) == Outcome(w, n, Err(Protocol)) by {
        ReceiveNothing(Behaviour(env), w, n, cap, got, Frame(w.card.last));
      }
    } else {
      var pieces := env.app(log).pieces;
      ReceiveStep(env, w, n, log, k, cap, got, blocks);
      if |got| + |pieces[k].inf| <= cap && k + 1 < |pieces| {
        ExchangeAck(env, w, n, log, k);
        var (w1, b) := Exchange(Behaviour(env), w, [RAck(Flip(n))], RAck(Flip(n)), Flip(n));
        if b.Frame? {
          ReceiveStage(env, w1, Flip(n), log, k + 1, cap, got + pieces[k].inf, blocks - 1);
        }
      }
    }
  }

  lemma ReceiveNothing<S>(card: Card<S>, w: World<S>, n: bit, cap: nat, got: Bytes, a: Answer)
    requires |got| <= cap && a.Frame?
    ensures Receive(card, w, n, cap, got, a, 0) == Outcome(w, n, Err(Protocol))
  {
  }

  /** What the two sides can carry: the command, the blocks, the whole answer, its number of blocks. */
  predicate Carried(env: Env, log: seq<Bytes>, tx: Bytes, cap: nat) {
    var reply := env.app(log + [tx]);
    && 1 <= |tx| <= APDU_MAX && 1 <= cap
    && BlocksFit(reply) && |reply.pieces| <= 64 && |Joined(reply.pieces)| <= cap
  }

  lemma {:induction false} TransmitStage(env: Env, w: World<State>, n: bit, rest: Bytes, capacity: nat, cap: nat)
    requires RuleFollowing(env) && w.card.activated && w.card.number == Flip(n)
    requires 1 <= |rest| && 1 <= capacity
    ensures
      var log := w.card.executed + [w.card.command + rest];
      var reply := env.app(log);
      var o := Transmit(Behaviour(env), w, n, rest, capacity, cap);
      && (o.w.card.executed == w.card.executed || o.w.card.executed == log)
      && (o.rx.Ok? ==> o.rx.value == Joined(reply.pieces) && Ready(o.w.card, o.number, [], log))
      && (Carried(env, w.card.executed, w.card.command + rest, cap) ==> LossOrTime(o))
    decreases |rest|
  {
    hide IsIBlock, IPcb, RNak, Exchange, Acknowledges, Receive, BlocksFit;
    var log := w.card.executed + [w.card.command + rest];
    var chunk := Min(|rest|, capacity);
    if chunk == |rest| {
      assert rest[..chunk] == rest;
      ExchangeLast(env, w, n, rest);
      var (w1, b) := Exchange(Behaviour(env), w, [IPcb(n, false)] + rest, RNak(n), n);
      if b.Frame? {
        assert env.app(log).pieces[..0] == [];
        ReceiveStage(env, w1, n, log, 0, cap, [], CHAIN_BLOCKS_MAX);
      }
    } else {
      ExchangeChained(env, w, n, rest[..chunk]);
      var (w1, b) := Exchange(Behaviour(env), w, [IPcb(n, true)] + rest[..chunk], RNak(n), n);
      if b.Frame? {
        assert w.card.command + rest[..chunk] + rest[chunk..] == w.card.command + rest;
        TransmitStage(env, w1, Flip(n), rest[chunk..], capacity, cap);
      }
    }
  }

  // ---- The theorems ------------------------------------------------------------------------

  /** Activated, nothing of the next command with the card, the numbers one apart. */
  ghost predicate Lockstep(s: State, n: bit) {
    s.activated && s.number == Flip(n) && s.command == []
  }

  /**
   * Exactly once. From lockstep, whatever is lost and however the card chains and delays its
   * answer: success means the card ran exactly this command, once, that its whole answer was
   * handed over, and that lockstep holds again; failure means it ran the command at most once.
   */
  lemma ExactlyOnce(env: Env, w: World<State>, n: bit, fsc: nat, tx: Bytes, cap: nat)
    requires RuleFollowing(env) && Lockstep(w.card, n)
    ensures
      var log := w.card.executed + [tx];
      var o := Transceive(Behaviour(env), w, n, fsc, tx, cap);
      && (o.rx.Ok? ==> && o.w.card.executed == log
                       && o.rx.value == Joined(env.app(log).pieces)
                       && Lockstep(o.w.card, o.number))
      && (o.rx.Err? ==> o.w.card.executed == w.card.executed || o.w.card.executed == log)
  {
    hide Transmit;
    assert [] + tx == tx;
    if |tx| > 0 && cap > 0 {
      TransmitStage(env, w, n, tx, InfCapacity(fsc), cap);
    }
  }

  /**
   * Loss tolerance. When the answer can be carried, the exchange succeeds exactly when no block's
   * recovery lost three frames and no exchange met more than sixty requests for time; and loss is
   * what is reported exactly when three frames were lost.
   */
  lemma LossTolerance(env: Env, w: World<State>, n: bit, fsc: nat, tx: Bytes, cap: nat)
    requires RuleFollowing(env) && Lockstep(w.card, n) && Carried(env, w.card.executed, tx, cap)
    requires w.worst <= 2 && w.wtx <= 60
    ensures
      var o := Transceive(Behaviour(env), w, n, fsc, tx, cap);
      && (o.rx.Ok? <==> o.w.worst <= 2 && o.w.wtx <= 60)
      && (Lost(o.rx) <==> o.w.worst == 3)
  {
    assert [] + tx == tx;
    TransmitBounded(Behaviour(env), w, n, tx, InfCapacity(fsc), cap);
    hide Transmit;
    TransmitStage(env, w, n, tx, InfCapacity(fsc), cap);
  }

  /** A session: commands one after another until the first that fails. */
  datatype Session<S> = Session(w: World<S>, number: bit, answers: seq<Bytes>, failed: bool)

  function RunSession<S>(card: Card<S>, w: World<S>, n: bit, fsc: nat, commands: seq<Bytes>, cap: nat): Session<S>
    decreases |commands|
  {
    if commands == [] then Session(w, n, [], false)
    else
      var s := RunSession(card, w, n, fsc, commands[..|commands| - 1], cap);
      if s.failed then s
      else
        var o := Transceive(card, s.w, s.number, fsc, commands[|commands| - 1], cap);
        if o.rx.Err? then Session(o.w, o.number, s.answers, true)
        else Session(o.w, o.number, s.answers + [o.rx.value], false)
  }

  /**
   * Over a whole session: the card has run the commands in order, each once, up to the first
   * failure, which it may or may not have run; and every answer is the card's to that command.
   */
  lemma {:induction false} SessionExactlyOnce(env: Env, w: World<State>, n: bit, fsc: nat, commands: seq<Bytes>, cap: nat)
    requires RuleFollowing(env) && Lockstep(w.card, n)
    ensures
      var s := RunSession(Behaviour(env), w, n, fsc, commands, cap);
      var log, done := w.card.executed, |s.answers|;
      && done <= |commands|
      && (forall i :: 0 <= i < done ==> s.answers[i] == Joined(env.app(log + commands[..i + 1]).pieces))
      && (!s.failed ==> done == |commands| && s.w.card.executed == log + commands && Lockstep(s.w.card, s.number))
      && (s.failed ==> done < |commands|
                       && (s.w.card.executed == log + commands[..done] || s.w.card.executed == log + commands[..done + 1]))
    decreases |commands|
  {
    hide Transceive;
    if commands != [] {
      var k := |commands| - 1;
      var earlier := commands[..k];
      SessionExactlyOnce(env, w, n, fsc, earlier, cap);
      var s := RunSession(Behaviour(env), w, n, fsc, earlier, cap);
      assert forall i | 0 <= i <= k :: commands[..i] == earlier[..i];
      if !s.failed {
        ExactlyOnce(env, s.w, s.number, fsc, commands[k], cap);
        assert w.card.executed + earlier + [commands[k]] == w.card.executed + commands;
        assert commands == commands[..k + 1];
      }
    }
  }

  /**
   * Activation puts the two sides in lockstep whatever their block numbers were, exactly when the card
   * does not still hold part of a command: an answer to select does not clear one.
   */
  lemma ActivationEstablishesLockstep(env: Env, w: World<State>)
    ensures
      var (w1, a) := Send(Behaviour(env), w, [CMD_RATS, 0x80]);
      && (a.Frame? ==> (Lockstep(w1.card, 0) <==> w.card.command == []) && a == Frame(env.ats))
      && w1.card.executed == w.card.executed
  {
    hide And, IsRBlock, IsIBlock, IsDeselect;
  }
}
