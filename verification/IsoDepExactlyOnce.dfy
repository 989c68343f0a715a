/**
 * The reader against the rule-following card over a wire that loses frames: a command is run
 * exactly once, its answer arrives whole, and the two block numbers stay in step.
 */
module IsoDepExactlyOnce {
  import opened Bytes
  import opened IsoDepBlocks
  import opened IsoDepProtocol
  import opened IsoDepChip

  type State = ChipState

  // ---- One frame ---------------------------------------------------------------------------

  lemma Dispatch(env: Env, s: State, n: bit, chaining: bool, rest: Bytes)
    requires s.activated
    ensures React(env, s, [IPcb(n, chaining)] + rest) == ReactI(env, s, [IPcb(n, chaining)] + rest)
    ensures React(env, s, [RAck(n)]) == ReactR(s, RAck(n))
    ensures React(env, s, [RNak(n)]) == ReactR(s, RNak(n))
    ensures React(env, s, [PCB_S_WTX] + rest) == ReactGrant(s, [PCB_S_WTX] + rest)
    ensures
      forall pcb | pcb in {IPcb(n, chaining), RAck(n), RNak(n), PCB_S_WTX} ::
        pcb != CMD_RATS && And(pcb, 0xF7) != PCB_S_DESELECT
  {
    hide ReactI, ReactR, ReactGrant;
    BuiltBlocksAreRecognised(n, chaining);
    if n == 0 {
      if chaining {} else {}
    } else {
      if chaining {} else {}
    }
  }

  /** Equal but for the frame count. */
  predicate Twin(s: State, t: State) {
    s.(tick := 0) == t.(tick := 0)
  }

  /** Equal but for the frame count and the block kept for repetition. */
  predicate Alike(s: State, t: State) {
    s.(tick := 0, last := []) == t.(tick := 0, last := [])
  }

  lemma PutAnswers(env: Env, s: State, tx: Bytes)
    ensures
      var (s1, a) := React(env, s, tx);
      && (a.Frame? ==> |a.bytes| <= FRAME_MAX && (IsRats(tx) || IsDeselect(tx) || s1.last == a.bytes))
      && (a.Failed? && !IsRats(tx) && s.activated && !(|tx| > 0 && IsRBlock(tx[0])) ==> !Recoverable(a))
      && s1.tick == s.tick
  {
    hide And, IsRBlock, IsIBlock, IsRNak, IsChained, BlockNumber;
  }

  /** A frame is lost on the way, or it reaches the card and its answer arrives or is lost. */
  lemma OneFrameCases(env: Env, w: World<State>, tx: Bytes)
    requires w.card.activated
    requires |tx| > 0 && !IsRats(tx) && !IsDeselect(tx)
    ensures
      var (w1, a) := Send(Behaviour(env), w, tx);
      var (s1, a1) := React(env, w.card, tx);
      || (Twin(w1.card, w.card) && Recoverable(a))
      || (Twin(w1.card, s1) && a1.Frame? && Recoverable(a))
      || (Twin(w1.card, s1) && a == a1)
  {
    hide React;
    PutAnswers(env, w.card, tx);
  }

  // ---- Recovery of an I-block --------------------------------------------------------------

  lemma IBlockIgnoresLast(env: Env, s: State, t: State, n: bit, chaining: bool, inf: Bytes)
    requires s.activated && Alike(s, t)
    ensures
      var frame := [IPcb(n, chaining)] + inf;
      && Alike(React(env, s, frame).0, React(env, t, frame).0)
      && React(env, s, frame).1 == React(env, t, frame).1
  {
    Dispatch(env, s, n, chaining, inf);
    Dispatch(env, t, n, chaining, inf);
    hide React, IsChained, IPcb, RAck;
  }

  lemma IBlockAnswer(env: Env, s: State, n: bit, chaining: bool, inf: Bytes)
    requires s.activated && s.number == Flip(n)
    ensures
      var (s1, a) := React(env, s, [IPcb(n, chaining)] + inf);
      && s1.activated && s1.number == n
      && !Recoverable(a) && !NeverHad(a, n)
      && (a.Frame? ==> s1.last == a.bytes && |a.bytes| <= FRAME_MAX)
  {
    hide React, IsRBlock, IsIBlock, IsRNak, IsSWtx, IsChained, HeaderLen, IPcb, RAck, RNak, BlockNumber, And;
    var frame := [IPcb(n, chaining)] + inf;
    Dispatch(env, s, n, chaining, inf);
    BuiltBlocksAreRecognised(n, true);
    BuiltBlocksAreRecognised(n, false);
  }

  /** Where the recovery of an I-block can stand: the card never had it, or it has answered it. */
  ghost predicate IBlockStands(s: State, a: Answer, s0: State, s1: State, a1: Answer) {
    || (Alike(s, s0) && Recoverable(a))
    || (Alike(s, s1) && a1.Frame? && s.last == a1.bytes && (Recoverable(a) || a == a1))
    || (Alike(s, s1) && a1.Failed? && a == a1)
  }

  lemma SendIBlockStands(env: Env, w: World<State>, n: bit, chaining: bool, inf: Bytes, s0: State)
    requires s0.activated && s0.number == Flip(n) && Alike(w.card, s0)
    ensures
      var frame := [IPcb(n, chaining)] + inf;
      var (s1, a1) := React(env, s0, frame);
      var (w1, a) := Send(Behaviour(env), w, frame);
      IBlockStands(w1.card, a, s0, s1, a1)
  {
    var frame := [IPcb(n, chaining)] + inf;
    Dispatch(env, s0, n, chaining, inf);
    OneFrameCases(env, w, frame);
    IBlockIgnoresLast(env, w.card, s0, n, chaining, inf);
    IBlockAnswer(env, w.card, n, chaining, inf);
    hide React, IPcb;
  }

  /** R(NAK) after an I-block: a card that had it repeats its answer, one that did not says so. */
  lemma NakAfterIBlock(env: Env, s: State, n: bit)
    requires s.activated
    ensures s.number == n && |s.last| <= FRAME_MAX ==> React(env, s, [RNak(n)]) == (s, Frame(s.last))
    ensures s.number == Flip(n) ==>
      var (t, a) := React(env, s, [RNak(n)]);
      Alike(s, t) && a.Frame? && NeverHad(a, n)
  {
    Dispatch(env, s, n, false, []);
    BuiltBlocksAreRecognised(n, false);
    BuiltBlocksAreRecognised(Flip(n), false);
    hide React, IsRBlock, IsRNak, BlockNumber, RNak, RAck;
  }

  lemma RecoverableIsNoBlock(a: Answer, n: bit)
    ensures Recoverable(a) ==> !NeverHad(a, n)
  {
  }

  lemma RecoverIBlockOnce(env: Env, w: World<State>, n: bit, chaining: bool, inf: Bytes, s0: State, a: Answer)
    requires s0.activated && s0.number == Flip(n) && Recoverable(a)
    requires
      var (s1, a1) := React(env, s0, [IPcb(n, chaining)] + inf);
      IBlockStands(w.card, a, s0, s1, a1)
    ensures
      var (s1, a1) := React(env, s0, [IPcb(n, chaining)] + inf);
      var (w1, b) := RecoverOnce(Behaviour(env), w, [IPcb(n, chaining)] + inf, RNak(n), n);
      IBlockStands(w1.card, b, s0, s1, a1)
  {
    Dispatch(env, s0, n, chaining, inf);
    BuiltBlocksAreRecognised(n, chaining);
    IBlockAnswer(env, s0, n, chaining, inf);
    hide React, IPcb, RNak, Send, NeverHad, IsIBlock, IsRBlock;
    var (w1, b) := Send(Behaviour(env), w, [RNak(n)]);
    OneFrameCases(env, w, [RNak(n)]);
    NakAfterIBlock(env, w.card, n);
    RecoverableIsNoBlock(b, n);
    if NeverHad(b, n) {
      SendIBlockStands(env, w1, n, chaining, inf, s0);
    }
  }

  lemma {:induction false} RecoverIBlock(env: Env, w: World<State>, n: bit, chaining: bool, inf: Bytes, s0: State, a: Answer, rounds: nat)
    requires s0.activated && s0.number == Flip(n)
    requires
      var (s1, a1) := React(env, s0, [IPcb(n, chaining)] + inf);
      IBlockStands(w.card, a, s0, s1, a1)
    ensures
      var (s1, a1) := React(env, s0, [IPcb(n, chaining)] + inf);
      var (w1, b) := Recover(Behaviour(env), w, [IPcb(n, chaining)] + inf, RNak(n), n, a, rounds);
      IBlockStands(w1.card, b, s0, s1, a1)
    decreases rounds
  {
    hide React, IPcb, RNak, RecoverOnce, IBlockStands;
    if rounds > 0 && Recoverable(a) {
      var (w1, b) := RecoverOnce(Behaviour(env), w, [IPcb(n, chaining)] + inf, RNak(n), n);
      RecoverIBlockOnce(env, w, n, chaining, inf, s0, a);
      RecoverIBlock(env, w1, n, chaining, inf, s0, b, rounds - 1);
    }
  }

  /** One I-block: answered, the card has had it exactly once; given up, at most once. */
  lemma SendIBlock(env: Env, w: World<State>, n: bit, chaining: bool, inf: Bytes)
    requires w.card.activated && w.card.number == Flip(n)
    ensures
      var (s1, a1) := React(env, w.card, [IPcb(n, chaining)] + inf);
      var (w1, b) := SendBlock(Behaviour(env), w, [IPcb(n, chaining)] + inf, RNak(n), n);
      IBlockStands(w1.card, b, w.card, s1, a1)
  {
    var frame := [IPcb(n, chaining)] + inf;
    SendIBlockStands(env, w, n, chaining, inf, w.card);
    var (w1, b) := Send(Behaviour(env), w, frame);
    RecoverIBlock(env, w1, n, chaining, inf, w.card, b, RETRIES);
    hide React, IPcb, RNak, Send, Recover, Losses;
  }

  // ---- Recovery of a grant of time or of an acknowledgement --------------------------------

  lemma GrantAndRTwin(s: State, t: State, tx: Bytes)
    requires Twin(s, t) && |tx| > 0
    ensures Twin(ReactGrant(s, tx).0, ReactGrant(t, tx).0) && ReactGrant(s, tx).1 == ReactGrant(t, tx).1
    ensures Twin(ReactR(s, tx[0]).0, ReactR(t, tx[0]).0) && ReactR(s, tx[0]).1 == ReactR(t, tx[0]).1
  {
    hide And, IsRNak, BlockNumber, IPcb, RAck;
    assert t == s.(tick := t.tick);
  }

  lemma ITwin(env: Env, s: State, t: State, tx: Bytes)
    requires Twin(s, t) && |tx| > 0
    ensures Twin(ReactI(env, s, tx).0, ReactI(env, t, tx).0) && ReactI(env, s, tx).1 == ReactI(env, t, tx).1
  {
    hide IsChained, IPcb, RAck;
    assert t == s.(tick := t.tick);
  }

  lemma ReactTwin(env: Env, s: State, t: State, tx: Bytes)
    requires Twin(s, t)
    ensures Twin(React(env, s, tx).0, React(env, t, tx).0) && React(env, s, tx).1 == React(env, t, tx).1
  {
    hide And, IsRBlock, IsIBlock, ReactGrant, ReactR, ReactI;
    if |tx| > 0 {
      GrantAndRTwin(s, t, tx);
      ITwin(env, s, t, tx);
    }
  }

  predicate OnTheWire(frame: Bytes) {
    |frame| > 0 && !IsRats(frame) && !IsDeselect(frame)
  }

  /**
   * A block whose loss the card can be asked about without harm: asking before it arrived either
   * repeats what the card said last or, when the block is its own recovery, is the block itself.
   */
  ghost predicate Recovers(env: Env, s0: State, frame: Bytes, recovery: byte, again: bool) {
    var (s1, a1) := React(env, s0, frame);
    && s0.activated && OnTheWire(frame) && OnTheWire([recovery]) && !IsIBlock(frame[0])
    && !Recoverable(a1) && (a1.Frame? ==> |a1.bytes| <= FRAME_MAX && s1.last == a1.bytes && s1.activated)
    && (a1.Frame? ==> React(env, s1, [recovery]) == (s1, a1))
    && React(env, s0, [recovery]) == if again then (s0, Frame(s0.last)) else (s1, a1)
  }

  ghost predicate Stands(s: State, a: Answer, s0: State, s1: State, a1: Answer, again: bool) {
    || (Twin(s, s0) && (Recoverable(a) || (again && a == Frame(s0.last))))
    || (Twin(s, s1) && a1.Frame? && (Recoverable(a) || a == a1))
    || (Twin(s, s1) && a1.Failed? && a == a1)
  }

  lemma {:induction false} RecoverOther(env: Env, w: World<State>, frame: Bytes, recovery: byte, number: bit,
                                        s0: State, again: bool, a: Answer, rounds: nat)
    requires Recovers(env, s0, frame, recovery, again)
    requires var (s1, a1) := React(env, s0, frame); Stands(w.card, a, s0, s1, a1, again)
    ensures
      var (s1, a1) := React(env, s0, frame);
      var (w1, b) := Recover(Behaviour(env), w, frame, recovery, number, a, rounds);
      Stands(w1.card, b, s0, s1, a1, again)
    decreases rounds
  {
    hide React, Send, NeverHad, IsIBlock, IsRats, IsDeselect;
    if rounds > 0 && Recoverable(a) {
      var (s1, a1) := React(env, s0, frame);
      OneFrameCases(env, w, [recovery]);
      if Twin(w.card, s0) {
        ReactTwin(env, w.card, s0, [recovery]);
      } else {
        ReactTwin(env, w.card, s1, [recovery]);
      }
      var (w1, b) := RecoverOnce(Behaviour(env), w, frame, recovery, number);
      RecoverOther(env, w1, frame, recovery, number, s0, again, b, rounds - 1);
    }
  }

  lemma SendOther(env: Env, w: World<State>, frame: Bytes, recovery: byte, number: bit, again: bool)
    requires Recovers(env, w.card, frame, recovery, again)
    ensures
      var (s1, a1) := React(env, w.card, frame);
      var (w1, b) := SendBlock(Behaviour(env), w, frame, recovery, number);
      Stands(w1.card, b, w.card, s1, a1, again)
  {
    OneFrameCases(env, w, frame);
    var (w1, b) := Send(Behaviour(env), w, frame);
    hide React, Send, IsIBlock, IsRats, IsDeselect, Recover, Losses;
    RecoverOther(env, w1, frame, recovery, number, w.card, again, b, RETRIES);
  }

  // ---- Where the card stands between exchanges ---------------------------------------------

  /** In step, and `cmd` of the next command already with the card: the state between blocks. */
  ghost predicate Ready(s: State, n: bit, cmd: Bytes, log: seq<Bytes>) {
    s.activated && s.number == Flip(n) && s.command == cmd && s.executed == log
  }

  ghost predicate Answering(env: Env, s: State, n: bit, log: seq<Bytes>, k: nat) {
    && s.activated && s.number == n && s.command == [] && s.executed == log
    && s.reply == env.app(log) && k < |s.reply.pieces| && |s.last| <= FRAME_MAX
  }

  /** The card has asked for time before block k of its answer. */
  ghost predicate Asking(env: Env, s: State, n: bit, log: seq<Bytes>, k: nat) {
    Answering(env, s, n, log, k) && s.sent == k && s.wtxPending > 0 && s.last == [PCB_S_WTX, s.reply.wtxm]
  }

  /** The card has sent block k of its answer. */
  ghost predicate Given(env: Env, s: State, n: bit, log: seq<Bytes>, k: nat) {
    && Answering(env, s, n, log, k) && s.sent == k + 1
    && s.last == [IPcb(n, k + 1 < |s.reply.pieces|)] + s.reply.pieces[k].inf
  }

  /** The blocks of an answer joined up: what the card has to say. */
  function Joined(pieces: seq<Piece>): Bytes {
    if pieces == [] then [] else Joined(pieces[..|pieces| - 1]) + pieces[|pieces| - 1].inf
  }

  /** Every block of the answer fits the reader's frame. */
  predicate BlocksFit(r: Reply) {
    forall i :: 0 <= i < |r.pieces| ==> |r.pieces[i].inf| < FRAME_MAX
  }

  lemma BeginPieceStage(env: Env, s: State, n: bit, log: seq<Bytes>)
    requires s.activated && s.number == n && s.command == [] && s.executed == log
    requires s.reply == env.app(log) && s.sent < |s.reply.pieces|
    ensures
      var (s1, a) := BeginPiece(s);
      && s1.executed == log && !Recoverable(a)
      && (a.Frame? ==> a == Frame(s1.last) && (Asking(env, s1, n, log, s.sent) || Given(env, s1, n, log, s.sent)))
      && (a.Failed? ==> !BlocksFit(s.reply))
  {
    hide IPcb;
  }

  lemma GrantStage(env: Env, s: State, n: bit, log: seq<Bytes>, k: nat)
    requires RuleFollowing(env) && Asking(env, s, n, log, k)
    ensures
      var grant := [PCB_S_WTX, Wtxm(s.last)];
      var (s1, a) := React(env, s, grant);
      && Recovers(env, s, grant, RNak(n), true) && Recovers(env, s, grant, RAck(n), true)
      && s1.executed == log
      && (a.Frame? ==> a == Frame(s1.last) && (Asking(env, s1, n, log, k) || Given(env, s1, n, log, k)))
      && (a.Failed? ==> !BlocksFit(s.reply))
  {
    var m := s.reply.wtxm;
    WtxmEchoes(m);
    var grant := [PCB_S_WTX, m];
    Dispatch(env, s, n, false, [m]);
    assert [PCB_S_WTX] + [m] == grant;
    BuiltBlocksAreRecognised(n, false);
    var (s1, a) := React(env, s, grant);
    hide IPcb, React, IsRBlock, IsRNak, IsIBlock;
    RepeatsLast(env, s, n);
    if a.Frame? {
      RepeatsLast(env, s1, n);
    }
  }

  lemma WtxmEchoes(m: byte)
    requires 1 <= m <= 0x3F
    ensures And(m, 0x3F) == m && Wtxm([PCB_S_WTX, m]) == m
  {
  }

  /** Rule 11, for both kinds of R-block. */
  lemma RepeatsLast(env: Env, s: State, n: bit)
    requires s.activated && s.number == n && |s.last| <= FRAME_MAX
    ensures React(env, s, [RNak(n)]) == (s, Frame(s.last)) && React(env, s, [RAck(n)]) == (s, Frame(s.last))
    ensures OnTheWire([RNak(n)]) && OnTheWire([RAck(n)])
  {
    Dispatch(env, s, n, false, []);
    BuiltBlocksAreRecognised(n, false);
    hide React, IsRBlock, IsRNak, BlockNumber, RNak, RAck;
  }
}
