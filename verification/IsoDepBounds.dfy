/**
 * What the reader keeps against any card at all, rule-following or not: how many frames it may
 * send, how long they may be, and when it may report that the card was lost.
 */
module IsoDepBounds {
  import opened Bytes
  import opened Errors
  import opened IsoDepBlocks
  import opened IsoDepProtocol

  /** From `w` to `w1` at most `frames` frames went out, none longer than `longest`. */
  ghost predicate Bounded<S>(w: World<S>, w1: World<S>, frames: nat, longest: nat) {
    && w.traffic <= w1.traffic
    && |w1.traffic| - |w.traffic| <= frames
    && forall i :: |w.traffic| <= i < |w1.traffic| ==> |w1.traffic[i].sent| <= longest
  }

  /** Starting with no block having lost three frames, one has exactly when loss is reported. */
  ghost predicate LossAccounted<S>(w: World<S>, w1: World<S>, lost: bool) {
    && w.worst <= w1.worst
    && (w.worst <= RETRIES ==> w1.worst <= RETRIES + 1 && (lost <==> w1.worst == RETRIES + 1))
  }

  /** An exchange that meets a sixty-first request for time fails. */
  ghost predicate TimeAccounted<S>(w: World<S>, w1: World<S>, ok: bool) {
    w.wtx <= w1.wtx && (w.wtx <= WTX_ROUNDS_MAX && ok ==> w1.wtx <= WTX_ROUNDS_MAX)
  }

  lemma {:induction false} LossesConcat(a: seq<Traffic>, b: seq<Traffic>)
    ensures Losses(a + b) == Losses(a) + Losses(b)
    decreases |b|
  {
    if b == [] {
      assert a + b == a;
    } else {
      LossesConcat(a, b[..|b| - 1]);
      assert (a + b)[..|a + b| - 1] == a + b[..|b| - 1];
    }
  }

  lemma LossesSince<S>(w: World<S>, w1: World<S>, w2: World<S>)
    requires w.traffic <= w1.traffic <= w2.traffic
    ensures Losses(Since(w, w2)) == Losses(Since(w, w1)) + Losses(Since(w1, w2))
  {
    assert Since(w, w2) == Since(w, w1) + Since(w1, w2);
    LossesConcat(Since(w, w1), Since(w1, w2));
  }

  lemma BoundedTransitive<S>(w: World<S>, w1: World<S>, w2: World<S>, m: nat, n: nat, longest: nat)
    requires Bounded(w, w1, m, longest) && Bounded(w1, w2, n, longest)
    ensures Bounded(w, w2, m + n, longest)
  {
  }

  lemma OneFrame<S>(card: Card<S>, w: World<S>, frame: Bytes)
    ensures
      var (w1, a1) := Send(card, w, frame);
      && Bounded(w, w1, 1, |frame|)
      && Since(w, w1) == [Traffic(frame, a1)]
      && Losses(Since(w, w1)) == (if Recoverable(a1) then 1 else 0)
      && w1.worst == w.worst && w1.wtx == w.wtx
      && (a1.Frame? ==> |a1.bytes| <= 256)
  {
    var (w1, a1) := Send(card, w, frame);
    assert Since(w, w1) == [Traffic(frame, a1)];
    assert [Traffic(frame, a1)][..0] == [];
  }

  /** A round of recovery loses at most one frame: a lost request is not followed by the block. */
  lemma RecoverOnceBounded<S>(card: Card<S>, w: World<S>, frame: Bytes, recovery: byte, number: bit)
    requires |frame| >= 1
    ensures
      var (w1, a1) := RecoverOnce(card, w, frame, recovery, number);
      && Bounded(w, w1, if IsIBlock(frame[0]) then 2 else 1, |frame|)
      && Losses(Since(w, w1)) == (if Recoverable(a1) then 1 else 0)
      && (a1.Frame? ==> |a1.bytes| <= 256)
      && w1.worst == w.worst && w1.wtx == w.wtx
  {
    hide IsIBlock, IsRBlock, IsRNak, BlockNumber, Losses, Send;
    var (w1, a1) := Send(card, w, [recovery]);
    OneFrame(card, w, [recovery]);
    if IsIBlock(frame[0]) && NeverHad(a1, number) {
      var (w2, a2) := Send(card, w1, frame);
      OneFrame(card, w1, frame);
      LossesSince(w, w1, w2);
    }
  }

  /** The rounds run out exactly when every one of them lost a frame. */
  lemma {:induction false} RecoverBounded<S>(card: Card<S>, w: World<S>, frame: Bytes, recovery: byte, number: bit, a: Answer, rounds: nat)
    requires |frame| >= 1
    requires a.Frame? ==> |a.bytes| <= 256
    ensures
      var (w1, a1) := Recover(card, w, frame, recovery, number, a, rounds);
      && Bounded(w, w1, if IsIBlock(frame[0]) then 2 * rounds else rounds, |frame|)
      && Losses(Since(w, w1)) <= rounds
      && (Recoverable(a1) <==> Recoverable(a) && Losses(Since(w, w1)) == rounds)
      && (a1.Frame? ==> |a1.bytes| <= 256)
      && w1.worst == w.worst && w1.wtx == w.wtx
    decreases rounds
  {
    hide IsIBlock, Losses, RecoverOnce;
    if rounds == 0 || !Recoverable(a) {
      LossesSince(w, w, w);
    } else {
      var (w1, a1) := RecoverOnce(card, w, frame, recovery, number);
      RecoverOnceBounded(card, w, frame, recovery, number);
      RecoverBounded(card, w1, frame, recovery, number, a1, rounds - 1);
      var (w2, a2) := Recover(card, w1, frame, recovery, number, a1, rounds - 1);
      LossesSince(w, w1, w2);
    }
  }

  const I_BLOCK_FRAMES := 5
  const OTHER_BLOCK_FRAMES := 3

  /** One block costs at most five frames, or three when it is not an I-block, and is given up
      exactly when three of them were lost. */
  lemma SendBlockBounded<S>(card: Card<S>, w: World<S>, frame: Bytes, recovery: byte, number: bit)
    requires |frame| >= 1
    ensures
      var (w1, a1) := SendBlock(card, w, frame, recovery, number);
      && Bounded(w, w1, if IsIBlock(frame[0]) then I_BLOCK_FRAMES else OTHER_BLOCK_FRAMES, |frame|)
      && (Recoverable(a1) <==> Losses(Since(w, w1)) == RETRIES + 1)
      && LossAccounted(w, w1, Recoverable(a1))
      && (a1.Frame? ==> |a1.bytes| <= 256)
      && w1.wtx == w.wtx
  {
    hide IsIBlock;
    var (w1, a1) := Send(card, w, frame);
    OneFrame(card, w, frame);
    RecoverBounded(card, w1, frame, recovery, number, a1, RETRIES);
    var (w2, a2) := SendBlock(card, w, frame, recovery, number);
    LossesSince(w, w1, w2);
  }

  lemma {:induction false} ServeWtxBounded<S>(card: Card<S>, w: World<S>, a: Answer, recovery: byte, number: bit, rounds: nat)
    requires rounds <= WTX_ROUNDS_MAX
    requires a.Frame? ==> |a.bytes| <= 256
    ensures
      var (w1, a1) := ServeWtx(card, w, a, recovery, number, rounds);
      && Bounded(w, w1, OTHER_BLOCK_FRAMES * (WTX_ROUNDS_MAX - rounds), 2)
      && (!Recoverable(a) ==> LossAccounted(w, w1, Recoverable(a1)))
      && (Recoverable(a) ==> a1 == a && w1.worst == w.worst)
      && TimeAccounted(w, w1, a1.Frame?)
      && (a1.Frame? ==> |a1.bytes| <= 256 && !AsksForTime(a1))
    decreases WTX_ROUNDS_MAX - rounds
  {
    hide IsSWtx, IsIBlock, SendBlock, Wtxm;
    if AsksForTime(a) && rounds < WTX_ROUNDS_MAX {
      var (w1, a1) := SendBlock(card, w, [PCB_S_WTX, Wtxm(a.bytes)], recovery, number);
      SendBlockBounded(card, w, [PCB_S_WTX, Wtxm(a.bytes)], recovery, number);
      assert !IsIBlock(PCB_S_WTX) by { BuiltBlocksAreRecognised(0, false); }
      ServeWtxBounded(card, w1, a1, recovery, number, rounds + 1);
      var (w2, a2) := ServeWtx(card, w1, a1, recovery, number, rounds + 1);
      BoundedTransitive(w, w1, w2, OTHER_BLOCK_FRAMES, OTHER_BLOCK_FRAMES * (WTX_ROUNDS_MAX - rounds - 1), 2);
    }
  }

  const I_EXCHANGE_FRAMES := 185
  const OTHER_EXCHANGE_FRAMES := 183

  lemma ExchangeBounded<S>(card: Card<S>, w: World<S>, frame: Bytes, recovery: byte, number: bit)
    requires |frame| >= 1
    ensures
      var (w1, a1) := Exchange(card, w, frame, recovery, number);
      && Bounded(w, w1, if IsIBlock(frame[0]) then I_EXCHANGE_FRAMES else OTHER_EXCHANGE_FRAMES, Max(|frame|, 2))
      && LossAccounted(w, w1, Recoverable(a1))
      && (a1.Frame? ==> |a1.bytes| <= 256 && !AsksForTime(a1))
      && TimeAccounted(w, w1, a1.Frame?)
  {
    hide IsIBlock, IsSWtx;
    var (w1, a1) := SendBlock(card, w, frame, recovery, number);
    SendBlockBounded(card, w, frame, recovery, number);
    ServeWtxBounded(card, w1, a1, recovery, number, 0);
    hide SendBlock;
    var (w2, a2) := Exchange(card, w, frame, recovery, number);
    var m := if IsIBlock(frame[0]) then I_BLOCK_FRAMES else OTHER_BLOCK_FRAMES;
    assert Bounded(w, w1, m, Max(|frame|, 2)) && Bounded(w1, w2, 180, Max(|frame|, 2));
    BoundedTransitive(w, w1, w2, m, 180, Max(|frame|, 2));
  }

  predicate Lost(r: Result<Bytes>) {
    r.Err? && (r.error == CardLost || r.error == Transport)
  }

  lemma {:induction false} ReceiveBounded<S>(card: Card<S>, w: World<S>, number: bit, cap: nat, got: Bytes, a: Answer, blocks: nat)
    requires |got| <= cap && a.Frame?
    ensures
      var o := Receive(card, w, number, cap, got, a, blocks);
      && Bounded(w, o.w, OTHER_EXCHANGE_FRAMES * blocks, 2)
      && (w.worst <= RETRIES ==> LossAccounted(w, o.w, Lost(o.rx)))
      && (o.rx.Ok? ==> |o.rx.value| <= cap && got <= o.rx.value)
      && TimeAccounted(w, o.w, o.rx.Ok?)
    decreases blocks
  {
    hide IsIBlock, IsSWtx, Exchange, IsChained, HeaderLen;
    var o := Receive(card, w, number, cap, got, a, blocks);
    if blocks > 0 && |a.bytes| > 0 && IsIBlock(a.bytes[0]) && |a.bytes| >= HeaderLen(a.bytes[0]) {
      var inf := a.bytes[HeaderLen(a.bytes[0])..];
      var next := Flip(number);
      if |inf| <= cap - |got| && IsChained(a.bytes[0]) {
        var (w1, a1) := Exchange(card, w, [RAck(next)], RAck(next), next);
        ExchangeBounded(card, w, [RAck(next)], RAck(next), next);
        assert !IsIBlock(RAck(next)) by { BuiltBlocksAreRecognised(next, false); }
        if a1.Frame? {
          ReceiveBounded(card, w1, next, cap, got + inf, a1, blocks - 1);
          BoundedTransitive(w, w1, o.w, OTHER_EXCHANGE_FRAMES, OTHER_EXCHANGE_FRAMES * (blocks - 1), 2);
        }
      }
    }
  }

  /** How many blocks a command of this length is sent in. */
  function BlockCount(len: nat, capacity: nat): (n: nat)
    requires capacity >= 1
  {
    if len == 0 then 0 else if len <= capacity then 1 else 1 + BlockCount(len - capacity, capacity)
  }

  lemma {:induction false} TransmitBounded<S>(card: Card<S>, w: World<S>, number: bit, rest: Bytes, capacity: nat, cap: nat)
    requires 1 <= |rest| && 1 <= capacity
    ensures
      var o := Transmit(card, w, number, rest, capacity, cap);
      && Bounded(w, o.w, I_EXCHANGE_FRAMES * BlockCount(|rest|, capacity) + OTHER_EXCHANGE_FRAMES * CHAIN_BLOCKS_MAX, capacity + 1)
      && (w.worst <= RETRIES ==> LossAccounted(w, o.w, Lost(o.rx)))
      && (o.rx.Ok? ==> |o.rx.value| <= cap)
      && TimeAccounted(w, o.w, o.rx.Ok?)
    decreases |rest|
  {
    hide IsIBlock, IsSWtx, Exchange, IPcb, RNak, Receive, Acknowledges;
    var o := Transmit(card, w, number, rest, capacity, cap);
    var chunk := Min(|rest|, capacity);
    var last := chunk == |rest|;
    var frame := [IPcb(number, !last)] + rest[..chunk];
    var (w1, a1) := Exchange(card, w, frame, RNak(number), number);
    ExchangeBounded(card, w, frame, RNak(number), number);
    assert IsIBlock(IPcb(number, !last)) by { BuiltBlocksAreRecognised(number, !last); }
    assert |frame| <= capacity + 1;
    if a1.Frame? && last {
      ReceiveBounded(card, w1, number, cap, [], a1, CHAIN_BLOCKS_MAX);
      BoundedTransitive(w, w1, o.w, I_EXCHANGE_FRAMES, OTHER_EXCHANGE_FRAMES * CHAIN_BLOCKS_MAX, capacity + 1);
    } else if a1.Frame? && Acknowledges(a1, number) {
      TransmitBounded(card, w1, Flip(number), rest[chunk..], capacity, cap);
      BoundedTransitive(w, w1, o.w, I_EXCHANGE_FRAMES,
        I_EXCHANGE_FRAMES * BlockCount(|rest| - chunk, capacity) + OTHER_EXCHANGE_FRAMES * CHAIN_BLOCKS_MAX, capacity + 1);
    }
  }

  /**
   * Against any card: an APDU ends after at most 185 frames for each block of the command and 183
   * for each of 64 acknowledgements; after any ATS every one of those frames, the two bytes of its
   * CRC included, fits the frame size the card announced; what is returned fits the caller's buffer; and, when no
   * block had before, a lost card is reported exactly when one block lost three frames.
   */
  lemma TransceiveBounded<S>(card: Card<S>, w: World<S>, number: bit, ats: Bytes, tx: Bytes, cap: nat)
    ensures
      var fsc := Max(Min(CardFrame(ats), 256), 16);
      var o := Transceive(card, w, number, fsc, tx, cap);
      && Bounded(w, o.w, 185 * BlockCount(|tx|, InfCapacity(fsc)) + 183 * 64,
                 CardFrame(ats) - 2)
      && (o.rx.Ok? ==> |o.rx.value| <= cap)
      && (w.worst <= 2 ==> (Lost(o.rx) <==> o.w.worst == 3))
  {
    hide Transmit, BlockCount, AnnouncedFsc, StandardSize;
    AnnouncedIsStandard(ats);
    var fsc := Max(Min(CardFrame(ats), 256), 16);
    if |tx| != 0 && cap != 0 {
      TransmitBounded(card, w, number, tx, InfCapacity(fsc), cap);
    }
  }

  // ---- What a failure says -----------------------------------------------------------------

  predicate Last<S>(w: World<S>, a: Answer) {
    w.traffic != [] && w.traffic[|w.traffic| - 1].answer == a
  }

  lemma {:induction false} RecoverAnswer<S>(card: Card<S>, w: World<S>, frame: Bytes, recovery: byte, number: bit,
                                            a: Answer, rounds: nat)
    requires |frame| >= 1 && Last(w, a)
    ensures var (w1, a1) := Recover(card, w, frame, recovery, number, a, rounds); Last(w1, a1)
    decreases rounds
  {
    hide NeverHad, IsIBlock;
    if rounds != 0 && Recoverable(a) {
      var (w1, a1) := RecoverOnce(card, w, frame, recovery, number);
      RecoverAnswer(card, w1, frame, recovery, number, a1, rounds - 1);
    }
  }

  lemma SendBlockAnswer<S>(card: Card<S>, w: World<S>, frame: Bytes, recovery: byte, number: bit)
    requires |frame| >= 1
    ensures var (w1, a1) := SendBlock(card, w, frame, recovery, number); Last(w1, a1)
  {
    hide Recover, Losses;
    var (w1, a1) := Send(card, w, frame);
    RecoverAnswer(card, w1, frame, recovery, number, a1, RETRIES);
  }

  /** A failure handed up is the failure of the last frame, or else one that the reader found in what it was sent. */
  predicate Named<S>(w: World<S>, e: Error, found: set<Error>) {
    Last(w, Failed(e)) || e in found
  }

  lemma {:induction false} ServeWtxNamed<S>(card: Card<S>, w: World<S>, a: Answer, recovery: byte, number: bit, rounds: nat)
    requires rounds <= WTX_ROUNDS_MAX && Last(w, a)
    ensures
      var (w1, a1) := ServeWtx(card, w, a, recovery, number, rounds);
      a1.Failed? ==> Named(w1, a1.error, {Protocol})
    decreases WTX_ROUNDS_MAX - rounds
  {
    hide SendBlock, IsSWtx, Wtxm;
    if AsksForTime(a) && rounds < WTX_ROUNDS_MAX {
      var (w1, a1) := SendBlock(card, w, [PCB_S_WTX, Wtxm(a.bytes)], recovery, number);
      SendBlockAnswer(card, w, [PCB_S_WTX, Wtxm(a.bytes)], recovery, number);
      ServeWtxNamed(card, w1, a1, recovery, number, rounds + 1);
    }
  }

  lemma ExchangeNamed<S>(card: Card<S>, w: World<S>, frame: Bytes, recovery: byte, number: bit)
    requires |frame| >= 1
    ensures
      var (w1, a1) := Exchange(card, w, frame, recovery, number);
      a1.Failed? ==> Named(w1, a1.error, {Protocol})
  {
    hide SendBlock, ServeWtx;
    SendBlockAnswer(card, w, frame, recovery, number);
    var (w1, a1) := SendBlock(card, w, frame, recovery, number);
    ServeWtxNamed(card, w1, a1, recovery, number, 0);
  }

  lemma {:induction false} ReceiveNamed<S>(card: Card<S>, w: World<S>, number: bit, cap: nat, got: Bytes, a: Answer,
                                           blocks: nat)
    requires |got| <= cap && a.Frame?
    ensures
      var o := Receive(card, w, number, cap, got, a, blocks);
      o.rx.Err? ==> Named(o.w, o.rx.error, {Protocol, BufferTooSmall})
    decreases blocks
  {
    hide Exchange, IsIBlock, IsChained, HeaderLen, RAck;
    if blocks != 0 && |a.bytes| > 0 && IsIBlock(a.bytes[0]) && |a.bytes| >= HeaderLen(a.bytes[0]) && IsChained(a.bytes[0]) {
      var inf, next := a.bytes[HeaderLen(a.bytes[0])..], Flip(number);
      if |inf| <= cap - |got| {
        ExchangeNamed(card, w, [RAck(next)], RAck(next), next);
        var (w1, a1) := Exchange(card, w, [RAck(next)], RAck(next), next);
        if a1.Frame? {
          ReceiveNamed(card, w1, next, cap, got + inf, a1, blocks - 1);
        }
      }
    }
  }

  lemma {:induction false} TransmitNamed<S>(card: Card<S>, w: World<S>, number: bit, rest: Bytes, capacity: nat, cap: nat)
    requires 1 <= |rest| && 1 <= capacity
    ensures
      var o := Transmit(card, w, number, rest, capacity, cap);
      o.rx.Err? ==> Named(o.w, o.rx.error, {Protocol, BufferTooSmall})
    decreases |rest|
  {
    hide Exchange, Receive, Acknowledges, IPcb, RNak;
    var chunk := Min(|rest|, capacity);
    var last := chunk == |rest|;
    var frame := [IPcb(number, !last)] + rest[..chunk];
    ExchangeNamed(card, w, frame, RNak(number), number);
    var (w1, a1) := Exchange(card, w, frame, RNak(number), number);
    if a1.Frame? {
      if last {
        ReceiveNamed(card, w1, number, cap, [], a1, CHAIN_BLOCKS_MAX);
      } else if Acknowledges(a1, number) {
        TransmitNamed(card, w1, Flip(number), rest[chunk..], capacity, cap);
      }
    }
  }

  /**
   * Against any card: nothing to send, or no room for an answer, is refused as such without a frame; any other
   * failure is that of the last frame, or a breach of the protocol, or want of room for the answer.
   */
  lemma FailureNamed<S>(card: Card<S>, w: World<S>, number: bit, fsc: nat, tx: Bytes, cap: nat)
    ensures
      var o := Transceive(card, w, number, fsc, tx, cap);
      if tx == [] || cap == 0 then o == Outcome(w, number, Err(InvalidInput))
      else o.rx.Err? ==> Named(o.w, o.rx.error, {Protocol, BufferTooSmall})
  {
    hide Transmit;
    if tx != [] && cap != 0 {
      TransmitNamed(card, w, number, tx, InfCapacity(fsc), cap);
    }
  }

  /** Which of the two it is: what is no I-block, or one block too many, breaches the protocol; what is too long lacks room. */
  lemma ReceiveRefuses<S>(card: Card<S>, w: World<S>, number: bit, cap: nat, got: Bytes, a: Answer, blocks: nat)
    requires |got| <= cap && a.Frame?
    ensures
      var o := Receive(card, w, number, cap, got, a, blocks);
      && (blocks == 0 || a.bytes == [] || !IsIBlock(a.bytes[0]) ==> o == Outcome(w, number, Err(Protocol)))
      && (blocks > 0 && a.bytes != [] && IsIBlock(a.bytes[0]) && |got| + |a.bytes| - HeaderLen(a.bytes[0]) > cap ==>
            o == Outcome(w, number, Err(BufferTooSmall)))
  {
    hide Exchange, IsIBlock, IsChained;
  }
}
