/**
 * The reader as the program has it: an object whose block number, buffers and link are updated
 * in place. Every method is proved to compute the function of IsoDepProtocol that its contract
 * names, on whatever card is at the other end.
 */
module IsoDepReader {
  import opened Bytes
  import opened Errors
  import opened IsoDepBlocks
  import opened IsoDepProtocol
  import opened IsoDepTiming

  /** The frame function the layer is handed: the card at the other end of the wire. */
  class Port<S(!new)> {
    const behaviour: Card<S>
    var card: S
    /** The card with the traffic so far and the two figures kept about it. */
    ghost var world: World<S>

    ghost predicate Valid()
      reads this
    {
      card == world.card
    }

    constructor (behaviour: Card<S>, card: S)
      ensures Valid() && this.behaviour == behaviour
      ensures world == World(card, [], 0, 0)
    {
      this.behaviour := behaviour;
      this.card := card;
      world := World(card, [], 0, 0);
    }

    method SendRaw(frame: Bytes) returns (answer: Answer)
      requires Valid()
      modifies this
      ensures Valid()
      ensures (world, answer) == Send(behaviour, old(world), frame)
      ensures answer.Frame? ==> |answer.bytes| <= 256
    {
      var (next, a) := behaviour(card, frame);
      card := next;
      answer := if a.Frame? && |a.bytes| > FRAME_MAX then Failed(BufferTooSmall) else a;
      world := Send(behaviour, world, frame).0;
    }
  }

  /** The world, the block number, the error code and the bytes handed over are those of `o`. */
  ghost predicate Reports<S>(o: Outcome<S>, w: World<S>, number: bit, error: Option<Error>, rx: Bytes) {
    && w == o.w && number == o.number
    && (o.rx.Ok? ==> error == None && rx == o.rx.value)
    && (o.rx.Err? ==> error == Some(o.rx.error) && rx == [])
  }

  class Reader<S(!new)> {
    const port: Port<S>
    var activated: bool
    var blockNumber: bit
    var fsc: nat
    var ats: Bytes
    /** The frame waiting and guard time indices, and what they come to in carrier cycles and milliseconds. */
    var fwi: nat
    var fwiAnnounced: bool
    var fwt: nat
    var sfgi: nat
    var sfgt: nat
    const txFrame: array<byte>

    ghost predicate Valid()
      reads this, port
    {
      txFrame.Length == FRAME_MAX && port.Valid()
    }

    constructor (port: Port<S>)
      requires port.Valid()
      ensures Valid() && this.port == port && !activated && blockNumber == 0 && fsc == FSC_DEFAULT
      ensures fresh(txFrame) && ats == [] && fwi == FWI_DEFAULT && !fwiAnnounced && fwt == WaitingTime(FWI_DEFAULT) && sfgt == 0
    {
      this.port := port;
      activated, blockNumber, fsc, ats := false, 0, FSC_DEFAULT, [];
      fwi, fwiAnnounced, sfgi, sfgt := FWI_DEFAULT, false, 0, 0;
      fwt := WaitingTime(FWI_DEFAULT);
      txFrame := new byte[FRAME_MAX];
    }

    /** Frame size, waiting time and guard time are those the ATS announced, within the reader's own limits. */
    ghost predicate Tuned(bytes: Bytes)
      reads this
    {
      && fsc == Max(Min(CardFrame(bytes), 256), 16)
      && fwiAnnounced == TimingByte(bytes).Some?
      && fwi == FrameIndex(TimingByte(bytes)) && fwt == WaitingTime(fwi)
      && sfgi == GuardIndex(TimingByte(bytes)) && sfgt == GuardTime(sfgi)
    }

    /** The interface bytes of an ATS: its length byte, T0, and TB(1) when T0 says there is one. */
    static method ReadInterface(bytes: Bytes) returns (announced: nat, tb: Option<byte>)
      ensures announced == CardFrame(bytes) && tb == TimingByte(bytes)
    {
      hide FscFromFsci, StandardSize;
      AnnouncedIsStandard(bytes);
      announced, tb := FSC_DEFAULT, None;
      if |bytes| > 0 {
        var body: nat := bytes[0];
        if body > |bytes| {
          body := |bytes|;
        }
        if body >= 2 {
          var t0 := bytes[1];
          announced := FscFromFsci(t0 % 16);
          var index := 2;
          if t0 / 16 % 2 == 1 && index < body {
            index := index + 1;
          }
          if t0 / 32 % 2 == 1 && index < body {
            tb := Some(bytes[index]);
          }
        }
      }
    }

    /** The waiting and guard times that TB(1), if there is one, asks for. */
    method Retime(tb: Option<byte>)
      modifies `fwi, `fwiAnnounced, `fwt, `sfgi, `sfgt
      ensures fwiAnnounced == tb.Some?
      ensures fwi == FrameIndex(tb) && fwt == WaitingTime(fwi) && sfgi == GuardIndex(tb) && sfgt == GuardTime(sfgi)
    {
      hide WaitingTime, GuardTime;
      fwi, sfgi, fwiAnnounced := FWI_DEFAULT, 0, tb.Some?;
      if tb.Some? {
        fwi, sfgi := tb.value / 16, tb.value % 16;
      }
      fwt := ComputeWaitingTime(fwi);
      sfgt := ComputeGuardTime(sfgi);
    }

    method ParseAts(bytes: Bytes)
      requires Valid()
      modifies this
      ensures Valid() && activated == old(activated) && blockNumber == old(blockNumber)
      ensures Tuned(bytes) && ats == bytes[..Min(|bytes|, 24)]
    {
      hide WaitingTime, GuardTime, FrameIndex, GuardIndex, CardFrame, TimingByte;
      var tb;
      fsc, tb := ReadInterface(bytes);
      ats := bytes[..if |bytes| < 24 then |bytes| else 24];
      if fsc > FSD {
        fsc := FSD;
      }
      if fsc < 16 {
        fsc := 16;
      }
      Retime(tb);
    }

    method SendBlock(frame: Bytes, recovery: byte) returns (answer: Answer)
      requires Valid() && |frame| >= 1
      modifies port
      ensures Valid()
      ensures (port.world, answer) == IsoDepProtocol.SendBlock(port.behaviour, old(port.world), frame, recovery, blockNumber)
    {
      answer := port.SendRaw(frame);
      ghost var w1, a1 := port.world, answer;
      RecoverGrows(port.behaviour, w1, frame, recovery, blockNumber, a1, RETRIES);
      var round := 0;
      while round < RETRIES && Recoverable(answer)
        invariant 0 <= round <= RETRIES && port.Valid()
        invariant Recover(port.behaviour, w1, frame, recovery, blockNumber, a1, RETRIES)
               == Recover(port.behaviour, port.world, frame, recovery, blockNumber, answer, RETRIES - round)
        decreases RETRIES - round
      {
        answer := port.SendRaw([recovery]);
        if IsIBlock(frame[0]) && NeverHad(answer, blockNumber) {
          answer := port.SendRaw(frame);
        }
        round := round + 1;
      }
      port.world := port.world.(worst := Max(old(port.world).worst, Losses(Since(old(port.world), port.world))));
    }

    method Exchange(frame: Bytes, recovery: byte) returns (answer: Answer)
      requires Valid() && |frame| >= 1
      modifies port
      ensures Valid()
      ensures (port.world, answer) == IsoDepProtocol.Exchange(port.behaviour, old(port.world), frame, recovery, blockNumber)
    {
      answer := SendBlock(frame, recovery);
      if answer.Failed? {
        port.world := port.world.(wtx := Max(port.world.wtx, 0));
        return;
      }
      ghost var w1, a1 := port.world, answer;
      var rounds := 0;
      while AsksForTime(answer)
        invariant 0 <= rounds <= WTX_ROUNDS_MAX && port.Valid()
        invariant ServeWtx(port.behaviour, w1, a1, recovery, blockNumber, 0)
               == ServeWtx(port.behaviour, port.world, answer, recovery, blockNumber, rounds)
        decreases WTX_ROUNDS_MAX - rounds
      {
        if rounds == WTX_ROUNDS_MAX {
          port.world := port.world.(wtx := Max(port.world.wtx, rounds + 1));
          return Failed(Protocol);
        }
        answer := SendBlock([PCB_S_WTX, Wtxm(answer.bytes)], recovery);
        rounds := rounds + 1;
      }
      port.world := port.world.(wtx := Max(port.world.wtx, rounds));
    }

    /** Activation: RATS once, and the reader's block number at zero (rule A). */
    method Activate() returns (error: Option<Error>)
      requires Valid()
      modifies this, port
      ensures Valid()
      ensures blockNumber == 0
      ensures
        var (w, a) := Send(port.behaviour, old(port.world), [CMD_RATS, 0x80]);
        && port.world == w
        && (activated <==> a.Frame? && |a.bytes| > 0)
        && (activated ==> error == None && Tuned(a.bytes))
        && (!activated ==> error == Some(if a.Failed? then a.error else Protocol))
    {
      activated, blockNumber := false, 0;
      var answer := port.SendRaw([CMD_RATS, 0x80]);
      if answer.Failed? {
        return Some(answer.error);
      }
      if |answer.bytes| == 0 {
        return Some(Protocol);
      }
      ParseAts(answer.bytes);
      activated := true;
      error := None;
    }

    /** Copy the chained response into the caller's buffer, block by block. */
    method ReceiveInto(rx: array<byte>, first: Answer) returns (error: Option<Error>, rxLen: nat)
      requires Valid() && first.Frame?
      requires rx != txFrame
      modifies this`blockNumber, port, rx
      ensures Valid() && rxLen <= rx.Length
      ensures Reports(Receive(port.behaviour, old(port.world), old(blockNumber), rx.Length, [], first, CHAIN_BLOCKS_MAX),
                      port.world, blockNumber, error, rx[..rxLen])
      ensures error == None ==> forall j :: rxLen <= j < rx.Length ==> rx[j] == old(rx[j])
    {
      hide IsoDepProtocol.Exchange, IsIBlock, IsChained, HeaderLen, RAck;
      var total, answer := 0, first;
      ghost var expected := Receive(port.behaviour, port.world, blockNumber, rx.Length, [], first, CHAIN_BLOCKS_MAX);
      assert rx[..0] == [];
      var block := 0;
      while block < CHAIN_BLOCKS_MAX
        invariant 0 <= block <= CHAIN_BLOCKS_MAX && 0 <= total <= rx.Length && answer.Frame?
        invariant Valid() && forall j :: total <= j < rx.Length ==> rx[j] == old(rx[j])
        invariant expected == Receive(port.behaviour, port.world, blockNumber, rx.Length, rx[..total], answer, CHAIN_BLOCKS_MAX - block)
      {
        if |answer.bytes| == 0 || !IsIBlock(answer.bytes[0]) || |answer.bytes| < HeaderLen(answer.bytes[0]) {
          return Some(Protocol), 0;
        }
        var header := HeaderLen(answer.bytes[0]);
        var inf := |answer.bytes| - header;
        if inf > rx.Length - total {
          return Some(BufferTooSmall), 0;
        }
        CopyInto(rx, total, answer.bytes[header..]);
        total := total + inf;
        blockNumber := Flip(blockNumber);
        if !IsChained(answer.bytes[0]) {
          return None, total;
        }
        answer := Exchange([RAck(blockNumber)], RAck(blockNumber));
        if answer.Failed? {
          return Some(answer.error), 0;
        }
        block := block + 1;
      }
      return Some(Protocol), 0;
    }

    /** Build one block of the command in the frame buffer and exchange it. */
    method SendCommandBlock(chunk: Bytes, last: bool) returns (answer: Answer)
      requires Valid() && |chunk| < FRAME_MAX
      modifies port, txFrame
      ensures Valid()
      ensures (port.world, answer) == IsoDepProtocol.Exchange(port.behaviour, old(port.world),
                [IPcb(blockNumber, !last)] + chunk, RNak(blockNumber), blockNumber)
    {
      txFrame[0] := IPcb(blockNumber, !last);
      CopyInto(txFrame, 1, chunk);
      assert txFrame[..1 + |chunk|] == [IPcb(blockNumber, !last)] + chunk;
      answer := Exchange(txFrame[..1 + |chunk|], RNak(blockNumber));
    }

    /** Exchange one APDU, chaining it in either direction as the frame size needs. */
    method Transceive(tx: Bytes, rx: array<byte>) returns (error: Option<Error>, rxLen: nat)
      requires Valid()
      requires rx != txFrame
      modifies this`blockNumber, port, rx, txFrame
      ensures Valid() && rxLen <= rx.Length
      ensures !activated ==> error == Some(NoCard) && port.world == old(port.world) && blockNumber == old(blockNumber)
      ensures activated ==>
        Reports(IsoDepProtocol.Transceive(port.behaviour, old(port.world), old(blockNumber), fsc, tx, rx.Length),
                port.world, blockNumber, error, rx[..rxLen])
      ensures error == None ==> forall j :: rxLen <= j < rx.Length ==> rx[j] == old(rx[j])
    {
      hide IsoDepProtocol.Exchange, Receive, IsIBlock, IsRBlock, IsRNak, BlockNumber, IPcb, RNak;
      if !activated {
        return Some(NoCard), 0;
      }
      if |tx| == 0 || rx.Length == 0 {
        return Some(InvalidInput), 0;
      }
      var capacity := InfCapacity(fsc);
      var sent := 0;
      var answer: Answer;
      ghost var expected := Transmit(port.behaviour, port.world, blockNumber, tx, capacity, rx.Length);
      assert tx[0..] == tx;
      while true
        invariant 0 <= sent < |tx| && Valid() && unchanged(rx)
        invariant expected == Transmit(port.behaviour, port.world, blockNumber, tx[sent..], capacity, rx.Length)
        decreases |tx| - sent
      {
        var remaining := |tx| - sent;
        var chunk := if remaining > capacity then capacity else remaining;
        var last := sent + chunk == |tx|;
        assert tx[sent..sent + chunk] == tx[sent..][..chunk];
        answer := SendCommandBlock(tx[sent..sent + chunk], last);
        if answer.Failed? {
          return Some(answer.error), 0;
        }
        assert tx[sent..][chunk..] == tx[sent + chunk..];
        sent := sent + chunk;
        if last {
          break;
        }
        if !Acknowledges(answer, blockNumber) {
          return Some(Protocol), 0;
        }
        blockNumber := Flip(blockNumber);
      }
      error, rxLen := ReceiveInto(rx, answer);
    }

    /** Release the card; whatever comes back, the reader is done with it. */
    method Deselect()
      requires Valid()
      modifies this`activated, port
      ensures Valid() && !activated
      ensures port.world == if old(activated) then Send(port.behaviour, old(port.world), [PCB_S_DESELECT]).0 else old(port.world)
    {
      if activated {
        var _ := port.SendRaw([PCB_S_DESELECT]);
        activated := false;
      }
    }
  }
}
