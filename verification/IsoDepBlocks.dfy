/**
 * The blocks of ISO/IEC 14443-4: protocol control bytes, the channel that
 * carries them, and the record of what went over it.
 */
module IsoDepBlocks {
  import opened Bytes
  import opened Errors

  type bit = b: int | 0 <= b <= 1

  const PCB_I_BASE: byte := 0x02
  const PCB_I_CHAINING: byte := 0x10
  const PCB_I_MASK: byte := 0xE2
  const PCB_CID: byte := 0x08
  const PCB_NAD: byte := 0x04
  const PCB_R_ACK: byte := 0xA2
  const PCB_R_NAK: byte := 0xB2
  const PCB_R_NAK_FLAG: byte := 0x10
  const PCB_R_MASK: byte := 0xE6
  const PCB_S_WTX: byte := 0xF2
  const PCB_S_DESELECT: byte := 0xC2
  const PCB_S_MASK: byte := 0xC7
  const PCB_BLOCK_NUMBER: byte := 0x01
  const CMD_RATS: byte := 0xE0
  const FRAME_MAX := 256

  predicate IsIBlock(pcb: byte) { And(pcb, PCB_I_MASK) == PCB_I_BASE }

  predicate IsChained(pcb: byte) { And(pcb, PCB_I_CHAINING) != 0 }

  predicate IsRBlock(pcb: byte) { And(pcb, PCB_R_MASK) == PCB_R_ACK }

  predicate IsRNak(pcb: byte) { IsRBlock(pcb) && And(pcb, PCB_R_NAK_FLAG) != 0 }

  predicate IsSWtx(pcb: byte) {
    And(pcb, PCB_S_MASK) == And(PCB_S_WTX, PCB_S_MASK) && And(pcb, 0x30) == 0x30
  }

  function BlockNumber(pcb: byte): byte { And(pcb, PCB_BLOCK_NUMBER) }

  /** Bytes before the information field: the PCB, and CID or NAD when present. */
  function HeaderLen(pcb: byte): nat {
    1 + (if And(pcb, PCB_CID) != 0 then 1 else 0) + (if And(pcb, PCB_NAD) != 0 then 1 else 0)
  }

  function IPcb(number: bit, chaining: bool): byte {
    if chaining then Or(Or(PCB_I_BASE, number), PCB_I_CHAINING) else Or(PCB_I_BASE, number)
  }

  function RAck(number: bit): byte { Or(PCB_R_ACK, number) }

  function RNak(number: bit): byte { Or(PCB_R_NAK, number) }

  function Flip(number: bit): bit { 1 - number }

  /** Every control byte the two sides build is read back as what it was meant to be. */
  lemma BuiltBlocksAreRecognised(n: bit, chaining: bool)
    ensures IsIBlock(IPcb(n, chaining)) && !IsRBlock(IPcb(n, chaining)) && !IsSWtx(IPcb(n, chaining))
    ensures IsChained(IPcb(n, chaining)) == chaining
    ensures HeaderLen(IPcb(n, chaining)) == 1
    ensures IsRBlock(RAck(n)) && !IsRNak(RAck(n)) && !IsIBlock(RAck(n)) && !IsSWtx(RAck(n))
    ensures IsRBlock(RNak(n)) && IsRNak(RNak(n)) && !IsIBlock(RNak(n)) && !IsSWtx(RNak(n))
    ensures BlockNumber(RAck(n)) == n && BlockNumber(RNak(n)) == n
    ensures IsSWtx(PCB_S_WTX) && !IsIBlock(PCB_S_WTX) && !IsRBlock(PCB_S_WTX)
  {
    if n == 0 {} else {}
  }

  /** The kinds of block bit by bit, as section 7.1.1 of ISO/IEC 14443-4 has them. */
  lemma KindsBitByBit(pcb: byte)
    ensures IsIBlock(pcb) <==> And(pcb, 128) == And(pcb, 64) == And(pcb, 32) == 0 && And(pcb, 2) != 0
    ensures IsRBlock(pcb) <==> And(pcb, 128) != 0 && And(pcb, 64) == 0 && And(pcb, 32) != 0 && And(pcb, 4) == 0 && And(pcb, 2) != 0
    ensures IsRNak(pcb) <==> IsRBlock(pcb) && And(pcb, 16) != 0
  {
  }

  /** A request for more time: its two highest bits, the two that make it one, and the fixed ones at its end. */
  lemma RequestBitByBit(pcb: byte)
    ensures IsSWtx(pcb) <==>
      && And(pcb, 128) != 0 && And(pcb, 64) != 0 && And(pcb, 32) != 0 && And(pcb, 16) != 0
      && And(pcb, 4) == 0 && And(pcb, 2) != 0 && And(pcb, 1) == 0
  {
  }

  /** Chaining, the block number, and how much of a block is header. */
  lemma FlagsBitByBit(pcb: byte)
    ensures IsChained(pcb) <==> And(pcb, 16) != 0
    ensures BlockNumber(pcb) == And(pcb, 1)
    ensures HeaderLen(pcb) == 1 + (if And(pcb, 8) != 0 then 1 else 0) + if And(pcb, 4) != 0 then 1 else 0
  {
  }

  /** The control bytes that are built, in numbers. */
  lemma BlocksInNumbers(n: bit, chaining: bool)
    ensures IPcb(n, chaining) == 0x02 + n + if chaining then 0x10 else 0
    ensures RAck(n) == 0xA2 + n && RNak(n) == 0xB2 + n
    ensures PCB_S_WTX == 0xF2 && PCB_S_DESELECT == 0xC2 && CMD_RATS == 0xE0
  {
    if n == 0 {} else {}
  }

  /** What one frame out brings back. */
  datatype Answer = Frame(bytes: Bytes) | Failed(error: Error)

  /** Any card: how its state moves, and what it answers, when a frame is put on the wire. */
  type Card<!S> = (S, Bytes) -> (S, Answer)

  datatype Traffic = Traffic(sent: Bytes, answer: Answer)

  /**
   * A card and everything that has gone over the wire to it. Two figures are kept beside the
   * traffic for the statements about loss: the most losses met inside one block's recovery, and
   * the most S(WTX) requests seen inside one exchange.
   */
  datatype World<S> = World(card: S, traffic: seq<Traffic>, worst: nat, wtx: nat)

  /** A timeout or a damaged answer, which is what rules 4 and 5 recover from. */
  predicate Recoverable(a: Answer) {
    a.Failed? && (a.error == CardLost || a.error == Transport)
  }

  function Losses(t: seq<Traffic>): nat {
    if t == [] then 0
    else Losses(t[..|t| - 1]) + if Recoverable(t[|t| - 1].answer) then 1 else 0
  }

  /** One frame out and one back; the answer has to fit the receive buffer. */
  function Send<S>(card: Card<S>, w: World<S>, frame: Bytes): (r: (World<S>, Answer)) {
    var (s, a) := card(w.card, frame);
    var answer := if a.Frame? && |a.bytes| > FRAME_MAX then Failed(BufferTooSmall) else a;
    (w.(card := s, traffic := w.traffic + [Traffic(frame, answer)]), answer)
  }

  /** Frames of up to 256 bytes arrive as they are; a longer one is refused, and on record as refused. */
  lemma SendInNumbers<S>(card: Card<S>, w: World<S>, frame: Bytes)
    ensures
      var (s, a) := card(w.card, frame);
      var (w1, answer) := Send(card, w, frame);
      && w1.card == s && w1.traffic == w.traffic + [Traffic(frame, answer)]
      && answer == if a.Frame? && |a.bytes| > 256 then Failed(BufferTooSmall) else a
  {
  }

  /** The traffic of `w1` that came after `w0`. */
  function Since<S>(w0: World<S>, w1: World<S>): seq<Traffic>
    requires |w0.traffic| <= |w1.traffic|
  {
    w1.traffic[|w0.traffic|..]
  }
}
