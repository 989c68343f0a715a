/**
 * The reader half of ISO/IEC 14443-4 as functions of the card's behaviour. The methods of
 * IsoDepReader are proved to compute these, and the theorems are about these.
 */
module IsoDepProtocol {
  import opened Bytes
  import opened Errors
  import opened IsoDepBlocks

  const RETRIES := 2
  const WTX_ROUNDS_MAX := 60
  const CHAIN_BLOCKS_MAX := 64
  const FRAME_OVERHEAD := 4
  const FSC_DEFAULT := 32
  const FSD := 256

  /** An R(ACK) with the other block number: the card never had the block (rule 12). */
  predicate NeverHad(a: Answer, number: bit) {
    && a.Frame? && |a.bytes| >= 1
    && IsRBlock(a.bytes[0]) && !IsRNak(a.bytes[0])
    && BlockNumber(a.bytes[0]) != number
  }

  /** One round of recovery; the block itself goes again only when the card never had it. */
  function RecoverOnce<S>(card: Card<S>, w: World<S>, frame: Bytes, recovery: byte, number: bit): (World<S>, Answer)
    requires |frame| >= 1
  {
    var (w1, a1) := Send(card, w, [recovery]);
    if IsIBlock(frame[0]) && NeverHad(a1, number) then Send(card, w1, frame) else (w1, a1)
  }

  /** The recovery rounds that follow a lost frame. */
  function Recover<S>(card: Card<S>, w: World<S>, frame: Bytes, recovery: byte, number: bit, a: Answer, rounds: nat)
    : (World<S>, Answer)
    requires |frame| >= 1
    decreases rounds
  {
    if rounds == 0 || !Recoverable(a) then (w, a)
    else
      var (w1, a1) := RecoverOnce(card, w, frame, recovery, number);
      Recover(card, w1, frame, recovery, number, a1, rounds - 1)
  }

  /** Send one block and bring its answer back, recovering the answer if it is lost. */
  function SendBlock<S>(card: Card<S>, w: World<S>, frame: Bytes, recovery: byte, number: bit): (World<S>, Answer)
    requires |frame| >= 1
  {
    var (w1, a1) := Send(card, w, frame);
    RecoverGrows(card, w1, frame, recovery, number, a1, RETRIES);
    var (w2, a2) := Recover(card, w1, frame, recovery, number, a1, RETRIES);
    (w2.(worst := Max(w.worst, Losses(Since(w, w2)))), a2)
  }

  lemma {:induction false} RecoverGrows<S>(card: Card<S>, w: World<S>, frame: Bytes, recovery: byte, number: bit, a: Answer, rounds: nat)
    requires |frame| >= 1
    ensures w.traffic <= Recover(card, w, frame, recovery, number, a, rounds).0.traffic
    decreases rounds
  {
    if rounds != 0 && Recoverable(a) {
      var (w1, a1) := RecoverOnce(card, w, frame, recovery, number);
      RecoverGrows(card, w1, frame, recovery, number, a1, rounds - 1);
    }
  }

  /** The multiplier the reader repeats when it grants more time. */
  function Wtxm(request: Bytes): byte
    requires |request| >= 1
  {
    var m := And(if |request| >= 2 then request[1] else 1, 0x3F);
    if m == 0 then 1 else m
  }

  predicate AsksForTime(a: Answer) {
    a.Frame? && |a.bytes| >= 1 && IsSWtx(a.bytes[0])
  }

  /** Grant every waiting time extension the card asks for, after `rounds` earlier ones. */
  function ServeWtx<S>(card: Card<S>, w: World<S>, a: Answer, recovery: byte, number: bit, rounds: nat): (World<S>, Answer)
    requires rounds <= WTX_ROUNDS_MAX
    decreases WTX_ROUNDS_MAX - rounds
  {
    if !AsksForTime(a) then (w.(wtx := Max(w.wtx, rounds)), a)
    else if rounds == WTX_ROUNDS_MAX then (w.(wtx := Max(w.wtx, rounds + 1)), Failed(Protocol))
    else
      var (w1, a1) := SendBlock(card, w, [PCB_S_WTX, Wtxm(a.bytes)], recovery, number);
      ServeWtx(card, w1, a1, recovery, number, rounds + 1)
  }

  /** Send a block, service every waiting time extension, return the real answer. */
  function Exchange<S>(card: Card<S>, w: World<S>, frame: Bytes, recovery: byte, number: bit): (World<S>, Answer)
    requires |frame| >= 1
  {
    var (w1, a1) := SendBlock(card, w, frame, recovery, number);
    ServeWtx(card, w1, a1, recovery, number, 0)
  }

  /** Where an exchange of one APDU leaves the world, the reader's block number, and the answer. */
  datatype Outcome<S> = Outcome(w: World<S>, number: bit, rx: Result<Bytes>)

  /** Collect one response, `got` of it already there, following at most `blocks` more blocks. */
  function Receive<S>(card: Card<S>, w: World<S>, number: bit, cap: nat, got: Bytes, a: Answer, blocks: nat): Outcome<S>
    requires |got| <= cap && a.Frame?
    decreases blocks
  {
    if blocks == 0 then Outcome(w, number, Err(Protocol))
    else if |a.bytes| == 0 || !IsIBlock(a.bytes[0]) || |a.bytes| < HeaderLen(a.bytes[0]) then
      Outcome(w, number, Err(Protocol))
    else
      var inf := a.bytes[HeaderLen(a.bytes[0])..];
      if |inf| > cap - |got| then Outcome(w, number, Err(BufferTooSmall))
      else
        var next := Flip(number);
        if !IsChained(a.bytes[0]) then Outcome(w, next, Ok(got + inf))
        else
          var (w1, a1) := Exchange(card, w, [RAck(next)], RAck(next), next);
          if a1.Failed? then Outcome(w1, next, Err(a1.error))
          else Receive(card, w1, next, cap, got + inf, a1, blocks - 1)
  }

  /** The answer to every command block but the last: an R(ACK) with the block's own number. */
  predicate Acknowledges(a: Answer, number: bit) {
    && a.Frame? && |a.bytes| >= 1
    && IsRBlock(a.bytes[0]) && !IsRNak(a.bytes[0])
    && BlockNumber(a.bytes[0]) == number
  }

  /** Send what is left of the command, chained into blocks of at most `capacity`, and receive. */
  function Transmit<S>(card: Card<S>, w: World<S>, number: bit, rest: Bytes, capacity: nat, cap: nat): Outcome<S>
    requires 1 <= |rest| && 1 <= capacity
    decreases |rest|
  {
    var chunk := Min(|rest|, capacity);
    var last := chunk == |rest|;
    var (w1, a1) := Exchange(card, w, [IPcb(number, !last)] + rest[..chunk], RNak(number), number);
    if a1.Failed? then Outcome(w1, number, Err(a1.error))
    else if last then Receive(card, w1, number, cap, [], a1, CHAIN_BLOCKS_MAX)
    else if !Acknowledges(a1, number) then Outcome(w1, number, Err(Protocol))
    else Transmit(card, w1, Flip(number), rest[chunk..], capacity, cap)
  }

  /** Largest information field that fits one frame towards the card. */
  function InfCapacity(fsc: nat): (inf: nat)
    ensures 1 <= inf <= FRAME_MAX - 1
  {
    var f := if fsc <= FRAME_OVERHEAD then FSC_DEFAULT else fsc;
    Min(f - FRAME_OVERHEAD, FRAME_MAX - 1)
  }

  /** One APDU from an activated reader: `emrtd_isodep_transceive` once its arguments are checked. */
  function Transceive<S>(card: Card<S>, w: World<S>, number: bit, fsc: nat, tx: Bytes, cap: nat): Outcome<S> {
    if |tx| == 0 || cap == 0 then Outcome(w, number, Err(InvalidInput))
    else Transmit(card, w, number, tx, InfCapacity(fsc), cap)
  }

  // ---- The answer to select ----------------------------------------------------------------

  /** Card frame sizes of ISO/IEC 14443-4 table 3; reserved codes read as the largest APDU. */
  function FscFromFsci(fsci: nat): nat
    requires fsci < 16
  {
    var sizes := [16, 24, 32, 40, 48, 64, 96, 128, 256, 512, 1024, 2048, 4096];
    if fsci < |sizes| then sizes[fsci] else 256
  }

  /** How many of the bytes of an ATS are to be read: TL counts itself, and may promise too much. */
  function AtsBody(ats: Bytes): nat {
    if |ats| == 0 then 0 else Min(ats[0], |ats|)
  }

  /** What the card said its frame size was, or the default when it said nothing. */
  function AnnouncedFsc(ats: Bytes): nat {
    if AtsBody(ats) >= 2 then FscFromFsci(ats[1] % 16) else FSC_DEFAULT
  }

  // ---- In numbers --------------------------------------------------------------------------

  /** The frame size that a code stands for, by formula: table 3 of ISO/IEC 14443-4, and 256 for what it reserves. */
  function StandardSize(code: nat): nat {
    if code <= 4 then 8 * (code + 2)
    else if code <= 7 then 32 * (code - 3)
    else if code <= 12 then Pow2(code)
    else 256
  }

  /** What a card says it takes: the code is in the low four bits of T0, and 32 stands in for a T0 that is not there. */
  function CardFrame(ats: Bytes): nat {
    if |ats| >= 2 && ats[0] >= 2 then StandardSize(ats[1] % 16) else 32
  }

  lemma LargePowers()
    ensures Pow2(8) == 256 && Pow2(9) == 512 && Pow2(10) == 1024 && Pow2(11) == 2048 && Pow2(12) == 4096
  {
    assert Pow2(4) == 16;
  }

  lemma AnnouncedIsStandard(ats: Bytes)
    ensures AnnouncedFsc(ats) == CardFrame(ats) >= 16
  {
    hide Pow2;
    LargePowers();
  }

  /** A block carries all that the frame size leaves beside its control byte, the checksum and a CID. */
  lemma CapacityInNumbers(fsc: nat)
    requires 16 <= fsc <= 256
    ensures InfCapacity(fsc) == fsc - 4
  {
  }

  lemma AckBytes(pcb: byte)
    ensures IsRBlock(pcb) && !IsRNak(pcb) <==> pcb in {0xA2, 0xA3, 0xAA, 0xAB}
  {
  }

  lemma AckNumber(pcb: byte)
    ensures BlockNumber(pcb) == pcb % 2
  {
  }

  /**
   * R(ACK) with the block's own number acknowledges it, with the other it was never had; a CID may follow,
   * and nothing else will do.
   */
  lemma AcknowledgedBy(a: Answer, n: bit)
    ensures Acknowledges(a, n) <==> a.Frame? && a.bytes != [] && a.bytes[0] in {0xA2 + n, 0xAA + n}
    ensures NeverHad(a, n) <==> a.Frame? && a.bytes != [] && a.bytes[0] in {0xA3 - n, 0xAB - n}
  {
    hide IsRBlock, IsRNak, BlockNumber;
    if a.Frame? && a.bytes != [] {
      AckBytes(a.bytes[0]);
      AckNumber(a.bytes[0]);
    }
  }

  /** Time is asked for by F2, alone or with a multiplier behind it. */
  lemma TimeAskedFor(m: byte)
    ensures AsksForTime(Frame([0xF2])) && AsksForTime(Frame([0xF2, m]))
    ensures !AsksForTime(Frame([])) && !AsksForTime(Frame([0xC2]))
  {
  }

  /** A request that names no multiplier, or zero beside the card's power level, is granted once. */
  lemma TimeGrantedOnce(request: Bytes)
    requires |request| >= 1 && (|request| >= 2 ==> request[1] in {0x00, 0x40, 0x80, 0xC0})
    ensures Wtxm(request) == 1
  {
  }
}
