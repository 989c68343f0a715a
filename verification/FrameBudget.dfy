/** How many bytes one READ BINARY may ask for, so that its answer still fits one frame. */
module FrameBudget {
  import opened Bytes
  import opened Tlv
  import opened Cipher
  import opened Mac
  import opened Apdu
  import opened SecureMessaging
  import Chip = SimChip

  const FRAME_OVERHEAD := 4
  const FRAME_DEFAULT := 32
  const PLAIN_OVERHEAD := 2
  const SM_OVERHEAD := 2 + (2 + MAC_SIZE) + 4 + 4
  /** The information field of the largest frame the pollers hold. */
  const MAX_INF := 253
  /** What a frame carries beside the answer: one PCB byte and the two of the CRC. */
  const PCB_AND_CRC := 3

  function FrameSize(announced: nat): nat {
    if announced != 0 then announced else FRAME_DEFAULT
  }

  function FramePayload(announced: nat): nat {
    if FrameSize(announced) <= FRAME_OVERHEAD then 0 else FrameSize(announced) - FRAME_OVERHEAD
  }

  /** The answer the reader's frame size leaves room for; `block` is zero without a session. */
  function MaxLe(fsd: nat, block: nat): nat {
    var budget := FramePayload(fsd);
    if block == 0 then
      if budget <= PLAIN_OVERHEAD then 0 else Min(budget - PLAIN_OVERHEAD, LE_MAX)
    else if budget <= SM_OVERHEAD then 0
    else if budget - SM_OVERHEAD <= block then 0
    else Min((budget - SM_OVERHEAD - block) / block * block, LE_MAX)
  }

  /** The answer the pollers' buffers leave room for, whatever the frame size says. */
  function FrameLimit(block: nat): nat {
    if block == 0 then MAX_INF - 2
    else
      var envelope := 4 + 4 + 10 + 2;
      if MAX_INF <= envelope + block then 0
      else
        var cipher := MAX_INF - envelope;
        cipher - cipher % block - 1
  }

  function ChunkSize(fsd: nat, block: nat): nat {
    var le, limit := MaxLe(fsd, block), FrameLimit(block);
    var trimmed := if limit > 0 && (le == 0 || le > limit) then limit else le;
    if trimmed == 0 then 16 else trimmed
  }

  predicate IsBlock(block: nat) {
    block == 0 || block == 8 || block == 16
  }

  /** The answer on the wire that carries `n` bytes: a status word, and an envelope under a session. */
  function AnswerLen(block: nat, n: nat): nat
    requires IsBlock(block)
  {
    if block == 0 then n + 2
    else if n == 0 then 4 + 10 + 2
    else
      var value := 1 + PaddedLen(n, block);
      1 + EncodedLengthSize(value) + value + 4 + 10 + 2
  }

  lemma PaddedLenGrows(n: nat, m: nat, block: nat)
    requires n <= m && (block == 8 || block == 16)
    ensures PaddedLen(n, block) <= PaddedLen(m, block)
  {
  }

  lemma AnswerLenGrows(block: nat, n: nat, m: nat)
    requires IsBlock(block) && n <= m <= 252
    ensures AnswerLen(block, n) <= AnswerLen(block, m)
  {
    if block != 0 {
      PaddedLenGrows(n, m, block);
    }
  }

  /**
   * Every answer to a read of this size fits the buffers behind any frame size, and it fits the frame
   * size itself exactly when that leaves room for anything at all.
   */
  lemma ChunkFits(fsd: nat, block: nat)
    requires IsBlock(block)
    ensures 1 <= ChunkSize(fsd, block) <= 251
    ensures forall n :: 0 <= n <= ChunkSize(fsd, block) ==> AnswerLen(block, n) <= 253
    ensures (forall n :: 0 <= n <= ChunkSize(fsd, block) ==> AnswerLen(block, n) + 3 <= if fsd == 0 then 32 else fsd)
            <==> MaxLe(fsd, block) > 0
  {
    var chunk := ChunkSize(fsd, block);
    ChunkIs(fsd, block);
    assert AnswerLen(block, chunk) <= MAX_INF
           && (AnswerLen(block, chunk) + PCB_AND_CRC <= FrameSize(fsd) <==> MaxLe(fsd, block) > 0) by {
      if block == 0 {
      } else if block == 8 {
        LargestAnswer8(fsd);
      } else {
        LargestAnswer16(fsd);
      }
    }
    hide ChunkSize, MaxLe, AnswerLen;
    forall n | 0 <= n <= chunk ensures AnswerLen(block, n) <= AnswerLen(block, chunk) {
      AnswerLenGrows(block, n, chunk);
    }
  }

  lemma ChunkIs(fsd: nat, block: nat)
    requires IsBlock(block)
    ensures
      var le := MaxLe(fsd, block);
      var limit := if block == 0 then 251 else if block == 8 then 231 else 223;
      ChunkSize(fsd, block) == if le == 0 then limit else Min(le, limit)
  {
  }

  lemma LargestAnswer8(fsd: nat)
    ensures
      var answer := AnswerLen(8, ChunkSize(fsd, 8));
      answer <= MAX_INF && (answer + PCB_AND_CRC <= FrameSize(fsd) <==> MaxLe(fsd, 8) > 0)
  {
    ChunkIs(fsd, 8);
  }

  lemma LargestAnswer16(fsd: nat)
    ensures
      var answer := AnswerLen(16, ChunkSize(fsd, 16));
      answer <= MAX_INF && (answer + PCB_AND_CRC <= FrameSize(fsd) <==> MaxLe(fsd, 16) > 0)
  {
    ChunkIs(fsd, 16);
  }

  /** The sizes with the reader's own frame size of 256. */
  lemma ChunkOf256()
    ensures ChunkSize(256, 0) == 250 && ChunkSize(256, 8) == 224 && ChunkSize(256, 16) == 208
  {
  }

  /**
   * And with every other, 0 standing for 32: what a frame leaves, in whole blocks under a session, up to what
   * the pollers hold; and all they hold when the frame leaves nothing.
   */
  lemma ChunkInNumbers(fsd: nat)
    ensures
      var f := if fsd == 0 then 32 else fsd;
      && ChunkSize(fsd, 0) == (if f <= 6 then 251 else Min(f - 6, 251))
      && ChunkSize(fsd, 8) == (if f < 40 then 231 else Min((f - 32) / 8 * 8, 231))
      && ChunkSize(fsd, 16) == (if f < 56 then 223 else Min((f - 40) / 16 * 16, 223))
      && (MaxLe(fsd, 0) > 0 <==> f > 6) && (MaxLe(fsd, 8) > 0 <==> f >= 40) && (MaxLe(fsd, 16) > 0 <==> f >= 56)
  {
    ChunkIs(fsd, 0);
    ChunkIs(fsd, 8);
    ChunkIs(fsd, 16);
    hide ChunkSize;
  }

  /** What the chip really sends for an answer within the budget: wrapped, whole, and that long. */
  lemma WrappedAnswerLen(p: Primitives, s: Session, answer: Response)
    requires Lawful(p) && Keyed(s) && answer.sw <= 0xFFFF
    requires |answer.data| <= 251 && AnswerLen(BlockSize(s.suite), |answer.data|) <= MAX_INF
    ensures
      var (body, sw) := Chip.Wrap(p, s, answer);
      sw == Chip.SW_OK && |body| + 2 == AnswerLen(BlockSize(s.suite), |answer.data|)
  {
    hide Chip.SimEncrypt, Chip.SimMac, Pad, PaddedLen;
  }

  /** The answer to a read of a file fits its frame under every session, and without one. */
  lemma ReadAnswerFits(p: Primitives, s: Session, fsd: nat, answer: Response)
    requires Lawful(p) && Keyed(s) && answer.sw <= 0xFFFF
    requires |answer.data| <= ChunkSize(fsd, BlockSize(s.suite))
    ensures
      var (body, sw) := Chip.Wrap(p, s, answer);
      && sw == 0x9000 && |body| + 2 <= 253
      && (MaxLe(fsd, BlockSize(s.suite)) > 0 ==> |body| + 2 + 3 <= if fsd == 0 then 32 else fsd)
  {
    hide Chip.Wrap, ChunkSize, MaxLe, AnswerLen;
    ChunkFits(fsd, BlockSize(s.suite));
    WrappedAnswerLen(p, s, answer);
  }
}
