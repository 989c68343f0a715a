/** The times an ATS asks the reader to wait, and the 32 bit arithmetic they are worked out with. */
module IsoDepTiming {
  import opened Bytes
  import opened Errors
  import opened IsoDepProtocol

  const FWI_DEFAULT := 4
  const FWI_MAX := 14
  const FWT_MIN := 4_000_000
  const FWT_MAX := 4096 * 16384

  const SFGI_MAX := 14
  const SFGT_UNIT_NS := 302065
  const SFGT_MARGIN_MS := 2
  const WORD := 0x1_0000_0000

  /** TB(1), which holds both indices, when the interface bytes have one. */
  function TimingByte(ats: Bytes): Option<byte> {
    var body := AtsBody(ats);
    if body < 2 then None
    else
      var index := if ats[1] / 16 % 2 == 1 && 2 < body then 3 else 2;
      if ats[1] / 32 % 2 == 1 && index < body then Some(ats[index]) else None
  }

  function FrameIndex(tb: Option<byte>): nat {
    if tb.Some? then tb.value / 16 else FWI_DEFAULT
  }

  function GuardIndex(tb: Option<byte>): nat {
    if tb.Some? then tb.value % 16 else 0
  }

  /** How many carrier cycles the reader waits for a frame: what the index asks for, within its own limits. */
  function WaitingTime(fwi: nat): nat {
    Min(Max(4096 * Pow2(Min(fwi, FWI_MAX)), FWT_MIN), FWT_MAX)
  }

  function Ceiling(a: nat, n: nat): nat
    requires n > 0
  {
    (a + n - 1) / n
  }

  /** The guard time in whole milliseconds, rounded up, and a margin. */
  function GuardTime(sfgi: nat): nat {
    if sfgi == 0 then 0 else Ceiling(SFGT_UNIT_NS * Pow2(Min(sfgi, SFGI_MAX)), 1_000_000) + SFGT_MARGIN_MS
  }

  lemma PowersOfTwo()
    ensures Pow2(0) == 1 && Pow2(1) == 2 && Pow2(2) == 4 && Pow2(3) == 8 && Pow2(4) == 16 && Pow2(5) == 32
    ensures Pow2(6) == 64 && Pow2(7) == 128 && Pow2(8) == 256 && Pow2(9) == 512 && Pow2(10) == 1024
    ensures Pow2(11) == 2048 && Pow2(12) == 4096 && Pow2(13) == 8192 && Pow2(14) == 16384
  {
  }

  /** A frame waiting time index, shifted as the code shifts it, within a 64 bit word. */
  method ComputeWaitingTime(index: nat) returns (fwt: nat)
    ensures fwt == WaitingTime(index)
  {
    var fwi := if index > FWI_MAX then FWI_MAX else index;
    fwt := 4096;
    var i := 0;
    while i < fwi
      invariant 0 <= i <= fwi && fwt == 4096 * Pow2(i)
    {
      fwt := 2 * fwt;
      i := i + 1;
    }
    if fwt < FWT_MIN {
      fwt := FWT_MIN;
    }
    if fwt > FWT_MAX {
      fwt := FWT_MAX;
    }
  }

  /** The guard time in 32 bit words: half the figure by half the divisor, so that nothing wraps. */
  method ComputeGuardTime(index: nat) returns (ms: nat)
    ensures ms == GuardTime(index)
  {
    hide Pow2, Ceiling;
    if index == 0 {
      return 0;
    }
    var sfgi := if index > SFGI_MAX then SFGI_MAX else index;
    HalvedIsExact(sfgi);
    FitsWord(SFGT_UNIT_NS * Pow2(sfgi - 1));
    FitsWord(SFGT_UNIT_NS * Pow2(sfgi - 1) + 499_999);
    var halfNs := SFGT_UNIT_NS * Pow2(sfgi - 1) % WORD;
    ms := (halfNs + 499_999) % WORD / 500_000 + SFGT_MARGIN_MS;
  }

  lemma FitsWord(x: nat)
    ensures x < WORD ==> x % WORD == x
  {
  }

  /** The halved figure never wraps and rounds to the same millisecond. */
  lemma HalvedIsExact(sfgi: nat)
    requires 1 <= sfgi <= SFGI_MAX
    ensures SFGT_UNIT_NS * Pow2(sfgi - 1) + 499_999 < WORD
    ensures (SFGT_UNIT_NS * Pow2(sfgi - 1) + 499_999) / 500_000 == Ceiling(SFGT_UNIT_NS * Pow2(sfgi), 1_000_000)
  {
    var half := SFGT_UNIT_NS * Pow2(sfgi - 1);
    assert SFGT_UNIT_NS * Pow2(sfgi) == 2 * half;
    PowerGrows(sfgi - 1, 13);
    PowersOfTwo();
    hide Pow2;
    assert (2 * half + 999_999) / 1_000_000 == (half + 499_999) / 500_000;
  }

  lemma {:induction false} PowerGrows(m: nat, n: nat)
    requires m <= n
    ensures Pow2(m) <= Pow2(n)
    decreases n
  {
    if m < n {
      PowerGrows(m, n - 1);
    }
  }

  /** The whole figure does wrap at the largest index, and the wait would then be a seventh of what it must be. */
  lemma WholeFigureWraps()
    ensures SFGT_UNIT_NS * Pow2(SFGI_MAX) >= WORD
    ensures (SFGT_UNIT_NS * Pow2(SFGI_MAX) % WORD + 999_999) % WORD / 1_000_000 == 655 && GuardTime(SFGI_MAX) == 4952
  {
    PowersOfTwo();
  }

  /**
   * The wait is never shorter than the card asked for, 4096 cycles of 13.56 MHz doubled for each step, nor four
   * milliseconds longer.
   */
  lemma GuardCoversRequest(sfgi: nat)
    requires 1 <= sfgi <= 14
    ensures 4096 * Pow2(sfgi) <= GuardTime(sfgi) * 13560 <= 4096 * Pow2(sfgi) + 4 * 13560
  {
    PowersOfTwo();
    PowerGrows(sfgi, 14);
    hide Pow2;
    var ns := SFGT_UNIT_NS * Pow2(sfgi);
    assert ns <= Ceiling(ns, 1_000_000) * 1_000_000 <= ns + 999_999;
  }

  /** Outside the indices that are in use: no guard time at all, or that of the largest. */
  lemma GuardInNumbers(sfgi: nat)
    ensures GuardTime(0) == 0 && (sfgi > 14 ==> GuardTime(sfgi) == 4952)
  {
    WholeFigureWraps();
  }

  /** What the reader waits for a frame, in carrier cycles: never less than 4 million, and 2^26 at most. */
  lemma WaitingInNumbers(fwi: nat)
    ensures fwi <= 9 ==> WaitingTime(fwi) == 4_000_000
    ensures 10 <= fwi <= 14 ==> WaitingTime(fwi) == 4096 * Pow2(fwi)
    ensures fwi >= 14 ==> WaitingTime(fwi) == 67_108_864
  {
    PowersOfTwo();
    hide Pow2;
  }

  /** TB(1) holds the frame index above and the guard index below; without it they are 4 and 0. */
  lemma IndicesRead(frame: nat, guard: nat)
    requires frame < 16 && guard < 16
    ensures FrameIndex(Some(16 * frame + guard)) == frame && GuardIndex(Some(16 * frame + guard)) == guard
    ensures FrameIndex(None) == 4 && GuardIndex(None) == 0
  {
  }

  function Flag(o: Option<byte>, value: nat): nat {
    if o.Some? then value else 0
  }

  function Given(o: Option<byte>): Bytes {
    if o.Some? then [o.value] else []
  }

  /** An ATS as section 5.2 of ISO/IEC 14443-4 lays it out: TL, T0, up to three interface bytes, historical bytes. */
  function BuildAts(code: nat, ta: Option<byte>, tb: Option<byte>, tc: Option<byte>, historical: Bytes): Bytes
    requires code < 16 && |historical| <= 250
  {
    var interface := Given(ta) + Given(tb) + Given(tc);
    [2 + |interface| + |historical|, code + Flag(ta, 16) + Flag(tb, 32) + Flag(tc, 64)] + interface + historical
  }

  /** Frame size and TB(1) are read back from it, whatever else it says. */
  lemma AtsReadBack(code: nat, ta: Option<byte>, tb: Option<byte>, tc: Option<byte>, historical: Bytes)
    requires code < 16 && |historical| <= 250
    ensures
      var ats := BuildAts(code, ta, tb, tc, historical);
      CardFrame(ats) == StandardSize(code) && TimingByte(ats) == tb
  {
    hide StandardSize;
    var ats := BuildAts(code, ta, tb, tc, historical);
    FlagsApart(code, Flag(ta, 16), Flag(tb, 32), Flag(tc, 64));
    assert ats[1] == code + Flag(ta, 16) + Flag(tb, 32) + Flag(tc, 64);
  }

  lemma FlagsApart(code: nat, a: nat, b: nat, c: nat)
    requires code < 16 && (a == 0 || a == 16) && (b == 0 || b == 32) && (c == 0 || c == 64)
    ensures
      var t0 := code + a + b + c;
      t0 % 16 == code && t0 / 16 % 2 == a / 16 && t0 / 32 % 2 == b / 32
  {
  }
}
