/** Command and response APDUs of ISO/IEC 7816-4, and the commands the reader builds. */
module Apdu {
  import opened Bytes
  import opened Errors

  const LE_NONE := -1
  const LE_MAX := 256
  const APDU_MAX_SIZE := 256

  /** What a command asks for, before it is serialised; `le` is LE_NONE or the number of bytes. */
  datatype Command = Command(cla: byte, ins: byte, p1: byte, p2: byte, data: Bytes, le: int)

  predicate LeValid(le: int) {
    le == LE_NONE || 1 <= le <= 65536
  }

  predicate Extended(c: Command) {
    |c.data| > 0xFF || c.le > LE_MAX
  }

  /** Exactly how many bytes the command serialises to. */
  function Needed(c: Command): nat {
    var hasLe := c.le != LE_NONE;
    4 + if Extended(c) then
          if |c.data| > 0 then 3 + |c.data| + (if hasLe then 2 else 0) else if hasLe then 3 else 0
        else (if |c.data| > 0 then 1 + |c.data| else 0) + (if hasLe then 1 else 0)
  }

  function Be16(n: nat): (b: Bytes)
    requires n <= 0xFFFF
    ensures |b| == 2 && b[0] as int * 256 + b[1] as int == n
  {
    [n / 256, n % 256]
  }

  function Header(c: Command): (h: Bytes)
    ensures |h| == 4
  {
    [c.cla, c.ins, c.p1, c.p2]
  }

  /** The Lc field and data, then the Le field, of a short command. */
  function ShortBody(c: Command): Bytes
    requires LeValid(c.le) && !Extended(c)
  {
    (if |c.data| > 0 then [|c.data|] + c.data else [])
    + if c.le != LE_NONE then [if c.le == LE_MAX then 0 else c.le] else []
  }

  /** The same of an extended one, behind the marker; 65536 bytes are asked for with two zeros. */
  function ExtendedBody(c: Command): Bytes
    requires LeValid(c.le) && |c.data| <= 0xFFFF
  {
    [0x00] + (if |c.data| > 0 then Be16(|c.data|) + c.data else [])
    + if c.le != LE_NONE then Be16(if c.le >= 65536 then 0 else c.le) else []
  }

  function Encode(c: Command, outSize: nat): Result<Bytes> {
    if !LeValid(c.le) || |c.data| > 0xFFFF then Err(InvalidInput)
    else if Needed(c) > outSize then Err(BufferTooSmall)
    else Ok(Header(c) + if Extended(c) then ExtendedBody(c) else ShortBody(c))
  }

  method WriteShortBody(c: Command, out: array<byte>) returns (pos: nat)
    requires LeValid(c.le) && !Extended(c) && Needed(c) <= out.Length
    modifies out
    ensures pos == Needed(c) && out[..pos] == old(out[..4]) + ShortBody(c)
    ensures forall i :: pos <= i < out.Length ==> out[i] == old(out[i])
  {
    pos := 4;
    if |c.data| > 0 {
      CopyInto(out, pos, [|c.data|]);
      CopyInto(out, pos + 1, c.data);
      pos := pos + 1 + |c.data|;
    }
    if c.le != LE_NONE {
      CopyInto(out, pos, [if c.le == LE_MAX then 0x00 else c.le]);
      pos := pos + 1;
    }
  }

  method WriteExtendedBody(c: Command, out: array<byte>) returns (pos: nat)
    requires LeValid(c.le) && |c.data| <= 0xFFFF && Extended(c) && Needed(c) <= out.Length
    modifies out
    ensures pos == Needed(c) && out[..pos] == old(out[..4]) + ExtendedBody(c)
    ensures forall i :: pos <= i < out.Length ==> out[i] == old(out[i])
  {
    hide Be16, ExtendedBody, Needed;
    ExtendedParts(c);
    pos := WriteExtendedData(c, out);
    if c.le != LE_NONE {
      CopyInto(out, pos, Be16(if c.le >= 65536 then 0 else c.le));
      pos := pos + 2;
    }
  }

  /** The extended marker, and the data behind its length. */
  method WriteExtendedData(c: Command, out: array<byte>) returns (pos: nat)
    requires |c.data| <= 0xFFFF && 4 + 1 + (if |c.data| > 0 then 2 + |c.data| else 0) <= out.Length
    modifies out
    ensures pos == 4 + 1 + (if |c.data| > 0 then 2 + |c.data| else 0)
    ensures out[..pos] == old(out[..4]) + ([0x00] + if |c.data| > 0 then Be16(|c.data|) + c.data else [])
    ensures forall i :: pos <= i < out.Length ==> out[i] == old(out[i])
  {
    hide Be16;
    CopyInto(out, 4, [0x00]);
    pos := 5;
    if |c.data| > 0 {
      CopyInto(out, pos, Be16(|c.data|));
      CopyInto(out, pos + 2, c.data);
      pos := pos + 2 + |c.data|;
    }
  }

  lemma ExtendedParts(c: Command)
    requires LeValid(c.le) && |c.data| <= 0xFFFF && Extended(c)
    ensures
      var data := if |c.data| > 0 then Be16(|c.data|) + c.data else [];
      var le := if c.le != LE_NONE then Be16(if c.le >= 65536 then 0 else c.le) else [];
      ExtendedBody(c) == [0x00] + data + le && Needed(c) == 4 + 1 + |data| + |le|
  {
  }

  /** The encoder as the program has it, writing through a moving position. */
  method EncodeInto(c: Command, out: array<byte>, outSize: nat) returns (r: Result<nat>)
    requires outSize <= out.Length
    modifies out
    ensures r.Ok? <==> Encode(c, outSize).Ok?
    ensures r.Ok? ==> r.value == Needed(c) <= outSize && out[..r.value] == Encode(c, outSize).value
    ensures r.Ok? ==> forall i :: r.value <= i < out.Length ==> out[i] == old(out[i])
    ensures r.Err? ==> r.error == Encode(c, outSize).error && out[..] == old(out[..])
  {
    hide ShortBody, ExtendedBody;
    if !LeValid(c.le) || |c.data| > 0xFFFF {
      return Err(InvalidInput);
    }
    if Needed(c) > outSize {
      return Err(BufferTooSmall);
    }
    CopyInto(out, 0, Header(c));
    assert out[..4] == Header(c);
    var pos;
    if Extended(c) {
      pos := WriteExtendedBody(c, out);
    } else {
      pos := WriteShortBody(c, out);
    }
    return Ok(pos);
  }

  // ---- Reading a command back --------------------------------------------------------------

  function ShortLe(b: byte): int {
    if b == 0 then 256 else b
  }

  function LongLe(hi: byte, lo: byte): int {
    if hi == 0 && lo == 0 then 65536 else hi as int * 256 + lo as int
  }

  /** Section 5.1 of ISO/IEC 7816-4: the seven cases of the command body, by its length and first byte. */
  function Read7816(apdu: Bytes): Option<Command> {
    if |apdu| < 4 then None
    else
      var bare := Command(apdu[0], apdu[1], apdu[2], apdu[3], [], LE_NONE);
      var body := apdu[4..];
      if |body| == 0 then Some(bare)
      else if |body| == 1 then Some(bare.(le := ShortLe(body[0])))
      else if body[0] != 0 then
        var lc := body[0] as int;
        if |body| == 1 + lc then Some(bare.(data := body[1..]))
        else if |body| == 2 + lc then Some(bare.(data := body[1..1 + lc], le := ShortLe(body[1 + lc])))
        else None
      else ReadExtended(bare, body)
  }

  /** The extended length fields, behind their marker. */
  function ReadExtended(bare: Command, body: Bytes): Option<Command> {
    if |body| < 3 then None
    else if |body| == 3 then Some(bare.(le := LongLe(body[1], body[2])))
    else
      var lc := body[1] as int * 256 + body[2] as int;
      if lc == 0 then None
      else if |body| == 3 + lc then Some(bare.(data := body[3..]))
      else if |body| == 5 + lc then
        Some(bare.(data := body[3..3 + lc], le := LongLe(body[3 + lc], body[4 + lc])))
      else None
  }

  lemma HeaderRead(c: Command, out: Bytes)
    requires |out| >= 4 && out[..4] == Header(c)
    ensures out[0] == c.cla && out[1] == c.ins && out[2] == c.p1 && out[3] == c.p2
  {
    assert forall i :: 0 <= i < 4 ==> out[i] == out[..4][i];
  }

  lemma ShortRoundTrip(c: Command, outSize: nat)
    requires LeValid(c.le) && !Extended(c) && Needed(c) <= outSize
    ensures
      var out := Encode(c, outSize).value;
      |out| == Needed(c) && Read7816(out) == Some(c)
  {
    var out := Encode(c, outSize).value;
    var body := out[4..];
    assert body == ShortBody(c) && out[..4] == Header(c);
    HeaderRead(c, out);
    if |c.data| > 0 {
      assert body[1..1 + |c.data|] == c.data;
      assert c.le == LE_NONE ==> body[1..] == c.data;
    }
  }

  /** What is refused and why: an Le that is not -1 or 1 to 65536 or too much data, and else want of room. */
  lemma RefusedBy(c: Command, outSize: nat)
    ensures Encode(c, outSize) == Err(InvalidInput) <==> !(c.le == -1 || 1 <= c.le <= 65536) || |c.data| > 65535
    ensures Encode(c, outSize).Err? ==> Encode(c, outSize).error in {InvalidInput, BufferTooSmall}
  {
  }

  /** An answer is its data and, in its last two bytes, its status word; shorter ones are no answer. */
  lemma AnswerSplit(data: Bytes, sw1: byte, sw2: byte, stub: Bytes)
    requires |stub| < 2
    ensures Decode(data + [sw1, sw2]) == Ok(Response(data, sw1 as int * 256 + sw2 as int)) && Decode(stub) == Err(Protocol)
  {
    var raw := data + [sw1, sw2];
    assert raw[..|raw| - 2] == data;
  }

  lemma LongLeRead(le: int)
    requires 1 <= le <= 65536
    ensures var b := Be16(if le >= 65536 then 0 else le); LongLe(b[0], b[1]) == le
  {
  }

  lemma ExtendedBodyRead(c: Command, bare: Command)
    requires LeValid(c.le) && |c.data| <= 0xFFFF && Extended(c)
    requires bare == c.(data := [], le := LE_NONE)
    ensures ReadExtended(bare, ExtendedBody(c)) == Some(c)
  {
    hide Be16, LongLe;
    var body := ExtendedBody(c);
    var le := if c.le == LE_NONE then [] else Be16(if c.le >= 65536 then 0 else c.le);
    if c.le != LE_NONE {
      LongLeRead(c.le);
    }
    if |c.data| > 0 {
      var lc := Be16(|c.data|);
      assert body == [0x00] + lc + c.data + le;
      assert body[1] == lc[0] && body[2] == lc[1];
      assert body[3..3 + |c.data|] == c.data && body[3 + |c.data|..] == le;
      assert c.le == LE_NONE ==> body[3..] == c.data;
      assert c.le != LE_NONE ==> body[3 + |c.data|] == le[0] && body[4 + |c.data|] == le[1];
    } else {
      assert body == [0x00] + le;
      assert body[1] == le[0] && body[2] == le[1];
    }
  }

  lemma ExtendedRoundTrip(c: Command, outSize: nat)
    requires LeValid(c.le) && |c.data| <= 0xFFFF && Extended(c) && Needed(c) <= outSize
    ensures
      var out := Encode(c, outSize).value;
      |out| == Needed(c) && Read7816(out) == Some(c)
  {
    hide Be16, ReadExtended;
    var out := Encode(c, outSize).value;
    assert out[4..] == ExtendedBody(c) && out[..4] == Header(c);
    HeaderRead(c, out);
    ExtendedBodyRead(c, c.(data := [], le := LE_NONE));
  }

  /** Every command the encoder accepts takes exactly `Needed` bytes and is read back unchanged. */
  lemma EncodeRoundTrip(c: Command, outSize: nat)
    ensures Encode(c, outSize).Ok? <==> LeValid(c.le) && |c.data| <= 0xFFFF && Needed(c) <= outSize
    ensures Encode(c, outSize).Ok? ==>
      var out := Encode(c, outSize).value;
      |out| == Needed(c) && Read7816(out) == Some(c)
  {
    if Encode(c, outSize).Ok? {
      if Extended(c) {
        ExtendedRoundTrip(c, outSize);
      } else {
        ShortRoundTrip(c, outSize);
      }
    }
  }

  // ---- Responses and the builders ----------------------------------------------------------

  datatype Response = Response(data: Bytes, sw: nat)

  function StatusWord(sw1: byte, sw2: byte): nat {
    sw1 as int * 256 + sw2 as int
  }

  function Decode(raw: Bytes): Result<Response> {
    if |raw| < 2 then Err(Protocol)
    else Ok(Response(raw[..|raw| - 2], StatusWord(raw[|raw| - 2], raw[|raw| - 1])))
  }

  /** A wanted byte count as an Le: zero and anything beyond the maximum ask for the maximum. */
  function ClampLe(length: nat): (le: int)
    ensures 1 <= le <= LE_MAX
  {
    if length == 0 || length > LE_MAX then LE_MAX else length
  }

  /** READ BINARY with the offset in P1-P2; bit 8 of P1 marks another form, so it keeps 15 bits. */
  function ReadBinary(offset: nat, length: nat): Command {
    Command(0x00, 0xB0, offset / 256 % 0x80, offset % 256, [], ClampLe(length))
  }

  /** READ BINARY with the odd instruction: the offset travels in a data object '54'. */
  function ReadBinaryOdd(offset: nat, length: nat): Command
    requires offset <= 0xFFFF
  {
    Command(0x00, 0xB1, 0x00, 0x00, [0x54, 0x02] + Be16(offset), length)
  }
}
