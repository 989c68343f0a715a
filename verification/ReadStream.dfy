/**
 * READ BINARY after READ BINARY: what the stream of one file asks of a chip, what it gets, and what it
 * ends with - for any chip, for one that serves a file, and for the simplest of those.
 */
module ReadStream {
  import opened Bytes
  import opened Errors
  import opened Tlv
  import opened Apdu

  // ---- The chip ----------------------------------------------------------------------------

  /** A command as it was meant, and what came back for it through whatever lies below. */
  datatype Exchange = Exchange(command: Command, answer: Result<Response>)

  /** Any chip at all: its answer may depend on everything that went before. */
  type Chip = (seq<Exchange>, Command) -> Result<Response>

  const SHORT_OFFSET_MAX := 0x7FFF
  const LONG_OFFSET_MAX := 0xFFFF
  const FILE_SIZE_MAX := 65536
  const DO_DISCRETIONARY: byte := 0x53

  predicate SwHasData(sw: nat) {
    sw == 0x9000 || sw / 256 == 0x62 || sw / 256 == 0x63
  }

  /** The offset a READ BINARY names, by section 7.2.3 of ISO/IEC 7816-4. */
  function ReadOffset(c: Command): Option<nat> {
    if c.ins == 0xB0 && c.p1 < 0x80 then Some(c.p1 as int * 256 + c.p2 as int)
    else if c.ins == 0xB1 && c.p1 == 0 && c.p2 == 0 && |c.data| == 4 && c.data[..2] == [0x54, 0x02] then
      Some(c.data[2] as int * 256 + c.data[3] as int)
    else None
  }

  /** The bytes of the file an answer carries: under the odd instruction, inside a data object '53'. */
  function Carried(c: Command, data: Bytes): Option<Bytes> {
    if c.ins != 0xB1 || data == [] then Some(data)
    else
      match ReadNode(data, |data|, 0)
      case None => None
      case Some(n) => if n.tag == DO_DISCRETIONARY as int then Some(data[n.valueStart..n.End()]) else None
  }

  /** `part` is what `file` holds from `at` on, as much of it as there is. */
  predicate IsPartAt(file: Bytes, at: nat, part: Bytes) {
    part == [] || (at + |part| <= |file| && file[at..at + |part|] == part)
  }

  /** Data comes from the file, at the offset asked for, in pieces as short as the chip likes. */
  predicate Serves(file: Bytes, e: Exchange) {
    e.answer.Ok? && SwHasData(e.answer.value.sw) && ReadOffset(e.command).Some? ==>
      match Carried(e.command, e.answer.value.data)
      case None => true
      case Some(part) => IsPartAt(file, ReadOffset(e.command).value, part)
  }

  /** 6282, 6B00 and an empty answer are given only at the end of the file. */
  predicate EndsHonestly(file: Bytes, e: Exchange) {
    e.answer.Ok? && ReadOffset(e.command).Some? ==>
      var at, sw := ReadOffset(e.command).value, e.answer.value.sw;
      && (sw == 0x6B00 ==> at >= |file|)
      && (SwHasData(sw) && Carried(e.command, e.answer.value.data).Some? ==>
            var part := Carried(e.command, e.answer.value.data).value;
            && (part == [] ==> at >= |file|)
            && (sw == 0x6282 ==> at + |part| >= |file|))
  }

  ghost predicate AllServe(file: Bytes, log: seq<Exchange>, from: nat) {
    forall i :: from <= i < |log| ==> Serves(file, log[i])
  }

  ghost predicate AllEndHonestly(file: Bytes, log: seq<Exchange>, from: nat) {
    forall i :: from <= i < |log| ==> EndsHonestly(file, log[i])
  }

  function Carrier(c: Command, part: Bytes): Bytes {
    if c.ins == 0xB1 then Object(DO_DISCRETIONARY, part) else part
  }

  lemma CarriedBack(c: Command, part: Bytes)
    requires |part| <= 65536
    ensures Carried(c, Carrier(c, part)) == Some(part)
  {
    hide ReadNode;
    ObjectRoundTrip([], DO_DISCRETIONARY, part, []);
    var data := Object(DO_DISCRETIONARY, part);
    assert [] + data + [] == data;
  }

  /** Under the odd instruction the bytes are those behind '53' and their length, and nothing else will do. */
  lemma LongAnswerInBytes(c: Command, part: Bytes, data: Bytes)
    requires c.ins == 0xB1 && |part| <= 65536 && data != []
    ensures Carried(c, [0x53] + EncodeLength(|part|) + part) == Some(part)
    ensures data[0] != 0x53 ==> Carried(c, data) == None
  {
    hide EncodeLength, ReadLength;
    CarriedBack(c, part);
  }

  /** How much of what is left of the file one answer holds: what was asked for, and `pace` and one at most. */
  function PieceLen(left: nat, le: int, pace: nat): nat {
    Min(1 + pace, Min(left, if 1 <= le <= 65536 then le else 1))
  }

  /** The answer to a read at `at`, with 6282 when its bytes are the last. */
  function ServeAt(file: Bytes, c: Command, at: nat, pace: nat): Response {
    if at >= |file| then Response([], 0x6B00)
    else
      var n := PieceLen(|file| - at, c.le, pace);
      Response(Carrier(c, file[at..at + n]), if at + n == |file| then 0x6282 else 0x9000)
  }

  /** A chip that holds one file and answers in pieces of its own choosing. */
  function FileServer(file: Bytes, pace: nat -> nat): Chip {
    (log: seq<Exchange>, c: Command) =>
      match ReadOffset(c)
      case None => Ok(Response([], 0x9000))
      case Some(at) => Ok(ServeAt(file, c, at, pace(|log|)))
  }

  /** There are such chips: this one serves its file, and ends it honestly, whatever it is asked. */
  lemma FileServerIsHonest(file: Bytes, pace: nat -> nat, log: seq<Exchange>, c: Command)
    ensures
      var e := Exchange(c, FileServer(file, pace)(log, c));
      Serves(file, e) && EndsHonestly(file, e)
  {
    hide ReadOffset, Carried, Carrier;
    if ReadOffset(c).Some? && ReadOffset(c).value < |file| {
      var at := ReadOffset(c).value;
      var n := PieceLen(|file| - at, c.le, pace(|log|));
      CarriedBack(c, file[at..at + n]);
    } else {
      CarriedNothing(c);
      assert ReadOffset(c).Some? ==> ServeAt(file, c, ReadOffset(c).value, pace(|log|)) == Response([], 0x6B00);
    }
  }

  lemma CarriedNothing(c: Command)
    ensures Carried(c, []) == Some([])
  {
  }

  // ---- One READ BINARY ---------------------------------------------------------------------

  function Attempt(chip: Chip, log: seq<Exchange>, c: Command): (r: seq<Exchange>)
    ensures |r| == |log| + 1
  {
    log + [Exchange(c, chip(log, c))]
  }

  predicate Granted(answer: Result<Response>) {
    answer.Ok? && answer.value.sw == 0x9000
  }

  predicate WrongLe(answer: Result<Response>) {
    answer.Ok? && answer.value.sw / 256 == 0x6C
  }

  function NamedLe(sw: nat): nat {
    if sw % 256 == 0 then LE_MAX else sw % 256
  }

  /** The exchanges of one read: a 6CXX is taken at its word once, as far as one frame allows. */
  function ReadLog(chip: Chip, log: seq<Exchange>, offset: nat, length: nat, safe: nat): seq<Exchange> {
    if offset > LONG_OFFSET_MAX then log
    else if offset > SHORT_OFFSET_MAX then Attempt(chip, log, ReadBinaryOdd(offset, length))
    else
      var first := Attempt(chip, log, ReadBinary(offset, length));
      var answer := first[|log|].answer;
      if WrongLe(answer) then Attempt(chip, first, ReadBinary(offset, Min(NamedLe(answer.value.sw), safe)))
      else first
  }

  /** What the reader makes of the last exchange. */
  function ReadResult(e: Exchange): Result<Response> {
    match e.answer
    case Err(error) => Err(error)
    case Ok(r) =>
      if !SwHasData(r.sw) then Ok(r)
      else
        match Carried(e.command, r.data)
        case None => Err(Error.Parse)
        case Some(part) => Ok(Response(part, r.sw))
  }

  lemma ReadLogShape(chip: Chip, log: seq<Exchange>, offset: nat, length: nat, safe: nat)
    requires offset <= LONG_OFFSET_MAX
    ensures
      var after := ReadLog(chip, log, offset, length, safe);
      && |log| < |after| <= |log| + 2 && log <= after
      && (forall i :: |log| <= i < |after| ==> ReadOffset(after[i].command) == Some(offset))
      && (1 <= length <= safe <= LE_MAX ==> forall i :: |log| <= i < |after| ==> 1 <= after[i].command.le <= safe)
  {
    if offset > SHORT_OFFSET_MAX {
      assert ReadOffset(ReadBinaryOdd(offset, length)) == Some(offset);
    } else {
      assert ReadOffset(ReadBinary(offset, length)) == Some(offset);
    }
  }

  /** Every READ BINARY since `from` asked for at least one byte and at most `safe`. */
  predicate Asks(log: seq<Exchange>, from: nat, safe: nat) {
    forall i :: from <= i < |log| && ReadOffset(log[i].command).Some? ==> 1 <= log[i].command.le <= safe
  }

  /** The three ways of saying that the file has ended, each said of an offset where it has. */
  predicate EndsAt(file: Bytes, offset: nat, r: Response) {
    && (r.sw == 0x6B00 ==> offset >= |file|)
    && (SwHasData(r.sw) && r.data == [] ==> offset >= |file|)
    && (r.sw == 0x6282 ==> offset + |r.data| >= |file|)
  }

  lemma NoRead(chip: Chip, log: seq<Exchange>, offset: nat, length: nat, safe: nat)
    ensures offset > LONG_OFFSET_MAX ==> ReadLog(chip, log, offset, length, safe) == log
  {
  }

  // ---- In numbers --------------------------------------------------------------------------

  /** Status words that come with data: success, and the two kinds of warning. */
  lemma DataStatus(sw: nat)
    ensures SwHasData(sw) <==> sw == 0x9000 || 0x6200 <= sw <= 0x62FF || 0x6300 <= sw <= 0x63FF
  {
  }

  /**
   * One read: the even instruction for the first 32768 offsets, and once more with the Le that a 6CXX names,
   * as far as one frame allows; the odd one up to 65535; nothing beyond.
   */
  lemma ReadLogInNumbers(chip: Chip, log: seq<Exchange>, offset: nat, length: nat, safe: nat)
    ensures offset >= 0x1_0000 ==> ReadLog(chip, log, offset, length, safe) == log
    ensures 0x8000 <= offset < 0x1_0000 ==>
      var c := ReadBinaryOdd(offset, length);
      ReadLog(chip, log, offset, length, safe) == log + [Exchange(c, chip(log, c))]
    ensures offset < 0x8000 ==>
      var c := ReadBinary(offset, length);
      var first := log + [Exchange(c, chip(log, c))];
      ReadLog(chip, log, offset, length, safe)
      == if chip(log, c).Ok? && 0x6C00 <= chip(log, c).value.sw <= 0x6CFF then
           var named := chip(log, c).value.sw - 0x6C00;
           var again := ReadBinary(offset, Min(if named == 0 then 256 else named, safe));
           first + [Exchange(again, chip(first, again))]
         else first
  {
    hide ReadBinary, ReadBinaryOdd;
  }

  /** How a file is sized: as its header says up to 65536 bytes, and otherwise as what there is of it. */
  lemma SizeInNumbers(first: Bytes)
    ensures SizeFrom(first) == if 1 <= TotalLength(first) <= 65536 then TotalLength(first) else |first|
  {
  }

  /** What an answer without data ends a stream with. */
  lemma JudgeInNumbers(offset: nat, r: Response)
    ensures SwHasData(r.sw) ==> Judge(offset, r) == if r.data == [] then Some(EofEmpty) else None
    ensures !SwHasData(r.sw) && offset >= 0x8000 ==> Judge(offset, r) == Some(Aborted(Unsupported))
    ensures r.sw == 0x6B00 && 1 <= offset < 0x8000 ==> Judge(offset, r) == Some(Eof6B00)
    ensures !SwHasData(r.sw) && offset < 0x8000 && (r.sw != 0x6B00 || offset == 0) ==>
      FromSw(r.sw).Some? && Judge(offset, r) == Some(Aborted(FromSw(r.sw).value))
  {
  }

  /** An answer with data that cannot be unwrapped is the only one that is not taken as it came. */
  lemma ResultInNumbers(e: Exchange)
    ensures e.answer.Err? ==> ReadResult(e) == e.answer
    ensures e.answer.Ok? && ReadResult(e).Err? ==>
      SwHasData(e.answer.value.sw) && Carried(e.command, e.answer.value.data) == None && ReadResult(e).error == Error.Parse
  {
    hide SwHasData;
  }

  // ---- What the answers add up to ----------------------------------------------------------

  /** The bytes of the file that came with one answer. */
  function DataIn(r: Result<Response>): Bytes {
    if r.Ok? && SwHasData(r.value.sw) then r.value.data else []
  }

  /** Everything the answers since `from` brought, in order. */
  function Pieces(log: seq<Exchange>, from: nat): Bytes
    decreases |log|
  {
    if |log| <= from then []
    else Pieces(log[..|log| - 1], from) + DataIn(ReadResult(log[|log| - 1]))
  }

  /** What the first of them to bring anything brought. */
  function FirstData(log: seq<Exchange>, from: nat): Bytes
    decreases |log|
  {
    if |log| <= from then []
    else
      var before := FirstData(log[..|log| - 1], from);
      if before != [] then before else DataIn(ReadResult(log[|log| - 1]))
  }

  function Cut(s: Bytes, n: int): (r: Bytes)
    ensures n >= 0 ==> |r| <= n
  {
    if n < 0 then [] else s[..Min(|s|, n)]
  }

  /** The first piece is where the pieces begin. */
  lemma {:induction false} FirstIsHead(log: seq<Exchange>, from: nat)
    ensures FirstData(log, from) <= Pieces(log, from)
    ensures FirstData(log, from) == [] ==> Pieces(log, from) == []
    decreases |log|
  {
    hide ReadResult, DataIn;
    if |log| > from {
      FirstIsHead(log[..|log| - 1], from);
    }
  }

  lemma OneMore(log: seq<Exchange>, e: Exchange, from: nat)
    requires from <= |log|
    ensures Pieces(log + [e], from) == Pieces(log, from) + DataIn(ReadResult(e))
    ensures FirstData(log + [e], from) == if FirstData(log, from) != [] then FirstData(log, from) else DataIn(ReadResult(e))
  {
    hide ReadResult, DataIn;
    assert (log + [e])[..|log|] == log;
  }

  /** One read brings what its last answer brings: a 6CXX brings nothing. */
  lemma ReadBrings(chip: Chip, log: seq<Exchange>, offset: nat, length: nat, safe: nat, from: nat)
    requires from <= |log| && offset <= LONG_OFFSET_MAX
    ensures
      var after := ReadLog(chip, log, offset, length, safe);
      && |log| < |after| && log <= after
      && var data := DataIn(ReadResult(after[|after| - 1]));
         && Pieces(after, from) == Pieces(log, from) + data
         && FirstData(after, from) == if FirstData(log, from) != [] then FirstData(log, from) else data
  {
    hide Pieces, FirstData, Carried, ReadBinary, ReadBinaryOdd, NamedLe;
    var after := ReadLog(chip, log, offset, length, safe);
    var e := after[|log|];
    OneMore(log, e, from);
    if |after| == |log| + 1 {
      assert after == log + [e];
    } else {
      assert after == (log + [e]) + [after[|log| + 1]];
      assert DataIn(ReadResult(e)) == [];
      OneMore(log + [e], after[|log| + 1], from);
    }
  }

  // ---- The stream of one file --------------------------------------------------------------

  /** Why a stream ended. */
  datatype Ending = Complete | Eof6282 | Eof6B00 | EofEmpty | Aborted(error: Error)

  /** What one answer ends the stream with, when it holds no data. */
  function Judge(offset: nat, r: Response): Option<Ending> {
    if !SwHasData(r.sw) then
      Some(if offset > SHORT_OFFSET_MAX then Aborted(Unsupported)
           else if r.sw == 0x6B00 && offset > 0 then Eof6B00
           else Aborted(FromSw(r.sw).value))
    else if r.data == [] then Some(EofEmpty)
    else None
  }

  /**
   * The stream of one file: the chip, the traffic before it, how much one read may ask for, and how
   * long the file is taken to be from the data of its first answer. Its rounds follow from these.
   */
  datatype Stream = Stream(chip: Chip, start: seq<Exchange>, safe: nat, size: Bytes -> nat) {
    /** The traffic after `n` rounds: each reads on where the bytes got so far end. */
    function Log(n: nat): seq<Exchange> {
      if n == 0 then start
      else
        var log := Log(n - 1);
        ReadLog(chip, log, |GotIn(log)|, WantIn(log), safe)
    }

    function GotIn(log: seq<Exchange>): Bytes {
      Cut(Pieces(log, |start|), size(FirstData(log, |start|)))
    }

    function WantIn(log: seq<Exchange>): nat {
      if FirstData(log, |start|) == [] then safe else Min(safe, size(FirstData(log, |start|)) - |GotIn(log)|)
    }

    /** The data of the first answer that had any, and the length it stands for. */
    function First(n: nat): Bytes {
      FirstData(Log(n), |start|)
    }

    function Size(n: nat): nat {
      size(First(n))
    }

    /** What the stream has got of the file. */
    function Got(n: nat): (got: Bytes) {
      GotIn(Log(n))
    }

    function Want(n: nat): nat {
      WantIn(Log(n))
    }

    predicate Full(n: nat) {
      First(n) != [] && |Got(n)| == Size(n)
    }

    /** What the n-th round comes back with. */
    function Outcome(n: nat): Result<Response>
      requires n > 0
    {
      if |Got(n - 1)| > LONG_OFFSET_MAX then Err(Unsupported)
      else ReadResult(Log(n)[|Log(n)| - 1])
    }

    function RoundEnd(n: nat): Option<Ending>
      requires n > 0
    {
      match Outcome(n)
      case Err(e) => Some(Aborted(e))
      case Ok(r) =>
        var end := Judge(|Got(n - 1)|, r);
        if end.Some? then end
        else if r.sw == 0x6282 then Some(Eof6282)
        else None
    }

    /** 6282 ends a stream with the data that came with it. */
    lemma LastPiece(n: nat)
      requires n > 0 && Outcome(n).Ok? && Outcome(n).value.sw == 0x6282
      ensures RoundEnd(n) == Some(if Outcome(n).value.data == [] then EofEmpty else Eof6282)
    {
      JudgeInNumbers(|Got(n - 1)|, Outcome(n).value);
    }

    /** Another round follows the n-th one. */
    predicate Going(n: nat) {
      n == 0 || (RoundEnd(n).None? && !Full(n))
    }

    /** The stream gets as far as round `n`. */
    ghost predicate Reaches(n: nat) {
      forall k :: 0 <= k < n ==> Going(k)
    }

    /** How it ends when nothing makes it go on. */
    function End(n: nat): Ending
      requires !Going(n)
    {
      if RoundEnd(n).Some? then RoundEnd(n).value else Complete
    }

    lemma Base()
      ensures Log(0) == start && Got(0) == [] && First(0) == []
    {
    }

    lemma NothingYet(n: nat)
      requires First(n) == []
      ensures Got(n) == []
    {
      hide Log, Pieces, FirstData;
      FirstIsHead(Log(n), |start|);
    }

    lemma Next(n: nat)
      ensures Log(n + 1) == ReadLog(chip, Log(n), |Got(n)|, Want(n), safe)
      ensures Want(n) == if First(n) == [] then safe else Min(safe, Size(n) - |Got(n)|)
      ensures |Got(n)| > LONG_OFFSET_MAX ==> Outcome(n + 1) == Err(Unsupported)
      ensures |Got(n)| <= LONG_OFFSET_MAX ==> Log(n + 1) != [] && Outcome(n + 1) == ReadResult(Log(n + 1)[|Log(n + 1)| - 1])
    {
      hide ReadResult, Pieces, FirstData, ReadBinary, ReadBinaryOdd, NamedLe;
    }

    lemma {:induction false} StartKept(n: nat)
      ensures start <= Log(n)
      decreases n
    {
      hide *;
      if n == 0 {
        Base();
      } else {
        StartKept(n - 1);
        LogGrows(n);
      }
    }

    lemma LogGrows(n: nat)
      requires n > 0
      ensures Log(n - 1) <= Log(n)
    {
      hide *;
      Next(n - 1);
      if |Got(n - 1)| <= LONG_OFFSET_MAX {
        ReadBrings(chip, Log(n - 1), |Got(n - 1)|, Want(n - 1), safe, 0);
      } else {
        NoRead(chip, Log(n - 1), |Got(n - 1)|, Want(n - 1), safe);
      }
    }

    /** What a round adds: its data, as far as the file goes. */
    lemma GotStep(n: nat)
      requires n > 0
      ensures First(n) == if First(n - 1) != [] then First(n - 1) else DataIn(Outcome(n))
      ensures Full(n - 1) ==> Got(n) == Got(n - 1)
      ensures !Full(n - 1) ==> Got(n) == Got(n - 1) + Cut(DataIn(Outcome(n)), Size(n) - |Got(n - 1)|)
    {
      hide ReadLog, ReadResult, Pieces, FirstData, Log;
      StartKept(n - 1);
      Next(n - 1);
      FirstIsHead(Log(n - 1), |start|);
      if |Got(n - 1)| <= LONG_OFFSET_MAX {
        ReadBrings(chip, Log(n - 1), |Got(n - 1)|, Want(n - 1), safe, |start|);
      } else {
        NoRead(chip, Log(n - 1), |Got(n - 1)|, Want(n - 1), safe);
      }
    }
  }

  /** A round that brings nothing changes nothing. */
  lemma NothingNew(s: Stream, n: nat)
    requires n > 0 && DataIn(s.Outcome(n)) == []
    ensures s.Got(n) == s.Got(n - 1) && s.First(n) == s.First(n - 1)
  {
    hide s.Log, s.GotIn, FirstData, s.Outcome;
    s.GotStep(n);
  }

  /** Every round of a stream asks for at least one byte and for no more than it may. */
  lemma {:induction false} StreamAsks(s: Stream, n: nat)
    requires 1 <= s.safe <= LE_MAX && s.Reaches(n)
    ensures Asks(s.Log(n), |s.start|, s.safe)
    decreases n
  {
    hide ReadLog, ReadOffset, Pieces, FirstData, s.Log;
    if n == 0 {
      s.Base();
    } else {
      StreamAsks(s, n - 1);
      NotFullYet(s, n - 1);
      var log, offset := s.Log(n - 1), |s.Got(n - 1)|;
      s.Next(n - 1);
      if offset <= LONG_OFFSET_MAX {
        ReadLogShape(s.chip, log, offset, s.Want(n - 1), s.safe);
      } else {
        NoRead(s.chip, log, offset, s.Want(n - 1), s.safe);
      }
    }
  }

  /** A READ BINARY of either instruction, as the reader builds it. */
  predicate IsRead(c: Command) {
    && c.cla == 0 && ReadOffset(c).Some?
    && if c.ins == 0xB0 then c.data == [] else c.ins == 0xB1
  }

  lemma BuiltReadsRead(offset: nat, length: nat)
    ensures IsRead(ReadBinary(offset, length))
    ensures offset <= LONG_OFFSET_MAX ==> IsRead(ReadBinaryOdd(offset, length))
  {
  }

  /** All the commands of a stream are of that kind. */
  lemma {:induction false} StreamReads(s: Stream, n: nat)
    ensures forall i :: |s.start| <= i < |s.Log(n)| ==> IsRead(s.Log(n)[i].command)
    decreases n
  {
    hide IsRead, ReadBinary, ReadBinaryOdd, NamedLe, s.Log, s.GotIn, s.WantIn;
    if n == 0 {
      s.Base();
    } else {
      StreamReads(s, n - 1);
      s.Next(n - 1);
      s.StartKept(n - 1);
      s.LogGrows(n);
      var log, offset, want := s.Log(n - 1), |s.Got(n - 1)|, s.Want(n - 1);
      BuiltReadsRead(offset, want);
      var first := Attempt(s.chip, log, ReadBinary(offset, want));
      if WrongLe(first[|log|].answer) {
        BuiltReadsRead(offset, Min(NamedLe(first[|log|].answer.value.sw), s.safe));
      }
      forall i | |s.start| <= i < |s.Log(n)| ensures IsRead(s.Log(n)[i].command) {
        if i < |log| {
          assert s.Log(n)[i] == log[i];
        }
      }
    }
  }

  /** Of the exchanges of one read only the last can have failed. */
  lemma FailedReadIsLast(chip: Chip, log: seq<Exchange>, offset: nat, length: nat, safe: nat, i: nat)
    requires |log| <= i < |ReadLog(chip, log, offset, length, safe)|
    requires ReadLog(chip, log, offset, length, safe)[i].answer.Err?
    ensures offset <= LONG_OFFSET_MAX && i == |ReadLog(chip, log, offset, length, safe)| - 1
  {
    hide ReadBinary, ReadBinaryOdd, NamedLe;
  }

  /** An exchange of a stream that failed is its last, and what the stream ended with. */
  lemma {:induction false} FailedIsLast(s: Stream, n: nat, i: nat)
    requires s.Reaches(n) && |s.start| <= i < |s.Log(n)| && s.Log(n)[i].answer.Err?
    ensures n > 0 && i == |s.Log(n)| - 1 && s.Outcome(n) == Err(s.Log(n)[i].answer.error)
    decreases n
  {
    hide ReadLog, ReadOffset, Carried, s.Log, s.GotIn, s.WantIn, s.Full;
    if n == 0 {
      s.Base();
    } else {
      s.Next(n - 1);
      s.LogGrows(n);
      var before := s.Log(n - 1);
      assert s.Going(n - 1);
      if i < |before| {
        assert before[i] == s.Log(n)[i];
        FailedIsLast(s, n - 1, i);
      } else {
        FailedReadIsLast(s.chip, before, |s.Got(n - 1)|, s.Want(n - 1), s.safe, i);
      }
    }
  }

  lemma NotFullYet(s: Stream, n: nat)
    requires s.Going(n)
    ensures !s.Full(n)
  {
    hide s.Log, Pieces;
    if n == 0 {
      s.Base();
    }
  }

  // ---- A chip that serves a file -----------------------------------------------------------

  /** The answer of the last round, on a chip that serves `file` and on one that ends it honestly. */
  lemma LastAnswer(s: Stream, n: nat, file: Bytes)
    requires n > 0
    ensures AllServe(file, s.Log(n), |s.start|) ==> IsPartAt(file, |s.Got(n - 1)|, DataIn(s.Outcome(n)))
    ensures AllEndHonestly(file, s.Log(n), |s.start|) && s.Outcome(n).Ok? ==> EndsAt(file, |s.Got(n - 1)|, s.Outcome(n).value)
  {
    hide ReadLog, ReadOffset, Carried, s.Log, s.GotIn, s.WantIn;
    s.StartKept(n - 1);
    s.Next(n - 1);
    if |s.Got(n - 1)| <= LONG_OFFSET_MAX {
      ReadLogShape(s.chip, s.Log(n - 1), |s.Got(n - 1)|, s.Want(n - 1), s.safe);
    }
  }

  /** Whatever has been got from a chip that serves `file` is where the file begins. */
  lemma {:induction false} ServedHead(s: Stream, n: nat, file: Bytes)
    requires AllServe(file, s.Log(n), |s.start|)
    ensures s.Got(n) <= file && s.First(n) <= file
    decreases n
  {
    hide Serves, s.Log, s.GotIn, s.WantIn, s.Outcome, FirstData, DataIn;
    if n == 0 {
      s.Base();
    } else {
      s.LogGrows(n);
      assert AllServe(file, s.Log(n - 1), |s.start|);
      ServedHead(s, n - 1, file);
      LastAnswer(s, n, file);
      s.GotStep(n);
      var got, data := s.Got(n - 1), DataIn(s.Outcome(n));
      HeadGrows(file, got, data, s.Size(n) - |got|);
      if s.First(n - 1) == [] {
        s.NothingYet(n - 1);
      }
    }
  }

  lemma HeadGrows(file: Bytes, got: Bytes, data: Bytes, room: int)
    requires got <= file && IsPartAt(file, |got|, data)
    ensures got + Cut(data, room) <= file
    ensures data == [] || |got| + |data| <= |file|
    ensures got == [] ==> data <= file
  {
    if data != [] {
      var part := Cut(data, room);
      assert file[|got|..|got| + |part|] == file[|got|..|got| + |data|][..|part|];
      assert got + part == file[..|got| + |part|];
      assert got == [] ==> data == file[..|data|];
    }
  }

  /**
   * A stream that is not cut short by anybody, on a chip that serves `file` and ends it honestly: unless
   * it fails, it gets all of the file, or as much as the first answer announced.
   */
  lemma HonestEnd(s: Stream, n: nat, file: Bytes)
    requires AllServe(file, s.Log(n), |s.start|) && AllEndHonestly(file, s.Log(n), |s.start|)
    requires s.Reaches(n) && !s.Going(n) && !s.End(n).Aborted?
    ensures |s.Got(n)| == Min(s.Size(n), |file|)
  {
    hide AllServe, AllEndHonestly, s.Log, s.WantIn, s.Outcome, Pieces, FirstData, SwHasData;
    ServedHead(s, n, file);
    if !s.Full(n) {
      LastAnswer(s, n, file);
      NotFullYet(s, n - 1);
      s.GotStep(n);
      s.LogGrows(n);
      ServedBefore(s, n, file);
    }
  }

  lemma ServedBefore(s: Stream, n: nat, file: Bytes)
    requires n > 0 && AllServe(file, s.Log(n), |s.start|)
    ensures s.Got(n - 1) <= file && s.First(n - 1) <= file
  {
    hide Serves, s.Log, s.Got, s.First;
    s.LogGrows(n);
    ServedHead(s, n - 1, file);
  }

  /** How long an elementary file is taken to be: as its header says, or else as long as this much of it. */
  function SizeFrom(first: Bytes): nat {
    var total := TotalLength(first);
    if total == 0 || total > FILE_SIZE_MAX then |first| else total
  }

  /** A file that begins with one whole object of a size that can be read. */
  predicate HoldsObject(file: Bytes) {
    0 < TotalLength(file) <= |file| && TotalLength(file) <= FILE_SIZE_MAX
  }

  /** How many bytes of a file with such an object are its header. */
  function HeaderLen(file: Bytes): nat
    requires HoldsObject(file)
  {
    ReadHeader(file, |file|, 0).value.valueStart
  }

  /** What the head of such a file is taken to be the head of: the object, or no more than itself. */
  lemma SizeOfHead(file: Bytes, k: nat)
    requires HoldsObject(file) && k <= |file|
    ensures SizeFrom(file[..k]) == if HeaderLen(file) <= k then TotalLength(file) else k
    ensures HeaderLen(file) <= TotalLength(file)
  {
    hide ReadHeader;
    HeaderPrefix(file, k);
  }

  /**
   * A file that begins with one object, on a chip that serves it and ends it honestly: a stream that is
   * neither stopped nor failed gets the whole object exactly when the first answer with data held its
   * header, and otherwise that first answer and no more.
   */
  lemma WholeObjectRead(s: Stream, n: nat, file: Bytes)
    requires s.size == SizeFrom && HoldsObject(file)
    requires AllServe(file, s.Log(n), |s.start|) && AllEndHonestly(file, s.Log(n), |s.start|)
    requires s.Reaches(n) && !s.Going(n) && !s.End(n).Aborted?
    ensures s.Got(n) == file[..TotalLength(file)] <==> HeaderLen(file) <= |s.First(n)|
    ensures |s.First(n)| < HeaderLen(file) ==> s.Got(n) == s.First(n)
  {
    HonestEnd(s, n, file);
    ServedHead(s, n, file);
    SizeOfHead(file, |s.First(n)|);
    hide AllServe, AllEndHonestly, s.Log, s.Reaches, s.Going, s.End, s.GotIn, SizeFrom, HeaderLen, FirstData;
    assert s.First(n) == file[..|s.First(n)|];
    assert s.Got(n) == file[..|s.Got(n)|];
  }

  // ---- A chip that fails nothing -----------------------------------------------------------

  /** An answer, with some of what is left of the file when anything is left. */
  predicate Gives(file: Bytes, at: nat, r: Result<Response>) {
    r.Ok? && (at < |file| ==> SwHasData(r.value.sw) && r.value.data != [])
  }

  ghost predicate AlwaysGives(s: Stream, n: nat, file: Bytes) {
    forall k :: 0 < k <= n && |s.Got(k - 1)| <= LONG_OFFSET_MAX ==> Gives(file, |s.Got(k - 1)|, s.Outcome(k))
  }

  /** A stream of a whole object never asks past the object's end, nor out of reach. */
  lemma WithinObject(s: Stream, n: nat, file: Bytes)
    requires s.size == SizeFrom && HoldsObject(file) && AllServe(file, s.Log(n), |s.start|)
    requires s.Going(n)
    ensures |s.Got(n)| < TotalLength(file)
  {
    ServedHead(s, n, file);
    SizeOfHead(file, |s.First(n)|);
    NotFullYet(s, n);
    hide AllServe, s.Log, s.Going, TotalLength, SizeFrom, HeaderLen, FirstData, Pieces;
    assert s.First(n) == file[..|s.First(n)|];
    if s.First(n) == [] {
      s.NothingYet(n);
    }
  }

  /** On a chip that serves a whole object and always gives more of it, no read ever fails. */
  lemma GoodChipNeverFails(s: Stream, n: nat, file: Bytes)
    requires s.size == SizeFrom && HoldsObject(file)
    requires AllServe(file, s.Log(n), |s.start|) && AlwaysGives(s, n, file)
    requires s.Reaches(n) && !s.Going(n)
    ensures !s.End(n).Aborted?
  {
    hide AllServe, s.Log, s.Got, s.First, s.Outcome, SizeFrom, TotalLength;
    s.LogGrows(n);
    assert AllServe(file, s.Log(n - 1), |s.start|) by { ServesBefore(s.Log(n - 1), s.Log(n), |s.start|, file); }
    WithinObject(s, n - 1, file);
    assert Gives(file, |s.Got(n - 1)|, s.Outcome(n));
  }

  lemma ServesBefore(before: seq<Exchange>, after: seq<Exchange>, from: nat, file: Bytes)
    requires before <= after && AllServe(file, after, from)
    ensures AllServe(file, before, from)
  {
    hide Serves;
  }

  /** Every answer since `from` is the one this chip gives after what went before. */
  ghost predicate Genuine(chip: Chip, log: seq<Exchange>, from: nat) {
    forall i :: from <= i < |log| ==> log[i].answer == chip(log[..i], log[i].command)
  }

  lemma GenuineAttempt(chip: Chip, log: seq<Exchange>, c: Command, from: nat)
    requires Genuine(chip, log, from)
    ensures Genuine(chip, Attempt(chip, log, c), from)
  {
    var after := Attempt(chip, log, c);
    forall i | from <= i < |after| ensures after[i].answer == chip(after[..i], after[i].command) {
      assert after[..i] == log[..i];
      assert i == |log| ==> log[..i] == log;
    }
  }

  lemma {:induction false} StreamIsGenuine(s: Stream, n: nat)
    ensures Genuine(s.chip, s.Log(n), |s.start|)
    decreases n
  {
    hide s.Log, s.GotIn, s.WantIn, Genuine, ReadBinary, ReadBinaryOdd, NamedLe;
    if n == 0 {
      s.Base();
      assert Genuine(s.chip, s.start, |s.start|) by { NothingSince(s.chip, s.start); }
    } else {
      StreamIsGenuine(s, n - 1);
      s.Next(n - 1);
      var log, offset, want := s.Log(n - 1), |s.Got(n - 1)|, s.Want(n - 1);
      if offset > LONG_OFFSET_MAX {
      } else if offset > SHORT_OFFSET_MAX {
        GenuineAttempt(s.chip, log, ReadBinaryOdd(offset, want), |s.start|);
      } else {
        var first := Attempt(s.chip, log, ReadBinary(offset, want));
        GenuineAttempt(s.chip, log, ReadBinary(offset, want), |s.start|);
        if WrongLe(first[|log|].answer) {
          GenuineAttempt(s.chip, first, ReadBinary(offset, Min(NamedLe(first[|log|].answer.value.sw), s.safe)), |s.start|);
        }
      }
    }
  }

  lemma GenuineJoined(chip: Chip, before: seq<Exchange>, log: seq<Exchange>, from: nat)
    requires from <= |before| && before <= log && Genuine(chip, before, from) && Genuine(chip, log, |before|)
    ensures Genuine(chip, log, from)
  {
    forall i | from <= i < |log| ensures log[i].answer == chip(log[..i], log[i].command) {
      if i < |before| {
        assert before[..i] == log[..i] && before[i] == log[i];
      }
    }
  }

  lemma NothingSince(chip: Chip, log: seq<Exchange>)
    ensures Genuine(chip, log, |log|)
  {
  }

  /** The file server serves, ends honestly and always gives, in every stream. */
  lemma ServerIsGood(s: Stream, n: nat, file: Bytes, pace: nat -> nat)
    requires s.chip == FileServer(file, pace)
    ensures AllServe(file, s.Log(n), |s.start|) && AllEndHonestly(file, s.Log(n), |s.start|) && AlwaysGives(s, n, file)
  {
    hide Serves, EndsHonestly, FileServer, s.Log, s.Outcome, s.Got, Gives;
    StreamIsGenuine(s, n);
    var log := s.Log(n);
    forall i | |s.start| <= i < |log| ensures Serves(file, log[i]) && EndsHonestly(file, log[i]) {
      FileServerIsHonest(file, pace, log[..i], log[i].command);
      assert log[i] == Exchange(log[i].command, FileServer(file, pace)(log[..i], log[i].command));
    }
    forall k | 0 < k <= n && |s.Got(k - 1)| <= LONG_OFFSET_MAX ensures Gives(file, |s.Got(k - 1)|, s.Outcome(k)) {
      ServerGives(s, k, file, pace);
    }
  }

  /** One answer of the file server, as the reader reads it. */
  lemma ServedAnswer(file: Bytes, c: Command, at: nat, pace: nat)
    ensures
      var r := ReadResult(Exchange(c, Ok(ServeAt(file, c, at, pace))));
      if at >= |file| then r == Ok(Response([], 0x6B00))
      else
        var len := PieceLen(|file| - at, c.le, pace);
        r == Ok(Response(file[at..at + len], if at + len == |file| then 0x6282 else 0x9000))
  {
    hide Carried, Carrier;
    if at < |file| {
      CarriedBack(c, file[at..at + PieceLen(|file| - at, c.le, pace)]);
    }
  }

  lemma ServerGives(s: Stream, n: nat, file: Bytes, pace: nat -> nat)
    requires s.chip == FileServer(file, pace) && n > 0 && |s.Got(n - 1)| <= LONG_OFFSET_MAX
    ensures Gives(file, |s.Got(n - 1)|, s.Outcome(n))
  {
    hide ReadLog, ReadOffset, ReadResult, ServeAt, s.Log, s.GotIn, s.WantIn;
    s.StartKept(n - 1);
    StreamIsGenuine(s, n);
    s.Next(n - 1);
    ReadLogShape(s.chip, s.Log(n - 1), |s.Got(n - 1)|, s.Want(n - 1), s.safe);
    var log := s.Log(n);
    var last := |log| - 1;
    ServedAnswer(file, log[last].command, |s.Got(n - 1)|, pace(|log[..last]|));
    assert log[last] == Exchange(log[last].command, Ok(ServeAt(file, log[last].command, |s.Got(n - 1)|, pace(|log[..last]|))));
  }

  /** How much of the file the very first answer of a stream holds. */
  function FirstPiece(s: Stream, file: Bytes, pace: nat -> nat): nat {
    PieceLen(|file|, s.safe, pace(|s.start|))
  }

  lemma ServerFirst(s: Stream, file: Bytes, pace: nat -> nat)
    requires s.chip == FileServer(file, pace) && 1 <= s.safe <= LE_MAX && file != []
    ensures s.First(1) == file[..FirstPiece(s, file, pace)]
    ensures s.Outcome(1) == Ok(Response(s.First(1), if |s.First(1)| == |file| then 0x6282 else 0x9000))
  {
    hide Pieces, FirstData, ReadResult, ServeAt;
    s.Base();
    s.Next(0);
    s.GotStep(1);
    var c := ReadBinary(0, s.safe);
    assert ReadOffset(c) == Some(0);
    ServedAnswer(file, c, 0, pace(|s.start|));
    assert SwHasData(ServeAt(file, c, 0, pace(|s.start|)).sw) by { ServedStatus(file, c, 0, pace(|s.start|)); }
    assert s.Log(1) == s.start + [Exchange(c, Ok(ServeAt(file, c, 0, pace(|s.start|))))];
  }

  lemma ServedStatus(file: Bytes, c: Command, at: nat, pace: nat)
    requires at < |file|
    ensures ServeAt(file, c, at, pace).sw == 0x6282 || ServeAt(file, c, at, pace).sw == 0x9000
  {
  }

  lemma {:induction false} FirstStays(s: Stream, n: nat)
    requires n > 0 && s.First(1) != []
    ensures s.First(n) == s.First(1)
    decreases n
  {
    hide s.Log, s.First, s.Got, s.Outcome;
    if n > 1 {
      FirstStays(s, n - 1);
      s.GotStep(n);
    }
  }

  /**
   * On a chip that serves a file holding one object, in pieces of any size, a stream nobody stops does
   * not fail, and it gets the whole object exactly when the first piece held the object's header.
   */
  lemma ServerRead(s: Stream, n: nat, file: Bytes, pace: nat -> nat)
    requires s.size == SizeFrom && 1 <= s.safe <= LE_MAX && s.chip == FileServer(file, pace) && HoldsObject(file)
    requires s.Reaches(n) && !s.Going(n)
    ensures !s.End(n).Aborted?
    ensures s.Got(n) == file[..TotalLength(file)] <==> HeaderLen(file) <= FirstPiece(s, file, pace)
    ensures FirstPiece(s, file, pace) < HeaderLen(file) ==> s.Got(n) == file[..FirstPiece(s, file, pace)]
  {
    hide AllServe, AllEndHonestly, AlwaysGives, FileServer, s.Log, s.Got;
    hide s.Outcome, s.First, SizeFrom, TotalLength, HeaderLen;
    assert file != [] && n > 0;
    ServerIsGood(s, n, file, pace);
    GoodChipNeverFails(s, n, file);
    WholeObjectRead(s, n, file);
    ServerFirst(s, file, pace);
    FirstStays(s, n);
  }

  /** Such a file and such a chip: a first answer of one byte, and a stream that ends with that byte. */
  lemma ShortFirstAnswerCutsFile(start: seq<Exchange>, safe: nat)
    requires 1 <= safe <= LE_MAX
    ensures
      var file: Bytes := [0x60, 0x01, 0xAA];
      var s := Stream(FileServer(file, _ => 0), start, safe, SizeFrom);
      && HoldsObject(file) && TotalLength(file) == 3 && HeaderLen(file) == 2
      && s.Reaches(1) && !s.Going(1) && s.End(1) == Complete && s.Got(1) == [0x60]
  {
    var file: Bytes := [0x60, 0x01, 0xAA];
    var pace: nat -> nat := _ => 0;
    var s := Stream(FileServer(file, pace), start, safe, SizeFrom);
    assert ReadHeader(file, 3, 0) == Some(Node(0x60, true, 0, 2, 1));
    SizeOfHead(file, 1);
    ServerFirst(s, file, pace);
    s.GotStep(1);
    s.Base();
  }
}
