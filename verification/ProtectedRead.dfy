/**
 * The layers put together: the simulated document's files behind its end of Secure Messaging, read over
 * the worker's line file by file and piece by piece.
 */
module ProtectedRead {
  import opened Bytes
  import opened Errors
  import opened Tlv
  import opened Cipher
  import opened Apdu
  import opened SecureMessaging
  import opened SimChip
  import opened SmRefinement
  import opened ReadStream
  import opened FileReader
  import opened OneFile
  import opened WireRead
  import FrameBudget
  import ReadRun
  import Transmission

  // ---- The document's files ----------------------------------------------------------------

  datatype DocumentFile = DocumentFile(fid: nat, sfi: nat, data: Bytes)

  datatype Document = Document(files: seq<DocumentFile>, applied: bool, selected: Option<nat>)

  const SW_FILE_NOT_FOUND := 0x6A82
  const SW_NOT_SUPPORTED := 0x6D00
  const SW_WRONG_PARAMETERS := 0x6A80
  const SW_NO_FILE_SELECTED := 0x6986
  const SW_END_OF_FILE := 0x6B00

  /** The first file that is wanted. */
  function IndexOf(files: seq<DocumentFile>, wanted: DocumentFile -> bool): (i: Option<nat>)
    ensures i.Some? ==> i.value < |files| && wanted(files[i.value])
  {
    if files == [] then None
    else
      var earlier := IndexOf(files[..|files| - 1], wanted);
      if earlier.Some? then earlier
      else if wanted(files[|files| - 1]) then Some(|files| - 1)
      else None
  }

  function ByFid(fid: nat): DocumentFile -> bool {
    (f: DocumentFile) => f.fid == fid
  }

  function BySfi(sfi: nat): DocumentFile -> bool {
    (f: DocumentFile) => f.sfi == sfi
  }

  function Only(sw: nat): Response {
    Response([], sw)
  }

  /** The bytes asked for, as many as there are; an Le that is absent asks for 256. */
  function ReadAt(file: Bytes, at: nat, le: nat): Response {
    if at >= |file| then Only(SW_END_OF_FILE)
    else
      var n := Min(if le != 0 then le else 256, |file| - at);
      if n > APDU_MAX_SIZE then Only(SW_WRONG_LENGTH) else Response(file[at..at + n], SW_OK)
  }

  function ReadChosen(d: Document, at: nat, le: nat): Response {
    if d.selected.None? || d.selected.value >= |d.files| then Only(SW_NO_FILE_SELECTED)
    else ReadAt(d.files[d.selected.value].data, at, le)
  }

  /** Choose the file that is wanted, if there is one. */
  function Seek(d: Document, wanted: DocumentFile -> bool): (Document, Response) {
    var i := IndexOf(d.files, wanted);
    if i.None? then (d, Only(SW_FILE_NOT_FOUND)) else (d.(selected := i), Only(SW_OK))
  }

  /** What the document does with a command, once it is in the clear. */
  function Execute(d: Document, c: SimCommand): (r: (Document, Response))
    ensures r.0.files == d.files
  {
    if c.ins == 0xA4 then
      if c.p1 == 0x04 then
        if c.data != ReadRun.AID then (d, Only(SW_FILE_NOT_FOUND)) else (d.(applied := true, selected := None), Only(SW_OK))
      else if c.p1 == 0x02 && |c.data| == 2 then Seek(d, ByFid(c.data[0] as int * 256 + c.data[1] as int))
      else (d, Only(SW_WRONG_PARAMETERS))
    else if c.ins == 0xB0 then
      if c.p1 >= 0x80 then
        var (e, chosen) := Seek(d, BySfi(c.p1 as int % 32));
        (e, if chosen.sw != SW_OK then chosen else ReadChosen(e, c.p2, c.le))
      else (d, ReadChosen(d, c.p1 as int * 256 + c.p2 as int, c.le))
    else (d, Only(SW_NOT_SUPPORTED))
  }

  // ---- The stack ---------------------------------------------------------------------------

  /** A document, the session it shares with the reader, and how much traffic came before that. */
  datatype Stack = Stack(p: Primitives, session: Session, document: Document, base: nat)

  /** The worker's line, in its session, to the document behind the other end of it. */
  function Layers(k: Stack): Wire<(Session, Document)>
    requires Lawful(k.p)
  {
    Wire(k.p, Transmission.ChipLink(k.p, Execute), Transmission.Line(true, k.session), (k.session, k.document), k.base)
  }

  /** From the session on, this chip is the document as the worker sees it through all the layers. */
  ghost predicate Stacked(chip: Chip, k: Stack) {
    Lawful(k.p) && Keyed(k.session) && k.session.established && Behind(chip, Layers(k))
  }

  /** Where the two ends stand after this traffic. */
  function EndsAfter(k: Stack, log: seq<Exchange>): Ends<(Session, Document)>
    requires Lawful(k.p) && Keyed(k.session)
  {
    Replayed(Layers(k), log)
  }

  /** The document as it stands after this traffic. */
  function Now(k: Stack, log: seq<Exchange>): Document
    requires Lawful(k.p) && Keyed(k.session)
  {
    EndsAfter(k, log).far.1
  }

  /** Both ends in the same session, over the files there were. */
  ghost predicate InStep(k: Stack, log: seq<Exchange>) {
    && Lawful(k.p) && Keyed(k.session) && k.session.established && k.base <= |log|
    && var e := EndsAfter(k, log);
       && e.line == Transmission.Line(true, e.far.0) && e.far.0 == k.session.(ssc := e.far.0.ssc)
       && e.far.1.files == k.document.files
  }

  lemma InStepAtFirst(k: Stack, chip: Chip, log: seq<Exchange>)
    requires Stacked(chip, k) && |log| == k.base
    ensures InStep(k, log)
  {
  }

  /** In step, a command that fits is answered as in the clear, and leaves the two ends in step. */
  lemma PlainAnswer(k: Stack, chip: Chip, log: seq<Exchange>, c: Command)
    requires Stacked(chip, k) && InStep(k, log) && Exchangeable(Execute, k.session, Now(k, log), c)
    ensures
      var (d, answer) := Execute(Now(k, log), ViewOf(c));
      var longer := Attempt(chip, log, c);
      longer[|log|] == Exchange(c, Ok(answer)) && InStep(k, longer) && Now(k, longer) == d
  {
    hide Lawful, Exchangeable, Execute, Replayed, Behind, Transmission.Exchange;
    var e := EndsAfter(k, log);
    ExchangeableIgnoresCounter(Execute, k.session, e.far.0.ssc, e.far.1, c);
    Transmission.LineRefinesPlain(k.p, Execute, e.far.0, e.far.1, c);
    OneMoreReplayed(Layers(k), chip, log, c);
    StepKeyed(k, log);
  }

  lemma StepKeyed(k: Stack, log: seq<Exchange>)
    requires InStep(k, log)
    ensures Keyed(EndsAfter(k, log).far.0) && EndsAfter(k, log).far.0.established
  {
    hide Replayed, Lawful;
    assert Keyed(EndsAfter(k, log).line.session);
  }

  // ---- What fits ---------------------------------------------------------------------------

  function FidOf(id: nat): nat
    requires id < FILE_COUNT
  {
    Fid(id)[0] as int * 256 + Fid(id)[1] as int
  }

  lemma SelectFits(s: Session, d: Document, id: nat)
    requires id < FILE_COUNT
    ensures Exchangeable(Execute, s, d, SelectFile(id))
    ensures Execute(d, ViewOf(SelectFile(id))) == Seek(d, ByFid(FidOf(id)))
  {
    hide IndexOf;
    var c := SelectFile(id);
    assert Execute(d, ViewOf(c)) == Seek(d, ByFid(FidOf(id)));
  }

  /** What the document answers to a READ BINARY: the odd instruction is not supported. */
  function PlainRead(file: Bytes, c: Command): Response {
    if c.ins == 0xB1 then Only(SW_NOT_SUPPORTED)
    else ReadAt(file, c.p1 as int * 256 + c.p2 as int, if c.le < 0 then 0 else c.le)
  }

  /** Reads within the budget fit the envelope, and so do their answers. */
  lemma ReadFits(s: Session, d: Document, i: nat, c: Command, fsd: nat)
    requires IsRead(c) && 1 <= c.le <= FrameBudget.ChunkSize(fsd, BlockSize(s.suite))
    requires d.selected == Some(i) && i < |d.files|
    ensures Exchangeable(Execute, s, d, c) && Execute(d, ViewOf(c)) == (d, PlainRead(d.files[i].data, c))
  {
    hide FrameBudget.ChunkSize;
    FrameBudget.ChunkFits(fsd, BlockSize(s.suite));
    var answer := PlainRead(d.files[i].data, c);
    assert Execute(d, ViewOf(c)) == (d, answer);
    assert FrameBudget.AnswerLen(BlockSize(s.suite), |answer.data|) <= FrameBudget.MAX_INF;
  }

  // ---- The stream of one file --------------------------------------------------------------

  /** The document answers this stretch of traffic, all of it reads of one file. */
  ghost predicate PlainReads(file: Bytes, log: seq<Exchange>, from: nat) {
    forall i :: from <= i < |log| ==> IsRead(log[i].command) && log[i].answer == Ok(PlainRead(file, log[i].command))
  }

  /** Reads within the budget, one after another, are answered as in the clear and change nothing. */
  lemma {:induction false} ReadsInStep(k: Stack, chip: Chip, start: seq<Exchange>, log: seq<Exchange>, i: nat, fsd: nat)
    requires Stacked(chip, k) && InStep(k, start) && start <= log && Genuine(chip, log, |start|)
    requires Now(k, start).selected == Some(i) && i < |k.document.files|
    requires forall j :: |start| <= j < |log| ==> IsRead(log[j].command)
    requires Asks(log, |start|, FrameBudget.ChunkSize(fsd, BlockSize(k.session.suite)))
    ensures InStep(k, log) && Now(k, log) == Now(k, start) && PlainReads(k.document.files[i].data, log, |start|)
    decreases |log|
  {
    hide Stacked, EndsAfter, IsRead, PlainRead, FrameBudget.ChunkSize;
    if |log| == |start| {
      assert log == start;
    } else {
      var n := |log| - 1;
      var before, c := log[..n], log[n].command;
      assert forall j | |start| <= j < n :: before[j] == log[j] && before[..j] == log[..j];
      ReadsInStep(k, chip, start, before, i, fsd);
      assert IsRead(c) && 1 <= c.le <= FrameBudget.ChunkSize(fsd, BlockSize(k.session.suite)) by { ReadHasOffset(c); }
      ReadFits(k.session, Now(k, before), i, c, fsd);
      PlainAnswer(k, chip, before, c);
      assert log == Attempt(chip, before, c);
    }
  }

  lemma ReadHasOffset(c: Command)
    requires IsRead(c)
    ensures ReadOffset(c).Some?
  {
  }

  /** A stream of the file that is selected, over the worker's line. */
  ghost predicate OverStack(k: Stack, s: Stream, i: nat, fsd: nat) {
    && Stacked(s.chip, k) && InStep(k, s.start)
    && s.safe == FrameBudget.ChunkSize(fsd, BlockSize(k.session.suite)) && s.size == SizeFrom
    && Now(k, s.start).selected == Some(i) && i < |k.document.files|
  }

  /** Such a stream leaves both ends in step, and is answered from the file. */
  lemma StreamInStep(k: Stack, s: Stream, n: nat, i: nat, fsd: nat)
    requires OverStack(k, s, i, fsd) && s.Reaches(n)
    ensures InStep(k, s.Log(n)) && Now(k, s.Log(n)) == Now(k, s.start)
    ensures PlainReads(k.document.files[i].data, s.Log(n), |s.start|)
  {
    hide Stacked, InStep, Genuine, Asks, IsRead, FrameBudget.ChunkSize, SizeFrom, s.Log;
    FrameBudget.ChunkFits(fsd, BlockSize(k.session.suite));
    s.StartKept(n);
    StreamIsGenuine(s, n);
    StreamReads(s, n);
    StreamAsks(s, n);
    ReadsInStep(k, s.chip, s.start, s.Log(n), i, fsd);
  }

  /** What the document answers to the reads the reader builds, and what the reader makes of that. */
  lemma PlainResult(file: Bytes, at: nat, want: nat)
    requires at <= LONG_OFFSET_MAX && 1 <= want <= LE_MAX
    ensures
      var r := PlainRead(file, ReadBinary(at, want));
      at <= SHORT_OFFSET_MAX ==>
        r == ReadAt(file, at, want) && !WrongLe(Ok(r)) && ReadResult(Exchange(ReadBinary(at, want), Ok(r))) == Ok(r)
    ensures ReadResult(Exchange(ReadBinaryOdd(at, want), Ok(Only(SW_NOT_SUPPORTED)))) == Ok(Only(SW_NOT_SUPPORTED))
    ensures PlainRead(file, ReadBinaryOdd(at, want)) == Only(SW_NOT_SUPPORTED)
  {
  }

  /** What one round brings: the next bytes of the file, or what the odd instruction is refused with. */
  lemma RoundOutcome(s: Stream, n: nat, file: Bytes)
    requires n > 0 && PlainReads(file, s.Log(n), |s.start|) && |s.Got(n - 1)| <= LONG_OFFSET_MAX
    requires 1 <= s.Want(n - 1) <= LE_MAX
    ensures
      var at := |s.Got(n - 1)|;
      s.Outcome(n) == Ok(if at > SHORT_OFFSET_MAX then Only(SW_NOT_SUPPORTED) else ReadAt(file, at, s.Want(n - 1)))
  {
    hide s.Log, s.GotIn, s.WantIn, IsRead, PlainRead, ReadAt, ReadResult, ReadBinary, ReadBinaryOdd, WrongLe, NamedLe, s.Outcome;
    s.Next(n - 1);
    s.StartKept(n - 1);
    var log := s.Log(n - 1);
    PlainResult(file, |s.Got(n - 1)|, s.Want(n - 1));
    assert s.Log(n)[|log|].answer == Ok(PlainRead(file, s.Log(n)[|log|].command));
  }

  /** The document serves its file, and says that it has ended only where it has. */
  lemma PlainReadsServe(file: Bytes, log: seq<Exchange>, from: nat)
    requires PlainReads(file, log, from) && Asks(log, from, LE_MAX)
    ensures AllServe(file, log, from) && AllEndHonestly(file, log, from)
  {
    forall i | from <= i < |log| ensures Serves(file, log[i]) && EndsHonestly(file, log[i]) {
      ReadHasOffset(log[i].command);
    }
  }

  /** Nothing the document answers to a read ends it with the loss of the link or of the session. */
  lemma RoundError(s: Stream, n: nat, file: Bytes)
    requires n > 0 && PlainReads(file, s.Log(n), |s.start|) && 1 <= s.Want(n - 1) <= LE_MAX
    requires s.RoundEnd(n).Some? && s.RoundEnd(n).value.Aborted?
    ensures s.RoundEnd(n).value.error == Unsupported || s.RoundEnd(n).value.error == Error.Apdu
  {
    hide s.Log, s.GotIn, s.WantIn, PlainReads;
    s.Next(n - 1);
    if |s.Got(n - 1)| <= LONG_OFFSET_MAX {
      RoundOutcome(s, n, file);
    }
  }

  /** The conditions under which pieces are counted: a file of one object, whose header one piece holds. */
  ghost predicate Fed(s: Stream, n: nat, file: Bytes) {
    && s.size == SizeFrom && 1 <= s.safe <= LE_MAX && HoldsObject(file) && HeaderLen(file) <= s.safe
    && PlainReads(file, s.Log(n), |s.start|) && s.Reaches(n)
  }

  lemma FedBefore(s: Stream, n: nat, file: Bytes)
    requires n > 0 && Fed(s, n, file)
    ensures Fed(s, n - 1, file) && s.Going(n - 1)
  {
    hide IsRead, PlainRead, s.Log, s.Going, SizeFrom, HoldsObject, HeaderLen;
    s.LogGrows(n);
    var before, log := s.Log(n - 1), s.Log(n);
    assert forall i | |s.start| <= i < |before| :: before[i] == log[i];
  }

  /** The first piece holds the header, so that the length of the object is known from then on. */
  lemma FirstPieceSizes(s: Stream, file: Bytes)
    requires Fed(s, 1, file)
    ensures s.First(1) == file[..Min(s.safe, |file|)] && s.Size(1) == TotalLength(file)
    ensures s.Got(1) == file[..Min(s.safe, TotalLength(file))] && s.RoundEnd(1) == None
  {
    hide s.Log, s.GotIn, s.WantIn, PlainReads, SizeFrom, TotalLength, HeaderLen, IsRead;
    s.Base();
    s.Next(0);
    RoundOutcome(s, 1, file);
    s.GotStep(1);
    SizeOfHead(file, Min(s.safe, |file|));
  }

  /** How much has been got after this many pieces. */
  function PiecesLen(n: nat, safe: nat, total: nat): nat {
    Min(n * safe, total)
  }

  /** As long as the offset can be named, each round brings one more piece. */
  lemma {:induction false} PieceByPiece(s: Stream, n: nat, file: Bytes)
    requires n > 0 && Fed(s, n, file) && (n - 1) * s.safe <= SHORT_OFFSET_MAX
    ensures |s.Got(n)| == PiecesLen(n, s.safe, TotalLength(file))
    ensures s.Size(n) == TotalLength(file) && s.First(n) != [] && s.RoundEnd(n) == None
    decreases n
  {
    hide Fed, s.Log, s.Got, s.First, s.Outcome, s.Going, SizeFrom, TotalLength, HeaderLen;
    if n == 1 {
      FedSizes(s, n, file);
      FirstPieceSizes(s, file);
    } else {
      FedBefore(s, n, file);
      OneLess(n, s.safe);
      PieceByPiece(s, n - 1, file);
      OnePiece(s, n, file);
    }
  }

  lemma FedSizes(s: Stream, n: nat, file: Bytes)
    requires Fed(s, n, file)
    ensures 1 <= s.safe <= LE_MAX && 0 < TotalLength(file) <= |file|
  {
    hide TotalLength, HeaderLen, PlainReads;
  }

  lemma OneLess(n: nat, safe: nat)
    requires n > 1
    ensures (n - 1) * safe == (n - 2) * safe + safe && n * safe == (n - 1) * safe + safe
  {
  }

  lemma OnePiece(s: Stream, n: nat, file: Bytes)
    requires n > 1 && Fed(s, n, file) && (n - 1) * s.safe <= SHORT_OFFSET_MAX && s.Going(n - 1)
    requires |s.Got(n - 1)| == PiecesLen(n - 1, s.safe, TotalLength(file))
    requires s.Size(n - 1) == TotalLength(file) && s.First(n - 1) != []
    ensures |s.Got(n)| == PiecesLen(n, s.safe, TotalLength(file))
    ensures s.Size(n) == TotalLength(file) && s.First(n) != [] && s.RoundEnd(n) == None
  {
    hide s.Log, s.GotIn, s.WantIn, PlainReads, SizeFrom, TotalLength, HeaderLen, IsRead, s.Reaches, s.Going, s.First, s.Outcome;
    NotFullYet(s, n - 1);
    s.Next(n - 1);
    RoundOutcome(s, n, file);
    s.GotStep(n);
    OneLess(n, s.safe);
  }

  /** A read past the last offset the even instruction can name is the last. */
  lemma OutOfReach(s: Stream, n: nat, file: Bytes)
    requires n > 1 && Fed(s, n, file) && (n - 2) * s.safe <= SHORT_OFFSET_MAX < (n - 1) * s.safe
    ensures s.RoundEnd(n) == Some(Aborted(Unsupported))
  {
    hide s.Log, s.GotIn, s.WantIn, PlainReads, SizeFrom, TotalLength, HeaderLen, IsRead, s.Reaches, s.Going, s.First, s.Outcome;
    FedBefore(s, n, file);
    FedSizes(s, n, file);
    PieceByPiece(s, n - 1, file);
    NotFullYet(s, n - 1);
    s.Next(n - 1);
    OneLess(n, s.safe);
    RoundOutcome(s, n, file);
  }

  lemma {:induction false} ReachesNoFurther(s: Stream, n: nat, file: Bytes)
    requires n > 1 && Fed(s, n, file)
    ensures (n - 2) * s.safe <= SHORT_OFFSET_MAX
    decreases n
  {
    hide Fed, s.Log, s.RoundEnd, s.Full, SizeFrom;
    if n > 2 {
      FedBefore(s, n, file);
      ReachesNoFurther(s, n - 1, file);
      if (n - 2) * s.safe > SHORT_OFFSET_MAX {
        OutOfReach(s, n - 1, file);
      }
    }
  }

  /** Where the last piece of an object begins. */
  function LastPiece(total: nat, safe: nat): nat
    requires total > 0 && safe > 0
  {
    (total - 1) / safe * safe
  }

  lemma LastPieceIs(total: nat, safe: nat, n: nat)
    requires n > 0 && 0 < safe && (n - 1) * safe < total
    ensures (n - 1) * safe <= LastPiece(total, safe)
    ensures n * safe >= total ==> LastPiece(total, safe) == (n - 1) * safe
  {
    var q := (total - 1) / safe;
    assert total - 1 == q * safe + (total - 1) % safe;
    assert q < n - 1 ==> (q + 1) * safe <= (n - 1) * safe;
    assert q > n - 1 ==> n * safe <= q * safe;
  }

  /** What a stream nobody stops comes to: the whole object, or a refusal once the offset is out of reach. */
  lemma PiecesAddUp(s: Stream, n: nat, file: Bytes)
    requires Fed(s, n, file) && !s.Going(n) && AllServe(file, s.Log(n), |s.start|)
    ensures 0 < TotalLength(file) && 0 < s.safe
    ensures
      if LastPiece(TotalLength(file), s.safe) <= SHORT_OFFSET_MAX then
        !s.End(n).Aborted? && s.Got(n) == file[..TotalLength(file)]
      else s.End(n) == Aborted(Unsupported)
  {
    hide Fed, AllServe, s.Log, s.Got, s.First, s.Outcome, s.RoundEnd, SizeFrom, TotalLength, HeaderLen;
    FedSizes(s, n, file);
    var total := TotalLength(file);
    FedBefore(s, n, file);
    if (n - 1) * s.safe <= SHORT_OFFSET_MAX {
      PieceByPiece(s, n, file);
      FullAt(s, n, file);
    } else {
      OneLess(n, s.safe);
      ReachesNoFurther(s, n, file);
      OutOfReach(s, n, file);
      PieceByPiece(s, n - 1, file);
      NotFullYet(s, n - 1);
      LastPieceIs(total, s.safe, n);
    }
  }

  lemma FullAt(s: Stream, n: nat, file: Bytes)
    requires n > 0 && Fed(s, n, file) && !s.Going(n) && AllServe(file, s.Log(n), |s.start|)
    requires (n - 1) * s.safe <= SHORT_OFFSET_MAX
    requires |s.Got(n)| == PiecesLen(n, s.safe, TotalLength(file)) && s.Size(n) == TotalLength(file) && s.RoundEnd(n) == None
    ensures s.Got(n) == file[..TotalLength(file)] && LastPiece(TotalLength(file), s.safe) <= SHORT_OFFSET_MAX
  {
    hide AllServe, s.Log, s.Got, s.First, s.Outcome, s.RoundEnd, SizeFrom, TotalLength, HeaderLen, PlainReads;
    ServedHead(s, n, file);
    FedBefore(s, n, file);
    if n > 1 {
      OneLess(n, s.safe);
      PieceByPiece(s, n - 1, file);
      NotFullYet(s, n - 1);
    }
    LastPieceIs(TotalLength(file), s.safe, n);
    assert s.Got(n) == file[..|s.Got(n)|];
  }

  /**
   * Read through all the layers, a file that holds one object whose header fits one piece is got whole
   * exactly when its last piece begins where the even instruction can name it; otherwise the read fails,
   * because the document does not support the odd one.
   */
  lemma StackRead(k: Stack, s: Stream, n: nat, i: nat, fsd: nat)
    requires OverStack(k, s, i, fsd) && s.Reaches(n) && !s.Going(n)
    requires var file := k.document.files[i].data; HoldsObject(file) && HeaderLen(file) <= s.safe
    ensures
      var file := k.document.files[i].data;
      && 0 < TotalLength(file) && 0 < s.safe
      && if LastPiece(TotalLength(file), s.safe) <= SHORT_OFFSET_MAX then
           !s.End(n).Aborted? && s.Got(n) == file[..TotalLength(file)]
         else s.End(n) == Aborted(Unsupported)
  {
    hide Stacked, InStep, Asks, PlainReads, FrameBudget.ChunkSize, SizeFrom, TotalLength, HeaderLen, s.Log, s.Going, s.End, s.Got;
    var file := k.document.files[i].data;
    FrameBudget.ChunkFits(fsd, BlockSize(k.session.suite));
    StreamInStep(k, s, n, i, fsd);
    StreamAsks(s, n);
    AsksLess(s.Log(n), |s.start|, s.safe);
    PlainReadsServe(file, s.Log(n), |s.start|);
    PiecesAddUp(s, n, file);
  }

  lemma AsksLess(log: seq<Exchange>, from: nat, safe: nat)
    requires Asks(log, from, safe) && safe <= LE_MAX
    ensures Asks(log, from, LE_MAX)
  {
  }

  // ---- A file, and a whole read ------------------------------------------------------------

  /** A stream that has not ended asks for at least a byte. */
  lemma WantsSome(s: Stream, n: nat)
    requires s.Going(n) && 1 <= s.safe <= LE_MAX
    ensures 1 <= s.Want(n) <= LE_MAX
  {
    hide s.Log, s.Going, Pieces, FirstData;
    NotFullYet(s, n);
  }

  /** However it ends, a stream over the stack does not fail for the loss of the link or of the session. */
  lemma StackEnd(k: Stack, s: Stream, n: nat, i: nat, fsd: nat)
    requires OverStack(k, s, i, fsd) && s.Reaches(n) && !s.Going(n) && s.End(n).Aborted?
    ensures s.End(n).error == Unsupported || s.End(n).error == Error.Apdu
  {
    hide Stacked, InStep, PlainReads, FrameBudget.ChunkSize, SizeFrom, s.Log, s.Want, s.RoundEnd, s.Full;
    FrameBudget.ChunkFits(fsd, BlockSize(k.session.suite));
    StreamInStep(k, s, n, i, fsd);
    WantsSome(s, n - 1);
    RoundError(s, n, k.document.files[i].data);
  }

  /** What becomes of a file: absent when the document has none; got whole or out of reach when it is an object. */
  ghost predicate Delivered(w: Worker, sod: Option<Sod>, d: Decoders, id: nat, roomy: bool, files: seq<DocumentFile>,
                            safe: nat, entry: Entry)
    requires id < FILE_COUNT && safe > 0
  {
    var i := IndexOf(files, ByFid(FidOf(id)));
    if i.None? then entry == Entry(Absent, Unknown, Some(FileNotFound), 0)
    else
      var file := files[i.value].data;
      HoldsObject(file) && HeaderLen(file) <= safe ==>
        if LastPiece(TotalLength(file), safe) <= SHORT_OFFSET_MAX then
          Concluded(w, sod, d, id, roomy, Complete, file[..TotalLength(file)], None, entry)
        else entry.state == FileFailed && entry.hash == Unknown && entry.error == Some(Unsupported)
  }

  /** The errors that a file of the document may end with. */
  predicate Harmless(e: Option<Error>) {
    e == None || e == Some(Unsupported) || e == Some(Error.Apdu)
  }

  /** SELECT over the stack: granted exactly when the document has the file, which then is selected. */
  lemma SelectOverStack(w: Worker, k: Stack, log: seq<Exchange>, id: nat)
    requires id < FILE_COUNT && Stacked(w.chip, k) && InStep(k, log)
    ensures
      var i := IndexOf(k.document.files, ByFid(FidOf(id)));
      var x := Selecting(w, log, id);
      && x.answer == Ok(Only(if i.None? then SW_FILE_NOT_FOUND else SW_OK)) && InStep(k, log + [x])
      && (i.Some? ==> Now(k, log + [x]).selected == i)
  {
    hide Stacked, EndsAfter, Exchangeable, Execute, IndexOf, SelectFile;
    SelectFits(k.session, Now(k, log), id);
    PlainAnswer(k, w.chip, log, SelectFile(id));
    assert Attempt(w.chip, log, SelectFile(id)) == log + [Selecting(w, log, id)];
  }

  /** One file over the stack, when nobody asks for a stop. */
  lemma FileOverStack(w: Worker, k: Stack, t: Terms, d: Decoders, id: nat, roomy: bool, leg: Leg, entry: Entry)
    requires id < FILE_COUNT && Stacked(w.chip, k) && InStep(k, leg.before)
    requires t.block == BlockSize(k.session.suite) && !t.stopped && FileRead(w, t, d, id, roomy, leg, entry)
    ensures InStep(k, leg.after) && Harmless(leg.error)
    ensures FrameBudget.ChunkSize(w.fsd, t.block) > 0
    ensures Delivered(w, t.sod, d, id, roomy, k.document.files, FrameBudget.ChunkSize(w.fsd, t.block), entry)
  {
    hide Stacked, InStep, FrameBudget.ChunkSize, SizeFrom, TotalLength, HeaderLen, HoldsObject, IndexOf, Concluded, LastPiece;
    hide Stream.Log, Stream.Got, Stream.Going, Stream.Reaches, Stream.End, SelectFile, Verdict, DigestValue;
    FrameBudget.ChunkFits(w.fsd, t.block);
    SelectOverStack(w, k, leg.before, id);
    if ReadOut(w, t, d, id, roomy, leg, entry) {
      StreamOverStack(w, k, t, d, id, roomy, leg, entry);
    }
  }

  lemma StreamOverStack(w: Worker, k: Stack, t: Terms, d: Decoders, id: nat, roomy: bool, leg: Leg, entry: Entry)
    requires id < FILE_COUNT && Stacked(w.chip, k) && InStep(k, leg.before)
    requires t.block == BlockSize(k.session.suite) && !t.stopped && ReadOut(w, t, d, id, roomy, leg, entry)
    ensures InStep(k, leg.after) && Harmless(leg.error)
    ensures FrameBudget.ChunkSize(w.fsd, t.block) > 0
    ensures Delivered(w, t.sod, d, id, roomy, k.document.files, FrameBudget.ChunkSize(w.fsd, t.block), entry)
  {
    hide Stacked, EndsAfter, FrameBudget.ChunkSize, SizeFrom, TotalLength, HeaderLen, HoldsObject, IndexOf, LastPiece;
    hide Stream.Log, Stream.Got, Stream.Going, Stream.Reaches, Stream.End, SelectFile, Verdict, DigestValue;
    FrameBudget.ChunkFits(w.fsd, t.block);
    SelectOverStack(w, k, leg.before, id);
    var i := IndexOf(k.document.files, ByFid(FidOf(id)));
    var s, n := LegStream(w, t.block, id, leg), leg.rounds;
    StreamInStep(k, s, n, i.value, w.fsd);
    if s.End(n).Aborted? {
      StackEnd(k, s, n, i.value, w.fsd);
    }
    var file := k.document.files[i.value].data;
    if HoldsObject(file) && HeaderLen(file) <= s.safe {
      StackRead(k, s, n, i.value, w.fsd);
    }
  }

  /** Every leg of a trail over the stack, when nobody asks for a stop. */
  lemma {:induction false} LegOverStack(w: Worker, k: Stack, t: Terms, d: Decoders, a: ReadRun.Agenda, start: seq<Exchange>,
                                        end: seq<Exchange>, entries: seq<Entry>, trail: seq<Leg>, j: nat)
    requires Stacked(w.chip, k) && |start| == k.base && t.block == BlockSize(k.session.suite) && !t.stopped
    requires ReadRun.Linked(start, end, trail) && ReadRun.AllScored(w, t, d, a, entries, trail) && j < |trail|
    ensures InStep(k, trail[j].after) && Harmless(trail[j].error) && FrameBudget.ChunkSize(w.fsd, t.block) > 0
    ensures j < DG1 || ReadRun.Planned(j, a.present, a.selected) ==>
      Delivered(w, t.sod, d, j, a.roomy(j), k.document.files, FrameBudget.ChunkSize(w.fsd, t.block), entries[j])
    decreases j
  {
    hide Stacked, InStep, FileRead, Delivered, FrameBudget.ChunkSize;
    FrameBudget.ChunkFits(w.fsd, t.block);
    if j == 0 {
      InStepAtFirst(k, w.chip, start);
    } else {
      LegOverStack(w, k, t, d, a, start, end, entries, trail, j - 1);
      assert ReadRun.Follows(trail, j);
    }
    assert ReadRun.Scored(w, t, d, a, j, entries[j], trail[j]);
    if FileRead(w, t, d, j, a.roomy(j), trail[j], entries[j]) {
      FileOverStack(w, k, t, d, j, a.roomy(j), trail[j], entries[j]);
    }
  }

  /**
   * A whole read through all the layers, of a document in session with the reader, when nobody asks for a
   * stop: it reaches every file and ends without an error; and of the files that are planned, those the
   * document has not are absent, and every object whose header fits one piece is got whole, hashed and
   * decoded, unless it reaches past the offsets that the document supports.
   */
  lemma ProtectedRun(w: Worker, k: Stack, d: Decoders, a: ReadRun.Agenda, opening: seq<Exchange>, trail: seq<Leg>)
    requires Stacked(w.chip, k) && |opening| == k.base && w.block == BlockSize(k.session.suite) && !w.stopRequested
    requires ReadRun.Trailed(w, d, a, opening, trail) && ReadRun.Ended(w, trail) && trail != []
    ensures |trail| == FILE_COUNT == |w.entries| && w.error == None && FrameBudget.ChunkSize(w.fsd, w.block) > 0
    ensures forall id :: 0 <= id < FILE_COUNT && (id < DG1 || ReadRun.Planned(id, a.present, a.selected)) ==>
      Delivered(w, w.sod, d, id, a.roomy(id), k.document.files, FrameBudget.ChunkSize(w.fsd, w.block), w.entries[id])
  {
    hide Stacked, InStep, Delivered, FrameBudget.ChunkSize, ReadRun.Scored, ReadRun.Linked, ReadRun.Steered;
    var t := TermsOf(w);
    LegOverStack(w, k, t, d, a, opening, w.log, w.entries, trail, |trail| - 1);
    forall id | 0 <= id < FILE_COUNT && (id < DG1 || ReadRun.Planned(id, a.present, a.selected))
      ensures Delivered(w, w.sod, d, id, a.roomy(id), k.document.files, FrameBudget.ChunkSize(w.fsd, w.block), w.entries[id])
    {
      LegOverStack(w, k, t, d, a, opening, w.log, w.entries, trail, id);
    }
  }
}
