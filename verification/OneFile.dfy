/**
 * One file, start to finish: selected, streamed, decoded and scored, with the account of hashes kept
 * on the way.
 */
module OneFile {
  import opened Bytes
  import opened Errors
  import opened Apdu
  import opened Progress
  import opened ReadStream
  import opened FileReader
  import Export

  // ---- The catalogue -----------------------------------------------------------------------

  const COM := 0
  const SOD := 1
  const DG1 := 2
  const DG2 := 3

  /** The data group a file is, or -1 for EF.COM and EF.SOD. */
  function DgNumber(id: nat): int {
    if id < DG1 then -1 else id - 1
  }

  /** DG3 and DG4 need a terminal certificate. */
  predicate EacProtected(id: nat) {
    id == 4 || id == 5
  }

  function Fid(id: nat): Bytes
    requires id < FILE_COUNT
  {
    [0x01, if id == COM then 0x1E else if id == SOD then 0x1D else id - 1]
  }

  function SelectFile(id: nat): Command
    requires id < FILE_COUNT
  {
    Command(0x00, 0xA4, 0x02, 0x0C, Fid(id), LE_NONE)
  }

  /** How much of a file may be held in memory so that it can be decoded. */
  function ParseCap(id: nat): nat {
    if id == SOD then 6 * 1024
    else if id == COM then 512
    else if id == DG1 then 256
    else if id == 12 || id == 13 || id == 15 || id == 16 then 2 * 1024
    else 0
  }

  /** Which files are kept, and how much of them: EF.COM, EF.SOD, and the data groups 1, 11, 12, 14 and 15. */
  lemma CapsInNumbers(id: nat)
    requires id < 18
    ensures ParseCap(id) == if id == 0 then 512 else if id == 1 then 6144 else if DgNumber(id) == 1 then 256
                            else if DgNumber(id) in {11, 12, 14, 15} then 2048 else 0
    ensures DgNumber(DG1) == 1 && DgNumber(DG2) == 2
  {
  }

  // ---- The accounts ------------------------------------------------------------------------

  function CountHashes(entries: seq<Entry>, counted: HashState -> bool): nat {
    if entries == [] then 0
    else CountHashes(entries[..|entries| - 1], counted) + if counted(entries[|entries| - 1].hash) then 1 else 0
  }

  lemma {:induction false} CountUpdate(entries: seq<Entry>, id: nat, e: Entry, counted: HashState -> bool)
    requires id < |entries|
    ensures CountHashes(entries[id := e], counted) + (if counted(entries[id].hash) then 1 else 0)
            == CountHashes(entries, counted) + if counted(e.hash) then 1 else 0
    decreases |entries|
  {
    var n := |entries| - 1;
    if id == n {
      assert entries[id := e][..n] == entries[..n];
    } else {
      assert entries[id := e][..n] == entries[..n][id := e];
      CountUpdate(entries[..n], id, e, counted);
    }
  }

  lemma {:induction false} CountNone(entries: seq<Entry>, counted: HashState -> bool)
    requires forall e :: e in entries ==> !counted(e.hash)
    ensures CountHashes(entries, counted) == 0
    decreases |entries|
  {
    if entries != [] {
      CountNone(entries[..|entries| - 1], counted);
    }
  }

  function IsDecided(): HashState -> bool {
    h => h == Match || h == Mismatch
  }

  function IsMatch(): HashState -> bool {
    h => h == Match
  }

  /** The two counters are what a recount over the files would give. */
  predicate Accounts(entries: seq<Entry>, checked: nat, matched: nat) {
    checked == CountHashes(entries, IsDecided()) && matched == CountHashes(entries, IsMatch())
  }

  /** A file's entry changes from undecided to any verdict, and the counters with it. */
  lemma AccountsKept(entries: seq<Entry>, id: nat, e: Entry, checked: nat, matched: nat)
    requires id < |entries| && Accounts(entries, checked, matched) && !Decided(entries[id].hash)
    ensures Accounts(entries[id := e], checked + (if Decided(e.hash) then 1 else 0), matched + if e.hash == Match then 1 else 0)
  {
    CountUpdate(entries, id, e, IsDecided());
    CountUpdate(entries, id, e, IsMatch());
  }

  /** Never more matches than comparisons, and never more comparisons than files. */
  lemma {:induction false} AccountsBounded(entries: seq<Entry>)
    ensures CountHashes(entries, IsMatch()) <= CountHashes(entries, IsDecided()) <= |entries|
    decreases |entries|
  {
    if entries != [] {
      AccountsBounded(entries[..|entries| - 1]);
    }
  }

  // ---- One file ----------------------------------------------------------------------------

  /** What the decoders make of a file that was kept; EF.COM and EF.SOD steer the rest of the read. */
  datatype Decoders = Decoders(
    com: Bytes -> Option<set<nat>>,
    sod: Bytes -> Option<Sod>,
    other: (nat, Bytes) -> Option<Error>
  )

  function DecodeError(d: Decoders, id: nat, data: Bytes): Option<Error> {
    if id == COM then (if d.com(data).Some? then None else Some(Error.Parse))
    else if id == SOD then (if d.sod(data).Some? then None else Some(Error.Parse))
    else d.other(id, data)
  }

  /** A file is decoded when it is one of those, there was room to keep it, and it fitted. */
  predicate Kept(id: nat, roomy: bool, got: Bytes) {
    roomy && 0 < |got| <= ParseCap(id)
  }

  /** How a file whose stream did not fail is entered. */
  function ReadState(d: Decoders, id: nat, roomy: bool, got: Bytes): (FileState, Option<Error>) {
    if ParseCap(id) > 0 && roomy && |got| > ParseCap(id) then (FileFailed, Some(BufferTooSmall))
    else (Read, if Kept(id, roomy, got) then DecodeError(d, id, got) else None)
  }

  /** What becomes of a file that was got: decoded if it was kept whole, failed if it was too long for its buffer. */
  lemma StateInNumbers(d: Decoders, id: nat, roomy: bool, got: Bytes)
    requires id < 18
    ensures
      var room := if id == 0 then 512 else if id == 1 then 6144 else if id == 2 then 256
                  else if id in {12, 13, 15, 16} then 2048 else 0;
      ReadState(d, id, roomy, got)
      == if !roomy || got == [] || room == 0 then (Read, None)
         else if |got| > room then (FileFailed, Some(BufferTooSmall))
         else if id == 0 && d.com(got).None? then (Read, Some(Error.Parse))
         else if id == 1 && d.sod(got).None? then (Read, Some(Error.Parse))
         else (Read, if id < 2 then None else d.other(id, got))
    ensures Kept(id, roomy, got) <==> ReadState(d, id, roomy, got).0 == Read && roomy && got != [] && ParseCap(id) > 0
  {
    CapsInNumbers(id);
  }

  /** The state between two files. */
  ghost predicate Between(w: Worker)
    reads w`block, w`entries, w`digest, w`hashesChecked, w`hashesMatched, w.sink
  {
    w.Valid() && w.digest == None && Accounts(w.entries, w.hashesChecked, w.hashesMatched)
  }

  /** EF.COM and EF.SOD leave what they say behind when they decode; no other file does. */
  ghost predicate Steers(w: Worker, d: Decoders, id: nat, data: Bytes, present: Option<set<nat>>, sod: Option<Sod>)
    reads w`present, w`sod
  {
    && w.present == (if id == COM && d.com(data).Some? then d.com(data) else present)
    && w.sod == (if id == SOD && d.sod(data).Some? then d.sod(data) else sod)
  }

  method Decode(w: Worker, d: Decoders, id: nat, data: Bytes) returns (e: Option<Error>)
    modifies w`present, w`sod
    ensures e == DecodeError(d, id, data) && Steers(w, d, id, data, old(w.present), old(w.sod))
  {
    if id == COM {
      var com := d.com(data);
      if com.Some? {
        w.present := com;
        return None;
      }
      return Some(Error.Parse);
    } else if id == SOD {
      var sod := d.sod(data);
      if sod.Some? {
        w.sod := sod;
        return None;
      }
      return Some(Error.Parse);
    }
    return d.other(id, data);
  }

  /** Mark an entry whose hash has not been decided. */
  method Mark(w: Worker, id: nat, e: Entry)
    requires Between(w) && id < FILE_COUNT && !Decided(w.entries[id].hash) && !Decided(e.hash)
    modifies w`entries
    ensures Between(w) && w.entries == old(w.entries)[id := e]
  {
    AccountsKept(w.entries, id, e, w.hashesChecked, w.hashesMatched);
    w.entries := w.entries[id := e];
  }

  /** Keep the verdict of an entry, whatever it is, and change the rest of it. */
  method Conclude(w: Worker, id: nat, state: FileState, error: Option<Error>)
    requires Between(w) && id < FILE_COUNT
    modifies w`entries
    ensures Between(w) && w.entries == old(w.entries)[id := old(w.entries[id]).(state := state, error := error)]
  {
    var e := w.entries[id].(state := state, error := error);
    CountUpdate(w.entries, id, e, IsDecided());
    CountUpdate(w.entries, id, e, IsMatch());
    w.entries := w.entries[id := e];
  }

  /** The percentage between files. */
  function Floor(w: Worker): nat
    reads w`filesTotal, w`filesDone
  {
    Percent(w.filesTotal, w.filesDone, 0, 0)
  }

  /** Every READ BINARY so far asked for no more than one frame carries, in the clear and in the session. */
  ghost predicate InBudget(w: Worker)
    reads w`log, w`block, w`sessionAt
  {
    && w.sessionAt <= |w.log|
    && Asks(w.log[..w.sessionAt], 0, FrameBudget.ChunkSize(w.fsd, 0))
    && Asks(w.log, w.sessionAt, FrameBudget.ChunkSize(w.fsd, w.block))
  }

  lemma AsksOneMore(log: seq<Exchange>, e: Exchange, from: nat, safe: nat)
    requires from <= |log| && Asks(log, from, safe) && ReadOffset(e.command) == None
    ensures Asks(log + [e], from, safe)
  {
  }

  lemma AsksJoined(before: seq<Exchange>, log: seq<Exchange>, from: nat, safe: nat)
    requires from <= |before| && before <= log
    requires Asks(before, from, safe) && Asks(log, |before|, safe)
    ensures Asks(log, from, safe)
  {
    forall i | from <= i < |log| && ReadOffset(log[i].command).Some? ensures 1 <= log[i].command.le <= safe {
      if i < |before| {
        assert log[i] == log[..|before|][i];
      }
    }
  }

  method Select(w: Worker, c: Command) returns (r: Result<Response>)
    requires ReadOffset(c) == None && InBudget(w)
    modifies w`log
    ensures InBudget(w) && r == w.chip(old(w.log), c) && w.log == old(w.log) + [Exchange(c, r)]
  {
    hide FrameBudget.ChunkSize, Asks;
    AsksOneMore(w.log, Exchange(c, w.chip(w.log, c)), w.sessionAt, FrameBudget.ChunkSize(w.fsd, w.block));
    r := w.Transmit(c);
    assert w.log[..w.sessionAt] == old(w.log)[..w.sessionAt];
  }

  /** A stream keeps the budget. */
  lemma StreamInBudget(w: Worker, s: Stream, n: nat)
    requires FrameBudget.IsBlock(w.block) && s.safe == FrameBudget.ChunkSize(w.fsd, w.block) && w.sessionAt <= |s.start|
    requires Asks(s.start[..w.sessionAt], 0, FrameBudget.ChunkSize(w.fsd, 0))
    requires Asks(s.start, w.sessionAt, s.safe)
    requires s.Reaches(n) && w.log == s.Log(n)
    ensures InBudget(w) && s.start <= w.log
  {
    hide FrameBudget.ChunkSize, Asks, s.Log, s.Going;
    FrameBudget.ChunkFits(w.fsd, w.block);
    s.StartKept(n);
    StreamAsks(s, n);
    AsksJoined(s.start, w.log, w.sessionAt, s.safe);
    assert w.log[..w.sessionAt] == s.start[..w.sessionAt];
  }

  /** What reading a file leaves alone. */
  ghost predicate Elsewhere(w: Worker, id: nat, entries: seq<Entry>)
    reads w`entries
  {
    |w.entries| == |entries| && forall j :: 0 <= j < |entries| && j != id ==> w.entries[j] == entries[j]
  }

  /** On a medium that takes everything, an export that has not failed holds the file and its image. */
  ghost predicate Exported(w: Worker, id: nat, got: Bytes, failed: bool)
    reads w`face, w.sink
  {
    && (failed ==> w.sink.failed) && (Export.Roomy(w.sink.medium) ==> w.sink.failed == failed)
    && (!w.sink.failed ==> w.sink.file == got)
    && (!w.sink.failed && id == DG2 && w.face.Some? && Export.Roomy(w.sink.medium) ==>
          w.face.value.offset < |got| && w.sink.image == got[w.face.value.offset..])
  }

  /** Export, stream and score the file that has just been selected. */
  method StreamSelected(w: Worker, id: nat, parse: ParseBuffer?) returns (ended: Ending, ghost n: nat)
    requires Between(w) && InBudget(w) && id < FILE_COUNT && w.entries[id].hash == Unknown
    requires id == DG2 ==> w.face == None
    requires parse != null ==> parse.Valid() && parse.offered == [] && parse.data != w.lookahead
    requires Rising(w.reports, Floor(w))
    modifies w`log, w`polls, w`stopRequested, w`reports, w`digest, w`face, w`faceSize, w`entries
    modifies w`hashesChecked, w`hashesMatched, w.sink, w.lookahead, parse, if parse == null then {} else {parse.data}
    ensures Between(w) && InBudget(w) && old(w.log) <= w.log && w.Heeds(old(w.Stand()), w.Stand())
    ensures id != DG2 ==> w.face == old(w.face)
    ensures Streamed(w.StreamFrom(old(w.log)), n, w.log, ended, w.stopRequested)
    ensures Elsewhere(w, id, old(w.entries))
    ensures
      var got := w.StreamFrom(old(w.log)).Got(n);
      && (parse != null ==> parse.Valid() && parse.offered == got) && Exported(w, id, got, old(w.sink.failed))
      && w.entries[id] == old(w.entries)[id].(
           size := |got|,
           hash := if ended.Aborted? then Unknown else Verdict(w.sod, DgNumber(id), DigestValue(w.hashes, w.sod, got)))
    ensures Rising(w.reports, Percent(w.filesTotal, w.filesDone + 1, 0, 0))
  {
    hide FrameBudget.ChunkSize, Asks, Percent, Rising, Verdict, DigestValue, Accounts, CountHashes, Export.Roomy;
    hide Stream.Log, Stream.Got, Stream.Going, Stream.End, SizeFrom, w.Heeds, FaceImage.FindFrom;
    var _ := w.sink.BeginFile();
    ghost var before, entries, checked, matched := w.log, w.entries, w.hashesChecked, w.hashesMatched;
    ended, n := w.StreamFile(id, DgNumber(id), id == DG2, parse);
    StreamInBudget(w, w.StreamFrom(before), n);
    AccountsKept(entries, id, w.entries[id], checked, matched);
    w.sink.EndFile();
  }

  /** What a file is read under: the session's block, what EF.COM and EF.SOD said, and whether a stop is on record. */
  datatype Terms = Terms(block: nat, present: Option<set<nat>>, sod: Option<Sod>, stopped: bool)

  function TermsOf(w: Worker): Terms
    reads w`block, w`present, w`sod, w`stopRequested
  {
    Terms(w.block, w.present, w.sod, w.stopRequested)
  }

  /** How the entry of a file that was selected ends up, and what reading it comes to. */
  ghost predicate Concluded(w: Worker, sod: Option<Sod>, d: Decoders, id: nat, roomy: bool, ended: Ending, got: Bytes,
                            e: Option<Error>, entry: Entry) {
    if ended.Aborted? then
      e == Some(ended.error) && entry == Entry(FileFailed, Unknown, e, |got|)
    else
      var (state, error) := ReadState(d, id, roomy, got);
      e == None && entry == Entry(state, Verdict(sod, DgNumber(id), DigestValue(w.hashes, sod, got)), error, |got|)
  }

  /** EF.COM and EF.SOD are not compared with anything, whatever EF.SOD says. */
  lemma NoVerdict(sod: Option<Sod>, dg: int, digest: Option<Bytes>)
    ensures dg < 0 ==> Verdict(sod, dg, digest) == Unknown
  {
  }

  /** Decode what was kept of a streamed file, and enter what became of it. */
  method DecodeKept(w: Worker, d: Decoders, id: nat, roomy: bool, parse: ParseBuffer?, ended: Ending, ghost got: Bytes)
    returns (e: Option<Error>)
    requires Between(w) && id < FILE_COUNT
    requires parse == null <==> ParseCap(id) == 0 || !roomy
    requires parse != null ==> parse.Valid() && parse.offered == got && parse.data.Length == ParseCap(id)
    requires w.entries[id].size == |got| && (!ended.Aborted? ==>
      w.entries[id].hash == Verdict(w.sod, DgNumber(id), DigestValue(w.hashes, w.sod, got)))
    requires ended.Aborted? ==> w.entries[id].hash == Unknown
    modifies w`entries, w`present, w`sod
    ensures Between(w) && Elsewhere(w, id, old(w.entries)) && Concluded(w, w.sod, d, id, roomy, ended, got, e, w.entries[id])
    ensures if !ended.Aborted? && Kept(id, roomy, got) then Steers(w, d, id, got, old(w.present), old(w.sod))
            else w.present == old(w.present) && w.sod == old(w.sod)
  {
    hide Verdict, DigestValue, Accounts, CountHashes;
    ghost var sod := w.sod;
    var state, error := Read, None;
    if ended.Aborted? {
      state, error, e := FileFailed, Some(ended.error), Some(ended.error);
    } else {
      e := None;
      if parse != null && parse.overflowed {
        state, error := FileFailed, Some(BufferTooSmall);
      } else if parse != null && parse.len > 0 {
        error := Decode(w, d, id, parse.data[..parse.len]);
      }
    }
    NoVerdict(sod, DgNumber(id), DigestValue(w.hashes, sod, got));
    NoVerdict(w.sod, DgNumber(id), DigestValue(w.hashes, w.sod, got));
    Conclude(w, id, state, error);
  }

  /** Stream and decode the file that has just been selected. */
  method ReadSelected(w: Worker, d: Decoders, id: nat, roomy: bool)
    returns (e: Option<Error>, ended: Ending, ghost n: nat)
    requires Between(w) && InBudget(w) && id < FILE_COUNT && w.entries[id] == Entry(Reading, Unknown, None, 0)
    requires id == DG2 ==> w.face == None
    requires Rising(w.reports, Floor(w))
    modifies w`log, w`polls, w`stopRequested, w`reports, w`digest, w`face, w`faceSize, w`entries
    modifies w`hashesChecked, w`hashesMatched, w`present, w`sod, w.sink, w.lookahead
    ensures Between(w) && InBudget(w) && old(w.log) <= w.log && w.Heeds(old(w.Stand()), w.Stand())
    ensures id != DG2 ==> w.face == old(w.face)
    ensures Streamed(w.StreamFrom(old(w.log)), n, w.log, ended, w.stopRequested)
    ensures Elsewhere(w, id, old(w.entries))
    ensures
      var got := w.StreamFrom(old(w.log)).Got(n);
      && Concluded(w, w.sod, d, id, roomy, ended, got, e, w.entries[id]) && Exported(w, id, got, old(w.sink.failed))
      && if !ended.Aborted? && Kept(id, roomy, got) then Steers(w, d, id, got, old(w.present), old(w.sod))
         else w.present == old(w.present) && w.sod == old(w.sod)
    ensures Rising(w.reports, Percent(w.filesTotal, w.filesDone + 1, 0, 0))
  {
    hide Between, InBudget, Percent, Rising, Verdict, DigestValue, Export.Roomy, Streamed, Exported, Concluded;
    hide FrameBudget.ChunkSize, Steers, Stream.Log, Stream.Got, SizeFrom, w.Heeds;
    ghost var before := w.log;
    var parse: ParseBuffer? := null;
    if ParseCap(id) > 0 && roomy {
      parse := new ParseBuffer(ParseCap(id));
    }
    ended, n := StreamSelected(w, id, parse);
    e := DecodeKept(w, d, id, roomy, parse, ended, w.StreamFrom(before).Got(n));
  }

  // ---- What reading a file amounts to ------------------------------------------------------

  /** The stretch of traffic that one file took, how its stream ended after how many rounds, and the error returned. */
  datatype Leg = Leg(before: seq<Exchange>, after: seq<Exchange>, error: Option<Error>, ended: Ending, rounds: nat)

  function Selecting(w: Worker, log: seq<Exchange>, id: nat): Exchange
    requires id < FILE_COUNT
  {
    Exchange(SelectFile(id), w.chip(log, SelectFile(id)))
  }

  /** The stream of the file, from right behind its SELECT. */
  function LegStream(w: Worker, block: nat, id: nat, leg: Leg): Stream
    requires id < FILE_COUNT
  {
    Stream(w.chip, leg.before + [Selecting(w, leg.before, id)], FrameBudget.ChunkSize(w.fsd, block), SizeFrom)
  }

  /** A file not streamed: a stop was seen before anything was sent, the SELECT failed, or it was refused. */
  ghost predicate Unread(w: Worker, stopped: bool, id: nat, leg: Leg, entry: Entry)
    requires id < FILE_COUNT
  {
    var x := Selecting(w, leg.before, id);
    if leg.after == leg.before then
      stopped && leg.error == Some(Cancelled) && entry == Entry(FileFailed, Unknown, leg.error, 0)
    else if x.answer.Err? then
      leg.after == leg.before + [x] && leg.error == Some(x.answer.error) && entry == Entry(FileFailed, Unknown, leg.error, 0)
    else
      var refused := FromSw(x.answer.value.sw);
      && leg.after == leg.before + [x] && x.answer.value.sw != 0x9000 && leg.error == None
      && entry == Entry(if refused == Some(FileNotFound) then Absent else FileFailed, Unknown, refused, 0)
  }

  /** A file streamed: all the traffic behind its SELECT is its stream's, and the entry is about what that got. */
  ghost predicate ReadOut(w: Worker, t: Terms, d: Decoders, id: nat, roomy: bool, leg: Leg, entry: Entry)
    requires id < FILE_COUNT
  {
    var s := LegStream(w, t.block, id, leg);
    && Granted(Selecting(w, leg.before, id).answer)
    && Streamed(s, leg.rounds, leg.after, leg.ended, t.stopped)
    && Concluded(w, t.sod, d, id, roomy, leg.ended, s.Got(leg.rounds), leg.error, entry)
  }

  /** What there is of a file to decode. */
  ghost function Decodable(w: Worker, block: nat, id: nat, roomy: bool, leg: Leg): Option<Bytes>
    requires id < FILE_COUNT
  {
    var got := LegStream(w, block, id, leg).Got(leg.rounds);
    if leg.after != leg.before && Granted(Selecting(w, leg.before, id).answer) && !leg.ended.Aborted? && Kept(id, roomy, got)
    then Some(got) else None
  }

  ghost predicate FileRead(w: Worker, t: Terms, d: Decoders, id: nat, roomy: bool, leg: Leg, entry: Entry)
    requires id < FILE_COUNT
  {
    Unread(w, t.stopped, id, leg, entry) || ReadOut(w, t, d, id, roomy, leg, entry)
  }

  /** What was said of a file stays true: the session stays, a stop stays on record, and so does EF.SOD once read. */
  lemma FileReadStill(w: Worker, t: Terms, u: Terms, d: Decoders, id: nat, roomy: bool, leg: Leg, entry: Entry)
    requires id < FILE_COUNT && FileRead(w, t, d, id, roomy, leg, entry)
    requires u.block == t.block && (t.stopped ==> u.stopped) && (u.sod == t.sod || id < DG1)
    ensures FileRead(w, u, d, id, roomy, leg, entry)
  {
    hide FrameBudget.ChunkSize, SizeFrom, Verdict, DigestValue, Stream.Log, Stream.Got, Stream.Going, Stream.Reaches;
    if ReadOut(w, t, d, id, roomy, leg, entry) {
      var got := LegStream(w, t.block, id, leg).Got(leg.rounds);
      NoVerdict(t.sod, DgNumber(id), DigestValue(w.hashes, t.sod, got));
      NoVerdict(u.sod, DgNumber(id), DigestValue(w.hashes, u.sod, got));
    }
  }

  /** EF.COM and EF.SOD are never compared, and an error returned is the entry's. */
  lemma FileReadEntry(w: Worker, t: Terms, d: Decoders, id: nat, roomy: bool, leg: Leg, entry: Entry)
    requires id < FILE_COUNT && FileRead(w, t, d, id, roomy, leg, entry)
    ensures Decided(entry.hash) ==> id >= DG1 && ReadOut(w, t, d, id, roomy, leg, entry) && !leg.ended.Aborted?
    ensures leg.error.Some? ==> entry.state == FileFailed && entry.error == leg.error
  {
    hide FrameBudget.ChunkSize, SizeFrom, DigestValue, Stream.Log, Stream.Got, Stream.Going, Stream.Reaches;
  }

  /** An exchange of a leg that failed is its last, and the file's error. */
  lemma FailedIsLastOfLeg(w: Worker, t: Terms, d: Decoders, id: nat, roomy: bool, leg: Leg, entry: Entry, i: nat)
    requires id < FILE_COUNT && FileRead(w, t, d, id, roomy, leg, entry)
    requires |leg.before| <= i < |leg.after| && leg.after[i].answer.Err?
    ensures i == |leg.after| - 1 && leg.error == Some(leg.after[i].answer.error)
  {
    hide FrameBudget.ChunkSize, SizeFrom, Verdict, DigestValue;
    hide Stream.Log, Stream.Got, Stream.Outcome, Stream.Full, Stream.Reaches;
    if ReadOut(w, t, d, id, roomy, leg, entry) {
      var s := LegStream(w, t.block, id, leg);
      s.StartKept(leg.rounds);
      assert leg.after[|leg.before|] == s.start[|leg.before|];
      FailedIsLast(s, leg.rounds, i);
    }
  }

  /** The traffic before a leg stays where it is. */
  lemma LegGrows(w: Worker, t: Terms, d: Decoders, id: nat, roomy: bool, leg: Leg, entry: Entry)
    requires id < FILE_COUNT && FileRead(w, t, d, id, roomy, leg, entry)
    ensures leg.before <= leg.after
  {
    hide FrameBudget.ChunkSize, SizeFrom, Concluded, Stream.Log, Stream.Got, Stream.Going, Stream.Reaches;
    if ReadOut(w, t, d, id, roomy, leg, entry) {
      var s := LegStream(w, t.block, id, leg);
      s.StartKept(leg.rounds);
      assert leg.before <= s.start;
    }
  }

  /** The traffic of a leg is what the chip answered. */
  lemma LegIsGenuine(w: Worker, t: Terms, d: Decoders, id: nat, roomy: bool, leg: Leg, entry: Entry)
    requires id < FILE_COUNT && FileRead(w, t, d, id, roomy, leg, entry)
    ensures Genuine(w.chip, leg.after, |leg.before|)
  {
    hide FrameBudget.ChunkSize, SizeFrom, Genuine, Concluded, Stream.Log, Stream.Got, Stream.Going, Stream.Reaches, SelectFile;
    NothingSince(w.chip, leg.before);
    GenuineAttempt(w.chip, leg.before, SelectFile(id), |leg.before|);
    assert Attempt(w.chip, leg.before, SelectFile(id)) == leg.before + [Selecting(w, leg.before, id)];
    if ReadOut(w, t, d, id, roomy, leg, entry) {
      var s := LegStream(w, t.block, id, leg);
      s.StartKept(leg.rounds);
      StreamIsGenuine(s, leg.rounds);
      GenuineJoined(w.chip, s.start, leg.after, |leg.before|);
    }
  }

  /** On the storage card is what the stream got, when there was one. */
  ghost predicate LegExported(w: Worker, id: nat, leg: Leg, failed: bool)
    reads w`face, w.sink, w`block
    requires id < FILE_COUNT
  {
    leg.after != leg.before && Granted(Selecting(w, leg.before, id).answer) ==>
      Exported(w, id, LegStream(w, w.block, id, leg).Got(leg.rounds), failed)
  }

  /** How many of the files planned are done once this one has been read. */
  ghost function DoneAfter(leg: Leg, done: nat): nat {
    if |leg.before| < |leg.after| && leg.after[|leg.before|].answer.Ok? then done + 1 else done
  }

  /** What decoding leaves behind for the rest of the read. */
  ghost predicate Left(w: Worker, d: Decoders, id: nat, data: Option<Bytes>, present: Option<set<nat>>, sod: Option<Sod>)
    reads w`present, w`sod
  {
    if data.Some? then Steers(w, d, id, data.value, present, sod) else w.present == present && w.sod == sod
  }

  // ---- Reading a file ----------------------------------------------------------------------

  /** Announce a file to the caller, who may not want it. */
  method Announce(w: Worker, id: nat) returns (goOn: bool)
    requires Between(w) && id < FILE_COUNT && !Decided(w.entries[id].hash) && Rising(w.reports, Floor(w))
    modifies w`polls, w`stopRequested, w`reports, w`entries
    ensures Between(w) && w.Heeds(old(w.Stand()), w.Stand()) && Rising(w.reports, Floor(w))
    ensures Elsewhere(w, id, old(w.entries)) && goOn == !w.stopRequested
    ensures w.entries[id] == if goOn then Entry(Reading, Unknown, None, 0) else Entry(FileFailed, Unknown, Some(Cancelled), 0)
  {
    hide Accounts, CountHashes, Percent, Rising, w.Heeds, w.Reported;
    Mark(w, id, Entry(Reading, Unknown, None, 0));
    goOn := w.ReportRising(Floor(w));
    if !goOn {
      Mark(w, id, Entry(FileFailed, Unknown, Some(Cancelled), 0));
    }
  }

  /** Select a file; one that is refused is done with. */
  method Choose(w: Worker, id: nat) returns (e: Option<Error>, granted: bool)
    requires Between(w) && InBudget(w) && id < FILE_COUNT && w.entries[id] == Entry(Reading, Unknown, None, 0)
    requires Rising(w.reports, Floor(w))
    modifies w`log, w`entries, w`filesDone
    ensures Between(w) && InBudget(w) && Rising(w.reports, Floor(w)) && Elsewhere(w, id, old(w.entries))
    ensures w.log == old(w.log) + [Selecting(w, old(w.log), id)] && granted == Granted(Selecting(w, old(w.log), id).answer)
    ensures granted ==> w.entries == old(w.entries) && w.filesDone == old(w.filesDone)
    ensures !granted ==>
      var leg := Leg(old(w.log), w.log, e, Complete, 0);
      Unread(w, w.stopRequested, id, leg, w.entries[id]) && w.filesDone == DoneAfter(leg, old(w.filesDone))
  {
    hide InBudget, Accounts, CountHashes, Percent, Rising;
    var selected := Select(w, SelectFile(id));
    granted := Granted(selected);
    e := None;
    if selected.Err? {
      e := Some(selected.error);
      Mark(w, id, Entry(FileFailed, Unknown, e, 0));
    } else if !granted {
      var refused := FromSw(selected.value.sw);
      Mark(w, id, Entry(if refused == Some(FileNotFound) then Absent else FileFailed, Unknown, refused, 0));
      PercentWithinFile(w.filesTotal, w.filesDone, 0, 0);
      RisingBelow(w.reports, Floor(w), Percent(w.filesTotal, w.filesDone + 1, 0, 0));
      w.filesDone := w.filesDone + 1;
    }
  }

  /** Stream, decode and score a file that has been granted. */
  method ReadGranted(w: Worker, d: Decoders, id: nat, roomy: bool, ghost before: seq<Exchange>)
    returns (e: Option<Error>, ghost leg: Leg)
    requires Between(w) && InBudget(w) && id < FILE_COUNT && w.entries[id] == Entry(Reading, Unknown, None, 0)
    requires id == DG2 ==> w.face == None
    requires Granted(Selecting(w, before, id).answer) && w.log == before + [Selecting(w, before, id)]
    requires Rising(w.reports, Floor(w))
    modifies w`log, w`polls, w`stopRequested, w`reports, w`digest, w`face, w`faceSize, w`entries, w`filesDone
    modifies w`hashesChecked, w`hashesMatched, w`present, w`sod, w.sink, w.lookahead
    ensures Between(w) && InBudget(w) && old(w.log) <= w.log && w.Heeds(old(w.Stand()), w.Stand())
    ensures id != DG2 ==> w.face == old(w.face)
    ensures Elsewhere(w, id, old(w.entries))
    ensures leg.before == before && leg.after == w.log && leg.error == e
    ensures ReadOut(w, TermsOf(w), d, id, roomy, leg, w.entries[id]) && LegExported(w, id, leg, old(w.sink.failed))
    ensures Left(w, d, id, Decodable(w, w.block, id, roomy, leg), old(w.present), old(w.sod))
    ensures w.filesDone == DoneAfter(leg, old(w.filesDone)) && Rising(w.reports, Floor(w))
  {
    hide Between, InBudget, Elsewhere, Percent, Rising, Exported, Concluded, Streamed, Steers, Kept;
    hide FrameBudget.ChunkSize, Stream.Log, Stream.Got, SizeFrom, w.Heeds;
    ghost var selected := w.log;
    var ended;
    ghost var n;
    e, ended, n := ReadSelected(w, d, id, roomy);
    leg := Leg(before, w.log, e, ended, n);
    assert w.log[|before|] == selected[|before|];
    w.filesDone := w.filesDone + 1;
  }

  /** A file that was not granted leaves nothing behind. */
  lemma NothingLeft(w: Worker, d: Decoders, id: nat, roomy: bool, leg: Leg, failed: bool)
    requires id < FILE_COUNT && (leg.after == leg.before || !Granted(Selecting(w, leg.before, id).answer))
    ensures LegExported(w, id, leg, failed)
    ensures Left(w, d, id, Decodable(w, w.block, id, roomy, leg), w.present, w.sod)
  {
  }

  /** Select, stream, decode and score one file; it counts as done once its SELECT has been answered. */
  method ReadFile(w: Worker, d: Decoders, id: nat, roomy: bool) returns (e: Option<Error>, ghost leg: Leg)
    requires Between(w) && InBudget(w) && id < FILE_COUNT && !Decided(w.entries[id].hash)
    requires id == DG2 ==> w.face == None
    requires Rising(w.reports, Floor(w))
    modifies w`log, w`polls, w`stopRequested, w`reports, w`digest, w`face, w`faceSize, w`entries, w`filesDone
    modifies w`hashesChecked, w`hashesMatched, w`present, w`sod, w.sink, w.lookahead
    ensures Between(w) && InBudget(w) && old(w.log) <= w.log && w.Heeds(old(w.Stand()), w.Stand())
    ensures id != DG2 ==> w.face == old(w.face)
    ensures Elsewhere(w, id, old(w.entries))
    ensures leg.before == old(w.log) && leg.after == w.log && leg.error == e
    ensures FileRead(w, TermsOf(w), d, id, roomy, leg, w.entries[id]) && LegExported(w, id, leg, old(w.sink.failed))
    ensures Left(w, d, id, Decodable(w, w.block, id, roomy, leg), old(w.present), old(w.sod))
    ensures w.filesDone == DoneAfter(leg, old(w.filesDone)) && Rising(w.reports, Floor(w))
  {
    hide Between, InBudget, Percent, Rising, ReadOut, LegExported, Left, Decodable, Granted, SelectFile, w.Heeds;
    ghost var before, log := w.Stand(), w.log;
    var go := Announce(w, id);
    if !go {
      e, leg := Some(Cancelled), Leg(log, log, Some(Cancelled), Complete, 0);
      NothingLeft(w, d, id, roomy, leg, w.sink.failed);
      return;
    }
    ghost var midway := w.Stand();
    var granted;
    e, granted := Choose(w, id);
    if granted {
      e, leg := ReadGranted(w, d, id, roomy, log);
      w.HeedsBoth(before, midway, w.Stand());
    } else {
      leg := Leg(log, w.log, e, Complete, 0);
      NothingLeft(w, d, id, roomy, leg, w.sink.failed);
    }
  }
}
