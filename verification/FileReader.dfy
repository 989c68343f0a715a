/**
 * Reading one elementary file: one pass that feeds a hash, a buffer to decode from, the raw file on
 * the storage card and, for EF.DG2, a second file cut at an offset found on the way.
 */
module FileReader {
  import opened Bytes
  import opened Errors
  import opened Apdu
  import opened FaceImage
  import opened Progress
  import opened Digests
  import opened ReadStream
  import opened Tlv
  import FrameBudget
  import Exports = Export

  const LOOKAHEAD := 512

  // ---- Hashes ------------------------------------------------------------------------------

  datatype SodHash = SodHash(dg: nat, hash: Bytes)

  datatype Sod = Sod(digestSupported: bool, digestLen: nat, hashes: seq<SodHash>)

  datatype HashState = Unknown | UnsupportedDigest | NotListed | Match | Mismatch

  const SOD_HASH_MAX := 16

  /** The algorithm EF.SOD names, when it is one of the two. */
  function DigestFor(sod: Option<Sod>): Option<bool> {
    if sod.None? || !sod.value.digestSupported then None
    else if sod.value.digestLen == 20 then Some(false)
    else if sod.value.digestLen == 32 then Some(true)
    else None
  }

  function DigestValue(h: Hashes, sod: Option<Sod>, data: Bytes): Option<Bytes> {
    match DigestFor(sod)
    case None => None
    case Some(sha256) => Some(if sha256 then h.sha256(data) else h.sha1(data))
  }

  /** The first hash listed for a data group. */
  function ListedFrom(hashes: seq<SodHash>, dg: nat, i: nat): Option<Bytes>
    decreases |hashes| - i
  {
    if i >= |hashes| || i >= SOD_HASH_MAX then None
    else if hashes[i].dg == dg then Some(hashes[i].hash)
    else ListedFrom(hashes, dg, i + 1)
  }

  function Listed(sod: Sod, dg: int): Option<Bytes> {
    if dg < 1 || dg > 16 then None else ListedFrom(sod.hashes, dg, 0)
  }

  /** What the comparison of a whole file with EF.SOD comes to. */
  function Verdict(sod: Option<Sod>, dg: int, digest: Option<Bytes>): HashState {
    if dg < 0 || sod.None? then Unknown
    else if !sod.value.digestSupported || digest.None? then UnsupportedDigest
    else
      match Listed(sod.value, dg)
      case None => NotListed
      case Some(hash) =>
        if |hash| != |digest.value| then UnsupportedDigest
        else if hash == digest.value then Match
        else Mismatch
  }

  predicate Decided(h: HashState) {
    h == Match || h == Mismatch
  }

  /** What EF.SOD has to list for these bytes: SHA-256 of them when its digests are 32 bytes long, SHA-1 when 20. */
  ghost predicate Vouches(h: Hashes, sod: Sod, dg: int, data: Bytes) {
    && sod.digestSupported
    && ((sod.digestLen == 32 && Listed(sod, dg) == Some(h.sha256(data)))
        || (sod.digestLen == 20 && Listed(sod, dg) == Some(h.sha1(data))))
  }

  /** A match means the listed hash is that of the bytes, and the other way round. */
  lemma MatchMeansEqual(h: Hashes, sod: Option<Sod>, dg: int, data: Bytes)
    ensures Verdict(sod, dg, DigestValue(h, sod, data)) == Match <==> dg >= 0 && sod.Some? && Vouches(h, sod.value, dg, data)
  {
  }

  /** The hash listed for a group is the first one of the first sixteen entries. */
  lemma {:induction false} ListedIsFirst(hashes: seq<SodHash>, dg: nat, i: nat)
    ensures
      match ListedFrom(hashes, dg, i)
      case Some(hash) =>
        exists k :: i <= k < Min(|hashes|, 16) && hashes[k] == SodHash(dg, hash)
                    && forall j :: i <= j < k ==> hashes[j].dg != dg
      case None => forall j :: i <= j < Min(|hashes|, 16) ==> hashes[j].dg != dg
    decreases |hashes| - i
  {
    if i < |hashes| && i < 16 && hashes[i].dg != dg {
      ListedIsFirst(hashes, dg, i + 1);
    }
  }

  /**
   * An honest EF.SOD, of either digest, that lists the hash of a data group gives Match, wherever among its
   * first sixteen entries it stands; and one that lists another hash of that length there gives Mismatch.
   */
  lemma HonestSodDecides(h: Hashes, sod: Sod, dg: nat, k: nat, data: Bytes)
    requires LawfulHashes(h) && 1 <= dg <= 16 && sod.digestSupported && (sod.digestLen == 20 || sod.digestLen == 32)
    requires k < |sod.hashes| && k < 16 && sod.hashes[k].dg == dg && |sod.hashes[k].hash| == sod.digestLen
    requires forall j :: 0 <= j < k ==> sod.hashes[j].dg != dg
    ensures
      var right := if sod.digestLen == 32 then h.sha256(data) else h.sha1(data);
      Verdict(Some(sod), dg, DigestValue(h, Some(sod), data)) == if sod.hashes[k].hash == right then Match else Mismatch
  {
    DigestLengths(h, data);
    ListedIsFirst(sod.hashes, dg, 0);
    hide ListedFrom;
  }

  /** Every other outcome, and exactly when: nothing to compare with, no digest of that kind, or no entry for the group. */
  lemma UndecidedMeans(h: Hashes, sod: Option<Sod>, dg: int, data: Bytes)
    requires LawfulHashes(h)
    ensures
      var v := Verdict(sod, dg, DigestValue(h, sod, data));
      && (v == Unknown <==> sod == None || dg < 0)
      && (v != Unknown ==>
            var known := sod.value.digestSupported && sod.value.digestLen in {20, 32};
            var listed := Listed(sod.value, dg);
            && (v == NotListed <==> known && listed == None)
            && (v == UnsupportedDigest <==> !known || (listed.Some? && |listed.value| != sod.value.digestLen)))
  {
    hide Listed;
    DigestLengths(h, data);
  }

  method FindListed(sod: Sod, dg: int) returns (r: Option<Bytes>)
    ensures r == Listed(sod, dg)
  {
    if dg < 1 || dg > 16 {
      return None;
    }
    var i := 0;
    while i < |sod.hashes| && i < SOD_HASH_MAX
      invariant 0 <= i <= |sod.hashes| && i <= SOD_HASH_MAX
      invariant Listed(sod, dg) == ListedFrom(sod.hashes, dg, i)
    {
      if sod.hashes[i].dg == dg {
        return Some(sod.hashes[i].hash);
      }
      i := i + 1;
    }
    return None;
  }

  // ---- The buffer to decode from -----------------------------------------------------------

  class ParseBuffer {
    const data: array<byte>
    var len: nat
    var overflowed: bool
    ghost var offered: Bytes

    /** Either everything offered is here, or it was more than the buffer holds. */
    ghost predicate Valid()
      reads this, data
    {
      && len <= data.Length
      && (if overflowed then |offered| > data.Length else data[..len] == offered)
    }

    constructor (capacity: nat)
      ensures Valid() && fresh(data) && offered == [] && !overflowed && data.Length == capacity
    {
      data := new byte[capacity];
      len, overflowed, offered := 0, false, [];
    }

    method Append(chunk: Bytes)
      requires Valid()
      modifies this, data
      ensures Valid() && offered == old(offered) + chunk
    {
      offered := offered + chunk;
      if !overflowed {
        if len + |chunk| > data.Length {
          overflowed := true;
        } else {
          CopyInto(data, len, chunk);
          len := len + |chunk|;
        }
      }
    }
  }

  // ---- The worker --------------------------------------------------------------------------

  datatype FileState = Pending | Reading | Read | Absent | Skipped | FileFailed

  datatype Entry = Entry(state: FileState, hash: HashState, error: Option<Error>, size: nat)

  /** Where a stream stands: how much was read, of how much, and how much of it is held back. */
  datatype Cursor = Cursor(offset: nat, total: nat, sized: bool, looking: bool, held: nat)

  datatype Digest = Digest(sha256: bool, fed: Bytes)

  /** How often a stop was looked for, how often the caller was told, and whether a stop is on record. */
  datatype Standing = Standing(looks: nat, told: nat, stopped: bool)

  const FILE_COUNT := 18

  class Worker {
    const chip: Chip
    /** Whether the caller lets the read go on, report by report. */
    const callback: nat -> bool
    /** Whether a stop asked for from outside is seen, look by look. */
    const stopper: nat -> bool
    const hashes: Hashes
    const fsd: nat
    const sink: Exports.Export
    const lookahead: array<byte>
    /** The cipher block of the session, zero without one. */
    var block: nat
    /** How much of the traffic came before the session. */
    ghost var sessionAt: nat
    var log: seq<Exchange>
    var polls: nat
    var stopRequested: bool
    var reports: seq<nat>
    var filesTotal: nat
    var filesDone: nat
    var digest: Option<Digest>
    var sod: Option<Sod>
    var present: Option<set<nat>>
    var face: Option<Face>
    var faceSize: nat
    var entries: seq<Entry>
    var hashesChecked: nat
    var hashesMatched: nat
    var error: Option<Error>
    var errorFile: nat

    ghost predicate Valid()
      reads `block, `entries, sink
    {
      lookahead.Length == LOOKAHEAD && FrameBudget.IsBlock(block) && |entries| == FILE_COUNT && sink.Valid()
    }

    /** A run about to start: no file looked at, nothing reported, nothing checked. */
    constructor (chip: Chip, callback: nat -> bool, stopper: nat -> bool, hashes: Hashes,
                 fsd: nat, medium: Exports.Medium, noExport: bool)
      ensures Valid() && fresh(lookahead) && fresh(sink)
      ensures log == [] && reports == [] && polls == 0 && !stopRequested && block == sessionAt == 0
      ensures filesDone == 0 && filesTotal == 0
      ensures sod == None && present == None && face == None && digest == None && error == None
      ensures hashesChecked == hashesMatched == 0
      ensures forall i :: 0 <= i < FILE_COUNT ==> entries[i] == Entry(Pending, Unknown, None, 0)
    {
      this.chip, this.callback, this.stopper, this.hashes := chip, callback, stopper, hashes;
      this.fsd, block, sessionAt := fsd, 0, 0;
      sink := new Exports.Export(medium, noExport);
      lookahead := new byte[LOOKAHEAD];
      log, polls, stopRequested, reports, filesTotal, filesDone := [], 0, false, [], 0, 0;
      digest, sod, present, face, faceSize := None, None, None, None, 0;
      entries := seq(FILE_COUNT, i => Entry(Pending, Unknown, None, 0));
      hashesChecked, hashesMatched, error, errorFile := 0, 0, None, 0;
    }

    function Stand(): Standing
      reads `polls, `reports, `stopRequested
    {
      Standing(polls, |reports|, stopRequested)
    }

    /** Between the two, a look saw a stop asked for or the caller, when told, said no. */
    ghost predicate StopAsked(a: Standing, b: Standing) {
      (exists k :: a.looks <= k < b.looks && stopper(k)) || (exists k :: a.told <= k < b.told && !callback(k))
    }

    /** A stop is on record exactly when it was before or has been asked for since. */
    ghost predicate Heeds(a: Standing, b: Standing) {
      a.looks <= b.looks && a.told <= b.told && (b.stopped <==> a.stopped || StopAsked(a, b))
    }

    lemma HeedsBoth(a: Standing, b: Standing, c: Standing)
      requires Heeds(a, b) && Heeds(b, c)
      ensures Heeds(a, c)
    {
    }

    lemma StopStays(a: Standing, b: Standing)
      requires Heeds(a, b)
      ensures a.stopped ==> b.stopped
    {
    }

    lemma HeedsNothing(a: Standing)
      ensures Heeds(a, a)
    {
    }

    method PollStop() returns (stop: bool)
      modifies `polls, `stopRequested
      ensures polls == old(polls) + 1 && stopRequested == (old(stopRequested) || stopper(old(polls)))
      ensures stop == stopRequested && Heeds(old(Stand()), Stand())
    {
      if stopper(polls) {
        stopRequested := true;
      }
      polls := polls + 1;
      return stopRequested;
    }

    /** What one report comes to: nothing once a stop is seen, and otherwise as the caller says. */
    ghost predicate Reported(a: Standing, told: seq<nat>, percent: nat, goOn: bool)
      reads `polls, `reports, `stopRequested
    {
      && polls == a.looks + 1 && goOn == !stopRequested
      && if a.stopped || stopper(a.looks) then !goOn && reports == told
         else goOn == callback(|told|) && reports == told + [percent]
    }

    /** Tell the caller how far the read has got; false when it should be abandoned. */
    method Report(percent: nat) returns (goOn: bool)
      requires percent <= 100
      modifies `polls, `stopRequested, `reports
      ensures Reported(old(Stand()), old(reports), percent, goOn) && Heeds(old(Stand()), Stand())
    {
      ghost var before := Stand();
      var stop := PollStop();
      if stop {
        return false;
      }
      goOn := callback(|reports|);
      reports := reports + [percent];
      if !goOn {
        stopRequested := true;
      }
    }

    method Transmit(c: Command) returns (r: Result<Response>)
      modifies `log
      ensures log == Attempt(chip, old(log), c) && r == log[|old(log)|].answer
    {
      r := chip(log, c);
      log := log + [Exchange(c, r)];
    }

    method ReadBinaryLong(offset: nat, length: nat) returns (r: Result<Response>)
      requires offset > SHORT_OFFSET_MAX
      modifies `log
      ensures log == ReadLog(chip, old(log), offset, length, length)
      ensures r == if offset > LONG_OFFSET_MAX then Err(Unsupported) else ReadResult(log[|log| - 1])
    {
      if offset > LONG_OFFSET_MAX {
        return Err(Unsupported);
      }
      r := Transmit(ReadBinaryOdd(offset, length));
      if r.Err? || !SwHasData(r.value.sw) || r.value.data == [] {
        return;
      }
      var data := r.value.data;
      var node := ReadNode(data, |data|, 0);
      if node.None? || node.value.tag != DO_DISCRETIONARY as int {
        return Err(Error.Parse);
      }
      r := Ok(Response(data[node.value.valueStart..node.value.End()], r.value.sw));
    }

    method ReadBinaryAt(offset: nat, length: nat) returns (r: Result<Response>)
      modifies `log
      ensures log == ReadLog(chip, old(log), offset, length, FrameBudget.ChunkSize(fsd, block))
      ensures r == if offset > LONG_OFFSET_MAX then Err(Unsupported) else ReadResult(log[|log| - 1])
    {
      hide FrameBudget.ChunkSize;
      if offset > SHORT_OFFSET_MAX {
        r := ReadBinaryLong(offset, length);
        return;
      }
      r := Transmit(ReadBinary(offset, length));
      if r.Err? {
        return;
      }
      if r.value.sw / 256 == 0x6C {
        var exact := NamedLe(r.value.sw);
        var safe := FrameBudget.ChunkSize(fsd, block);
        if exact > safe {
          exact := safe;
        }
        r := Transmit(ReadBinary(offset, exact));
      }
    }

    // ---- The look-ahead ----------------------------------------------------------------------

    /** The image file is cut exactly where the face was found, unless the export has failed. */
    ghost predicate ImageCut()
      reads `face, sink
    {
      match face
      case None => !sink.imageArmed
      case Some(f) =>
        && (!sink.failed ==> sink.imageArmed)
        && (sink.imageArmed ==> sink.imageOffset == f.offset && sink.armedAt == 0)
        && (sink.imageArmed && Exports.Roomy(sink.medium) ==> sink.imageOpen)
    }

    /**
     * Where the bytes `got` so far are: held back while the face is looked for, or all handed to the
     * export. Once they are let go, the face is what a search of the first 512 bytes finds.
     */
    ghost predicate Streaming(dg2: bool, looking: bool, held: nat, got: Bytes, atEnd: bool)
      reads `face, sink, lookahead
      requires lookahead.Length == LOOKAHEAD
    {
      if looking then
        && dg2 && held == |got| < LOOKAHEAD && lookahead[..held] == got
        && face == None && FindFrom(got, 0) == None && sink.stream == [] && !sink.imageArmed
      else
        && held == 0 && sink.stream == got
        && if dg2 then
             && face == FindFrom(got[..Min(LOOKAHEAD, |got|)], 0) && ImageCut()
             && (face.Some? || |got| >= LOOKAHEAD || atEnd)
           else !sink.imageArmed
    }

    lemma StreamingEnds(dg2: bool, looking: bool, held: nat, got: Bytes, atEnd: bool)
      requires lookahead.Length == LOOKAHEAD && Streaming(dg2, looking, held, got, atEnd)
      ensures Streaming(dg2, looking, held, got, true)
    {
    }

    /** Search what is held, and let it go once the answer can no longer change. */
    method Look(chunk: Bytes, held: nat, last: bool, ghost got: Bytes) returns (looking: bool, holding: nat)
      requires Valid() && chunk != [] && Streaming(true, true, held, got, false)
      modifies `face, sink, lookahead
      ensures Valid() && Streaming(true, looking, holding, got + chunk, last)
      ensures sink.Carries(old(sink.fileOpen), old(sink.failed))
      ensures looking ==> !last
    {
      hide FindFrom;
      var room := Min(LOOKAHEAD - held, |chunk|);
      CopyInto(lookahead, held, chunk[..room]);
      holding := held + room;
      ghost var all := got + chunk;
      assert lookahead[..holding] == all[..Min(LOOKAHEAD, |all|)] == all[..holding];
      assert all == lookahead[..holding] + chunk[room..];
      assert room == |chunk| ==> all == lookahead[..holding];
      var found := FindImage(lookahead[..holding]);
      if found.Some? {
        face := found;
        sink.ArmImage(found.value.offset);
      }
      looking := true;
      if found.Some? || holding == LOOKAHEAD || last {
        looking := false;
        var _ := sink.Write(lookahead[..holding]);
        if room < |chunk| {
          var _ := sink.Write(chunk[room..]);
        }
        holding := 0;
      }
    }

    /** One chunk on its way to the export. */
    method Pass(chunk: Bytes, dg2: bool, lookingBefore: bool, held: nat, last: bool, ghost got: Bytes)
      returns (looking: bool, holding: nat)
      requires Valid() && chunk != [] && Streaming(dg2, lookingBefore, held, got, false)
      modifies `face, sink, lookahead
      ensures Valid() && Streaming(dg2, looking, holding, got + chunk, last)
      ensures sink.Carries(old(sink.fileOpen), old(sink.failed))
      ensures !dg2 ==> face == old(face)
    {
      hide FindFrom;
      looking, holding := lookingBefore, held;
      if looking {
        looking, holding := Look(chunk, held, last, got);
      } else {
        if dg2 {
          FoundStays(got, chunk);
        }
        var _ := sink.Write(chunk);
      }
    }

    // ---- The stream --------------------------------------------------------------------------

    method DigestStart()
      requires digest == None
      modifies `digest
      ensures digest == match DigestFor(sod) case None => None case Some(sha256) => Some(Digest(sha256, []))
    {
      if sod.None? || !sod.value.digestSupported {
        return;
      }
      if sod.value.digestLen == 20 {
        digest := Some(Digest(false, []));
      } else if sod.value.digestLen == 32 {
        digest := Some(Digest(true, []));
      }
    }

    method DigestFinish() returns (value: Option<Bytes>)
      modifies `digest
      ensures digest == None
      ensures value == match old(digest)
                       case None => None
                       case Some(d) => Some(if d.sha256 then hashes.sha256(d.fed) else hashes.sha1(d.fed))
    {
      value := None;
      if digest.Some? {
        value := Some(if digest.value.sha256 then hashes.sha256(digest.value.fed) else hashes.sha1(digest.value.fed));
        digest := None;
      }
    }

    /** The hash and the buffer to decode from have both been given exactly `got`. */
    ghost predicate Fed(parse: ParseBuffer?, got: Bytes)
      reads `digest, `sod, parse, if parse == null then {} else {parse.data}
    {
      && digest == (match DigestFor(sod) case None => None case Some(sha256) => Some(Digest(sha256, got)))
      && (parse != null ==> parse.Valid() && parse.offered == got)
    }

    /** A chunk to the hash and the buffer. */
    method Feed(parse: ParseBuffer?, chunk: Bytes, ghost got: Bytes)
      requires Fed(parse, got)
      modifies `digest, parse, if parse == null then {} else {parse.data}
      ensures Fed(parse, got + chunk)
    {
      if digest.Some? {
        digest := Some(digest.value.(fed := digest.value.fed + chunk));
      }
      if parse != null {
        parse.Append(chunk);
      }
    }

    /** Report a percentage no smaller than any before it. */
    method ReportRising(percent: nat) returns (goOn: bool)
      requires percent <= 100 && Rising(reports, percent)
      modifies `polls, `stopRequested, `reports
      ensures Rising(reports, percent) && goOn == !stopRequested
      ensures Reported(old(Stand()), old(reports), percent, goOn) && Heeds(old(Stand()), Stand())
    {
      goOn := Report(percent);
    }

    /** What has been reported stays below what comes next, in the file and after it. */
    lemma Moved(before: nat, after: nat, total: nat)
      requires before <= after
      ensures
        var p := Percent(filesTotal, filesDone, after, total);
        && (Rising(reports, Percent(filesTotal, filesDone, 0, 0)) ==> Rising(reports, p))
        && (Rising(reports, Percent(filesTotal, filesDone, before, total)) ==> Rising(reports, p))
        && (Rising(reports, p) ==> Rising(reports, Percent(filesTotal, filesDone + 1, 0, 0)))
    {
      hide Percent, Rising;
      PercentGrows(filesTotal, filesDone, before, after, total);
      PercentWithinFile(filesTotal, filesDone, after, total);
      var floor, from, p := Percent(filesTotal, filesDone, 0, 0), Percent(filesTotal, filesDone, before, total),
                            Percent(filesTotal, filesDone, after, total);
      if Rising(reports, floor) {
        RisingBelow(reports, floor, p);
      }
      if Rising(reports, from) {
        RisingBelow(reports, from, p);
      }
      if Rising(reports, p) {
        RisingBelow(reports, p, Percent(filesTotal, filesDone + 1, 0, 0));
      }
    }

    /** The stream of the file now selected, as the traffic so far lets it begin. */
    function StreamFrom(start: seq<Exchange>): Stream
      reads `block
    {
      Stream(chip, start, FrameBudget.ChunkSize(fsd, block), SizeFrom)
    }

    /** What one answer holds of the file, on its way to every place it goes. */
    method Take(data: Bytes, dg2: bool, parse: ParseBuffer?, lookingBefore: bool, heldBefore: nat,
                offset: nat, total: nat, ghost got: Bytes)
      returns (looking: bool, held: nat, goOn: bool, len: nat)
      requires Valid() && Streaming(dg2, lookingBefore, heldBefore, got, false) && Fed(parse, got)
      requires parse != null ==> parse.data != lookahead
      requires data != [] && offset < total
      requires Rising(reports, if offset > 0 then Percent(filesTotal, filesDone, offset, total)
                               else Percent(filesTotal, filesDone, 0, 0))
      modifies `polls, `stopRequested, `reports, `digest, `face, sink, lookahead
      modifies parse, if parse == null then {} else {parse.data}
      ensures len == Min(|data|, total - offset)
      ensures Valid() && Streaming(dg2, looking, held, got + data[..len], offset + len >= total) && Fed(parse, got + data[..len])
      ensures sink.Carries(old(sink.fileOpen), old(sink.failed))
      ensures !dg2 ==> face == old(face)
      ensures Rising(reports, Percent(filesTotal, filesDone, offset + len, total))
      ensures Reported(old(Stand()), old(reports), Percent(filesTotal, filesDone, offset + len, total), goOn)
      ensures Heeds(old(Stand()), Stand())
    {
      hide Percent, FindFrom, Streaming, Fed, Rising, Reported, Heeds, Exports.Roomy;
      len := Min(|data|, total - offset);
      Feed(parse, data[..len], got);
      looking, held := Pass(data[..len], dg2, lookingBefore, heldBefore, offset + len >= total, got);
      Moved(offset, offset + len, total);
      goOn := ReportRising(Percent(filesTotal, filesDone, offset + len, total));
    }

    /** The bytes got are where they belong, and the caller knows how many they are. */
    ghost predicate Carrying(dg2: bool, parse: ParseBuffer?, c: Cursor, got: Bytes)
      reads `reports, `digest, `sod, `face, `filesTotal, `filesDone, sink, lookahead, parse
      reads if parse == null then {} else {parse.data}
      requires lookahead.Length == LOOKAHEAD
    {
      && Streaming(dg2, c.looking, c.held, got, c.sized && c.offset >= c.total) && Fed(parse, got)
      && Rising(reports, if c.sized then Percent(filesTotal, filesDone, c.offset, c.total)
                         else Percent(filesTotal, filesDone, 0, 0))
    }

    /** The stream stands after `n` rounds. */
    ghost predicate Underway(dg2: bool, parse: ParseBuffer?, c: Cursor, s: Stream, n: nat)
      reads `block, `log, `reports, `digest, `sod, `face, `filesTotal, `filesDone, sink, lookahead, parse
      reads if parse == null then {} else {parse.data}
      requires lookahead.Length == LOOKAHEAD
    {
      && s == StreamFrom(s.start) && log == s.Log(n) && s.Reaches(n)
      && Fits(c, s, n) && Carrying(dg2, parse, c, s.Got(n))
    }

    /** Take one answer that has data; the first of them sizes the file. */
    method Advance(response: Response, dg2: bool, parse: ParseBuffer?, c: Cursor, ghost s: Stream, ghost n: nat)
      returns (d: Cursor, end: Option<Ending>)
      requires Valid() && Fits(c, s, n) && Carrying(dg2, parse, c, s.Got(n)) && s == StreamFrom(s.start)
      requires c.sized ==> c.offset < c.total
      requires parse != null ==> parse.data != lookahead
      requires s.Outcome(n + 1) == Ok(response) && SwHasData(response.sw) && response.data != []
      modifies `polls, `stopRequested, `reports, `digest, `face, sink, lookahead
      modifies parse, if parse == null then {} else {parse.data}
      ensures Valid() && Fits(d, s, n + 1) && Carrying(dg2, parse, d, s.Got(n + 1))
      ensures sink.Carries(old(sink.fileOpen), old(sink.failed)) && Heeds(old(Stand()), Stand())
      ensures !dg2 ==> face == old(face)
      ensures d.sized && (c.sized ==> d.total == c.total && d.offset > c.offset)
      ensures end == if stopRequested then Some(Aborted(Cancelled)) else if response.sw == 0x6282 then Some(Eof6282) else None
    {
      hide Percent, FindFrom, SizeFrom, Streaming, Fed, Rising;
      hide Heeds, Exports.Roomy, s.Got, s.First, s.Outcome, TotalLength;
      var data := response.data;
      var total := c.total;
      if !c.sized {
        total := TotalLength(data);
        if total == 0 || total > FILE_SIZE_MAX {
          total := |data|;
        }
        Sized(data);
      }
      s.GotStep(n + 1);
      var looking, held, goOn, len := Take(data, dg2, parse, c.looking, c.held, c.offset, total, s.Got(n));
      d := Cursor(c.offset + len, total, true, looking, held);
      if !goOn {
        return d, Some(Aborted(Cancelled));
      }
      if response.sw == 0x6282 {
        return d, Some(Eof6282);
      }
      end := None;
    }

    /** One read, and what its answer comes to. */
    method Receive(want: nat, dg2: bool, parse: ParseBuffer?, c: Cursor, ghost s: Stream, ghost n: nat)
      returns (d: Cursor, end: Option<Ending>)
      requires Valid() && Underway(dg2, parse, c, s, n) && s.Going(n) && want == s.Want(n)
      requires parse != null ==> parse.data != lookahead
      modifies `log, `polls, `stopRequested, `reports, `digest, `face, sink, lookahead
      modifies parse, if parse == null then {} else {parse.data}
      ensures Valid() && Underway(dg2, parse, d, s, n + 1)
      ensures sink.Carries(old(sink.fileOpen), old(sink.failed)) && Heeds(old(Stand()), Stand())
      ensures !dg2 ==> face == old(face)
      ensures end == s.RoundEnd(n + 1) || (stopRequested && end == Some(Aborted(Cancelled)) && s.Outcome(n + 1).Ok?)
      ensures end.None? ==> d.sized && (c.sized ==> d.total == c.total && d.offset > c.offset)
    {
      hide FrameBudget.ChunkSize, Percent, SizeFrom, ReadLog, FindFrom, Carrying, Rising, Heeds, Exports.Roomy;
      hide s.Log, s.Got, s.First, s.Want, s.Outcome, ReadResult;
      HeedsNothing(Stand());
      NotFullYet(s, n);
      s.Next(n);
      var response := ReadBinaryAt(c.offset, want);
      d := c;
      if DataIn(response) == [] {
        NothingNew(s, n + 1);
      }
      if response.Err? {
        return d, Some(Aborted(response.error));
      }
      end := Judge(c.offset, response.value);
      if end.None? {
        d, end := Advance(response.value, dg2, parse, c, s, n);
      }
    }

    /** One round of the loop: a look for a stop, the size of the read, and the read. */
    method Round(dg2: bool, parse: ParseBuffer?, c: Cursor, ghost s: Stream, ghost n: nat)
      returns (d: Cursor, end: Option<Ending>, ghost m: nat)
      requires Valid() && Underway(dg2, parse, c, s, n) && (n == 0 || s.RoundEnd(n).None?)
      requires parse != null ==> parse.data != lookahead
      modifies `log, `polls, `stopRequested, `reports, `digest, `face, sink, lookahead
      modifies parse, if parse == null then {} else {parse.data}
      ensures Valid() && Underway(dg2, parse, d, s, m)
      ensures sink.Carries(old(sink.fileOpen), old(sink.failed)) && Heeds(old(Stand()), Stand())
      ensures !dg2 ==> face == old(face)
      ensures end.None? ==> m == n + 1 && s.RoundEnd(m).None?
      ensures end.None? ==> d.sized && (c.sized ==> d.total == c.total && d.offset > c.offset)
      ensures end.Some? ==> EndsAs(s, m, end.value, stopRequested)
    {
      hide FrameBudget.ChunkSize, Percent, SizeFrom, FindFrom, Carrying, Rising, Heeds, Exports.Roomy;
      hide s.Log, s.Got, s.First, s.RoundEnd;
      s.Base();
      s.Next(n);
      d, m := c, n;
      ghost var before := Stand();
      var stop := PollStop();
      if stop {
        NoErrorYet(s, n);
        return d, Some(Aborted(Cancelled)), m;
      }
      var want := FrameBudget.ChunkSize(fsd, block);
      if c.sized {
        if c.offset >= c.total {
          return d, Some(Complete), m;
        }
        want := Min(want, c.total - c.offset);
      }
      ghost var midway := Stand();
      m := n + 1;
      d, end := Receive(want, dg2, parse, c, s, n);
      HeedsBoth(before, midway, Stand());
    }

    /**
     * The loop. Whatever the chip does, the rounds are those of the stream, the bytes it gets go to every
     * place alike, and it ends as the last answer says unless somebody asked for a stop.
     */
    method StreamLoop(dg2: bool, parse: ParseBuffer?)
      returns (ended: Ending, offset: nat, looking: bool, held: nat, ghost n: nat)
      requires Valid() && Streaming(dg2, dg2, 0, [], false) && Fed(parse, [])
      requires parse != null ==> parse.data != lookahead
      requires Rising(reports, Percent(filesTotal, filesDone, 0, 0))
      modifies `log, `polls, `stopRequested, `reports, `digest, `face, sink, lookahead
      modifies parse, if parse == null then {} else {parse.data}
      ensures Valid() && sink.Carries(old(sink.fileOpen), old(sink.failed)) && Heeds(old(Stand()), Stand())
      ensures !dg2 ==> face == old(face)
      ensures Streamed(StreamFrom(old(log)), n, log, ended, stopRequested)
      ensures
        var got := StreamFrom(old(log)).Got(n);
        Streaming(dg2, looking, held, got, true) && Fed(parse, got) && offset == |got|
      ensures Rising(reports, Percent(filesTotal, filesDone + 1, 0, 0))
    {
      ghost var s := StreamFrom(log);
      s.Base();
      hide Percent, SizeFrom, Streaming, Fed, Rising, Heeds;
      hide Exports.Roomy, s.Log, s.GotIn, FirstData, FrameBudget.ChunkSize;
      var c, end := Cursor(0, 0, false, dg2, 0), None;
      n := 0;
      ghost var before := Stand();
      HeedsNothing(before);
      while end.None?
        invariant Valid() && Underway(dg2, parse, c, s, n)
        invariant sink.Carries(old(sink.fileOpen), old(sink.failed)) && Heeds(before, Stand())
        invariant !dg2 ==> face == old(face)
        invariant if end.None? then n == 0 || s.RoundEnd(n).None? else EndsAs(s, n, end.value, stopRequested)
        decreases end.None?, !c.sized, c.total - c.offset
      {
        ghost var midway := Stand();
        c, end, n := Round(dg2, parse, c, s, n);
        HeedsBoth(before, midway, Stand());
      }
      StreamingEnds(dg2, c.looking, c.held, s.Got(n), c.sized && c.offset >= c.total);
      Moved(c.offset, c.offset, c.total);
      ended, offset, looking, held := end.value, c.offset, c.looking, c.held;
    }

    /** Compare what was read with the hash EF.SOD lists, and count the comparison. */
    method CheckHash(dg: int, value: Option<Bytes>) returns (state: HashState)
      modifies `hashesChecked, `hashesMatched
      ensures state == Verdict(sod, dg, value)
      ensures hashesChecked == old(hashesChecked) + if Decided(state) then 1 else 0
      ensures hashesMatched == old(hashesMatched) + if state == Match then 1 else 0
    {
      if dg < 0 || sod.None? {
        return Unknown;
      }
      if !sod.value.digestSupported || value.None? {
        return UnsupportedDigest;
      }
      var listed := FindListed(sod.value, dg);
      if listed.None? {
        return NotListed;
      }
      if |listed.value| != |value.value| {
        return UnsupportedDigest;
      }
      hashesChecked := hashesChecked + 1;
      if listed.value == value.value {
        hashesMatched := hashesMatched + 1;
        return Match;
      }
      return Mismatch;
    }

    /**
     * Every byte got is now with the export, and the face is what a search of the head finds. On a medium
     * that takes everything, the raw file is those bytes and the image file what follows the face.
     */
    ghost predicate Delivered(dg2: bool, parse: ParseBuffer?, got: Bytes)
      reads `face, sink, parse, if parse == null then {} else {parse.data}
    {
      && sink.stream == got
      && (sink.fileOpen && !sink.failed ==> sink.file == got)
      && (parse != null ==> parse.Valid() && parse.offered == got)
      && (dg2 ==> face == FindFrom(got[..Min(512, |got|)], 0))
      && (dg2 && face.Some? ==> face.value.offset < |got|)
      && (dg2 && face.Some? && sink.fileOpen && !sink.failed ==>
            && sink.imageArmed && (Exports.Roomy(sink.medium) ==> sink.imageOpen)
            && (sink.imageOpen ==> sink.image == got[face.value.offset..]))
    }

    /** Let go of what is still held back. */
    method Flush(dg2: bool, parse: ParseBuffer?, looking: bool, held: nat, ghost got: Bytes)
      requires Valid() && Streaming(dg2, looking, held, got, true) && Fed(parse, got)
      modifies sink
      ensures Valid() && Delivered(dg2, parse, got)
      ensures sink.Carries(old(sink.fileOpen), old(sink.failed))
    {
      hide FindFrom, Exports.Roomy;
      if held > 0 {
        var _ := sink.Write(lookahead[..held]);
      }
      if looking {
        assert got == [] + got && got[..Min(LOOKAHEAD, |got|)] == got;
      }
      if face.Some? && dg2 {
        FaceInside(got, face.value);
      }
    }

    method StreamAll(dg2: bool, parse: ParseBuffer?) returns (ended: Ending, offset: nat, ghost n: nat)
      requires Valid() && digest == None
      requires sink.stream == [] && !sink.imageArmed && (dg2 ==> face == None)
      requires parse != null ==> parse.Valid() && parse.offered == [] && parse.data != lookahead
      requires Rising(reports, Percent(filesTotal, filesDone, 0, 0))
      modifies `log, `polls, `stopRequested, `reports, `digest, `face, sink, lookahead
      modifies parse, if parse == null then {} else {parse.data}
      ensures Valid() && sink.Carries(old(sink.fileOpen), old(sink.failed)) && Heeds(old(Stand()), Stand())
      ensures !dg2 ==> face == old(face)
      ensures Streamed(StreamFrom(old(log)), n, log, ended, stopRequested)
      ensures
        var got := StreamFrom(old(log)).Got(n);
        Delivered(dg2, parse, got) && Fed(parse, got) && offset == |got|
      ensures Rising(reports, Percent(filesTotal, filesDone + 1, 0, 0))
    {
      hide Percent, FindFrom, Rising, Delivered, Heeds, Exports.Roomy, Streamed, FrameBudget.ChunkSize, SizeFrom;
      hide Stream.Log, Stream.GotIn, Stream.Got;
      DigestStart();
      assert FindFrom([], 0) == None by { NothingToFind(); }
      ghost var s := StreamFrom(log);
      var looking, held;
      ended, offset, looking, held, n := StreamLoop(dg2, parse);
      Flush(dg2, parse, looking, held, s.Got(n));
    }

    /** What is recorded of a file once its stream has ended. */
    method Settle(id: nat, dg: int, dg2: bool, ended: Ending, offset: nat, ghost got: Bytes)
      requires id < |entries| && offset == |got| && Fed(null, got)
      requires dg2 && face.Some? ==> face.value.offset < offset
      modifies `digest, `faceSize, `entries, `hashesChecked, `hashesMatched
      ensures digest == None
      ensures faceSize == if !ended.Aborted? && dg2 && face.Some? then |got| - face.value.offset else old(faceSize)
      ensures
        var verdict := if ended.Aborted? then old(entries[id].hash) else Verdict(sod, dg, DigestValue(hashes, sod, got));
        && entries == old(entries)[id := old(entries[id]).(size := |got|, hash := verdict)]
        && hashesChecked == old(hashesChecked) + (if !ended.Aborted? && Decided(verdict) then 1 else 0)
        && hashesMatched == old(hashesMatched) + (if !ended.Aborted? && verdict == Match then 1 else 0)
    {
      var value := DigestFinish();
      if ended.Aborted? {
        entries := entries[id := entries[id].(size := offset)];
        return;
      }
      if face.Some? && dg2 && offset > face.value.offset {
        faceSize := offset - face.value.offset;
      }
      var state := CheckHash(dg, value);
      entries := entries[id := entries[id].(size := offset, hash := state)];
    }

    /**
     * Stream the selected file. The traffic is the stream's; export, hash and decoding buffer have all had
     * exactly the bytes it got; the verdict is about those bytes; and it ends as the stream does unless a
     * stop was asked for.
     */
    method StreamFile(id: nat, dg: int, dg2: bool, parse: ParseBuffer?) returns (ended: Ending, ghost n: nat)
      requires Valid() && id < FILE_COUNT && digest == None
      requires sink.stream == [] && !sink.imageArmed && (dg2 ==> face == None)
      requires parse != null ==> parse.Valid() && parse.offered == [] && parse.data != lookahead
      requires Rising(reports, Percent(filesTotal, filesDone, 0, 0))
      modifies `log, `polls, `stopRequested, `reports, `digest, `face, `faceSize, `entries, `hashesChecked, `hashesMatched
      modifies sink, lookahead, parse, if parse == null then {} else {parse.data}
      ensures Valid() && digest == None && sink.Carries(old(sink.fileOpen), old(sink.failed)) && Heeds(old(Stand()), Stand())
      ensures !dg2 ==> face == old(face)
      ensures Streamed(StreamFrom(old(log)), n, log, ended, stopRequested)
      ensures
        var got := StreamFrom(old(log)).Got(n);
        var verdict := if ended.Aborted? then old(entries[id].hash) else Verdict(sod, dg, DigestValue(hashes, sod, got));
        && Delivered(dg2, parse, got)
        && faceSize == (if !ended.Aborted? && dg2 && face.Some? then |got| - face.value.offset else old(faceSize))
        && entries == old(entries)[id := old(entries[id]).(size := |got|, hash := verdict)]
        && hashesChecked == old(hashesChecked) + (if !ended.Aborted? && Decided(verdict) then 1 else 0)
        && hashesMatched == old(hashesMatched) + (if !ended.Aborted? && verdict == Match then 1 else 0)
      ensures Rising(reports, Percent(filesTotal, filesDone + 1, 0, 0))
    {
      hide Percent, FindFrom, Rising, Heeds, Streamed;
      hide Verdict, DigestValue, Exports.Roomy, FrameBudget.ChunkSize, SizeFrom;
      hide Stream.Log, Stream.GotIn, Stream.Got;
      ghost var s := StreamFrom(log);
      var offset;
      ended, offset, n := StreamAll(dg2, parse);
      Settle(id, dg, dg2, ended, offset, s.Got(n));
    }
  }

  /** The cursor says where the stream is, and how long the file is taken to be once data has come. */
  ghost predicate Fits(c: Cursor, s: Stream, n: nat) {
    && c.offset == |s.Got(n)| && (c.sized <==> s.First(n) != [])
    && (if c.sized then 0 < c.offset <= c.total == s.Size(n) else s.Got(n) == [])
  }

  /**
   * A stream nobody stopped ends as its last round says; one that was stopped may also be cancelled, but
   * not after a read that failed.
   */
  ghost predicate EndsAs(s: Stream, n: nat, ended: Ending, stopped: bool) {
    || (stopped && ended == Aborted(Cancelled) && (n == 0 || s.Outcome(n).Ok?))
    || (!s.Going(n) && ended == s.End(n))
  }

  lemma NoErrorYet(s: Stream, n: nat)
    requires n == 0 || s.RoundEnd(n).None?
    ensures n == 0 || s.Outcome(n).Ok?
  {
    hide s.Outcome, s.Got;
  }

  /** The traffic is that of the stream, and the stream got to its end or was stopped on the way. */
  ghost predicate Streamed(s: Stream, n: nat, log: seq<Exchange>, ended: Ending, stopped: bool) {
    log == s.Log(n) && s.Reaches(n) && EndsAs(s, n, ended, stopped)
  }

  /**
   * A read of a file that holds one object, on a chip that serves it in pieces of any size, with nobody
   * asking for a stop: it does not fail, and it gets the object exactly when the first piece, of at most
   * what one frame carries, held the object's header.
   */
  lemma UnstoppedRead(w: Worker, s: Stream, n: nat, log: seq<Exchange>, ended: Ending, a: Standing, b: Standing,
                      file: Bytes, pace: nat -> nat)
    requires FrameBudget.IsBlock(w.block) && s == w.StreamFrom(s.start)
    requires !a.stopped && w.Heeds(a, b) && (forall k :: !w.stopper(k)) && (forall k :: w.callback(k))
    requires Streamed(s, n, log, ended, b.stopped)
    requires w.chip == FileServer(file, pace) && HoldsObject(file)
    ensures !ended.Aborted?
    ensures s.Got(n) == file[..TotalLength(file)] <==> HeaderLen(file) <= FirstPiece(s, file, pace)
  {
    hide FrameBudget.ChunkSize, SizeFrom, HoldsObject, HeaderLen, FirstPiece, FileServer;
    hide s.Log, s.Got, s.Reaches, s.Going, s.End;
    FrameBudget.ChunkFits(w.fsd, w.block);
    ServerRead(s, n, file, pace);
  }

  lemma Sized(data: Bytes)
    requires data != []
    ensures SizeFrom(data) > 0
    ensures SizeFrom(data) == if TotalLength(data) == 0 || TotalLength(data) > FILE_SIZE_MAX then |data| else TotalLength(data)
  {
    hide TotalLength;
  }

  lemma NothingToFind()
    ensures FindFrom([], 0) == None
  {
  }

  lemma FaceInside(got: Bytes, f: Face)
    requires FindFrom(got[..Min(LOOKAHEAD, |got|)], 0) == Some(f)
    ensures f.offset < |got|
  {
  }

  /** Whether or not a face has been found in the bytes searched, more of them do not change it. */
  lemma FoundStays(got: Bytes, chunk: Bytes)
    requires |got| >= LOOKAHEAD || FindFrom(got[..Min(LOOKAHEAD, |got|)], 0).Some?
    ensures FindFrom((got + chunk)[..Min(LOOKAHEAD, |got + chunk|)], 0) == FindFrom(got[..Min(LOOKAHEAD, |got|)], 0)
  {
    hide FindFrom;
    var before, after := got[..Min(LOOKAHEAD, |got|)], (got + chunk)[..Min(LOOKAHEAD, |got + chunk|)];
    assert after[..|before|] == before;
    if |got| >= LOOKAHEAD {
      assert after == before;
    } else {
      HitIsFinal(after, |before|);
    }
  }
}
