/** Reading EF.CardAccess: a short file, read in the clear before there is a session, into one buffer. */
module CardAccess {
  import opened Bytes
  import opened Errors
  import opened Tlv
  import opened Apdu
  import opened ReadStream
  import opened FileReader
  import Export

  const CARD_ACCESS_MAX := 1024

  function SelectCardAccess(): Command {
    Command(0x00, 0xA4, 0x02, 0x0C, [0x01, 0x1C], LE_NONE)
  }

  /** How long the file is taken to be: as its header says, or else as much of it as came first. */
  function SizeWithin(capacity: nat): Bytes -> nat {
    (first: Bytes) =>
      if TotalLength(first) == 0 || TotalLength(first) > capacity then Min(|first|, capacity) else TotalLength(first)
  }

  lemma SizeFits(first: Bytes, capacity: nat)
    ensures SizeWithin(capacity)(first) <= capacity
  {
    hide TotalLength;
  }

  lemma CardSizeInNumbers(first: Bytes)
    ensures SizeWithin(CARD_ACCESS_MAX)(first)
            == if 1 <= TotalLength(first) <= 1024 then TotalLength(first) else Min(|first|, 1024)
  {
    hide TotalLength;
  }

  /** The stream of the file, in the clear. */
  function CardStream(w: Worker, start: seq<Exchange>, capacity: nat): Stream {
    Stream(w.chip, start, FrameBudget.ChunkSize(w.fsd, 0), SizeWithin(capacity))
  }

  /** Where the read stands after `n` rounds: what has been got is in the buffer and with the export. */
  ghost predicate Gathered(w: Worker, buffer: array<byte>, c: Cursor, s: Stream, n: nat)
    reads w, w.sink, buffer
  {
    && w.Valid() && w.block == 0 && s == CardStream(w, s.start, buffer.Length)
    && w.log == s.Log(n) && s.Reaches(n)
    && c.offset == |s.Got(n)| <= buffer.Length && buffer[..c.offset] == s.Got(n) == w.sink.stream
    && (c.sized <==> s.First(n) != []) && (if c.sized then c.offset <= c.total == s.Size(n) else s.Got(n) == [])
  }

  /** How much of an answer with data belongs to the file, and whether the stream ends there. */
  lemma Taken(s: Stream, n: nat, response: Response, capacity: nat)
    requires s.size == SizeWithin(capacity) && s.Outcome(n + 1) == Ok(response)
    requires SwHasData(response.sw) && response.data != []
    requires if s.First(n) == [] then s.Got(n) == [] else |s.Got(n)| < s.Size(n)
    ensures s.First(n + 1) == if s.First(n) == [] then response.data else s.First(n)
    ensures |s.Got(n)| <= s.Size(n + 1) <= capacity
    ensures s.Got(n + 1) == s.Got(n) + response.data[..Min(|response.data|, s.Size(n + 1) - |s.Got(n)|)]
    ensures s.RoundEnd(n + 1).Some? <==> response.sw == 0x6282
  {
    hide TotalLength, SizeWithin, s.Got, s.Outcome, s.Log;
    s.GotStep(n + 1);
    SizeFits(s.First(n + 1), capacity);
  }

  /** One answer with data, into the buffer and on to the export. */
  method Gather(w: Worker, buffer: array<byte>, response: Response, c: Cursor, ghost s: Stream, ghost n: nat)
    returns (d: Cursor, end: bool)
    requires w.Valid() && s == CardStream(w, s.start, buffer.Length) && s.Outcome(n + 1) == Ok(response)
    requires c.offset == |s.Got(n)| <= buffer.Length && buffer[..c.offset] == s.Got(n) == w.sink.stream
    requires if c.sized then c.offset < c.total == s.Size(n) && s.First(n) != [] else s.Got(n) == [] == s.First(n)
    requires SwHasData(response.sw) && response.data != [] && buffer != w.lookahead
    modifies w.sink, buffer
    ensures w.Valid() && w.sink.Carries(old(w.sink.fileOpen), old(w.sink.failed))
    ensures d.offset == |s.Got(n + 1)| <= buffer.Length && buffer[..d.offset] == s.Got(n + 1) == w.sink.stream
    ensures d.sized && s.First(n + 1) != [] && d.offset <= d.total == s.Size(n + 1)
    ensures end <==> s.RoundEnd(n + 1).Some? || (s.Full(n + 1) && d.offset == 0)
    ensures !end ==> d.offset > c.offset && (c.sized ==> d.total == c.total)
  {
    hide TotalLength, s.Got, s.First, s.Outcome, s.RoundEnd, FrameBudget.ChunkSize, Export.Roomy;
    Taken(s, n, response, buffer.Length);
    var data := response.data;
    var total := c.total;
    if !c.sized {
      total := TotalLength(data);
      if total == 0 || total > buffer.Length {
        total := Min(|data|, buffer.Length);
      }
    }
    var len := Min(|data|, total - c.offset);
    d := Cursor(c.offset + len, total, true, false, 0);
    if len == 0 {
      return d, true;
    }
    CopyInto(buffer, c.offset, data[..len]);
    var _ := w.sink.Write(data[..len]);
    end := response.sw == 0x6282;
  }

  /** One round, unless a stop is seen or the file has been read. */
  method CardRound(w: Worker, buffer: array<byte>, c: Cursor, ghost s: Stream, ghost n: nat)
    returns (d: Cursor, end: bool, ghost m: nat)
    requires Gathered(w, buffer, c, s, n) && (n == 0 || s.RoundEnd(n).None?) && buffer != w.lookahead
    modifies w`log, w`polls, w`stopRequested, w.sink, buffer
    ensures Gathered(w, buffer, d, s, m) && w.sink.Carries(old(w.sink.fileOpen), old(w.sink.failed))
    ensures w.Heeds(old(w.Stand()), w.Stand())
    ensures end ==> w.stopRequested || !s.Going(m)
    ensures !end ==> m == n + 1 && s.RoundEnd(m).None? && d.sized && (c.sized ==> d.total == c.total && d.offset > c.offset)
  {
    hide FrameBudget.ChunkSize, ReadLog, ReadResult, Export.Roomy, w.Heeds, s.Log;
    hide s.Got, s.First, s.Want, s.Outcome, SizeWithin;
    s.Base();
    s.Next(n);
    d, m := c, n;
    var stop := w.PollStop();
    if stop {
      return d, true, m;
    }
    var want := FrameBudget.ChunkSize(w.fsd, w.block);
    if c.sized {
      if c.offset >= c.total {
        return d, true, m;
      }
      want := Min(want, c.total - c.offset);
    }
    var response := w.ReadBinaryAt(c.offset, want);
    m := n + 1;
    if DataIn(response) == [] {
      NothingNew(s, m);
    }
    if response.Err? || !SwHasData(response.value.sw) || response.value.data == [] {
      return d, true, m;
    }
    d, end := Gather(w, buffer, response.value, c, s, n);
  }

  /** The exchange that selects the file, and whether it was granted. */
  function Selecting(w: Worker, log: seq<Exchange>): Exchange {
    Exchange(SelectCardAccess(), w.chip(log, SelectCardAccess()))
  }

  /**
   * What the read amounts to: nothing when the file cannot be selected; otherwise the stream's rounds, up
   * to its end unless a stop is seen, with everything it got in the buffer and in the exported file.
   */
  ghost predicate CardRead(w: Worker, before: seq<Exchange>, log: seq<Exchange>, got: Bytes, capacity: nat, n: nat,
                           stopped: bool) {
    var x := Selecting(w, before);
    var s := CardStream(w, before + [x], capacity);
    if !Granted(x.answer) then log == before + [x] && got == []
    else log == s.Log(n) && s.Reaches(n) && (stopped || !s.Going(n)) && got == s.Got(n)
  }

  method ReadCardAccess(w: Worker, buffer: array<byte>) returns (len: nat, ghost n: nat)
    requires w.Valid() && w.block == 0 && buffer != w.lookahead
    modifies w`log, w`polls, w`stopRequested, w.sink, buffer
    ensures w.Valid() && len <= buffer.Length && w.Heeds(old(w.Stand()), w.Stand())
    ensures CardRead(w, old(w.log), w.log, buffer[..len], buffer.Length, n, w.stopRequested)
    ensures Granted(Selecting(w, old(w.log)).answer) && !w.sink.failed ==> w.sink.file == buffer[..len]
    ensures Export.Roomy(w.sink.medium) ==> w.sink.failed == old(w.sink.failed)
  {
    ghost var x, before := Selecting(w, w.log), w.Stand();
    var selected := w.Transmit(SelectCardAccess());
    n := 0;
    w.HeedsNothing(before);
    if selected.Err? || selected.value.sw != 0x9000 {
      return 0, n;
    }
    ghost var s := CardStream(w, w.log, buffer.Length);
    s.Base();
    hide FrameBudget.ChunkSize, SizeWithin, Export.Roomy, w.Heeds, s.Log, s.Got, s.First, s.Outcome;
    var _ := w.sink.BeginFile();
    ghost var open, failed := w.sink.fileOpen, w.sink.failed;
    var c, end := Cursor(0, 0, false, false, 0), false;
    while !end
      invariant Gathered(w, buffer, c, s, n) && w.Heeds(before, w.Stand()) && w.sink.Carries(open, failed)
      invariant if end then w.stopRequested || !s.Going(n) else n == 0 || s.RoundEnd(n).None?
      decreases !end, !c.sized, c.total - c.offset
    {
      ghost var midway := w.Stand();
      c, end, n := CardRound(w, buffer, c, s, n);
      w.HeedsBoth(before, midway, w.Stand());
    }
    w.sink.EndFile();
    len := c.offset;
  }
}
