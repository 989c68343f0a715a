/**
 * A whole read: which files are attempted, in what order, where it stops and why, and what its
 * verdicts and percentages are worth.
 */
module ReadRun {
  import opened Bytes
  import opened Errors
  import opened Apdu
  import opened Tlv
  import opened Progress
  import opened SecureMessaging
  import opened ReadStream
  import opened FileReader
  import opened OneFile
  import opened CardAccess

  const AID: Bytes := [0xA0, 0x00, 0x00, 0x02, 0x47, 0x10, 0x01]

  function SelectApplication(): Command {
    Command(0x00, 0xA4, 0x04, 0x0C, AID, LE_NONE)
  }

  function DefaultMask(): set<nat> {
    set id: nat | id < FILE_COUNT && !EacProtected(id)
  }

  /** What is attempted without EF.COM: everything but the data groups 3 and 4. */
  lemma DefaultInNumbers(id: nat)
    ensures id in DefaultMask() <==> id < 18 && DgNumber(id) != 3 && DgNumber(id) != 4
  {
  }

  // ---- The plan ----------------------------------------------------------------------------

  predicate Planned(id: nat, present: set<nat>, selected: set<nat>) {
    !EacProtected(id) && id in present && id in selected
  }

  function CountFrom(id: nat, present: set<nat>, selected: set<nat>): nat
    decreases FILE_COUNT - id
  {
    if id >= FILE_COUNT then 0
    else (if Planned(id, present, selected) then 1 else 0) + CountFrom(id + 1, present, selected)
  }

  method CountFiles(present: set<nat>, selected: set<nat>) returns (count: nat)
    ensures count == 2 + CountFrom(DG1, present, selected) == 2 + |PlannedFrom(DG1, present, selected)|
  {
    CountIsPlanned(DG1, present, selected);
    count := 2;
    var id := DG1;
    while id < FILE_COUNT
      invariant DG1 <= id <= FILE_COUNT
      invariant count + CountFrom(id, present, selected) == 2 + CountFrom(DG1, present, selected)
    {
      if !EacProtected(id) && id in present && id in selected {
        count := count + 1;
      }
      id := id + 1;
    }
  }

  /** The data groups from this one on that are planned: present, asked for, and not under terminal authentication. */
  function PlannedFrom(id: nat, present: set<nat>, selected: set<nat>): set<nat> {
    set j: nat | id <= j < 18 && DgNumber(j) != 3 && DgNumber(j) != 4 && j in present && j in selected
  }

  lemma {:induction false} CountIsPlanned(id: nat, present: set<nat>, selected: set<nat>)
    ensures CountFrom(id, present, selected) == |PlannedFrom(id, present, selected)|
    decreases FILE_COUNT - id
  {
    if id < FILE_COUNT {
      CountIsPlanned(id + 1, present, selected);
      var rest := PlannedFrom(id + 1, present, selected);
      assert PlannedFrom(id, present, selected) == if Planned(id, present, selected) then {id} + rest else rest;
    }
  }

  /** What EF.COM announces is never more than what the default plan counted. */
  lemma {:induction false} PlanShrinks(id: nat, present: set<nat>, selected: set<nat>)
    ensures CountFrom(id, present, selected) <= CountFrom(id, DefaultMask(), selected)
    decreases FILE_COUNT - id
  {
    if id < FILE_COUNT {
      PlanShrinks(id + 1, present, selected);
    }
  }

  // ---- The trail of a read -----------------------------------------------------------------

  /** What is to be read: the groups said to be there, those asked for, and those there is room to decode. */
  datatype Agenda = Agenda(present: set<nat>, selected: set<nat>, roomy: nat -> bool)

  predicate LinkGone(e: Option<Error>) {
    e == Some(CardLost) || e == Some(Transport) || e == Some(SecureMessaging)
  }

  /** The errors after which no further file is read; EF.SOD may be cancelled without a stop and the read goes on. */
  predicate Fatal(id: nat, e: Option<Error>) {
    LinkGone(e) || (e == Some(Cancelled) && id != SOD)
  }

  /** A file passed over without any traffic. */
  predicate Idle(leg: Leg, entry: Entry) {
    leg.before == leg.after && leg.error == None && !Decided(entry.hash)
  }

  /** What becomes of a file the read got to: absent, out of reach, deselected, or read. */
  ghost predicate Scored(w: Worker, t: Terms, d: Decoders, a: Agenda, id: nat, entry: Entry, leg: Leg)
    requires id < FILE_COUNT
  {
    if id >= DG1 && id !in a.present then Idle(leg, entry) && entry.state == Absent
    else if id >= DG1 && EacProtected(id) then Idle(leg, entry) && entry.state == Skipped && entry.error == Some(Unsupported)
    else if id >= DG1 && id !in a.selected then Idle(leg, entry) && entry.state == Skipped
    else FileRead(w, t, d, id, a.roomy(id), leg, entry)
  }

  /** The j-th file was read next after the one before it, which was no reason to stop. */
  predicate Follows(trail: seq<Leg>, j: nat)
    requires 0 < j < |trail|
  {
    trail[j].before == trail[j - 1].after && !Fatal(j - 1, trail[j - 1].error)
  }

  /** The traffic from `start` to `end` is that of the files reached, one leg after another, none after a fatal one. */
  ghost predicate Linked(start: seq<Exchange>, end: seq<Exchange>, trail: seq<Leg>) {
    && (forall j :: 0 < j < |trail| ==> Follows(trail, j))
    && if trail == [] then start == end else trail[0].before == start && trail[|trail| - 1].after == end
  }

  ghost predicate AllScored(w: Worker, t: Terms, d: Decoders, a: Agenda, entries: seq<Entry>, trail: seq<Leg>) {
    && |trail| <= FILE_COUNT == |entries|
    && forall j :: 0 <= j < |trail| ==> Scored(w, t, d, a, j, entries[j], trail[j])
  }

  /** What is present is what EF.COM was decoded to, and what is hashed against is what EF.SOD was. */
  ghost predicate Steered(w: Worker, t: Terms, d: Decoders, a: Agenda, trail: seq<Leg>) {
    && t.present == (if |trail| <= COM then None
                     else match Decodable(w, t.block, COM, a.roomy(COM), trail[COM]) case None => None case Some(b) => d.com(b))
    && t.sod == (if |trail| <= SOD then None
                 else match Decodable(w, t.block, SOD, a.roomy(SOD), trail[SOD]) case None => None case Some(b) => d.sod(b))
  }

  /** The error a trail ended with, if it did. */
  function CauseOf(trail: seq<Leg>): Option<Error> {
    if trail != [] && Fatal(|trail| - 1, trail[|trail| - 1].error) then trail[|trail| - 1].error else None
  }

  lemma LinkedLonger(start: seq<Exchange>, end: seq<Exchange>, trail: seq<Leg>, leg: Leg)
    requires Linked(start, end, trail) && CauseOf(trail) == None && leg.before == end
    ensures Linked(start, leg.after, trail + [leg])
  {
    var longer := trail + [leg];
    forall j | 0 < j < |longer| ensures Follows(longer, j) {
      if j < |trail| {
        assert Follows(trail, j);
      }
    }
  }

  lemma ScoredStill(w: Worker, t: Terms, u: Terms, d: Decoders, a: Agenda, b: Agenda, id: nat, entry: Entry, leg: Leg)
    requires id < FILE_COUNT && Scored(w, t, d, a, id, entry, leg)
    requires u.block == t.block && (t.stopped ==> u.stopped) && a.roomy == b.roomy
    requires (u.sod == t.sod && a == b) || id < DG1
    ensures Scored(w, u, d, b, id, entry, leg)
  {
    hide FileRead, Idle;
    if FileRead(w, t, d, id, a.roomy(id), leg, entry) {
      FileReadStill(w, t, u, d, id, a.roomy(id), leg, entry);
    }
  }

  /** What was said of the files so far stays true while later ones are read. */
  lemma AllScoredStill(w: Worker, t: Terms, u: Terms, d: Decoders, a: Agenda, b: Agenda,
                       entries: seq<Entry>, later: seq<Entry>, trail: seq<Leg>)
    requires AllScored(w, t, d, a, entries, trail) && |later| == |entries|
    requires u.block == t.block && (t.stopped ==> u.stopped) && a.roomy == b.roomy
    requires (u.sod == t.sod && a == b) || |trail| <= DG1
    requires forall j :: 0 <= j < |trail| ==> later[j] == entries[j]
    ensures AllScored(w, u, d, b, later, trail)
  {
    hide Scored;
    forall j | 0 <= j < |trail| ensures Scored(w, u, d, b, j, later[j], trail[j]) {
      ScoredStill(w, t, u, d, a, b, j, entries[j], trail[j]);
    }
  }

  lemma OneMoreScored(w: Worker, t: Terms, d: Decoders, a: Agenda, entries: seq<Entry>, trail: seq<Leg>, leg: Leg)
    requires AllScored(w, t, d, a, entries, trail) && |trail| < FILE_COUNT
    requires Scored(w, t, d, a, |trail|, entries[|trail|], leg)
    ensures AllScored(w, t, d, a, entries, trail + [leg])
  {
    hide Scored;
  }

  /**
   * Every verdict in a trail is about a file that was read out, in one stream behind its granted SELECT
   * that did not fail, and about nothing but the bytes that stream got.
   */
  lemma VerdictIsReadOut(w: Worker, t: Terms, d: Decoders, a: Agenda, entries: seq<Entry>, trail: seq<Leg>, id: nat)
    requires AllScored(w, t, d, a, entries, trail) && id < |trail| && Decided(entries[id].hash)
    ensures id >= DG1 && ReadOut(w, t, d, id, a.roomy(id), trail[id], entries[id]) && !trail[id].ended.Aborted?
  {
    hide ReadOut, Unread;
    assert Scored(w, t, d, a, id, entries[id], trail[id]);
    FileReadEntry(w, t, d, id, a.roomy(id), trail[id], entries[id]);
  }

  /**
   * What a verdict says of the file: when the chip served it and ended it honestly in that leg, and the
   * first answer held the header, Match means that EF.SOD lists the digest of the file's object.
   */
  lemma VerdictIsOfFile(w: Worker, t: Terms, d: Decoders, id: nat, roomy: bool, leg: Leg, entry: Entry, file: Bytes)
    requires id < FILE_COUNT && ReadOut(w, t, d, id, roomy, leg, entry) && !leg.ended.Aborted? && HoldsObject(file)
    requires AllServe(file, leg.after, |leg.before| + 1) && AllEndHonestly(file, leg.after, |leg.before| + 1)
    requires HeaderLen(file) <= |LegStream(w, t.block, id, leg).First(leg.rounds)|
    ensures
      entry.hash == Match <==>
        id >= DG1 && t.sod.Some? && Vouches(w.hashes, t.sod.value, DgNumber(id), file[..TotalLength(file)])
  {
    hide Stream.Log, Stream.Got, Stream.First, Stream.Going, Stream.Reaches, Stream.End, Serves;
    hide EndsHonestly, SizeFrom, HoldsObject, HeaderLen, Verdict, DigestValue;
    var s := LegStream(w, t.block, id, leg);
    WholeObjectRead(s, leg.rounds, file);
    MatchMeansEqual(w.hashes, t.sod, DgNumber(id), s.Got(leg.rounds));
  }

  lemma ScoredGrows(w: Worker, t: Terms, d: Decoders, a: Agenda, id: nat, entry: Entry, leg: Leg)
    requires id < FILE_COUNT && Scored(w, t, d, a, id, entry, leg)
    ensures leg.before <= leg.after
    ensures forall i :: |leg.before| <= i < |leg.after| && leg.after[i].answer.Err? ==>
      i == |leg.after| - 1 && leg.error == Some(leg.after[i].answer.error)
  {
    hide FileRead;
    if FileRead(w, t, d, id, a.roomy(id), leg, entry) {
      LegGrows(w, t, d, id, a.roomy(id), leg, entry);
      forall i | |leg.before| <= i < |leg.after| && leg.after[i].answer.Err?
        ensures i == |leg.after| - 1 && leg.error == Some(leg.after[i].answer.error)
      {
        FailedIsLastOfLeg(w, t, d, id, a.roomy(id), leg, entry, i);
      }
    }
  }

  /** All the traffic of a trail is what the chip answered. */
  lemma {:induction false} TrailIsGenuine(w: Worker, t: Terms, d: Decoders, a: Agenda, start: seq<Exchange>,
                                          end: seq<Exchange>, entries: seq<Entry>, trail: seq<Leg>)
    requires Linked(start, end, trail) && AllScored(w, t, d, a, entries, trail)
    ensures start <= end && Genuine(w.chip, end, |start|)
    decreases |trail|
  {
    hide Genuine, FileRead;
    if trail == [] {
      NothingSince(w.chip, start);
    } else {
      var k := |trail| - 1;
      var leg := trail[k];
      assert Scored(w, t, d, a, k, entries[k], leg);
      ScoredGrows(w, t, d, a, k, entries[k], leg);
      NothingSince(w.chip, leg.before);
      if FileRead(w, t, d, k, a.roomy(k), leg, entries[k]) {
        LegIsGenuine(w, t, d, k, a.roomy(k), leg, entries[k]);
      }
      if k > 0 {
        LinkedShorter(start, end, trail);
        TrailIsGenuine(w, t, d, a, start, leg.before, entries, trail[..k]);
        GenuineJoined(w.chip, leg.before, end, |start|);
      }
    }
  }

  /** The link or the session was lost in this exchange. */
  predicate LostIn(x: Exchange) {
    x.answer.Err? && x.answer.error in {CardLost, Transport, SecureMessaging}
  }

  /**
   * Once the link or the session is lost nothing more is sent: of all the traffic from `start` on, only
   * the last exchange can be the one it was lost in, and that is what ended the trail.
   */
  lemma {:induction false} NothingAfterLoss(w: Worker, t: Terms, d: Decoders, a: Agenda, start: seq<Exchange>,
                                            end: seq<Exchange>, entries: seq<Entry>, trail: seq<Leg>, i: nat)
    requires Linked(start, end, trail) && AllScored(w, t, d, a, entries, trail)
    requires |start| <= i < |end| && LostIn(end[i])
    ensures i == |end| - 1 && CauseOf(trail) == Some(end[i].answer.error)
    decreases |trail|
  {
    hide Scored;
    if trail != [] {
      var k := |trail| - 1;
      var leg := trail[k];
      ScoredGrows(w, t, d, a, k, entries[k], leg);
      if i < |leg.before| {
        assert k > 0;
        assert Follows(trail, k);
        assert end[i] == leg.before[i];
        LinkedShorter(start, end, trail);
        NothingAfterLoss(w, t, d, a, start, leg.before, entries, trail[..k], i);
      }
    }
  }

  lemma LinkedShorter(start: seq<Exchange>, end: seq<Exchange>, trail: seq<Leg>)
    requires Linked(start, end, trail) && |trail| > 1
    ensures Linked(start, trail[|trail| - 1].before, trail[..|trail| - 1])
  {
    var k := |trail| - 1;
    forall j | 0 < j < k ensures Follows(trail[..k], j) {
      assert Follows(trail, j);
    }
    assert Follows(trail, k);
  }

  // ---- The files ---------------------------------------------------------------------------

  /** Between two files: the accounts add up, no read was too long, and no percentage has fallen. */
  ghost predicate Calm(w: Worker)
    reads w`block, w`entries, w`digest, w`hashesChecked, w`hashesMatched, w.sink
    reads w`log, w`sessionAt, w`reports, w`filesTotal, w`filesDone
  {
    Between(w) && InBudget(w) && Rising(w.reports, Floor(w))
  }

  /** The files from `id` on have not been scored yet, and no face has been found before EF.DG2. */
  ghost predicate Ahead(w: Worker, id: nat)
    reads w`entries, w`face
  {
    && |w.entries| == FILE_COUNT
    && (forall j :: id <= j < FILE_COUNT ==> !Decided(w.entries[j].hash))
    && (id <= DG2 ==> w.face == None)
  }

  /** The files of the trail, and no others, have been read since `start`, as their entries say. */
  ghost predicate Trailed(w: Worker, d: Decoders, a: Agenda, start: seq<Exchange>, trail: seq<Leg>)
    reads w`block, w`present, w`sod, w`stopRequested, w`entries, w`log
  {
    && Linked(start, w.log, trail) && AllScored(w, TermsOf(w), d, a, w.entries, trail)
    && Steered(w, TermsOf(w), d, a, trail)
  }

  /** The entries of the files not reached are as they were. */
  ghost predicate Rest(w: Worker, from: nat, entries: seq<Entry>)
    reads w`entries
  {
    |w.entries| == |entries| == FILE_COUNT && forall j :: from <= j < FILE_COUNT ==> w.entries[j] == entries[j]
  }

  /** A look for a stop, which changes nothing else. */
  method Look(w: Worker, d: Decoders, a: Agenda, ghost start: seq<Exchange>, ghost trail: seq<Leg>) returns (stop: bool)
    requires Trailed(w, d, a, start, trail)
    modifies w`polls, w`stopRequested
    ensures Trailed(w, d, a, start, trail) && w.Heeds(old(w.Stand()), w.Stand()) && stop == w.stopRequested
  {
    hide Linked, AllScored, Decodable, w.Heeds;
    ghost var t := TermsOf(w);
    stop := w.PollStop();
    AllScoredStill(w, t, TermsOf(w), d, a, a, w.entries, w.entries, trail);
  }

  /** Read the next file, and let its leg join the trail. */
  method ReadNext(w: Worker, d: Decoders, id: nat, a: Agenda, ghost start: seq<Exchange>, ghost trail: seq<Leg>)
    returns (e: Option<Error>, ghost longer: seq<Leg>)
    requires Calm(w) && Ahead(w, id) && Trailed(w, d, a, start, trail)
    requires id == |trail| < FILE_COUNT && CauseOf(trail) == None
    requires id >= DG1 ==> id in a.present && id in a.selected && !EacProtected(id)
    modifies w`log, w`polls, w`stopRequested, w`reports, w`digest, w`face, w`faceSize, w`entries, w`filesDone
    modifies w`hashesChecked, w`hashesMatched, w`present, w`sod, w.sink, w.lookahead
    ensures Calm(w) && Ahead(w, id + 1) && Trailed(w, d, a, start, longer)
    ensures |longer| == id + 1 && longer[..id] == trail && longer[id].error == e
    ensures Elsewhere(w, id, old(w.entries)) && w.Heeds(old(w.Stand()), w.Stand())
    ensures id != COM ==> w.present == old(w.present)
  {
    hide Between, InBudget, Percent, Rising, FileRead, Linked, AllScored, CauseOf, Decodable, LegExported, w.Heeds;
    ghost var t, entries, stand := TermsOf(w), w.entries, w.Stand();
    ghost var leg;
    e, leg := ReadFile(w, d, id, a.roomy(id));
    w.StopStays(stand, w.Stand());
    LinkedLonger(start, leg.before, trail, leg);
    AllScoredStill(w, t, TermsOf(w), d, a, a, entries, w.entries, trail);
    OneMoreScored(w, TermsOf(w), d, a, w.entries, trail, leg);
    longer := trail + [leg];
  }

  /** Enter a data group that is not read; its leg, without traffic, joins the trail. */
  method PassOver(w: Worker, d: Decoders, id: nat, a: Agenda, state: FileState, error: Option<Error>,
                  ghost start: seq<Exchange>, ghost trail: seq<Leg>)
    returns (ghost longer: seq<Leg>)
    requires Calm(w) && Ahead(w, id) && Trailed(w, d, a, start, trail)
    requires DG1 <= id == |trail| < FILE_COUNT && CauseOf(trail) == None
    requires Scored(w, TermsOf(w), d, a, id, w.entries[id].(state := state, error := error), Leg(w.log, w.log, None, Complete, 0))
    modifies w`entries
    ensures Calm(w) && Ahead(w, id + 1) && Trailed(w, d, a, start, longer)
    ensures |longer| == id + 1 && longer[..id] == trail && longer[id].error == None
    ensures Elsewhere(w, id, old(w.entries))
  {
    hide Between, InBudget, Percent, Rising, Scored, Linked, AllScored, CauseOf, Decodable;
    ghost var t, entries, leg := TermsOf(w), w.entries, Leg(w.log, w.log, None, Complete, 0);
    Conclude(w, id, state, error);
    LinkedLonger(start, w.log, trail, leg);
    AllScoredStill(w, t, t, d, a, a, entries, w.entries, trail);
    OneMoreScored(w, t, d, a, w.entries, trail, leg);
    longer := trail + [leg];
  }

  /** One data group: absent, out of reach, deselected, or read. */
  method ReadGroup(w: Worker, d: Decoders, id: nat, a: Agenda, ghost start: seq<Exchange>, ghost trail: seq<Leg>)
    returns (e: Option<Error>, ghost longer: seq<Leg>)
    requires Calm(w) && Ahead(w, id) && Trailed(w, d, a, start, trail)
    requires DG1 <= id == |trail| < FILE_COUNT && CauseOf(trail) == None
    modifies w`log, w`polls, w`stopRequested, w`reports, w`digest, w`face, w`faceSize, w`entries, w`filesDone
    modifies w`hashesChecked, w`hashesMatched, w`present, w`sod, w.sink, w.lookahead
    ensures Calm(w) && Ahead(w, id + 1) && Trailed(w, d, a, start, longer)
    ensures |longer| == id + 1 && longer[..id] == trail && longer[id].error == e
    ensures Elsewhere(w, id, old(w.entries)) && w.Heeds(old(w.Stand()), w.Stand()) && w.present == old(w.present)
  {
    hide Calm, Trailed, CauseOf, FileRead;
    w.HeedsNothing(w.Stand());
    hide w.Heeds;
    e := None;
    if id !in a.present {
      longer := PassOver(w, d, id, a, Absent, w.entries[id].error, start, trail);
    } else if EacProtected(id) {
      longer := PassOver(w, d, id, a, Skipped, Some(Unsupported), start, trail);
    } else if id !in a.selected {
      longer := PassOver(w, d, id, a, Skipped, w.entries[id].error, start, trail);
    } else {
      e, longer := ReadNext(w, d, id, a, start, trail);
    }
  }

  /** The loss of the link or of the session is the read's error, with the file it happened in; nothing else is. */
  ghost predicate Named(w: Worker, trail: seq<Leg>, error: Option<Error>, errorFile: nat)
    reads w`error, w`errorFile
  {
    if LinkGone(CauseOf(trail)) then w.error == CauseOf(trail) && w.errorFile == |trail| - 1
    else w.error == error && w.errorFile == errorFile
  }

  /** One turn of the loop over the data groups; false when no further one is to be read. */
  method GroupRound(w: Worker, d: Decoders, id: nat, a: Agenda, ghost start: seq<Exchange>, ghost trail: seq<Leg>)
    returns (goOn: bool, ghost longer: seq<Leg>)
    requires Calm(w) && Ahead(w, id) && Trailed(w, d, a, start, trail)
    requires DG1 <= id == |trail| < FILE_COUNT && CauseOf(trail) == None
    modifies w`log, w`polls, w`stopRequested, w`reports, w`digest, w`face, w`faceSize, w`entries, w`filesDone
    modifies w`hashesChecked, w`hashesMatched, w`present, w`sod, w.sink, w.lookahead, w`error, w`errorFile
    ensures Calm(w) && Trailed(w, d, a, start, longer) && id <= |longer| <= id + 1 && longer[..id] == trail
    ensures Rest(w, |longer|, old(w.entries)) && w.Heeds(old(w.Stand()), w.Stand()) && w.present == old(w.present)
    ensures if goOn then |longer| == id + 1 && Ahead(w, id + 1) && CauseOf(longer) == None
            else CauseOf(longer).Some? || w.stopRequested
    ensures Named(w, longer, old(w.error), old(w.errorFile))
  {
    hide Calm, Trailed, w.Heeds;
    ghost var before := w.Stand();
    var stop := Look(w, d, a, start, trail);
    if stop {
      return false, trail;
    }
    ghost var midway := w.Stand();
    var e;
    e, longer := ReadGroup(w, d, id, a, start, trail);
    w.HeedsBoth(before, midway, w.Stand());
    if e == Some(Cancelled) {
      return false, longer;
    }
    if LinkGone(e) {
      w.error, w.errorFile := e, id;
      return false, longer;
    }
    goOn := true;
  }

  /** The data groups in order, up to the first at which the read is stopped or the link is lost. */
  method ReadDataGroups(w: Worker, d: Decoders, a: Agenda, ghost start: seq<Exchange>, ghost index: seq<Leg>)
    returns (ghost trail: seq<Leg>)
    requires Calm(w) && Ahead(w, DG1) && Trailed(w, d, a, start, index)
    requires |index| == DG1 && CauseOf(index) == None
    modifies w`log, w`polls, w`stopRequested, w`reports, w`digest, w`face, w`faceSize, w`entries, w`filesDone
    modifies w`hashesChecked, w`hashesMatched, w`present, w`sod, w.sink, w.lookahead, w`error, w`errorFile
    ensures Calm(w) && Trailed(w, d, a, start, trail) && index <= trail && |trail| <= FILE_COUNT
    ensures Rest(w, |trail|, old(w.entries)) && w.Heeds(old(w.Stand()), w.Stand()) && w.present == old(w.present)
    ensures CauseOf(trail).Some? || |trail| == FILE_COUNT || w.stopRequested
    ensures Named(w, trail, old(w.error), old(w.errorFile))
  {
    ghost var before := w.Stand();
    w.HeedsNothing(before);
    hide Calm, Trailed, CauseOf, w.Heeds;
    var id, goOn := DG1, true;
    trail := index;
    while goOn && id < FILE_COUNT
      invariant DG1 <= id <= FILE_COUNT && Calm(w) && Trailed(w, d, a, start, trail) && index <= trail && |trail| <= FILE_COUNT
      invariant Rest(w, |trail|, old(w.entries)) && w.Heeds(before, w.Stand()) && w.present == old(w.present)
      invariant if goOn then |trail| == id && Ahead(w, id) && CauseOf(trail) == None
                else CauseOf(trail).Some? || w.stopRequested
      invariant Named(w, trail, old(w.error), old(w.errorFile))
    {
      ghost var midway := w.Stand();
      goOn, trail := GroupRound(w, d, id, a, start, trail);
      w.HeedsBoth(before, midway, w.Stand());
      id := id + 1;
    }
  }

  /** The groups to attempt: those EF.COM announced, or else all but the two that are out of reach. */
  function Announced(w: Worker): set<nat>
    reads w`present
  {
    if w.present.Some? then w.present.value else DefaultMask()
  }

  /** The plan before EF.COM has been read. */
  method Plan(w: Worker, selected: set<nat>)
    requires Between(w) && InBudget(w) && w.filesDone == 0 && Rising(w.reports, FILES_BASE)
    modifies w`filesTotal
    ensures Calm(w) && w.filesTotal == 2 + CountFrom(DG1, DefaultMask(), selected)
  {
    hide Rising, Percent, CountFrom, DefaultMask, Between, InBudget;
    w.filesTotal := CountFiles(DefaultMask(), selected);
    RisingBelow(w.reports, FILES_BASE, Floor(w));
  }

  /** The plan once EF.COM has been read. */
  method Replan(w: Worker, present: set<nat>, selected: set<nat>)
    requires Calm(w) && w.filesTotal == 2 + CountFrom(DG1, DefaultMask(), selected)
    modifies w`filesTotal
    ensures Calm(w) && w.filesTotal == 2 + CountFrom(DG1, present, selected)
  {
    hide Rising, Percent, CountFrom, DefaultMask, Between, InBudget;
    ghost var before, floor := w.filesTotal, Floor(w);
    w.filesTotal := CountFiles(present, selected);
    PlanShrinks(DG1, present, selected);
    PercentReplanned(before, w.filesTotal, w.filesDone);
    RisingBelow(w.reports, floor, Floor(w));
  }

  /**
   * How a read of files ended: the last file ended it, and its error is the read's, unless that file was
   * a data group cancelled without a stop; or a stop was seen; or all files have been seen to.
   */
  ghost predicate Ended(w: Worker, trail: seq<Leg>)
    reads w`error, w`errorFile, w`stopRequested
  {
    var cause := CauseOf(trail);
    if cause.Some? then
      && (w.error == cause || (cause == Some(Cancelled) && |trail| > DG1 && w.error == None))
      && (LinkGone(cause) ==> w.errorFile == |trail| - 1)
    else
      (|trail| == FILE_COUNT && w.error == None) || (w.stopRequested && w.error == Some(Cancelled))
  }

  /** Before EF.COM and EF.SOD what is said of files does not depend on what is announced. */
  lemma AgendaSettled(w: Worker, d: Decoders, a: Agenda, b: Agenda, start: seq<Exchange>, trail: seq<Leg>)
    requires Trailed(w, d, a, start, trail) && |trail| <= DG1 && a.roomy == b.roomy
    ensures Trailed(w, d, b, start, trail)
  {
    hide Linked, AllScored, Decodable;
    AllScoredStill(w, TermsOf(w), TermsOf(w), d, a, b, w.entries, w.entries, trail);
  }

  /** Before any file has been read. */
  lemma NoneRead(w: Worker, d: Decoders, a: Agenda)
    requires |w.entries| == FILE_COUNT && w.present == None && w.sod == None
    ensures Trailed(w, d, a, w.log, [])
  {
  }

  /** Read EF.COM under the plan made without it. */
  method TakeCom(w: Worker, d: Decoders, selected: set<nat>, roomy: nat -> bool)
    returns (e: Option<Error>, ghost trail: seq<Leg>)
    requires Between(w) && InBudget(w) && Rising(w.reports, FILES_BASE) && Ahead(w, COM) && w.filesDone == 0
    requires w.present == None && w.sod == None
    modifies w`log, w`polls, w`stopRequested, w`reports, w`digest, w`face, w`faceSize, w`entries, w`filesDone
    modifies w`hashesChecked, w`hashesMatched, w`present, w`sod, w.sink, w.lookahead, w`filesTotal
    ensures Calm(w) && Ahead(w, SOD) && w.filesTotal == 2 + CountFrom(DG1, DefaultMask(), selected)
    ensures Trailed(w, d, Agenda(Announced(w), selected, roomy), old(w.log), trail) && |trail| == 1 && trail[COM].error == e
    ensures Elsewhere(w, COM, old(w.entries)) && w.Heeds(old(w.Stand()), w.Stand())
  {
    hide Calm, Trailed, Between, InBudget, Rising, CountFrom, DefaultMask, w.Heeds;
    ghost var log := w.log;
    var a := Agenda(DefaultMask(), selected, roomy);
    NoneRead(w, d, a);
    Plan(w, selected);
    e, trail := ReadNext(w, d, COM, a, log, []);
    AgendaSettled(w, d, a, Agenda(Announced(w), selected, roomy), log, trail);
  }

  /** EF.COM, by which the rest is planned. */
  method ReadCom(w: Worker, d: Decoders, selected: set<nat>, roomy: nat -> bool)
    returns (goOn: bool, a: Agenda, ghost trail: seq<Leg>)
    requires Between(w) && InBudget(w) && Rising(w.reports, FILES_BASE) && Ahead(w, COM) && w.filesDone == 0
    requires w.error == None && w.present == None && w.sod == None
    modifies w`log, w`polls, w`stopRequested, w`reports, w`digest, w`face, w`faceSize, w`entries, w`filesDone
    modifies w`hashesChecked, w`hashesMatched, w`present, w`sod, w.sink, w.lookahead, w`error, w`errorFile, w`filesTotal
    ensures Calm(w) && Ahead(w, SOD) && Trailed(w, d, a, old(w.log), trail) && |trail| == 1
    ensures a == Agenda(Announced(w), selected, roomy)
    ensures Elsewhere(w, COM, old(w.entries)) && w.Heeds(old(w.Stand()), w.Stand())
    ensures if goOn then w.error == None && CauseOf(trail) == None else w.error.Some? && Ended(w, trail)
  {
    hide Calm, Trailed, Between, InBudget, Rising, CountFrom, DefaultMask, Elsewhere, Ahead, w.Heeds;
    ghost var log, before := w.log, w.Stand();
    var e;
    e, trail := TakeCom(w, d, selected, roomy);
    a := Agenda(Announced(w), selected, roomy);
    if Fatal(COM, e) {
      w.error, w.errorFile := e, COM;
      return false, a, trail;
    }
    Replan(w, a.present, selected);
    ghost var midway := w.Stand();
    var stop := Look(w, d, a, log, trail);
    w.HeedsBoth(before, midway, w.Stand());
    if stop {
      w.error := Some(Cancelled);
    }
    goOn := !stop;
  }

  /** EF.SOD, by which the rest is hashed. */
  method ReadSod(w: Worker, d: Decoders, a: Agenda, ghost start: seq<Exchange>, ghost com: seq<Leg>)
    returns (goOn: bool, ghost trail: seq<Leg>)
    requires Calm(w) && Ahead(w, SOD) && Trailed(w, d, a, start, com) && |com| == 1 && CauseOf(com) == None && w.error == None
    modifies w`log, w`polls, w`stopRequested, w`reports, w`digest, w`face, w`faceSize, w`entries, w`filesDone
    modifies w`hashesChecked, w`hashesMatched, w`present, w`sod, w.sink, w.lookahead, w`error, w`errorFile
    ensures Calm(w) && Ahead(w, DG1) && Trailed(w, d, a, start, trail) && |trail| == DG1 && w.present == old(w.present)
    ensures Elsewhere(w, SOD, old(w.entries)) && w.Heeds(old(w.Stand()), w.Stand())
    ensures if goOn then w.error == None && CauseOf(trail) == None else w.error.Some? && Ended(w, trail)
  {
    hide Calm, Trailed, w.Heeds;
    ghost var before := w.Stand();
    var e;
    e, trail := ReadNext(w, d, SOD, a, start, com);
    if LinkGone(e) {
      w.error, w.errorFile := e, SOD;
      return false, trail;
    }
    ghost var midway := w.Stand();
    var stop := Look(w, d, a, start, trail);
    w.HeedsBoth(before, midway, w.Stand());
    if stop {
      w.error := Some(Cancelled);
    }
    goOn := !stop;
  }

  /** EF.COM and EF.SOD, by which the rest is planned and hashed. */
  method ReadIndex(w: Worker, d: Decoders, selected: set<nat>, roomy: nat -> bool)
    returns (goOn: bool, a: Agenda, ghost trail: seq<Leg>)
    requires Between(w) && InBudget(w) && Rising(w.reports, FILES_BASE) && Ahead(w, COM) && w.filesDone == 0
    requires w.error == None && w.present == None && w.sod == None
    modifies w`log, w`polls, w`stopRequested, w`reports, w`digest, w`face, w`faceSize, w`entries, w`filesDone
    modifies w`hashesChecked, w`hashesMatched, w`present, w`sod, w.sink, w.lookahead, w`error, w`errorFile, w`filesTotal
    ensures Calm(w) && Trailed(w, d, a, old(w.log), trail) && 1 <= |trail| <= DG1 && Rest(w, |trail|, old(w.entries))
    ensures a == Agenda(Announced(w), selected, roomy) && w.Heeds(old(w.Stand()), w.Stand())
    ensures if goOn then w.error == None && CauseOf(trail) == None && |trail| == DG1 && Ahead(w, DG1)
            else w.error.Some? && Ended(w, trail)
  {
    hide Calm, Trailed, Between, InBudget, Rising, DefaultMask, CauseOf, Ended, w.Heeds;
    ghost var log, before := w.log, w.Stand();
    goOn, a, trail := ReadCom(w, d, selected, roomy);
    if goOn {
      ghost var midway := w.Stand();
      goOn, trail := ReadSod(w, d, a, log, trail);
      w.HeedsBoth(before, midway, w.Stand());
    }
  }

  /** EF.COM and EF.SOD, then the data groups that are planned. */
  method ReadFiles(w: Worker, d: Decoders, selected: set<nat>, roomy: nat -> bool)
    returns (finished: bool, a: Agenda, ghost trail: seq<Leg>)
    requires Between(w) && InBudget(w) && Rising(w.reports, FILES_BASE) && Ahead(w, COM) && w.filesDone == 0
    requires w.error == None && w.present == None && w.sod == None
    modifies w`log, w`polls, w`stopRequested, w`reports, w`digest, w`face, w`faceSize, w`entries, w`filesDone
    modifies w`hashesChecked, w`hashesMatched, w`present, w`sod, w.sink, w.lookahead, w`error, w`errorFile, w`filesTotal
    ensures Calm(w) && Trailed(w, d, a, old(w.log), trail) && 1 <= |trail| <= FILE_COUNT && Rest(w, |trail|, old(w.entries))
    ensures a == Agenda(Announced(w), selected, roomy) && w.Heeds(old(w.Stand()), w.Stand())
    ensures Ended(w, trail) && Rising(w.reports, 90)
  {
    hide Calm, Trailed, Between, InBudget, Rising, DefaultMask, w.Heeds;
    ghost var log, before := w.log, w.Stand();
    finished, a, trail := ReadIndex(w, d, selected, roomy);
    if finished {
      ghost var midway := w.Stand();
      trail := ReadDataGroups(w, d, a, log, trail);
      w.HeedsBoth(before, midway, w.Stand());
      midway := w.Stand();
      var stop := Look(w, d, a, log, trail);
      w.StopStays(midway, w.Stand());
      w.HeedsBoth(before, midway, w.Stand());
      if stop && w.error == None {
        w.error := Some(Cancelled);
        finished := false;
      }
    }
    CalmRising(w);
  }

  /** Between two files no percentage is past that of the last file. */
  lemma CalmRising(w: Worker)
    requires Calm(w)
    ensures Rising(w.reports, 90) && Between(w) && InBudget(w)
  {
    hide Rising, Between, InBudget;
    RisingBelow(w.reports, Floor(w), 90);
  }

  // ---- The whole read ----------------------------------------------------------------------

  /** What opening the chip comes to. */
  datatype Access = SessionOpen(suite: Suite) | SessionRefused(error: Error)

  /** Before there is a session. */
  ghost predicate Clear(w: Worker)
    reads w`block, w`entries, w`digest, w`hashesChecked, w`hashesMatched, w.sink, w`log, w`sessionAt
  {
    Between(w) && InBudget(w) && w.block == 0 && w.sessionAt == 0
  }

  function Applying(w: Worker, log: seq<Exchange>): Exchange {
    Exchange(SelectApplication(), w.chip(log, SelectApplication()))
  }

  /** The chip's answer to the first command, when that is as far as the read gets. */
  ghost predicate ApplicationRefused(w: Worker)
    reads w`log, w`error
  {
    && w.log == [Applying(w, [])]
    && match w.log[0].answer
       case Err(e) => w.error == Some(e)
       case Ok(r) => r.sw != 0x9000 && w.error == if r.sw == 0x6A82 then Some(NotEmrtd) else FromSw(r.sw)
  }

  /**
   * The application was selected, `card` is what reading EF.CardAccess then gave, and the application was
   * selected again when that was anything: there was no other traffic.
   */
  ghost predicate CardTaken(w: Worker, log: seq<Exchange>, roomy: bool, card: Bytes, stopped: bool) {
    && Granted(Applying(w, []).answer)
    && if roomy then exists mid, n :: CardTakenAt(w, mid, n, log, card, stopped) else card == [] && log == [Applying(w, [])]
  }

  ghost predicate CardTakenAt(w: Worker, mid: seq<Exchange>, n: nat, log: seq<Exchange>, card: Bytes, stopped: bool) {
    && CardRead(w, [Applying(w, [])], mid, card, CARD_ACCESS_MAX, n, stopped)
    && log == if card == [] then mid else mid + [Applying(w, mid)]
  }

  lemma CardTakenStill(w: Worker, log: seq<Exchange>, roomy: bool, card: Bytes, stopped: bool)
    requires CardTaken(w, log, roomy, card, stopped)
    ensures CardTaken(w, log, roomy, card, true)
  {
    hide CardStream, Stream.Log, Stream.Got, Stream.Going, Stream.Reaches;
    if roomy {
      var mid, n :| CardTakenAt(w, mid, n, log, card, stopped);
      assert CardTakenAt(w, mid, n, log, card, true);
    }
  }

  /** A stop was seen before there was anything of EF.CardAccess. */
  ghost predicate Halted(w: Worker, card: Bytes)
    reads w`log, w`error, w`stopRequested
  {
    && w.stopRequested && w.error == Some(Cancelled) && card == []
    && (w.log == [] || (w.log == [Applying(w, [])] && Granted(w.log[0].answer)))
  }

  lemma NothingTold(percent: nat)
    ensures Rising([], percent)
  {
  }

  /** Select the application. */
  method Apply(w: Worker) returns (granted: bool)
    requires Clear(w) && w.log == [] && w.error == None
    modifies w`log, w`error
    ensures Clear(w) && w.log == [Applying(w, [])] && granted == Granted(w.log[0].answer)
    ensures if granted then w.error == None else ApplicationRefused(w)
  {
    hide Between, InBudget, FromSw;
    var answer := Select(w, SelectApplication());
    granted := Granted(answer);
    if answer.Err? {
      w.error := Some(answer.error);
    } else if answer.value.sw != 0x9000 {
      w.error := if answer.value.sw == 0x6A82 then Some(NotEmrtd) else FromSw(answer.value.sw);
    }
  }

  /** Select the application, with the reports before and after. */
  method Enter(w: Worker) returns (entered: bool)
    requires Clear(w) && w.log == [] && w.reports == [] && w.error == None
    modifies w`log, w`polls, w`stopRequested, w`reports, w`error
    ensures Clear(w) && Rising(w.reports, 5) && w.Heeds(old(w.Stand()), w.Stand())
    ensures if entered then w.log == [Applying(w, [])] && Granted(w.log[0].answer) && w.error == None
            else ApplicationRefused(w) || Halted(w, [])
  {
    hide Between, InBudget, ApplicationRefused, Granted, Rising, w.Heeds, w.Reported;
    ghost var stand := w.Stand();
    NothingTold(2);
    entered := false;
    var goOn := w.ReportRising(2);
    RisingBelow(w.reports, 2, 5);
    if !goOn {
      w.error := Some(Cancelled);
      return;
    }
    var granted := Apply(w);
    if !granted {
      return;
    }
    ghost var standNow := w.Stand();
    goOn := w.ReportRising(5);
    w.HeedsBoth(stand, standNow, w.Stand());
    if !goOn {
      w.error := Some(Cancelled);
      return;
    }
    entered := true;
  }

  /** EF.CardAccess, when there is room for it, and the application selected again after it. */
  method TakeCard(w: Worker, roomy: bool) returns (card: Bytes)
    requires Clear(w) && w.log == [Applying(w, [])] && Granted(w.log[0].answer)
    modifies w`log, w`polls, w`stopRequested, w.sink
    ensures Clear(w) && w.Heeds(old(w.Stand()), w.Stand()) && CardTaken(w, w.log, roomy, card, w.stopRequested)
  {
    hide FrameBudget.ChunkSize, Asks, Accounts, CountHashes, CardRead, w.Heeds;
    w.HeedsNothing(w.Stand());
    card := [];
    if roomy {
      ghost var before := w.log;
      var buffer := new byte[CARD_ACCESS_MAX];
      var len;
      ghost var n;
      len, n := ReadCardAccess(w, buffer);
      card := buffer[..len];
      ghost var mid := w.log;
      CardInBudget(w, before, card, n, w.stopRequested);
      if len > 0 {
        var _ := Select(w, SelectApplication());
      }
      assert CardTakenAt(w, mid, n, w.log, card, w.stopRequested);
    }
  }

  lemma CardInBudget(w: Worker, before: seq<Exchange>, card: Bytes, n: nat, stopped: bool)
    requires w.block == 0 && w.sessionAt == 0 && Asks(before, 0, FrameBudget.ChunkSize(w.fsd, 0))
    requires CardRead(w, before, w.log, card, CARD_ACCESS_MAX, n, stopped)
    ensures InBudget(w) && before <= w.log
  {
    hide FrameBudget.ChunkSize, Stream.Log, Stream.Got, Stream.Going, SizeWithin;
    var x := CardAccess.Selecting(w, before);
    AsksOneMore(before, x, 0, FrameBudget.ChunkSize(w.fsd, 0));
    if Granted(x.answer) {
      StreamInBudget(w, CardStream(w, before + [x], CARD_ACCESS_MAX), n);
    }
  }

  method BeginSession(w: Worker, suite: Suite)
    requires Clear(w)
    modifies w`block, w`sessionAt
    ensures Between(w) && InBudget(w) && w.block == BlockSize(suite) && w.sessionAt == |w.log|
  {
    hide FrameBudget.ChunkSize, Accounts;
    assert w.log[..|w.log|] == w.log;
    w.block, w.sessionAt := BlockSize(suite), |w.log|;
  }

  /** Open the chip with what EF.CardAccess said. */
  method Authenticate(w: Worker, access: Bytes -> Access, card: Bytes) returns (open: bool)
    requires Clear(w) && Rising(w.reports, 5) && w.error == None
    modifies w`polls, w`stopRequested, w`reports, w`error, w`block, w`sessionAt
    ensures Between(w) && InBudget(w) && Rising(w.reports, FILES_BASE) && w.Heeds(old(w.Stand()), w.Stand())
    ensures if open then
              && access(card).SessionOpen? && w.block == BlockSize(access(card).suite)
              && w.sessionAt == |w.log| && w.error == None
            else
              || (w.stopRequested && w.error == Some(Cancelled))
              || (w.error.Some? && access(card) == SessionRefused(w.error.value))
    ensures old(w.stopRequested) ==> w.stopRequested && !open && w.error == Some(Cancelled)
  {
    hide Between, InBudget, Rising, w.Heeds, w.Reported;
    open := false;
    ghost var stand := w.Stand();
    RisingBelow(w.reports, 5, 10);
    RisingBelow(w.reports, 5, FILES_BASE);
    var stop := w.PollStop();
    if stop {
      w.error := Some(Cancelled);
      return;
    }
    ghost var standNow := w.Stand();
    var goOn := w.ReportRising(10);
    w.HeedsBoth(stand, standNow, w.Stand());
    RisingBelow(w.reports, 10, FILES_BASE);
    if !goOn {
      w.error := Some(Cancelled);
      return;
    }
    var result := access(card);
    if result.SessionRefused? {
      w.error := Some(result.error);
      return;
    }
    BeginSession(w, result.suite);
    standNow := w.Stand();
    open := w.ReportRising(FILES_BASE);
    w.HeedsBoth(stand, standNow, w.Stand());
    if !open {
      w.error := Some(Cancelled);
    }
  }

  /** Why no session was opened: a stop, the chip's answer to the first command, or what was made of EF.CardAccess. */
  ghost predicate NotOpened(w: Worker, access: Bytes -> Access, roomy: bool, card: Bytes)
    reads w`log, w`error, w`stopRequested
  {
    || ApplicationRefused(w) || Halted(w, card)
    || (w.stopRequested && w.error == Some(Cancelled) && CardTaken(w, w.log, roomy, card, true))
    || (CardTaken(w, w.log, roomy, card, false) && w.error.Some? && access(card) == SessionRefused(w.error.value))
  }

  /** The session is open over all the traffic so far, under what was made of EF.CardAccess. */
  ghost predicate Opened(w: Worker, access: Bytes -> Access, opening: seq<Exchange>, roomy: bool, card: Bytes)
    reads w`block, w`sessionAt
  {
    && CardTaken(w, opening, roomy, card, false) && access(card).SessionOpen?
    && w.block == BlockSize(access(card).suite) && w.sessionAt == |opening|
  }

  /** From the first command to an open session. */
  method Open(w: Worker, access: Bytes -> Access, roomy: bool) returns (open: bool, card: Bytes)
    requires Clear(w) && w.log == [] && w.reports == [] && w.error == None
    modifies w`log, w`polls, w`stopRequested, w`reports, w`error, w`block, w`sessionAt, w.sink
    ensures Between(w) && InBudget(w) && Rising(w.reports, FILES_BASE) && w.Heeds(old(w.Stand()), w.Stand())
    ensures if open then Opened(w, access, w.log, roomy, card) && w.error == None else NotOpened(w, access, roomy, card)
  {
    hide CardTaken, Between, InBudget, Rising, w.Heeds;
    ghost var stand := w.Stand();
    card := [];
    open := Enter(w);
    if !open {
      RisingBelow(w.reports, 5, FILES_BASE);
      return;
    }
    ghost var standNow := w.Stand();
    card := TakeCard(w, roomy);
    w.HeedsBoth(stand, standNow, w.Stand());
    CardTakenStill(w, w.log, roomy, card, w.stopRequested);
    standNow := w.Stand();
    open := Authenticate(w, access, card);
    w.HeedsBoth(stand, standNow, w.Stand());
  }

  /** Before the first command the accounts are empty, and nothing has been asked. */
  lemma NothingYet(w: Worker)
    requires w.Valid() && w.block == 0 && w.sessionAt == 0 && w.log == [] && w.digest == None
    requires Ahead(w, COM) && w.hashesChecked == 0 && w.hashesMatched == 0
    ensures Clear(w)
  {
    hide CountHashes, FrameBudget.ChunkSize;
    CountNone(w.entries, IsDecided());
    CountNone(w.entries, IsMatch());
  }

  /** The report that all files have been seen to, whose answer changes nothing. */
  method Tell(w: Worker, d: Decoders, a: Agenda, ghost start: seq<Exchange>, ghost trail: seq<Leg>)
    requires Trailed(w, d, a, start, trail) && Rising(w.reports, 90)
    modifies w`polls, w`stopRequested, w`reports
    ensures Trailed(w, d, a, start, trail) && Rising(w.reports, 92) && w.Heeds(old(w.Stand()), w.Stand())
    ensures old(w.stopRequested) ==> w.stopRequested
  {
    hide Linked, AllScored, Decodable, Rising, w.Heeds, w.Reported;
    ghost var t, before := TermsOf(w), w.Stand();
    RisingBelow(w.reports, 90, 92);
    var _ := w.ReportRising(92);
    w.StopStays(before, w.Stand());
    AllScoredStill(w, t, TermsOf(w), d, a, a, w.entries, w.entries, trail);
  }

  /**
   * The read, start to finish. However it ends: the counters are those of a recount; no percentage is
   * below the one before it; no READ BINARY, in the clear or in the session, asked for more than one frame
   * carries. All the traffic is the opening and then the leg of each file reached, in order: each planned
   * file was selected and streamed as `FileRead` says, every other one was passed over without traffic,
   * and the files not reached are untouched. What is present and what is hashed against is what EF.COM
   * and EF.SOD were decoded to. When files are left, no session was opened, a stop was asked for, or the
   * last leg's error ended the read.
   */
  method Run(w: Worker, d: Decoders, access: Bytes -> Access, selected: set<nat>, roomyCard: bool, roomy: nat -> bool)
    returns (card: Bytes, ghost opening: seq<Exchange>, ghost trail: seq<Leg>)
    requires w.Valid() && w.block == 0 && w.sessionAt == 0 && w.log == [] && w.reports == [] && w.error == None
    requires Ahead(w, COM) && w.digest == None && w.filesDone == 0 && w.hashesChecked == 0 && w.hashesMatched == 0
    requires w.present == None && w.sod == None
    modifies w`log, w`polls, w`stopRequested, w`reports, w`digest, w`face, w`faceSize, w`entries, w`filesDone
    modifies w`hashesChecked, w`hashesMatched, w`present, w`sod, w.sink, w.lookahead
    modifies w`error, w`errorFile, w`filesTotal, w`block, w`sessionAt
    ensures Between(w) && InBudget(w) && Rising(w.reports, 92) && w.Heeds(old(w.Stand()), w.Stand())
    ensures if trail == [] then NotOpened(w, access, roomyCard, card)
            else
              && Opened(w, access, opening, roomyCard, card)
              && Trailed(w, d, Agenda(Announced(w), selected, roomy), opening, trail) && Ended(w, trail)
    ensures Rest(w, |trail|, old(w.entries))
  {
    hide Between, InBudget, Accounts, CountHashes, Rising, CardTaken, Trailed, CauseOf, DefaultMask, w.Heeds;
    NothingYet(w);
    ghost var stand := w.Stand();
    var open;
    open, card := Open(w, access, roomyCard);
    opening, trail := w.log, [];
    if !open {
      RisingBelow(w.reports, FILES_BASE, 92);
      return;
    }
    ghost var standNow := w.Stand();
    var finished, a;
    finished, a, trail := ReadFiles(w, d, selected, roomy);
    w.HeedsBoth(stand, standNow, w.Stand());
    CalmRising(w);
    RisingBelow(w.reports, 90, 92);
    if finished {
      standNow := w.Stand();
      Tell(w, d, a, opening, trail);
      w.HeedsBoth(stand, standNow, w.Stand());
    }
  }
}
