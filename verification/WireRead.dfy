/**
 * The read of the worker over its line, to whatever there is at the other end: which of its commands go
 * through the session.
 */
module WireRead {
  import opened Bytes
  import opened Errors
  import opened Cipher
  import opened Apdu
  import opened SecureMessaging
  import opened ReadStream
  import opened FileReader
  import opened OneFile
  import opened ReadRun
  import AccessPort
  import Transmission

  /** A line to anything at all, as it stands when so much traffic has passed. */
  datatype Wire<!S> = Wire(p: Primitives, link: AccessPort.Link<S>, line: Transmission.Line, far: S, base: nat)

  ghost predicate Sound<S>(k: Wire<S>) {
    Lawful(k.p) && Keyed(k.line.session)
  }

  /** The two ends of a line. */
  datatype Ends<S> = Ends(line: Transmission.Line, far: S)

  /** Where the two ends stand after this traffic. */
  function Replayed<S>(k: Wire<S>, log: seq<Exchange>): (e: Ends<S>)
    requires Sound(k)
    ensures Keyed(e.line.session)
    decreases |log|
  {
    if |log| <= k.base then Ends(k.line, k.far)
    else
      var e := Replayed(k, log[..|log| - 1]);
      var r := Transmission.Exchange(k.p, k.link, e.line, e.far, log[|log| - 1].command);
      Ends(r.0, r.1)
  }

  /** What the worker is answered over the line. */
  function Answer<S>(k: Wire<S>, log: seq<Exchange>, c: Command): Result<Response>
    requires Sound(k)
  {
    var e := Replayed(k, log);
    Transmission.Exchange(k.p, k.link, e.line, e.far, c).2
  }

  /** What came over the air for a command, before anything was made of it. */
  function OnTheAir<S>(k: Wire<S>, log: seq<Exchange>, c: Command): Result<Bytes>
    requires Sound(k)
  {
    var e := Replayed(k, log);
    var wire := Transmission.Outgoing(k.p, e.line, c).1;
    if wire.Err? then wire else k.link(e.far, wire.value).1
  }

  /** From then on, what the worker is answered comes over the line. */
  ghost predicate Behind<S>(chip: Chip, k: Wire<S>) {
    Sound(k) && forall log: seq<Exchange>, c: Command :: |log| >= k.base ==> chip(log, c) == Answer(k, log, c)
  }

  lemma OneMoreReplayed<S>(k: Wire<S>, chip: Chip, log: seq<Exchange>, c: Command)
    requires Behind(chip, k) && k.base <= |log|
    ensures
      var e := Replayed(k, log);
      var (line, far, answer) := Transmission.Exchange(k.p, k.link, e.line, e.far, c);
      Attempt(chip, log, c)[|log|] == Exchange(c, answer) && Replayed(k, Attempt(chip, log, c)) == Ends(line, far)
  {
    hide Transmission.Exchange, Lawful, Keyed;
    var longer := Attempt(chip, log, c);
    assert longer[..|longer| - 1] == log;
    assert chip(log, c) == Answer(k, log, c);
  }

  /** A session that is gone was reported gone on the way. */
  lemma {:induction false} LossIsLogged<S>(k: Wire<S>, chip: Chip, log: seq<Exchange>)
    requires Behind(chip, k) && k.line.active && k.base <= |log| && Genuine(chip, log, k.base)
    ensures !Replayed(k, log).line.active ==> exists i :: k.base <= i < |log| && LostIn(log[i])
    decreases |log|
  {
    hide Transmission.Exchange, Lawful, Keyed, Behind;
    if |log| > k.base {
      var n := |log| - 1;
      var before := log[..n];
      assert forall j | k.base <= j < n :: before[j] == log[j] && before[..j] == log[..j];
      LossIsLogged(k, chip, before);
      SoundWire(k, chip);
      var e := Replayed(k, before);
      OneMoreReplayed(k, chip, before, log[n].command);
      assert log == Attempt(chip, before, log[n].command);
      Transmission.SessionKeptOrReported(k.p, k.link, e.line, e.far, log[n].command);
      if e.line.active && !Replayed(k, log).line.active {
        assert LostIn(log[n]);
      }
    }
  }

  lemma SoundWire<S>(k: Wire<S>, chip: Chip)
    requires Behind(chip, k)
    ensures Sound(k)
  {
  }

  /**
   * Whatever is at the other end of the line and whatever it answers: every command that the worker sends
   * from the opening of the session to the end of the read goes out through the session. A session that
   * is lost ends the read, and nothing is sent after it.
   */
  lemma NothingInTheClear<S>(w: Worker, k: Wire<S>, d: Decoders, a: Agenda, opening: seq<Exchange>, trail: seq<Leg>, i: nat)
    requires Behind(w.chip, k) && k.line.active && |opening| == k.base
    requires Trailed(w, d, a, opening, trail) && |opening| <= i < |w.log|
    ensures Sound(k) && Replayed(k, w.log[..i]).line.active
  {
    hide Behind, Replayed, Linked, AllScored, Steered;
    SoundWire(k, w.chip);
    TrailIsGenuine(w, TermsOf(w), d, a, opening, w.log, w.entries, trail);
    assert Genuine(w.chip, w.log[..i], k.base) by {
      assert forall j | k.base <= j < i :: w.log[..i][j] == w.log[j] && w.log[..i][..j] == w.log[..j];
    }
    LossIsLogged(k, w.chip, w.log[..i]);
    if !Replayed(k, w.log[..i]).line.active {
      var j :| k.base <= j < i && LostIn(w.log[..i][j]);
      NothingAfterLoss(w, TermsOf(w), d, a, opening, w.log, w.entries, trail, j);
    }
  }

  lemma AnswerIsVerified<S>(k: Wire<S>, chip: Chip, log: seq<Exchange>, c: Command)
    requires Behind(chip, k) && k.base <= |log| && Replayed(k, log).line.active && chip(log, c).Ok?
    ensures
      var rx := OnTheAir(k, log, c);
      rx.Ok? && Transmission.Verified(k.p, Replayed(k, Attempt(chip, log, c)).line.session, rx.value)
  {
    hide Lawful, Keyed, Replayed, Transmission.Exchange, Transmission.Outgoing, Transmission.Verified;
    var e := Replayed(k, log);
    OneMoreReplayed(k, chip, log, c);
    Transmission.AnswerIsVerified(k.p, k.link, e.line, e.far, c);
  }

  /** And every answer that the read was given came under a checksum that verified in that session. */
  lemma EveryAnswerIsVerified<S>(w: Worker, k: Wire<S>, d: Decoders, a: Agenda, opening: seq<Exchange>, trail: seq<Leg>, i: nat)
    requires Behind(w.chip, k) && k.line.active && |opening| == k.base
    requires Trailed(w, d, a, opening, trail) && |opening| <= i < |w.log| && w.log[i].answer.Ok?
    ensures Sound(k)
    ensures
      var rx := OnTheAir(k, w.log[..i], w.log[i].command);
      rx.Ok? && Transmission.Verified(k.p, Replayed(k, w.log[..i + 1]).line.session, rx.value)
  {
    hide Behind, Replayed, Linked, AllScored, Steered, OnTheAir, Transmission.Verified, Lawful, Keyed;
    SoundWire(k, w.chip);
    NothingInTheClear(w, k, d, a, opening, trail, i);
    TrailIsGenuine(w, TermsOf(w), d, a, opening, w.log, w.entries, trail);
    assert w.log[..i + 1] == Attempt(w.chip, w.log[..i], w.log[i].command);
    AnswerIsVerified(k, w.chip, w.log[..i], w.log[i].command);
  }
}
