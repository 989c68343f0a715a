/** From the printed credentials to the files: what authentication agrees on is what messaging starts from. */
module AuthenticatedSession {
  import opened Errors
  import opened Numbers
  import opened Cipher
  import opened Apdu
  import opened SecureMessaging
  import opened SimChip
  import opened SmRefinement
  import opened Digests
  import opened AccessChip
  import opened BacAgreement
  import opened PaceAgreement

  /** Protected commands run on a chip whose session is the reader's are commands run in the clear. */
  ghost predicate RefinesPlain<A(!new)>(p: Primitives, run: Application<A>, reader: Session, chip: Option<Session>, outSize: nat)
    requires Lawful(p) && Keyed(reader)
  {
    && chip == Some(reader) && reader.established
    && forall app: A, commands: seq<Command> | RunExchangeable(run, reader, app, commands) ::
         var r := ProtectedRun(p, run, reader, app, commands, outSize);
         && !r.failed && (r.app, r.answers) == PlainRun(run, app, commands) && r.reader == r.chip
         && BeValue(r.reader.ssc) == (BeValue(reader.ssc) + 2 * |commands|) % Pow256(BlockSize(reader.suite))
  }

  lemma EqualSessionsRefinePlain<A(!new)>(p: Primitives, run: Application<A>, reader: Session, chip: Option<Session>, outSize: nat)
    requires Lawful(p) && Keyed(reader) && reader.established && chip == Some(reader) && outSize >= APDU_MAX_SIZE
    ensures RefinesPlain(p, run, reader, chip, outSize)
  {
    hide Lawful, RunExchangeable, ProtectedRun, PlainRun, BeValue, Pow256;
    forall app: A, commands: seq<Command> | RunExchangeable(run, reader, app, commands)
      ensures
        (forall c :: c in commands ==> LeValid(c.le))
        && var r := ProtectedRun(p, run, reader, app, commands, outSize);
           && !r.failed && (r.app, r.answers) == PlainRun(run, app, commands) && r.reader == r.chip
           && BeValue(r.reader.ssc) == (BeValue(reader.ssc) + 2 * |commands|) % Pow256(BlockSize(reader.suite))
    {
      SessionRefinesPlain(p, run, reader, app, commands, outSize);
    }
  }

  /** After an honest run of BAC, any number of commands through the session are as good as in the clear. */
  lemma BacOpensSession<G(!new), A(!new)>(p: Primitives, h: Hashes, card: Card<G>, s: State, d: Bac.Draw,
                                          run: Application<A>, outSize: nat)
    requires Lawful(p) && LawfulHashes(h) && LawfulCard(card) && Sound(card, s) && outSize >= APDU_MAX_SIZE
    requires card.bac && s.session == None && Bac.LawfulDraw(d)
    ensures
      var (end, r) := Bac.Run(p, h, card.information, d, LinkTo(p, h, card), s);
      r.Ok? && Keyed(r.value) && RefinesPlain(p, run, r.value, end.session, outSize)
  {
    hide Lawful, LawfulHashes, LawfulCard, Bac.Run, RefinesPlain;
    BacAgrees(p, h, card, s, d);
    var (end, r) := Bac.Run(p, h, card.information, d, LinkTo(p, h, card), s);
    EqualSessionsRefinePlain(p, run, r.value, end.session, outSize);
  }

  /** And after an honest run of PACE that did not map its nonce to the point at infinity. */
  lemma PaceOpensSession<G(!new), A(!new)>(p: Primitives, h: Hashes, card: Card<G>, s: State, i: Pace.Info<G>, d: Pace.Draw,
                                           run: Application<A>, outSize: nat)
    requires Lawful(p) && LawfulHashes(h) && LawfulCard(card) && Sound(card, s) && outSize >= APDU_MAX_SIZE
    requires card.pace && s.session == None && Pace.LawfulInfo(i) && SameCredentials(i, card)
    requires IsScalar(card.curve, d.mapping) && IsScalar(card.curve, d.agreement) && HonestGenerator(card, d).Some?
    ensures
      var (end, r) := Pace.Run(p, h, i, d, LinkTo(p, h, card), s);
      r.Ok? && Keyed(r.value) && RefinesPlain(p, run, r.value, end.session, outSize)
  {
    hide Lawful, LawfulHashes, LawfulCurve, Pace.Run, RefinesPlain, HonestGenerator;
    PaceAgrees(p, h, card, s, i, d);
    var (end, r) := Pace.Run(p, h, i, d, LinkTo(p, h, card), s);
    EqualSessionsRefinePlain(p, run, r.value, end.session, outSize);
  }
}
