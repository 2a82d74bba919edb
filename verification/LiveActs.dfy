/** Acts: applied in the order they were given, each once, and what a ticket's generation says. */
module LiveActs {
  import opened LiveProtocol
  import opened LiveValues

  function Ids(acted: seq<Acted>): seq<nat> {
    seq(|acted|, i requires 0 <= i < |acted| => acted[i].act)
  }

  /** Nothing given is lost, doubled or taken out of order: what was given is what was applied, then
      the one being applied, then what waits. */
  ghost predicate InOrder(s: State) {
    && (forall t, u :: 0 <= t < u < |s.threads| ==> !(s.threads[t].Acting? && s.threads[u].Acting?))
    && (forall t :: 0 <= t < |s.threads| && s.threads[t].Acting? ==>
          s.given == Ids(s.acted) + [s.threads[t].act] + s.asked)
    && ((forall t :: 0 <= t < |s.threads| ==> !s.threads[t].Acting?) ==> s.given == Ids(s.acted) + s.asked)
  }

  /** No act is given twice, and none that was refused was taken. */
  ghost predicate OwnTickets(s: State) {
    Distinct(s.given) && forall act :: act in s.refused ==> act !in s.given
  }

  lemma OwnTicketsOutside(p: Program, s: State, s': State, t: nat, step: Around)
    requires OwnTickets(s) && OutsideNext(p, s, s', t, step)
    ensures OwnTickets(s')
  {
  }

  /** An act's commits, once its writer is let go of, are all in the last generation said. */
  predicate UptoSaid(s: State, t: nat, upto: nat)
    requires |s.gens| > 0
  {
    upto <= Now(s) && (upto == 0 || (s.writer.Committed? && s.writer.owner == t) || upto <= s.gens[Generation(s)])
  }

  ghost predicate TicketsFit(s: State) {
    && |s.gens| > 0
    && (forall t :: 0 <= t < |s.threads| && s.threads[t].Acting? ==> UptoSaid(s, t, s.threads[t].upto))
    && (forall i :: 0 <= i < |s.acted| ==>
          s.acted[i].generation < |s.gens| && s.acted[i].upto <= s.gens[s.acted[i].generation])
    && (forall i, k :: 0 <= i <= k < |s.acted| ==> s.acted[i].generation <= s.acted[k].generation)
  }

  lemma InOrderOutside(p: Program, s: State, s': State, t: nat, step: Around)
    requires InOrder(s) && OutsideNext(p, s, s', t, step)
    ensures InOrder(s')
  {
    match step {
      case ActBegin =>
        assert s.asked == [s.asked[0]] + s'.asked;
        assert s'.threads[t].Acting?;
      case ActEnd => assert Ids(s'.acted) == Ids(s.acted) + [s.threads[t].act];
      case Ask(act) =>
        forall u | 0 <= u < |s.threads| && s.threads[u].Acting?
          ensures s'.given == Ids(s.acted) + [s.threads[u].act] + s'.asked {}
      case Commit(owner, _, _) =>
        assert owner < |s.threads| && s.threads[owner].Acting? ==> s'.threads[owner].act == s.threads[owner].act;
        forall u | 0 <= u < |s.threads| && s.threads[u].Acting? ensures s'.threads[u].Acting? {}
      case _ =>
    }
  }

  /** Nothing but an act's own steps touches the acts. */
  lemma InOrderFrame(s: State, s': State, t: nat, pc: Pc)
    requires InOrder(s) && t < |s.threads| && s'.threads == s.threads[t := pc]
    requires !s.threads[t].Acting? && !pc.Acting?
    requires s'.given == s.given && s'.asked == s.asked && s'.acted == s.acted
    ensures InOrder(s')
  {
    if forall u :: 0 <= u < |s'.threads| ==> !s'.threads[u].Acting? {
      forall u | 0 <= u < |s.threads| ensures !s.threads[u].Acting? {
        assert u != t ==> s'.threads[u] == s.threads[u];
      }
    }
  }

  /** Nothing a ticket rests on is changed. */
  lemma TicketsElsewhere(s: State, s': State)
    requires TicketsFit(s) && s'.threads == s.threads && s'.writer == s.writer && s'.gens == s.gens && s'.acted == s.acted
    requires Now(s) <= Now(s')
    ensures TicketsFit(s')
  {
  }

  lemma TicketsCommit(p: Program, s: State, s': State, t: nat, topics: Topics, db: Db)
    requires TicketsFit(s) && CommitStep(p, s, s', t, topics, db)
    ensures TicketsFit(s')
  {
  }

  lemma TicketsPublish(p: Program, s: State, s': State)
    requires TicketsFit(s) && Recorded(p, s) && PublishStep(s, s')
    ensures TicketsFit(s')
  {
  }

  lemma TicketsEnd(p: Program, s: State, s': State, t: nat)
    requires TicketsFit(s) && Recorded(p, s) && ActEndStep(s, s', t)
    ensures TicketsFit(s')
  {
  }

  lemma TicketsOutside(p: Program, s: State, s': State, t: nat, step: Around)
    requires TicketsFit(s) && Recorded(p, s) && OutsideNext(p, s, s', t, step)
    ensures TicketsFit(s')
  {
    match step
    case Commit(owner, topics, db) => TicketsCommit(p, s, s', owner, topics, db);
    case Publish => TicketsPublish(p, s, s');
    case Send =>
    case ActBegin =>
    case ActEnd => TicketsEnd(p, s, s', t);
    case _ => TicketsElsewhere(s, s');
  }

  lemma TicketsFrame(s: State, s': State, t: nat, pc: Pc)
    requires TicketsFit(s) && t < |s.threads| && s'.threads == s.threads[t := pc]
    requires !pc.Acting?
    requires s'.writer == s.writer && s'.gens == s.gens && s'.acted == s.acted
    requires Now(s) <= Now(s')
    ensures TicketsFit(s')
  {
  }

  lemma ActsMarks(p: Program, s: State, s': State, t: nat, step: Marker)
    requires InOrder(s) && TicketsFit(s) && MarksNext(p, s, s', t, step)
    ensures InOrder(s') && TicketsFit(s')
  {
    InOrderFrame(s, s', t, s'.threads[t]);
    TicketsFrame(s, s', t, s'.threads[t]);
  }

  lemma ActsReads(p: Program, s: State, s': State, t: nat, step: Reader)
    requires InOrder(s) && TicketsFit(s) && ReadsNext(p, s, s', t, step)
    ensures InOrder(s') && TicketsFit(s')
  {
    InOrderFrame(s, s', t, s'.threads[t]);
    TicketsFrame(s, s', t, s'.threads[t]);
  }

  lemma ActsEnds(s: State, s': State, t: nat, step: Ender)
    requires InOrder(s) && TicketsFit(s) && EndsNext(s, s', t, step)
    ensures InOrder(s') && TicketsFit(s')
  {
    InOrderFrame(s, s', t, s'.threads[t]);
    TicketsFrame(s, s', t, s'.threads[t]);
  }

  // ---------- acts refused

  lemma RefusedOutside(p: Program, s: State, s': State, t: nat, step: Around, act: nat)
    requires OutsideNext(p, s, s', t, step) && !s.accepting && act in s.refused
    ensures !s'.accepting && act in s'.refused
  {
  }

  lemma ActsMarksApart(p: Program, s: State, s': State, t: nat, step: Marker)
    requires MarksNext(p, s, s', t, step)
    ensures s'.accepting == s.accepting && s'.refused == s.refused && s'.given == s.given
  {
  }

  lemma ActsReadsApart(p: Program, s: State, s': State, t: nat, step: Reader)
    requires ReadsNext(p, s, s', t, step)
    ensures s'.accepting == s.accepting && s'.refused == s.refused && s'.given == s.given
  {
  }

  lemma ActsEndsApart(s: State, s': State, t: nat, step: Ender)
    requires EndsNext(s, s', t, step)
    ensures s'.accepting == s.accepting && s'.refused == s.refused && s'.given == s.given
  {
  }
}
