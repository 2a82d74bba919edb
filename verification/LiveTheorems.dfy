/** What is proved of every run of the live-value cache. */
module LiveTheorems {
  import opened LiveProtocol
  import opened LiveOwnership
  import opened LiveCounts
  import opened LiveFreshness
  import opened LiveValues
  import opened LiveActs

  /** What every reachable state keeps. */
  ghost predicate Inv(p: Program, s: State) {
    && InHand(s) && Queued(s) && Flagged(s) && Known(s) && OneEach(s)
    && BusyRight(s) && TellsAll(s)
    && NothingLost(p, s)
    && Recorded(p, s) && AllHonest(p, s) && Ages(s)
    && InOrder(s) && OwnTickets(s) && TicketsFit(s)
  }

  lemma InvInit(p: Program, s: State)
    requires Init(s)
    ensures Inv(p, s)
  {
    SumZero(s.threads, Load);
  }

  lemma InvOutside(p: Program, s: State, s': State, t: nat, step: Around)
    requires Inv(p, s) && OutsideNext(p, s, s', t, step)
    ensures Inv(p, s')
  {
    InHandOutside(p, s, s', t, step);
    QueuedOutside(p, s, s', t, step);
    FlaggedOutside(p, s, s', t, step);
    KnownOutside(p, s, s', t, step);
    OneEachOutside(p, s, s', t, step);
    BusyOutside(p, s, s', t, step);
    TellingOutside(p, s, s', t, step);
    FreshOutside(p, s, s', t, step);
    RecordedOutside(p, s, s', t, step);
    HonestOutside(p, s, s', t, step);
    AgesOutside(p, s, s', t, step);
    InOrderOutside(p, s, s', t, step);
    OwnTicketsOutside(p, s, s', t, step);
    TicketsOutside(p, s, s', t, step);
  }

  lemma InvMarks(p: Program, s: State, s': State, t: nat, step: Marker)
    requires Inv(p, s) && MarksNext(p, s, s', t, step)
    ensures Inv(p, s')
  {
    InHandMarks(p, s, s', t, step);
    QueuedMarks(p, s, s', t, step);
    FlaggedMarks(p, s, s', t, step);
    KnownMarks(p, s, s', t, step);
    OneEachMarks(p, s, s', t, step);
    BusyMarks(p, s, s', t, step);
    TellingMarks(p, s, s', t, step);
    FreshMarks(p, s, s', t, step);
    RecordedMarks(p, s, s', t, step);
    HonestMarks(p, s, s', t, step);
    AgesMarks(p, s, s', t, step);
    ActsMarks(p, s, s', t, step);
  }

  lemma InvReads(p: Program, s: State, s': State, t: nat, step: Reader)
    requires Inv(p, s) && ReadsNext(p, s, s', t, step)
    ensures Inv(p, s')
  {
    InHandReads(p, s, s', t, step);
    QueuedReads(p, s, s', t, step);
    FlaggedReads(p, s, s', t, step);
    KnownReads(p, s, s', t, step);
    OneEachReads(p, s, s', t, step);
    BusyReads(p, s, s', t, step);
    TellingReads(p, s, s', t, step);
    FreshReads(p, s, s', t, step);
    HonestReads(p, s, s', t, step);
    AgesReads(p, s, s', t, step);
    ActsReads(p, s, s', t, step);
  }

  lemma InvEnds(p: Program, s: State, s': State, t: nat, step: Ender)
    requires Inv(p, s) && EndsNext(s, s', t, step)
    ensures Inv(p, s')
  {
    InHandEnds(s, s', t, step);
    QueuedEnds(s, s', t, step);
    FlaggedEnds(s, s', t, step);
    KnownEnds(s, s', t, step);
    OneEachEnds(s, s', t, step);
    BusyEnds(s, s', t, step);
    TellingEnds(s, s', t, step);
    FreshEnds(p, s, s', t, step);
    HonestEnds(p, s, s', t, step);
    AgesEnds(p, s, s', t, step);
    ActsEnds(s, s', t, step);
  }

  lemma InvNext(p: Program, s: State, s': State, step: Step)
    requires Inv(p, s) && Next(p, s, s', step)
    ensures Inv(p, s')
  {
    match step
    case Outside(t, around) => InvOutside(p, s, s', t, around);
    case Marks(t, marker) => InvMarks(p, s, s', t, marker);
    case Reads(t, reader) => InvReads(p, s, s', t, reader);
    case Ends(t, ender) => InvEnds(p, s, s', t, ender);
  }

  lemma {:induction false} InvRun(p: Program, run: seq<State>, steps: seq<Step>, i: nat)
    requires IsRun(p, run, steps) && i < |run|
    ensures Inv(p, run[i])
  {
    if i == 0 {
      InvInit(p, run[0]);
    } else {
      InvRun(p, run, steps, i - 1);
      InvNext(p, run[i - 1], run[i], steps[i - 1]);
    }
  }
}
