/** What comes of a write, of an invalidation asked for and of the clock, said of the steps of a run: what was to be read again
    was, and what it was read at says so (crates/mail-client/src/client.rs, live.rs, act.rs). */
module LiveWrites {
  import opened Options
  import opened LiveEntry
  import opened LiveProtocol
  import opened LiveOwnership
  import opened LiveCounts
  import opened LiveFreshness
  import opened LiveValues
  import opened LiveActs
  import opened LiveTheorems
  import opened LiveAtRest

  // ---------- what is due is read

  /** The entry is to be read, or something on its way will mark it. */
  ghost predicate Due(p: Program, s: State, j: nat)
    requires j < |s.slots|
  {
    WillRead(s.slots[j].entry) || OnItsWay(s, j, TopicsOf(p, s, j))
  }

  /** The step begins a reading of the entry. */
  predicate Begins(s: State, step: Step, j: nat) {
    step.Reads? && step.reader.Begin? && step.t < |s.threads| && s.threads[step.t].Clocked? && s.threads[step.t].job == j
  }

  lemma DueOutside(p: Program, s: State, s': State, t: nat, step: Around, j: nat)
    requires OutsideNext(p, s, s', t, step) && j < |s.slots| && Due(p, s, j)
    requires s.seen <= s.version
    ensures j < |s'.slots| && Due(p, s', j)
  {
    var topics := TopicsOf(p, s, j);
    if step.Commit? && s.writer.Committed? { MeetsUnion(Declares(step.topics), s.writer.topics, topics); }
    if OnItsWay(s, j, topics) { OnItsWayFrame(s, s', j, topics); }
  }

  lemma DueMarks(p: Program, s: State, s': State, t: nat, step: Marker, j: nat)
    requires MarksNext(p, s, s', t, step) && j < |s.slots| && Alive(s, j) && Due(p, s, j)
    ensures j < |s'.slots| && Due(p, s', j)
  {
    var topics := TopicsOf(p, s, j);
    if OnItsWay(s, j, topics) && !(step.Mark? && s.threads[t].todo[0] == j) {
      MarkerKeepsOnItsWay(p, s, s', t, step, j, topics);
    }
  }

  lemma DueReads(p: Program, s: State, s': State, t: nat, step: Reader, j: nat)
    requires ReadsNext(p, s, s', t, step) && j < |s.slots| && Due(p, s, j)
    ensures j < |s'.slots| && (Due(p, s', j) || Begins(s, Reads(t, step), j))
  {
    var topics := TopicsOf(p, s, j);
    if OnItsWay(s, j, topics) { OnItsWayFrame(s, s', j, topics); }
  }

  lemma DueEnds(p: Program, s: State, s': State, t: nat, step: Ender, j: nat)
    requires EndsNext(s, s', t, step) && j < |s.slots| && Due(p, s, j)
    ensures j < |s'.slots| && Due(p, s', j)
  {
    var topics := TopicsOf(p, s, j);
    if OnItsWay(s, j, topics) { OnItsWayFrame(s, s', j, topics); }
  }

  /** What is due stays so until a reading of it begins. */
  lemma DueKept(p: Program, s: State, s': State, step: Step, j: nat)
    requires Next(p, s, s', step) && s.seen <= s.version && j < |s.slots| && Alive(s, j) && Due(p, s, j)
    ensures j < |s'.slots| && (Due(p, s', j) || Begins(s, step, j))
  {
    match step
    case Outside(t, around) => DueOutside(p, s, s', t, around, j);
    case Marks(t, marker) => DueMarks(p, s, s', t, marker, j);
    case Reads(t, reader) => DueReads(p, s, s', t, reader, j);
    case Ends(t, ender) => DueEnds(p, s, s', t, ender, j);
  }

  lemma NoRevival(p: Program, s: State, s': State, step: Step, j: nat)
    requires Next(p, s, s', step) && j < |s.slots| && Alive(s', j)
    ensures Alive(s, j)
  {
    match step
    case Outside(t, around) => NoRevivalOutside(p, s, s', t, around, j);
    case Marks(t, marker) => NoRevivalMarks(p, s, s', t, marker, j);
    case Reads(t, reader) => NoRevivalReads(p, s, s', t, reader, j);
    case Ends(t, ender) => NoRevivalEnds(s, s', t, ender, j);
  }

  /** Entries stay, each with its query, and what has been said of the world stays said. */
  ghost predicate GoesOn(s: State, s': State) {
    && |s.slots| <= |s'.slots| && Now(s) <= Now(s') && s.gens <= s'.gens
    && forall j :: 0 <= j < |s.slots| ==> s'.slots[j].entry.query == s.slots[j].entry.query
  }

  /** The store's writer and its generations are left. */
  predicate SameStore(s: State, s': State) {
    s'.writer == s.writer && s'.gens == s.gens
  }

  lemma GoesOnOutside(p: Program, s: State, s': State, t: nat, step: Around)
    requires OutsideNext(p, s, s', t, step)
    ensures GoesOn(s, s')
  {
  }

  lemma GoesOnMarks(p: Program, s: State, s': State, t: nat, step: Marker)
    requires MarksNext(p, s, s', t, step)
    ensures GoesOn(s, s') && SameStore(s, s')
    ensures |s'.slots| > |s.slots| ==> step.LiveNew? && |s'.slots| == |s.slots| + 1 && s'.slots[|s.slots|].entry.queued
  {
  }

  lemma GoesOnReads(p: Program, s: State, s': State, t: nat, step: Reader)
    requires ReadsNext(p, s, s', t, step)
    ensures GoesOn(s, s') && SameStore(s, s') && |s'.slots| == |s.slots|
  {
  }

  lemma GoesOnEnds(s: State, s': State, t: nat, step: Ender)
    requires EndsNext(s, s', t, step)
    ensures GoesOn(s, s') && SameStore(s, s') && |s'.slots| == |s.slots|
  {
  }

  lemma StepGoesOn(p: Program, s: State, s': State, step: Step)
    requires Next(p, s, s', step)
    ensures GoesOn(s, s') && (!step.Outside? ==> SameStore(s, s'))
    ensures forall j :: |s.slots| <= j < |s'.slots| ==> s'.slots[j].entry.queued
  {
    match step
    case Outside(t, around) =>
      GoesOnOutside(p, s, s', t, around);
      NoneNew(p, s, s', t, around);
    case Marks(t, marker) => GoesOnMarks(p, s, s', t, marker);
    case Reads(t, reader) => GoesOnReads(p, s, s', t, reader);
    case Ends(t, ender) => GoesOnEnds(s, s', t, ender);
  }

  lemma NoneNew(p: Program, s: State, s': State, t: nat, step: Around)
    requires OutsideNext(p, s, s', t, step)
    ensures |s'.slots| == |s.slots|
  {
  }

  /** An entry that is held now has been since it was made. */
  lemma {:induction false} HeldBefore(p: Program, run: seq<State>, steps: seq<Step>, i: nat, e: nat, j: nat)
    requires IsRun(p, run, steps) && i <= e < |run| && j < |run[i].slots| && j < |run[e].slots| && Alive(run[e], j)
    ensures Alive(run[i], j) && run[i].slots[j].entry.query == run[e].slots[j].entry.query
    decreases e
  {
    if i < e {
      assert Next(p, run[e - 1], run[e], steps[e - 1]);
      RunGoesOn(p, run, steps, i, e - 1);
      NoRevival(p, run[e - 1], run[e], steps[e - 1], j);
      StepGoesOn(p, run[e - 1], run[e], steps[e - 1]);
      HeldBefore(p, run, steps, i, e - 1, j);
    }
  }

  lemma {:induction false} RunGoesOn(p: Program, run: seq<State>, steps: seq<Step>, i: nat, e: nat)
    requires IsRun(p, run, steps) && i <= e < |run|
    ensures GoesOn(run[i], run[e])
    decreases e
  {
    if i < e {
      RunGoesOn(p, run, steps, i, e - 1);
      assert Next(p, run[e - 1], run[e], steps[e - 1]);
      StepGoesOn(p, run[e - 1], run[e], steps[e - 1]);
    }
  }

  lemma SettledOwesNothing(p: Program, run: seq<State>, steps: seq<Step>, e: nat, j: nat)
    requires IsRun(p, run, steps) && e < |run| && Settled(run[e]) && j < |run[e].slots| && Alive(run[e], j)
    ensures !Due(p, run[e], j) && AtRest(p, run[e], j)
  {
    InvRun(p, run, steps, e);
    HeldIsAtRest(p, run[e], j);
    NoLoad(p, run[e]);
    NothingOnItsWay(run[e], j, TopicsOf(p, run[e], j));
  }

  lemma NoLoad(p: Program, s: State)
    requires Inv(p, s) && Idle(s)
    ensures forall t :: 0 <= t < |s.threads| ==> Load(s.threads[t]) == 0
  {
    forall t | 0 <= t < |s.threads| ensures Load(s.threads[t]) == 0 { SumBounds(s.threads, t, Load); }
  }

  lemma NothingOnItsWay(s: State, j: nat, topics: Topics)
    requires Settled(s)
    requires forall t :: 0 <= t < |s.threads| ==> Load(s.threads[t]) == 0
    ensures !OnItsWay(s, j, topics)
  {
    forall t | 0 <= t < |s.threads| ensures !WillMark(s.threads[t], j, topics) { assert Quiet(s.threads[t]); }
  }

  // ---------- a write is in what is shown, and what is shown says so

  /** A change made so far is counted: its commit is still to be published, or the last generation has it. */
  ghost predicate Counted(s: State, i: nat, topics: Topics) {
    && |s.gens| > 0 && i < Now(s)
    && ((s.writer.Committed? && topics <= s.writer.topics) || s.gens[|s.gens| - 1] > i)
  }

  lemma CommitCounted(p: Program, s: State, s': State, t: nat, topics: Topics, db: Db)
    requires Recorded(p, s) && CommitStep(p, s, s', t, topics, db)
    ensures Counted(s', Now(s), Declares(topics))
  {
  }

  lemma CountedOutside(p: Program, s: State, s': State, t: nat, step: Around, i: nat, topics: Topics)
    requires Counted(s, i, topics) && OutsideNext(p, s, s', t, step)
    ensures Counted(s', i, topics)
  {
  }

  lemma CountedNext(p: Program, s: State, s': State, step: Step, i: nat, topics: Topics)
    requires Counted(s, i, topics) && Next(p, s, s', step)
    ensures Counted(s', i, topics)
  {
    if step.Outside? {
      CountedOutside(p, s, s', step.t, step.around, i, topics);
    } else {
      StepGoesOn(p, s, s', step);
    }
  }

  /** Generation `g` counts change `i`. */
  predicate Covers(s: State, g: nat, i: nat) {
    g < |s.gens| && s.gens[g] > i
  }

  /** A reading that has begun will say a generation that counts change `i`. */
  predicate WillCover(s: State, pc: Pc, i: nat) {
    match pc
    case Running(_, _) => |s.gens| > 0 && Covers(s, |s.gens| - 1, i)
    case Dated(_, _, asOf) => Covers(s, asOf, i)
    case Answered(_, r) => Covers(s, r.asOf, i)
    case _ => true
  }

  /** The entry's last reading says a generation that counts the change, or the one going on will. */
  ghost predicate Reached(s: State, j: nat, i: nat)
    requires j < |s.slots|
  {
    && (!s.slots[j].entry.running ==> s.slots[j].last.Some? && Covers(s, s.slots[j].last.value.asOf, i))
    && (forall t :: 0 <= t < |s.threads| && IsReading(s.threads[t]) && s.threads[t].job == j ==> WillCover(s, s.threads[t], i))
  }

  /** Nothing of the entry's readings is changed, but what one thread does next. */
  lemma ReachedKept(s: State, s': State, t: nat, j: nat, i: nat)
    requires j < |s.slots| && j < |s'.slots| && s'.gens == s.gens && |s'.threads| == |s.threads| && Reached(s, j, i)
    requires s'.slots[j].entry.running == s.slots[j].entry.running && s'.slots[j].last == s.slots[j].last
    requires forall u :: 0 <= u < |s.threads| && u != t ==> s'.threads[u] == s.threads[u]
    requires t < |s.threads| && IsReading(s'.threads[t]) && s'.threads[t].job == j ==> WillCover(s', s'.threads[t], i)
    ensures Reached(s', j, i)
  {
    forall u | 0 <= u < |s'.threads| && IsReading(s'.threads[u]) && s'.threads[u].job == j && u != t
      ensures WillCover(s', s'.threads[u], i)
    {
      assert WillCover(s, s.threads[u], i);
    }
  }

  lemma ReachedOutside(p: Program, s: State, s': State, t: nat, step: Around, j: nat, i: nat)
    requires OutsideNext(p, s, s', t, step) && Recorded(p, s) && j < |s.slots| && Reached(s, j, i)
    ensures j < |s'.slots| && Reached(s', j, i)
  {
    match step
    case Commit(owner, _, _) => ReachedKept(s, s', owner, j, i);
    case ActBegin => ReachedKept(s, s', t, j, i);
    case ActEnd => ReachedKept(s, s', t, j, i);
    case Publish => ReachedPublished(s, s', j, i);
    case _ => ReachedKept(s, s', |s.threads|, j, i);
  }

  lemma ReachedPublished(s: State, s': State, j: nat, i: nat)
    requires PublishStep(s, s') && j < |s.slots| && Reached(s, j, i) && |s.gens| > 0 && s.gens[|s.gens| - 1] <= Now(s)
    ensures Reached(s', j, i)
  {
    forall u | 0 <= u < |s'.threads| && IsReading(s'.threads[u]) && s'.threads[u].job == j
      ensures WillCover(s', s'.threads[u], i)
    {
      assert WillCover(s, s.threads[u], i);
    }
  }

  lemma ReachedMarks(p: Program, s: State, s': State, t: nat, step: Marker, j: nat, i: nat)
    requires MarksNext(p, s, s', t, step) && j < |s.slots| && Reached(s, j, i)
    ensures j < |s'.slots| && Reached(s', j, i)
  {
    ReachedKept(s, s', t, j, i);
  }

  lemma ReachedReads(p: Program, s: State, s': State, t: nat, step: Reader, j: nat, i: nat)
    requires ReadsNext(p, s, s', t, step) && j < |s.slots| && Reached(s, j, i) && !Begins(s, Reads(t, step), j)
    ensures j < |s'.slots| && Reached(s', j, i)
  {
    assert IsReading(s.threads[t]) && s.threads[t].job == j ==> WillCover(s, s.threads[t], i);
    ReachedKept(s, s', t, j, i);
  }

  lemma ReachedBegin(s: State, s': State, t: nat, j: nat, i: nat)
    requires BeginStep(s, s', t) && InHand(s) && j < |s.slots| && s.threads[t].job == j
    requires |s.gens| > 0 && Covers(s, |s.gens| - 1, i)
    ensures Reached(s', j, i)
  {
    assert Owns(s.threads[t]) == Some(j);
    forall u | 0 <= u < |s.threads| && u != t ensures !(IsReading(s.threads[u]) && s.threads[u].job == j) {
      assert Owns(s.threads[u]) == Some(j) <==> s.slots[j].place == Hand(u);
    }
  }

  lemma ReachedEnds(s: State, s': State, t: nat, step: Ender, j: nat, i: nat)
    requires EndsNext(s, s', t, step) && j < |s.slots| && Reached(s, j, i)
    ensures j < |s'.slots| && Reached(s', j, i)
  {
    if step.End? && s.threads[t].job == j {
      assert WillCover(s, s.threads[t], i);
      forall u | 0 <= u < |s'.threads| && IsReading(s'.threads[u]) && s'.threads[u].job == j
        ensures WillCover(s', s'.threads[u], i)
      {
        assert WillCover(s, s.threads[u], i);
      }
    } else {
      ReachedKept(s, s', t, j, i);
    }
  }

  /** Of an entry that reads what a commit touched: it is to be read again, or has been read with the commit counted. */
  ghost predicate DueOrReached(p: Program, s: State, j: nat, i: nat) {
    j < |s.slots| ==> Due(p, s, j) || Reached(s, j, i)
  }

  lemma ReachedNext(p: Program, s: State, s': State, step: Step, j: nat, i: nat, topics: Topics)
    requires Next(p, s, s', step) && Recorded(p, s) && InHand(s) && s.seen <= s.version
    requires Counted(s, i, topics) && j < |s.slots| && Alive(s, j) && Meets(topics, TopicsOf(p, s, j))
    requires DueOrReached(p, s, j, i)
    ensures DueOrReached(p, s', j, i)
  {
    if Begins(s, step, j) {
      BeginReaches(p, s, s', step.t, j, i, topics);
    } else if Due(p, s, j) {
      DueKept(p, s, s', step, j);
    } else {
      ReachedStays(p, s, s', step, j, i);
    }
  }

  lemma ReachedStays(p: Program, s: State, s': State, step: Step, j: nat, i: nat)
    requires Next(p, s, s', step) && Recorded(p, s) && j < |s.slots| && Reached(s, j, i) && !Begins(s, step, j)
    ensures j < |s'.slots| && Reached(s', j, i)
  {
    match step
    case Outside(t, around) => ReachedOutside(p, s, s', t, around, j, i);
    case Marks(t, marker) => ReachedMarks(p, s, s', t, marker, j, i);
    case Reads(t, reader) => ReachedReads(p, s, s', t, reader, j, i);
    case Ends(t, ender) => ReachedEnds(s, s', t, ender, j, i);
  }

  /** A reading that begins has the commit counted, or the commit is still to be published and then sent. */
  lemma BeginReaches(p: Program, s: State, s': State, t: nat, j: nat, i: nat, topics: Topics)
    requires BeginStep(s, s', t) && s.threads[t].job == j && InHand(s) && j < |s.slots|
    requires Counted(s, i, topics) && Meets(topics, TopicsOf(p, s, j))
    ensures j < |s'.slots| && (Due(p, s', j) || Reached(s', j, i))
  {
    if s.writer.Committed? && topics <= s.writer.topics {
      MeetsMore(topics, s.writer.topics, TopicsOf(p, s, j));
    } else {
      ReachedBegin(s, s', t, j, i);
    }
  }

  lemma MeetsMore(a: Topics, b: Topics, c: Topics)
    requires a <= b && Meets(a, c)
    ensures Meets(b, c)
  {
    assert a * c <= b * c;
  }

  lemma CommitAt(p: Program, run: seq<State>, steps: seq<Step>, k: nat, t: nat, owner: nat, topics: Topics, db: Db)
    requires IsRun(p, run, steps) && k < |steps| && steps[k] == Outside(t, Commit(owner, topics, db))
    ensures CommitStep(p, run[k], run[k + 1], owner, topics, db) && Recorded(p, run[k])
  {
    InvRun(p, run, steps, k);
    assert Next(p, run[k], run[k + 1], steps[k]);
  }

  lemma CommitIsDue(p: Program, s: State, s': State, owner: nat, topics: Topics, db: Db, j: nat)
    requires CommitStep(p, s, s', owner, topics, db) && j < |s'.slots| && Meets(Declares(topics), TopicsOf(p, s', j))
    ensures Due(p, s', j)
  {
    MeetsMore(Declares(topics), s'.writer.topics, TopicsOf(p, s', j));
  }

  lemma CountedAfter(p: Program, run: seq<State>, steps: seq<Step>, e: nat, i: nat, topics: Topics)
    requires IsRun(p, run, steps) && e < |steps| && Counted(run[e], i, topics)
    ensures Counted(run[e + 1], i, topics)
  {
    assert Next(p, run[e], run[e + 1], steps[e]);
    CountedNext(p, run[e], run[e + 1], steps[e], i, topics);
  }

  lemma {:induction false} CountedSince(p: Program, run: seq<State>, steps: seq<Step>, k: nat, e: nat, i: nat, topics: Topics)
    requires IsRun(p, run, steps) && k <= e < |run| && Counted(run[k], i, topics)
    ensures Counted(run[e], i, topics)
    decreases e
  {
    if k < e {
      CountedSince(p, run, steps, k, e - 1, i, topics);
      CountedAfter(p, run, steps, e - 1, i, topics);
    }
  }

  /** An entry that is held and reads some of the topics is due or has been read with the change counted. */
  ghost predicate Reaches(p: Program, s: State, j: nat, i: nat, topics: Topics) {
    j < |s.slots| && Alive(s, j) && Meets(topics, TopicsOf(p, s, j)) ==> DueOrReached(p, s, j, i)
  }

  lemma ReachesAfter(p: Program, run: seq<State>, steps: seq<Step>, e: nat, j: nat, i: nat, topics: Topics)
    requires IsRun(p, run, steps) && e < |steps| && Counted(run[e], i, topics) && Reaches(p, run[e], j, i, topics)
    ensures Reaches(p, run[e + 1], j, i, topics)
  {
    InvRun(p, run, steps, e);
    assert Next(p, run[e], run[e + 1], steps[e]);
    StepGoesOn(p, run[e], run[e + 1], steps[e]);
    if j < |run[e].slots| && Alive(run[e + 1], j) && Meets(topics, TopicsOf(p, run[e + 1], j)) {
      NoRevival(p, run[e], run[e + 1], steps[e], j);
      ReachedNext(p, run[e], run[e + 1], steps[e], j, i, topics);
    }
  }

  lemma {:induction false} ReachesSince(p: Program, run: seq<State>, steps: seq<Step>, k: nat, e: nat, j: nat, i: nat, topics: Topics)
    requires IsRun(p, run, steps) && k <= e < |run| && Counted(run[k], i, topics) && Reaches(p, run[k], j, i, topics)
    ensures Reaches(p, run[e], j, i, topics)
    decreases e
  {
    if k < e {
      ReachesSince(p, run, steps, k, e - 1, j, i, topics);
      CountedSince(p, run, steps, k, e - 1, i, topics);
      ReachesAfter(p, run, steps, e - 1, j, i, topics);
    }
  }

  /** A write is in what is shown, and what is shown says so. After a commit that touched what a value reads, once the client is
      settled the generation the value says it is as of is one that counts the commit. */
  lemma WritesAreShown(p: Program, run: seq<State>, steps: seq<Step>, k: nat, e: nat, t: nat, owner: nat, topics: Topics, db: Db,
                       j: nat)
    requires IsRun(p, run, steps) && k < e < |run| && steps[k] == Outside(t, Commit(owner, topics, db)) && Settled(run[e])
    requires j < |run[e].slots| && run[e].slots[j].lives > 0 && run[e].slots[j].entry.snapshot.Ready?
    requires Meets(Declares(topics), p.topics(run[e].slots[j].entry.query))
    ensures var s, asOf := run[e], run[e].slots[j].entry.snapshot.asOf;
            asOf < |s.gens| && s.gens[asOf] > Now(run[k])
  {
    assert Alive(run[e], j);
    CommitAt(p, run, steps, k, t, owner, topics, db);
    CommitCounted(p, run[k], run[k + 1], owner, topics, db);
    if j < |run[k + 1].slots| && Meets(Declares(topics), TopicsOf(p, run[k + 1], j)) {
      CommitIsDue(p, run[k], run[k + 1], owner, topics, db, j);
    }
    ReachesSince(p, run, steps, k + 1, e, j, Now(run[k]), Declares(topics));
    SettledOwesNothing(p, run, steps, e, j);
    InvRun(p, run, steps, e);
    assert SlotHonest(p, run[e], j);
  }

  /** So a value that reads what an act's last commit touched has the act in it, and says a generation that counts it; and one
      that the act's ticket says or a later one, if no other commit was counted between the act's and its ticket. */
  lemma TicketsAreReached(p: Program, run: seq<State>, steps: seq<Step>, k: nat, e: nat, t: nat, owner: nat, topics: Topics, db: Db,
                          j: nat, a: nat)
    requires IsRun(p, run, steps) && k < e < |run| && steps[k] == Outside(t, Commit(owner, topics, db)) && Settled(run[e])
    requires j < |run[e].slots| && run[e].slots[j].lives > 0 && run[e].slots[j].entry.snapshot.Ready?
    requires Meets(Declares(topics), p.topics(run[e].slots[j].entry.query))
    requires a < |run[e].acted| && run[e].acted[a].upto == Now(run[k]) + 1
    ensures var s, asOf, ticket := run[e], run[e].slots[j].entry.snapshot.asOf, run[e].acted[a];
            && asOf < |s.gens| && s.gens[asOf] >= ticket.upto && ticket.generation < |s.gens|
            && (ticket.generation == 0 || s.gens[ticket.generation - 1] < ticket.upto ==> asOf >= ticket.generation)
  {
    WritesAreShown(p, run, steps, k, e, t, owner, topics, db, j);
    InvRun(p, run, steps, e);
    var s, asOf, ticket := run[e], run[e].slots[j].entry.snapshot.asOf, run[e].acted[a];
    if asOf < ticket.generation { assert s.gens[asOf] <= s.gens[ticket.generation - 1]; }
  }

  // ---------- an invalidation asked for

  /** A reading of the entry begins at some step from `k` on and before `e`. */
  ghost predicate BegunIn(run: seq<State>, steps: seq<Step>, k: nat, e: nat, j: nat) {
    exists i :: k <= i < e && i < |run| && i < |steps| && Begins(run[i], steps[i], j)
  }

  lemma DueAfter(p: Program, run: seq<State>, steps: seq<Step>, k: nat, e: nat, j: nat)
    requires IsRun(p, run, steps) && k <= e < |steps| && j < |run[e].slots| && Alive(run[e], j) && Due(p, run[e], j)
    ensures j < |run[e + 1].slots| && (Due(p, run[e + 1], j) || BegunIn(run, steps, k, e + 1, j))
  {
    InvRun(p, run, steps, e);
    assert Next(p, run[e], run[e + 1], steps[e]);
    DueKept(p, run[e], run[e + 1], steps[e], j);
  }

  lemma BegunStays(run: seq<State>, steps: seq<Step>, k: nat, e: nat, j: nat)
    requires BegunIn(run, steps, k, e, j)
    ensures BegunIn(run, steps, k, e + 1, j)
  {
  }

  /** What a step does to an entry that is due: it stays so until it is begun to be read. */
  ghost predicate DueMoves(p: Program, run: seq<State>, steps: seq<Step>, k: nat, i: nat, j: nat)
    requires i + 1 < |run|
  {
    && j < |run[i].slots| && j < |run[i + 1].slots|
    && (Due(p, run[i], j) || BegunIn(run, steps, k, i, j) ==> Due(p, run[i + 1], j) || BegunIn(run, steps, k, i + 1, j))
  }

  lemma DueStep(p: Program, run: seq<State>, steps: seq<Step>, k: nat, i: nat, e: nat, j: nat)
    requires IsRun(p, run, steps) && k <= i < e < |run| && j < |run[k].slots| && j < |run[e].slots| && Alive(run[e], j)
    ensures DueMoves(p, run, steps, k, i, j)
  {
    RunGoesOn(p, run, steps, k, i);
    HeldBefore(p, run, steps, i, e, j);
    RunGoesOn(p, run, steps, k, i + 1);
    if Due(p, run[i], j) { DueAfter(p, run, steps, k, i, j); }
    if BegunIn(run, steps, k, i, j) { BegunStays(run, steps, k, i, j); }
  }

  lemma {:induction false} DueSince(p: Program, run: seq<State>, steps: seq<Step>, k: nat, e: nat, j: nat)
    requires k <= e < |run| && j < |run[k].slots| && Due(p, run[k], j) && j < |run[e].slots|
    requires forall i: nat :: k <= i < e ==> DueMoves(p, run, steps, k, i, j)
    ensures Due(p, run[e], j) || BegunIn(run, steps, k, e, j)
    decreases e
  {
    if k < e {
      assert DueMoves(p, run, steps, k, e - 1, j);
      DueSince(p, run, steps, k, e - 1, j);
    }
  }

  lemma DueUntilBegun(p: Program, run: seq<State>, steps: seq<Step>, k: nat, e: nat, j: nat)
    requires IsRun(p, run, steps) && k <= e < |run| && j < |run[k].slots| && Due(p, run[k], j)
    requires j < |run[e].slots| && Alive(run[e], j)
    ensures Due(p, run[e], j) || BegunIn(run, steps, k, e, j)
  {
    forall i: nat | k <= i < e ensures DueMoves(p, run, steps, k, i, j) {
      DueStep(p, run, steps, k, i, e, j);
    }
    DueSince(p, run, steps, k, e, j);
  }

  /** An invalidation asked for is made: every value held that reads any of its topics has been read again, by a reading begun
      after it, once the client is settled. */
  lemma InvalidationsAreMade(p: Program, run: seq<State>, steps: seq<Step>, k: nat, e: nat, t: nat, topics: Topics, j: nat)
    requires IsRun(p, run, steps) && k < e < |run| && steps[k] == Marks(t, Invalidate(topics)) && Settled(run[e])
    requires j < |run[k].slots| && j < |run[e].slots| && run[e].slots[j].lives > 0
    requires Meets(topics, p.topics(run[e].slots[j].entry.query))
    ensures BegunIn(run, steps, k + 1, e, j)
  {
    assert Alive(run[e], j);
    HeldBefore(p, run, steps, k, e, j);
    OwedIsDue(p, run, steps, k, t, topics, j);
    DueUntilBegun(p, run, steps, k + 1, e, j);
    SettledOwesNothing(p, run, steps, e, j);
  }

  lemma OwedIsDue(p: Program, run: seq<State>, steps: seq<Step>, k: nat, t: nat, topics: Topics, j: nat)
    requires IsRun(p, run, steps) && k < |steps| && steps[k] == Marks(t, Invalidate(topics))
    requires j < |run[k].slots| && Meets(topics, p.topics(run[k].slots[j].entry.query))
    ensures j < |run[k + 1].slots| && Due(p, run[k + 1], j)
  {
    assert Next(p, run[k], run[k + 1], steps[k]);
    assert WillMark(run[k + 1].threads[t], j, TopicsOf(p, run[k + 1], j));
  }
}
