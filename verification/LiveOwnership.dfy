/** Who answers for an entry: in every reachable state one that is queued or being read is in one
    place only. */
module LiveOwnership {
  import opened Options
  import opened LiveEntry
  import opened LiveProtocol

  /** The job a thread alone answers for: one it is about to queue, has taken, or is reading. */
  function Owns(pc: Pc): Option<nat> {
    match pc
    case Adding(job, _) => Some(job)
    case Pushing(job, _) => Some(job)
    case Taken(job) => Some(job)
    case Holding(job) => Some(job)
    case Clocked(job, _) => Some(job)
    case Running(job, _) => Some(job)
    case Dated(job, _, _) => Some(job)
    case Answered(job, _) => Some(job)
    case Telling(job, _, again) => if again then Some(job) else None
    case Counting(job, again) => if again then Some(job) else None
    case Finished(job, again) => if again then Some(job) else None
    case _ => None
  }

  predicate IsReading(pc: Pc) {
    pc.Running? || pc.Dated? || pc.Answered?
  }

  /** A thread answers for a job exactly when the job's place says that thread. */
  ghost predicate InHand(s: State) {
    && (forall t, j: nat :: 0 <= t < |s.threads| && j < |s.slots| ==>
          (Owns(s.threads[t]) == Some(j) <==> s.slots[j].place == Hand(t)))
    && (forall t :: 0 <= t < |s.threads| ==> OwnsEntry(s.threads[t], |s.slots|))
    && (forall j :: 0 <= j < |s.slots| ==> InThread(s.slots[j].place, |s.threads|))
  }

  predicate OwnsEntry(pc: Pc, n: nat) {
    Owns(pc).Some? ==> Owns(pc).value < n
  }

  predicate InThread(place: Place, n: nat) {
    place.Hand? ==> place.thread < n
  }

  /** A job is in the queue, and once only, exactly when its place says so. */
  ghost predicate Queued(s: State) {
    && (forall j: nat :: j in s.queue ==> j < |s.slots|)
    && (forall j: nat :: j < |s.slots| ==> (s.slots[j].place == InQueue <==> j in s.queue))
    && Distinct(s.queue)
  }

  /** What an entry's flags say of where it is. One that is marked queued and is nowhere is one
      nobody holds, or one left by a client that is stopping. */
  ghost predicate FlagsFit(s: State, j: nat)
    requires j < |s.slots|
  {
    var e, place := s.slots[j].entry, s.slots[j].place;
    && (e.running <==> place.Hand? && place.thread < |s.threads| && IsReading(s.threads[place.thread]))
    && (place != Nowhere && !e.running ==> e.queued)
    && !(e.queued && e.running)
    && (e.again ==> e.running)
    && (e.queued && place == Nowhere ==> s.stopping || !Alive(s, j))
  }

  ghost predicate Flagged(s: State) {
    forall j: nat :: j < |s.slots| ==> FlagsFit(s, j)
  }

  /** A job in hand or still to be marked is an entry. */
  ghost predicate Known(s: State) {
    forall t, j: nat :: 0 <= t < |s.threads| && j in Strong(s.threads[t]) ==> j < |s.slots|
  }

  // ---------- `InHand`

  /** A thread that goes on answering for what it did, or for nothing, changes no hand. */
  lemma InHandKept(s: State, s': State, t: nat)
    requires InHand(s) && t < |s.threads| == |s'.threads| && s'.threads == s.threads[t := s'.threads[t]]
    requires Owns(s'.threads[t]) == Owns(s.threads[t])
    requires |s'.slots| == |s.slots| && forall j :: 0 <= j < |s.slots| ==> s'.slots[j].place == s.slots[j].place
    ensures InHand(s')
  {
  }

  /** Nor does a change of anything else. */
  lemma InHandElsewhere(s: State, s': State)
    requires InHand(s) && s'.threads == s.threads
    requires |s'.slots| == |s.slots| && forall j :: 0 <= j < |s.slots| ==> s'.slots[j].place == s.slots[j].place
    ensures InHand(s')
  {
  }

  /** A thread takes job `j` up or lets go of it, if it answered for no other and no other thread did for `j`. */
  lemma InHandMoved(s: State, s': State, t: nat, j: nat)
    requires InHand(s) && t < |s.threads| == |s'.threads| && s'.threads == s.threads[t := s'.threads[t]] && j < |s'.slots|
    requires |s.slots| <= |s'.slots| <= |s.slots| + 1 && (|s'.slots| > |s.slots| ==> j == |s.slots|)
    requires forall i :: 0 <= i < |s.slots| && i != j ==> s'.slots[i].place == s.slots[i].place
    requires Owns(s.threads[t]) in {None, Some(j)} && Owns(s'.threads[t]) in {None, Some(j)}
    requires j < |s.slots| && s.slots[j].place.Hand? ==> s.slots[j].place.thread == t
    requires if Owns(s'.threads[t]).Some? then s'.slots[j].place == Hand(t) else !s'.slots[j].place.Hand?
    ensures InHand(s')
  {
  }

  lemma InHandOutside(p: Program, s: State, s': State, t: nat, step: Around)
    requires InHand(s) && OutsideNext(p, s, s', t, step)
    ensures InHand(s')
  {
    match step
    case Commit(owner, _, _) =>
      if owner < |s.threads| { InHandKept(s, s', owner); } else { InHandElsewhere(s, s'); }
    case ActBegin => InHandKept(s, s', t);
    case ActEnd => InHandKept(s, s', t);
    case _ => InHandElsewhere(s, s');
  }

  lemma InHandMarks(p: Program, s: State, s': State, t: nat, step: Marker)
    requires InHand(s) && Flagged(s) && MarksNext(p, s, s', t, step)
    ensures InHand(s')
  {
    match step
    case Mark =>
      var job := s.threads[t].todo[0];
      assert FlagsFit(s, job);
      if Wanted(s.slots[job].entry) { InHandMoved(s, s', t, job); } else { InHandKept(s, s', t); }
    case LiveNew(_) => InHandMoved(s, s', t, |s.slots|);
    case Push => InHandMoved(s, s', t, s.threads[t].job);
    case _ => InHandKept(s, s', t);
  }

  lemma InHandReads(p: Program, s: State, s': State, t: nat, step: Reader)
    requires InHand(s) && Queued(s) && ReadsNext(p, s, s', t, step)
    ensures InHand(s')
  {
    match step
    case Pop => InHandMoved(s, s', t, s.queue[0]);
    case Gone => InHandMoved(s, s', t, s.threads[t].job);
    case _ => InHandKept(s, s', t);
  }

  lemma InHandEnds(s: State, s': State, t: nat, step: Ender)
    requires InHand(s) && EndsNext(s, s', t, step)
    ensures InHand(s')
  {
    if step.End? || (step.Release? && s.threads[t].again) {
      InHandMoved(s, s', t, s.threads[t].job);
    } else {
      InHandKept(s, s', t);
    }
  }

  // ---------- `Queued`

  lemma QueuedOutside(p: Program, s: State, s': State, t: nat, step: Around)
    requires Queued(s) && OutsideNext(p, s, s', t, step)
    ensures Queued(s')
  {
  }

  lemma QueuedMarks(p: Program, s: State, s': State, t: nat, step: Marker)
    requires InHand(s) && Queued(s) && Flagged(s) && MarksNext(p, s, s', t, step)
    ensures Queued(s')
  {
    if step.Mark? { assert FlagsFit(s, s.threads[t].todo[0]); }
  }

  lemma QueuedReads(p: Program, s: State, s': State, t: nat, step: Reader)
    requires InHand(s) && Queued(s) && ReadsNext(p, s, s', t, step)
    ensures Queued(s')
  {
    if step.Pop? {
      assert s.queue == [s.queue[0]] + s'.queue;
      forall j: nat ensures j in s.queue <==> j in s'.queue || j == s.queue[0] { }
    }
  }

  lemma QueuedEnds(s: State, s': State, t: nat, step: Ender)
    requires InHand(s) && Queued(s) && EndsNext(s, s', t, step)
    ensures Queued(s')
  {
  }

  // ---------- an entry nobody holds is never held again

  lemma NoRevivalOutside(p: Program, s: State, s': State, t: nat, step: Around, j: nat)
    requires OutsideNext(p, s, s', t, step) && j < |s.slots| && Alive(s', j)
    ensures Alive(s, j)
  {
  }

  lemma NoRevivalMarks(p: Program, s: State, s': State, t: nat, step: Marker, j: nat)
    requires MarksNext(p, s, s', t, step) && j < |s.slots| && Alive(s', j)
    ensures Alive(s, j)
  {
  }

  lemma NoRevivalReads(p: Program, s: State, s': State, t: nat, step: Reader, j: nat)
    requires ReadsNext(p, s, s', t, step) && j < |s.slots| && Alive(s', j)
    ensures Alive(s, j)
  {
  }

  lemma NoRevivalEnds(s: State, s': State, t: nat, step: Ender, j: nat)
    requires EndsNext(s, s', t, step) && j < |s.slots| && Alive(s', j)
    ensures Alive(s, j)
  {
  }

  // ---------- `Flagged`

  /** What the flags say of an entry is not changed: it and its place are not, nor whether who has it reads it. */
  ghost predicate SameFlags(s: State, s': State, j: nat)
    requires j < |s.slots| && j < |s'.slots|
  {
    var a, b := s.slots[j], s'.slots[j];
    && a.place == b.place && a.entry.queued == b.entry.queued && a.entry.running == b.entry.running
    && a.entry.again == b.entry.again && |s.threads| == |s'.threads|
    && (a.place.Hand? && a.place.thread < |s.threads| ==>
          IsReading(s.threads[a.place.thread]) == IsReading(s'.threads[a.place.thread]))
  }

  lemma FlagsKept(s: State, s': State, j: nat)
    requires j < |s.slots| && j < |s'.slots| && FlagsFit(s, j) && SameFlags(s, s', j)
    requires (s.stopping ==> s'.stopping) && (Alive(s', j) ==> Alive(s, j))
    ensures FlagsFit(s', j)
  {
  }

  /** A thread's step on entry `job` leaves the flags of every other entry. */
  lemma FlagsElse(s: State, s': State, t: nat, job: nat, j: nat)
    requires InHand(s) && Flagged(s) && t < |s.threads| == |s'.threads| && s'.threads == s.threads[t := s'.threads[t]]
    requires s'.stopping == s.stopping && j < |s.slots| <= |s'.slots| && j != job && s'.slots[j] == s.slots[j] && (Alive(s', j) ==> Alive(s, j))
    requires Owns(s.threads[t]) in {None, Some(job)}
    ensures FlagsFit(s', j)
  {
    FlagsKept(s, s', j);
  }

  lemma FlaggedOutside(p: Program, s: State, s': State, t: nat, step: Around)
    requires InHand(s) && Flagged(s) && OutsideNext(p, s, s', t, step)
    ensures Flagged(s')
  {
    forall j: nat | j < |s'.slots| ensures FlagsFit(s', j) {
      if Alive(s', j) { NoRevivalOutside(p, s, s', t, step, j); }
      FlagsKept(s, s', j);
    }
  }

  /** A thread that goes on to what is no reading leaves the flags of every entry that is not. */
  lemma FlaggedThread(s: State, s': State, t: nat)
    requires Flagged(s) && t < |s.threads| == |s'.threads| && s'.threads == s.threads[t := s'.threads[t]] && s'.slots == s.slots
    requires !IsReading(s.threads[t]) && !IsReading(s'.threads[t]) && s'.stopping == s.stopping
    requires forall j: nat :: j < |s.slots| && Alive(s', j) ==> Alive(s, j)
    ensures Flagged(s')
  {
    forall j: nat | j < |s'.slots| ensures FlagsFit(s', j) { FlagsKept(s, s', j); }
  }

  lemma FlaggedMark(s: State, s': State, t: nat)
    requires InHand(s) && Flagged(s) && MarkStep(s, s', t)
    requires forall j: nat :: j < |s.slots| && Alive(s', j) ==> Alive(s, j)
    ensures Flagged(s')
  {
    var job := s.threads[t].todo[0];
    forall j: nat | j < |s'.slots| ensures FlagsFit(s', j) {
      if j != job { FlagsElse(s, s', t, job, j); } else { assert FlagsFit(s, j); }
    }
  }

  lemma FlaggedPush(s: State, s': State, t: nat)
    requires InHand(s) && Flagged(s) && PushStep(s, s', t)
    requires forall j: nat :: j < |s.slots| && Alive(s', j) ==> Alive(s, j)
    ensures Flagged(s')
  {
    var job := s.threads[t].job;
    forall j: nat | j < |s'.slots| ensures FlagsFit(s', j) {
      if j != job { FlagsElse(s, s', t, job, j); } else { assert FlagsFit(s, j); }
    }
  }

  lemma FlaggedNew(s: State, s': State, t: nat, q: Query)
    requires InHand(s) && Flagged(s) && LiveNewStep(s, s', t, q)
    requires forall j: nat :: j < |s.slots| && Alive(s', j) ==> Alive(s, j)
    ensures Flagged(s')
  {
    forall j: nat | j < |s'.slots| ensures FlagsFit(s', j) {
      if j < |s.slots| { FlagsElse(s, s', t, |s.slots|, j); }
    }
  }

  lemma FlaggedMarks(p: Program, s: State, s': State, t: nat, step: Marker)
    requires InHand(s) && Flagged(s) && MarksNext(p, s, s', t, step)
    ensures Flagged(s')
  {
    forall j: nat | j < |s.slots| && Alive(s', j) ensures Alive(s, j) { NoRevivalMarks(p, s, s', t, step, j); }
    match step
    case Mark => FlaggedMark(s, s', t);
    case Push => FlaggedPush(s, s', t);
    case LiveNew(q) => FlaggedNew(s, s', t, q);
    case _ => FlaggedThread(s, s', t);
  }

  lemma FlaggedReads(p: Program, s: State, s': State, t: nat, step: Reader)
    requires InHand(s) && Queued(s) && Flagged(s) && ReadsNext(p, s, s', t, step)
    ensures Flagged(s')
  {
    forall j: nat | j < |s.slots| && Alive(s', j) ensures Alive(s, j) { NoRevivalReads(p, s, s', t, step, j); }
    var job := if step.Pop? then s.queue[0] else s.threads[t].job;
    assert FlagsFit(s, job);
    FlaggedJob(s, s', t, job);
  }

  /** A thread ends its reading, or lets its entry go. */
  lemma FlaggedJob(s: State, s': State, t: nat, job: nat)
    requires InHand(s) && Flagged(s) && t < |s.threads| == |s'.threads| && s'.threads == s.threads[t := s'.threads[t]]
    requires job < |s.slots| == |s'.slots| && s'.slots == s.slots[job := s'.slots[job]] && s'.stopping == s.stopping
    requires Owns(s.threads[t]) in {None, Some(job)} && FlagsFit(s', job)
    requires forall j: nat :: j < |s.slots| && Alive(s', j) ==> Alive(s, j)
    ensures Flagged(s')
  {
    forall j: nat | j < |s'.slots| ensures FlagsFit(s', j) {
      if j != job { FlagsElse(s, s', t, job, j); }
    }
  }

  lemma FlaggedEnds(s: State, s': State, t: nat, step: Ender)
    requires InHand(s) && Flagged(s) && EndsNext(s, s', t, step)
    ensures Flagged(s')
  {
    forall j: nat | j < |s.slots| && Alive(s', j) ensures Alive(s, j) { NoRevivalEnds(s, s', t, step, j); }
    if step.Sub? || step.Requeue? {
      FlaggedThread(s, s', t);
    } else {
      assert FlagsFit(s, s.threads[t].job);
      FlaggedJob(s, s', t, s.threads[t].job);
    }
  }

  // ---------- `Known`

  lemma KnownOutside(p: Program, s: State, s': State, t: nat, step: Around)
    requires Known(s) && OutsideNext(p, s, s', t, step)
    ensures Known(s')
  {
  }

  lemma KnownMarks(p: Program, s: State, s': State, t: nat, step: Marker)
    requires Known(s) && MarksNext(p, s, s', t, step)
    ensures Known(s')
  {
    forall u, j: nat | 0 <= u < |s'.threads| && j in Strong(s'.threads[u]) ensures j < |s'.slots| {
      if u == t && !step.LiveNew? && !step.Collect? {
        if step.Mark? { assert s.threads[t].todo == [s.threads[t].todo[0]] + s.threads[t].todo[1..]; }
        assert j in Strong(s.threads[t]);
      } else if u == t && step.Collect? {
        assert j in step.todo;
      } else if u != t {
        assert j in Strong(s.threads[u]);
      }
    }
  }

  lemma KnownReads(p: Program, s: State, s': State, t: nat, step: Reader)
    requires Known(s) && ReadsNext(p, s, s', t, step)
    ensures Known(s')
  {
  }

  lemma KnownEnds(s: State, s': State, t: nat, step: Ender)
    requires Known(s) && EndsNext(s, s', t, step)
    ensures Known(s')
  {
  }

  // ---------- one entry a query

  /** No two entries held are of equal queries. */
  ghost predicate OneEach(s: State) {
    forall j: nat, k: nat :: Alive(s, j) && Alive(s, k) && j != k ==> s.slots[j].entry.query != s.slots[k].entry.query
  }

  lemma OneEachFrame(s: State, s': State)
    requires OneEach(s) && |s'.slots| == |s.slots|
    requires forall j: nat :: j < |s.slots| ==> s'.slots[j].entry.query == s.slots[j].entry.query
    requires forall j: nat :: j < |s.slots| && Alive(s', j) ==> Alive(s, j)
    ensures OneEach(s')
  {
  }

  lemma OneEachOutside(p: Program, s: State, s': State, t: nat, step: Around)
    requires OneEach(s) && OutsideNext(p, s, s', t, step)
    ensures OneEach(s')
  {
    forall j: nat | j < |s.slots| && Alive(s', j) ensures Alive(s, j) { NoRevivalOutside(p, s, s', t, step, j); }
    OneEachFrame(s, s');
  }

  lemma OneEachMarks(p: Program, s: State, s': State, t: nat, step: Marker)
    requires OneEach(s) && MarksNext(p, s, s', t, step)
    ensures OneEach(s')
  {
    forall j: nat | j < |s.slots| && Alive(s', j) ensures Alive(s, j) { NoRevivalMarks(p, s, s', t, step, j); }
    if !step.LiveNew? { OneEachFrame(s, s'); }
  }

  lemma OneEachReads(p: Program, s: State, s': State, t: nat, step: Reader)
    requires OneEach(s) && ReadsNext(p, s, s', t, step)
    ensures OneEach(s')
  {
    forall j: nat | j < |s.slots| && Alive(s', j) ensures Alive(s, j) { NoRevivalReads(p, s, s', t, step, j); }
    OneEachFrame(s, s');
  }

  lemma OneEachEnds(s: State, s': State, t: nat, step: Ender)
    requires OneEach(s) && EndsNext(s, s', t, step)
    ensures OneEach(s')
  {
    forall j: nat | j < |s.slots| && Alive(s', j) ensures Alive(s, j) { NoRevivalEnds(s, s', t, step, j); }
    OneEachFrame(s, s');
  }
}
