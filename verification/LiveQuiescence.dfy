/** The client comes to rest: once nothing new happens, whatever order its threads go in, the work left
    grows less at every step, and what cannot go on is settled. */
module LiveQuiescence {
  import opened LiveEntry
  import opened LiveProtocol
  import opened LiveOwnership
  import opened LiveCounts
  import opened LiveValues
  import opened LiveActs
  import opened LiveTheorems
  import opened LiveAtRest

  /** A step of the client's and the store's own going on, as against something new happening to them: a
      write, another process's commit, the clock moving, a caller. */
  predicate Internal(step: Step) {
    match step
    case Outside(_, around) => around.Publish? || around.Send? || around.ActBegin? || around.ActEnd?
    case Marks(_, marker) => !marker.MoveClock? && !marker.Invalidate? && !marker.LiveNew?
    case Reads(_, _) => true
    case Ends(_, _) => true
  }

  // ---------- the work left

  function ThenRank(next: Then): nat {
    match next
    case ToMarking(todo) => 1 + 14 * |todo|
    case ToLeaving => 1
    case ToResting => 0
  }

  /** How far a thread is from resting, of a client with `n` entries. */
  function PcRank(pc: Pc, n: nat): nat {
    match pc
    case Resting => 0
    case Owing(_) => 2 + 14 * n
    case Marking(todo) => 1 + 14 * |todo|
    case Adding(_, next) => 13 + ThenRank(next)
    case Pushing(_, next) => 12 + ThenRank(next)
    case Taken(_) => 10
    case Holding(_) => 9
    case Clocked(_, _) => 8
    case Running(_, _) => 7
    case Dated(_, _, _) => 6
    case Answered(_, _) => 5
    case Telling(_, _, again) => if again then 17 else 4
    case Counting(_, again) => if again then 16 else 3
    case Finished(_, again) => if again then 15 else 2
    case Parting => 1
    case Acting(_, _) => 1
  }

  function Rank(n: nat): Pc -> nat {
    (pc: Pc) => PcRank(pc, n)
  }

  /** How many entries are to be read again as their reading ends. */
  function Agains(slots: seq<Slot>): nat {
    if slots == [] then 0 else (if slots[0].entry.again then 1 else 0) + Agains(slots[1..])
  }

  function WriterRank(writer: Writer, n: nat): nat {
    match writer
    case Free => 0
    case Committed(_, _) => 5 + 14 * n
    case Published(_, _) => 4 + 14 * n
  }

  function Heard(channel: seq<Topics>, n: nat): nat {
    if channel == [] then 0 else 3 + 14 * n + Heard(channel[1..], n)
  }

  /** The work no thread has in hand. */
  function Waiting(s: State): nat {
    var n := |s.slots|;
    11 * |s.queue| + 13 * Agains(s.slots) + Heard(s.channel, n)
      + WriterRank(s.writer, n) + (if s.seen != s.version then 3 + 14 * n else 0) + 2 * |s.asked|
  }

  function WorkLeft(s: State): nat {
    Sum(s.threads, Rank(|s.slots|)) + Waiting(s)
  }

  /** One thread's step lessens the work if its own rank falls by more than what waits grows. */
  lemma LessByOne(s: State, s': State, t: nat)
    requires t < |s.threads| && |s'.threads| == |s.threads| && |s'.slots| == |s.slots|
    requires s'.threads == s.threads[t := s'.threads[t]]
    requires PcRank(s'.threads[t], |s.slots|) + Waiting(s') < PcRank(s.threads[t], |s.slots|) + Waiting(s)
    ensures WorkLeft(s') < WorkLeft(s)
  {
    SumSet(s.threads, t, s'.threads[t], Rank(|s.slots|));
  }

  lemma {:induction false} AgainsSet(slots: seq<Slot>, j: nat, slot: Slot)
    requires j < |slots|
    ensures Agains(slots[j := slot]) + (if slots[j].entry.again then 1 else 0)
         == Agains(slots) + (if slot.entry.again then 1 else 0)
  {
    if j == 0 {
      assert slots[j := slot][1..] == slots[1..];
    } else {
      assert slots[j := slot][1..] == slots[1..][j - 1 := slot];
      AgainsSet(slots[1..], j - 1, slot);
    }
  }

  lemma {:induction false} HeardOne(channel: seq<Topics>, more: Topics, n: nat)
    ensures Heard(channel + [more], n) == Heard(channel, n) + 3 + 14 * n
  {
    if channel != [] {
      assert (channel + [more])[1..] == channel[1..] + [more];
      HeardOne(channel[1..], more, n);
    }
  }

  function AsSet(jobs: seq<nat>): set<nat> {
    set j | j in jobs
  }

  /** Different numbers below `n` are at most `n`. */
  lemma DistinctBelow(jobs: seq<nat>, n: nat)
    requires Distinct(jobs) && forall j :: j in jobs ==> j < n
    ensures |jobs| <= n
  {
    SetOfDistinct(jobs);
    SetBelow(AsSet(jobs), n);
  }

  lemma {:induction false} SetOfDistinct(jobs: seq<nat>)
    requires Distinct(jobs)
    ensures |AsSet(jobs)| == |jobs|
  {
    if jobs != [] {
      var last := |jobs| - 1;
      SetOfDistinct(jobs[..last]);
      assert AsSet(jobs) == AsSet(jobs[..last]) + {jobs[last]};
    }
  }

  lemma {:induction false} SetBelow(jobs: set<nat>, n: nat)
    requires forall j :: j in jobs ==> j < n
    ensures |jobs| <= n
  {
    if n > 0 {
      SetBelow(jobs - {n - 1}, n - 1);
    } else {
      assert jobs == {};
    }
  }

  /** Its threads are as many and it is stopping or not as before. */
  predicate Keeps(s: State, s': State) {
    |s'.threads| == |s.threads| && s'.stopping == s.stopping
  }

  lemma LessOutside(p: Program, s: State, s': State, t: nat, step: Around)
    requires OutsideNext(p, s, s', t, step) && Internal(Outside(t, step))
    ensures WorkLeft(s') < WorkLeft(s) && Keeps(s, s')
  {
    match step {
      case Publish =>
      case Send => HeardOne(s.channel, s.writer.topics, |s.slots|);
      case ActBegin => LessByOne(s, s', t);
      case ActEnd => LessByOne(s, s', t);
    }
  }

  lemma LessMark(s: State, s': State, t: nat)
    requires MarkStep(s, s', t)
    ensures WorkLeft(s') < WorkLeft(s) && Keeps(s, s')
  {
    var job := s.threads[t].todo[0];
    AgainsSet(s.slots, job, s'.slots[job]);
    LessByOne(s, s', t);
  }

  lemma LessPush(s: State, s': State, t: nat)
    requires PushStep(s, s', t)
    ensures WorkLeft(s') < WorkLeft(s) && Keeps(s, s')
  {
    var job := s.threads[t].job;
    AgainsSet(s.slots, job, s'.slots[job]);
    LessByOne(s, s', t);
  }

  lemma LessMarks(p: Program, s: State, s': State, t: nat, step: Marker)
    requires MarksNext(p, s, s', t, step) && Internal(Marks(t, step))
    ensures WorkLeft(s') < WorkLeft(s) && Keeps(s, s')
  {
    match step {
      case Mark => LessMark(s, s', t);
      case Push => LessPush(s, s', t);
      case Collect(todo) =>
        DistinctBelow(todo, |s.slots|);
        LessByOne(s, s', t);
      case _ => LessByOne(s, s', t);
    }
  }

  lemma LessPop(s: State, s': State, t: nat)
    requires PopStep(s, s', t)
    ensures WorkLeft(s') < WorkLeft(s) && Keeps(s, s')
  {
    AgainsSet(s.slots, s.queue[0], s'.slots[s.queue[0]]);
    LessByOne(s, s', t);
  }

  /** One whose entry changes in whether it is to be read again, or does not. */
  lemma LessOn(s: State, s': State, t: nat, job: nat)
    requires t < |s.threads| && |s'.threads| == |s.threads| && s'.threads == s.threads[t := s'.threads[t]]
    requires job < |s.slots| == |s'.slots| && s'.slots == s.slots[job := s'.slots[job]]
    requires s'.queue == s.queue && s'.channel == s.channel && s'.writer == s.writer && s'.asked == s.asked
    requires s'.seen == s.seen && s'.version == s.version
    requires PcRank(s'.threads[t], |s.slots|) + (if s'.slots[job].entry.again then 13 else 0)
           < PcRank(s.threads[t], |s.slots|) + if s.slots[job].entry.again then 13 else 0
    ensures WorkLeft(s') < WorkLeft(s)
  {
    AgainsSet(s.slots, job, s'.slots[job]);
    LessByOne(s, s', t);
  }

  lemma LessReads(p: Program, s: State, s': State, t: nat, step: Reader)
    requires ReadsNext(p, s, s', t, step)
    ensures WorkLeft(s') < WorkLeft(s) && Keeps(s, s')
  {
    if step.Pop? { LessPop(s, s', t); } else { LessOn(s, s', t, s.threads[t].job); }
  }

  lemma LessEnds(s: State, s': State, t: nat, step: Ender)
    requires EndsNext(s, s', t, step)
    ensures WorkLeft(s') < WorkLeft(s) && Keeps(s, s')
  {
    if step.Sub? { LessByOne(s, s', t); } else { LessOn(s, s', t, s.threads[t].job); }
  }

  /** Each of the client's own steps leaves less to do. */
  lemma WorkGrowsLess(p: Program, s: State, s': State, step: Step)
    requires Next(p, s, s', step) && Internal(step)
    ensures WorkLeft(s') < WorkLeft(s) && Keeps(s, s')
  {
    match step
    case Outside(t, around) => LessOutside(p, s, s', t, around);
    case Marks(t, marker) => LessMarks(p, s, s', t, marker);
    case Reads(t, reader) => LessReads(p, s, s', t, reader);
    case Ends(t, ender) => LessEnds(s, s', t, ender);
  }

  // ---------- something can always go on

  /** Every entry an invalidation of `topics` would collect, of the first `k`. */
  lemma {:induction false} Collected(p: Program, s: State, topics: Topics, k: nat) returns (todo: seq<nat>)
    requires k <= |s.slots|
    ensures Distinct(todo)
    ensures forall j: nat :: j in todo <==> j < k && Alive(s, j) && Meets(topics, p.topics(s.slots[j].entry.query))
  {
    if k == 0 {
      todo := [];
    } else {
      todo := Collected(p, s, topics, k - 1);
      if Alive(s, k - 1) && Meets(topics, p.topics(s.slots[k - 1].entry.query)) {
        todo := todo + [k - 1];
      }
    }
  }

  lemma MarkerGoesOn(p: Program, s: State, t: nat) returns (s': State, step: Marker)
    requires Known(s) && InHand(s) && t < |s.threads|
    requires s.threads[t].Owing? || s.threads[t].Marking? || s.threads[t].Adding? || s.threads[t].Pushing?
    ensures MarksNext(p, s, s', t, step) && Internal(Marks(t, step))
  {
    var pc := s.threads[t];
    assert OwnsEntry(pc, |s.slots|);
    match pc {
      case Owing(topics) =>
        var todo := Collected(p, s, topics, |s.slots|);
        s', step := SetPc(s, t, Marking(todo)), Collect(todo);
      case Marking(todo) =>
        if todo == [] {
          s', step := SetPc(s, t, Resting), MarkedAll;
        } else {
          var job, rest := todo[0], todo[1..];
          assert job in Strong(pc);
          s' := SetPc(SetSlot(s, job, MarkSlot(s.slots[job], t)), t,
                      if Wanted(s.slots[job].entry) then Adding(job, ToMarking(rest)) else Marking(rest));
          step := Mark;
        }
      case Adding(job, next) => s', step := SetPc(s, t, Pushing(job, next)).(busy := s.busy + 1), Add;
      case Pushing(job, next) =>
        s' := SetPc(SetSlot(s, job, s.slots[job].(place := InQueue)), t, Continue(next)).(queue := s.queue + [job]);
        step := Push;
    }
  }

  lemma ReaderGoesOn(p: Program, s: State, t: nat) returns (s': State, step: Reader)
    requires Known(s) && InHand(s) && Recorded(p, s) && AllHonest(p, s) && t < |s.threads|
    requires var pc := s.threads[t];
             pc.Taken? || pc.Holding? || pc.Clocked? || pc.Running? || pc.Dated?
    ensures ReadsNext(p, s, s', t, step)
  {
    var pc := s.threads[t];
    assert OwnsEntry(pc, |s.slots|) && PcHonest(p, s, pc);
    var slot := s.slots[pc.job];
    match pc {
      case Taken(job) =>
        if Alive(s, job) {
          s', step := SetPc(s, t, Holding(job)), Upgrade;
        } else {
          s', step := SetPc(SetSlot(s, job, slot.(place := Nowhere)), t, Parting), Gone;
        }
      case Holding(job) => s', step := SetPc(s, t, Clocked(job, Now(s))), TakeClock;
      case Clocked(job, nowAt) =>
        s', step := SetPc(SetSlot(s, job, BeginSlot(slot, Now(s))), t, Running(job, nowAt)), Begin;
      case Running(job, nowAt) => s', step := SetPc(s, t, Pc.Dated(job, nowAt, Generation(s))), TakeGeneration;
      case Dated(job, nowAt, asOf) =>
        assert SlotHonest(p, s, job);
        var outcome := Ok(p.answer(slot.entry.query, s.worlds[Now(s)].db, s.worlds[nowAt].clock));
        s', step := SetPc(s, t, Answered(job, Reading(nowAt, slot.begun, Now(s), asOf, outcome))), Read(outcome);
    }
  }

  lemma EnderGoesOn(s: State, t: nat) returns (s': State, step: Ender)
    requires Known(s) && t < |s.threads|
    requires var pc := s.threads[t];
             pc.Answered? || pc.Telling? || pc.Counting? || pc.Finished? || pc.Parting?
    ensures EndsNext(s, s', t, step)
  {
    var pc := s.threads[t];
    if pc.Parting? {
      s', step := SetPc(s, t, Resting).(busy := s.busy - 1), Sub;
    } else {
      assert pc.job in Strong(pc);
      var slot := s.slots[pc.job];
      match pc {
        case Answered(job, r) =>
          s' := SetPc(SetSlot(s, job, EndSlot(slot, t, r)), t,
                      Telling(job, News(slot.entry.snapshot, r.outcome), slot.entry.again));
          step := End;
        case Telling(job, news, again) =>
          s', step := SetPc(SetSlot(s, job, TellSlot(slot, news)), t, Counting(job, again)), Tell;
        case Counting(job, again) =>
          s', step := SetPc(SetSlot(s, job, CountSlot(slot)), t, Finished(job, again)), Count;
        case Finished(job, again) =>
          if again && !s.stopping {
            s', step := SetPc(s, t, Adding(job, ToLeaving)), Requeue;
          } else {
            s' := SetPc(SetSlot(s, job, if again then slot.(place := Nowhere) else slot), t, Parting);
            step := Release;
          }
      }
    }
  }

  /** Every thread rests and nothing waits, but for what a client that is stopping leaves queued. */
  ghost predicate Done(s: State) {
    && (forall t :: 0 <= t < |s.threads| ==> s.threads[t].Resting?)
    && (s.queue == [] || s.stopping) && s.channel == [] && s.writer.Free? && s.seen == s.version && s.asked == []
  }

  /** With every thread at rest, something that waits can be taken up. */
  lemma RestedGoesOn(p: Program, s: State) returns (s': State, step: Step)
    requires Queued(s) && |s.threads| > 0 && s.writer.Free? && !Done(s)
    requires forall t :: 0 <= t < |s.threads| ==> s.threads[t].Resting?
    ensures Next(p, s, s', step) && Internal(step)
  {
    if s.queue != [] && !s.stopping {
      var job := s.queue[0];
      assert job in s.queue;
      s' := SetPc(SetSlot(s, job, s.slots[job].(place := Hand(0))), 0, Taken(job)).(queue := s.queue[1..]);
      step := Reads(0, Pop);
    } else if s.channel != [] {
      s', step := SetPc(s, 0, Owing({} + s.channel[0])).(channel := s.channel[1..]), Marks(0, Hear);
    } else if s.seen != s.version {
      s', step := SetPc(s, 0, Owing(ALL)).(seen := s.version), Marks(0, Look);
    } else {
      s', step := SetPc(s, 0, Acting(s.asked[0], 0)).(asked := s.asked[1..]), Outside(0, ActBegin);
    }
  }

  /** A client of at least one thread that is not done can go on. */
  lemma GoesOn(p: Program, s: State) returns (s': State, step: Step)
    requires Inv(p, s) && |s.threads| > 0 && !Done(s)
    ensures Next(p, s, s', step) && Internal(step)
  {
    if s.writer.Committed? {
      s' := s.(gens := s.gens + [Now(s)], writer := Published(s.writer.owner, s.writer.topics));
      step := Outside(0, Publish);
    } else if s.writer.Published? {
      s', step := s.(channel := s.channel + [s.writer.topics], writer := Free), Outside(0, Send);
    } else if t: nat :| t < |s.threads| && !s.threads[t].Resting? {
      var pc := s.threads[t];
      if pc.Acting? {
        s' := SetPc(s, t, Resting).(acted := s.acted + [Acted(pc.act, pc.upto, Generation(s))]);
        step := Outside(t, ActEnd);
      } else if pc.Owing? || pc.Marking? || pc.Adding? || pc.Pushing? {
        var marker;
        s', marker := MarkerGoesOn(p, s, t);
        step := Marks(t, marker);
      } else if pc.Taken? || pc.Holding? || pc.Clocked? || pc.Running? || pc.Dated? {
        var reader;
        s', reader := ReaderGoesOn(p, s, t);
        step := Reads(t, reader);
      } else {
        var ender;
        s', ender := EnderGoesOn(s, t);
        step := Ends(t, ender);
      }
    } else {
      s', step := RestedGoesOn(p, s);
    }
  }

  lemma DoneIsSettled(p: Program, s: State)
    requires Inv(p, s) && Done(s) && !s.stopping
    ensures Settled(s)
  {
    SumZero(s.threads, Load);
  }

  lemma AllActed(p: Program, s: State)
    requires Inv(p, s) && Done(s)
    ensures Ids(s.acted) == s.given
  {
    assert InOrder(s);
  }

  /** States got one from another by the client's own steps. */
  ghost predicate IsPath(p: Program, path: seq<State>, steps: seq<Step>) {
    && |path| == |steps| + 1
    && forall i {:trigger steps[i]} :: 0 <= i < |steps| ==> Internal(steps[i]) && Next(p, path[i], path[i + 1], steps[i])
  }

  /** The client's own steps end: from any state there are at most as many as the work left. */
  lemma {:induction false} WorkEnds(p: Program, path: seq<State>, steps: seq<Step>)
    requires IsPath(p, path, steps)
    ensures |steps| + WorkLeft(path[|steps|]) <= WorkLeft(path[0])
    decreases |steps|
  {
    if steps != [] {
      var n := |steps| - 1;
      assert IsPath(p, path[..n + 1], steps[..n]);
      WorkEnds(p, path[..n + 1], steps[..n]);
      WorkGrowsLess(p, path[n], path[n + 1], steps[n]);
    }
  }

  /** The client comes to rest. From every reachable state, whatever way its own steps are taken, they come to an
      end; and where no more can be taken every act it took has been applied, in order, stopping or not; and it is
      settled, unless it is stopping. With `NoLostInvalidation`, every value held then is the current one. */
  lemma ComesToRest(p: Program, run: seq<State>, steps: seq<Step>, path: seq<State>, own: seq<Step>)
    requires IsRun(p, run, steps) && |run[|steps|].threads| > 0
    requires IsPath(p, path, own) && path[0] == run[|steps|]
    ensures |own| <= WorkLeft(run[|steps|])
    ensures (forall s', step :: Internal(step) ==> !Next(p, path[|own|], s', step)) ==>
              var s := path[|own|];
              && s.asked == [] && Ids(s.acted) == s.given
              && (!s.stopping ==> Settled(s) && forall j: nat :: j < |s.slots| && s.slots[j].lives > 0 ==> AtRest(p, s, j))
  {
    WorkEnds(p, path, own);
    InvRun(p, run, steps, |steps|);
    InvPath(p, path, own);
    var s := path[|own|];
    if Done(s) && s.stopping {
      AllActed(p, s);
    } else if Done(s) {
      AllActed(p, s);
      DoneIsSettled(p, s);
      forall j: nat | j < |s.slots| && s.slots[j].lives > 0 ensures AtRest(p, s, j) {
        assert Alive(s, j);
        HeldIsAtRest(p, s, j);
      }
    } else {
      var s', step := GoesOn(p, s);
      assert Next(p, s, s', step);
    }
  }

  lemma {:induction false} InvPath(p: Program, path: seq<State>, steps: seq<Step>)
    requires IsPath(p, path, steps) && Inv(p, path[0]) && |path[0].threads| > 0
    ensures Inv(p, path[|steps|]) && |path[|steps|].threads| > 0
    decreases |steps|
  {
    if steps != [] {
      var n := |steps| - 1;
      assert IsPath(p, path[..n + 1], steps[..n]);
      InvPath(p, path[..n + 1], steps[..n]);
      InvNext(p, path[n], path[n + 1], steps[n]);
      WorkGrowsLess(p, path[n], path[n + 1], steps[n]);
    }
  }
}
