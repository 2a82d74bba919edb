/** What the steps of a run add up to: the commits of an act, the holders of a value, the queue, a stop, and the clock
    (crates/mail-client/src/client.rs, act.rs). */
module LiveSteps {
  import opened Options
  import opened LiveEntry
  import opened LiveProtocol
  import opened LiveOwnership
  import opened LiveFreshness
  import opened LiveValues
  import opened LiveActs
  import opened LiveTheorems
  import opened LiveAtRest
  import opened LiveWrites

  lemma StepAt(p: Program, run: seq<State>, steps: seq<Step>, i: nat)
    requires IsRun(p, run, steps) && i < |steps|
    ensures Next(p, run[i], run[i + 1], steps[i])
  {
  }

  // ---------- the commits of an act

  /** The act was taken, and does not wait any more. */
  predicate Away(s: State, act: nat) {
    act in s.given && act !in s.asked
  }

  /** What is recorded of the act is at least `n` changes of the world. */
  predicate HasUpto(s: State, act: nat, n: nat) {
    && (forall t :: 0 <= t < |s.threads| && s.threads[t].Acting? && s.threads[t].act == act ==> s.threads[t].upto >= n)
    && (forall a :: 0 <= a < |s.acted| && s.acted[a].act == act ==> s.acted[a].upto >= n)
  }

  lemma UptoOutside(p: Program, s: State, s': State, t: nat, step: Around, act: nat, n: nat)
    requires OutsideNext(p, s, s', t, step) && Away(s, act) && HasUpto(s, act, n) && n <= Now(s)
    ensures Away(s', act) && HasUpto(s', act, n)
  {
  }

  lemma UptoApart(s: State, s': State, t: nat, pc: Pc, act: nat, n: nat)
    requires Away(s, act) && HasUpto(s, act, n) && t < |s.threads| && s'.threads == s.threads[t := pc] && !pc.Acting?
    requires s'.given == s.given && s'.asked == s.asked && s'.acted == s.acted
    ensures Away(s', act) && HasUpto(s', act, n)
  {
  }

  lemma UptoMarks(p: Program, s: State, s': State, t: nat, step: Marker, act: nat, n: nat)
    requires MarksNext(p, s, s', t, step) && Away(s, act) && HasUpto(s, act, n)
    ensures Away(s', act) && HasUpto(s', act, n)
  {
    UptoApart(s, s', t, s'.threads[t], act, n);
  }

  lemma UptoReads(p: Program, s: State, s': State, t: nat, step: Reader, act: nat, n: nat)
    requires ReadsNext(p, s, s', t, step) && Away(s, act) && HasUpto(s, act, n)
    ensures Away(s', act) && HasUpto(s', act, n)
  {
    UptoApart(s, s', t, s'.threads[t], act, n);
  }

  lemma UptoEnds(s: State, s': State, t: nat, step: Ender, act: nat, n: nat)
    requires EndsNext(s, s', t, step) && Away(s, act) && HasUpto(s, act, n)
    ensures Away(s', act) && HasUpto(s', act, n)
  {
    UptoApart(s, s', t, s'.threads[t], act, n);
  }

  lemma UptoNext(p: Program, s: State, s': State, step: Step, act: nat, n: nat)
    requires Next(p, s, s', step) && Away(s, act) && HasUpto(s, act, n) && n <= Now(s)
    ensures Away(s', act) && HasUpto(s', act, n) && n <= Now(s')
  {
    StepGoesOn(p, s, s', step);
    match step
    case Outside(t, around) => UptoOutside(p, s, s', t, around, act, n);
    case Marks(t, marker) => UptoMarks(p, s, s', t, marker, act, n);
    case Reads(t, reader) => UptoReads(p, s, s', t, reader, act, n);
    case Ends(t, ender) => UptoEnds(s, s', t, ender, act, n);
  }

  lemma UptoAfter(p: Program, run: seq<State>, steps: seq<Step>, e: nat, act: nat, n: nat)
    requires IsRun(p, run, steps) && e < |steps| && Away(run[e], act) && HasUpto(run[e], act, n) && n <= Now(run[e])
    ensures Away(run[e + 1], act) && HasUpto(run[e + 1], act, n) && n <= Now(run[e + 1])
  {
    StepAt(p, run, steps, e);
    UptoNext(p, run[e], run[e + 1], steps[e], act, n);
  }

  lemma {:induction false} UptoSince(p: Program, run: seq<State>, steps: seq<Step>, k: nat, e: nat, act: nat, n: nat)
    requires IsRun(p, run, steps) && k <= e < |run| && Away(run[k], act) && HasUpto(run[k], act, n) && n <= Now(run[k])
    ensures Away(run[e], act) && HasUpto(run[e], act, n) && n <= Now(run[e])
    decreases e
  {
    if k < e {
      UptoSince(p, run, steps, k, e - 1, act, n);
      UptoAfter(p, run, steps, e - 1, act, n);
    }
  }

  /** A commit made by the thread of an act is one of that act. */
  lemma CommitIsOfAct(p: Program, s: State, s': State, owner: nat, topics: Topics, db: Db)
    requires InOrder(s) && OwnTickets(s) && CommitStep(p, s, s', owner, topics, db)
    requires owner < |s.threads| && s.threads[owner].Acting?
    ensures Away(s', s.threads[owner].act) && HasUpto(s', s.threads[owner].act, Now(s) + 1) && Now(s') == Now(s) + 1
  {
    var act, n := s.threads[owner].act, |s.acted|;
    assert s.given == Ids(s.acted) + [act] + s.asked;
    assert s.given[n] == act;
    forall a | 0 <= a < n ensures s.acted[a].act != act { assert s.given[a] == Ids(s.acted)[a]; }
    forall i | 0 <= i < |s.asked| ensures s.asked[i] != act { assert s.given[n + 1 + i] == s.asked[i]; }
    forall u | 0 <= u < |s'.threads| && s'.threads[u].Acting? && s'.threads[u].act == act ensures s'.threads[u].upto >= Now(s) + 1 {
      assert u == owner;
    }
  }

  /** What a ticket stands for has every commit its act made. */
  lemma ActsCommitsCounted(p: Program, run: seq<State>, steps: seq<Step>, k: nat, e: nat, t: nat, owner: nat, topics: Topics, db: Db,
                           a: nat)
    requires IsRun(p, run, steps) && k < e < |run| && steps[k] == Outside(t, Commit(owner, topics, db))
    requires owner < |run[k].threads| && run[k].threads[owner].Acting?
    requires a < |run[e].acted| && run[e].acted[a].act == run[k].threads[owner].act
    ensures run[e].acted[a].upto > Now(run[k])
  {
    CommitAt(p, run, steps, k, t, owner, topics, db);
    InvRun(p, run, steps, k);
    CommitIsOfAct(p, run[k], run[k + 1], owner, topics, db);
    UptoSince(p, run, steps, k + 1, e, run[k].threads[owner].act, Now(run[k]) + 1);
  }

  /** Read your own write, said of the steps: a value `Ready` at or after a ticket's generation was read after every commit its act
      made. */
  lemma OwnWritesAreRead(p: Program, run: seq<State>, steps: seq<Step>, k: nat, e: nat, t: nat, owner: nat, topics: Topics, db: Db,
                         a: nat, j: nat)
    requires IsRun(p, run, steps) && k < e < |run| && e == |steps| && steps[k] == Outside(t, Commit(owner, topics, db))
    requires owner < |run[k].threads| && run[k].threads[owner].Acting?
    requires a < |run[e].acted| && run[e].acted[a].act == run[k].threads[owner].act
    requires j < |run[e].slots| && run[e].slots[j].entry.snapshot.Ready?
    requires run[e].slots[j].entry.snapshot.asOf >= run[e].acted[a].generation
    ensures var s, slot := run[e], run[e].slots[j];
            && slot.last.Some? && slot.last.value.readAt > Now(run[k])
            && slot.last.value.readAt < |s.worlds| && slot.last.value.nowAt < |s.worlds|
            && slot.entry.snapshot.value ==
                 p.answer(slot.entry.query, s.worlds[slot.last.value.readAt].db, s.worlds[slot.last.value.nowAt].clock)
  {
    ActsCommitsCounted(p, run, steps, k, e, t, owner, topics, db, a);
    ReadYourOwnWrite(p, run, steps, j, a);
  }

  // ---------- a stop

  lemma StopsOutside(p: Program, s: State, s': State, t: nat, step: Around)
    requires OutsideNext(p, s, s', t, step)
    ensures (s.stopping ==> s'.stopping) && (!s.accepting ==> !s'.accepting)
  {
  }

  lemma StopsMarks(p: Program, s: State, s': State, t: nat, step: Marker)
    requires MarksNext(p, s, s', t, step)
    ensures s'.stopping == s.stopping && s'.accepting == s.accepting
  {
  }

  lemma StopsReads(p: Program, s: State, s': State, t: nat, step: Reader)
    requires ReadsNext(p, s, s', t, step)
    ensures s'.stopping == s.stopping && s'.accepting == s.accepting && (s.stopping ==> !step.Pop?)
  {
  }

  lemma StopsEnds(s: State, s': State, t: nat, step: Ender)
    requires EndsNext(s, s', t, step)
    ensures s'.stopping == s.stopping && s'.accepting == s.accepting && (s.stopping ==> !step.Requeue?)
  {
  }

  lemma StopsAfter(p: Program, run: seq<State>, steps: seq<Step>, i: nat)
    requires IsRun(p, run, steps) && i < |steps|
    ensures (run[i].stopping ==> run[i + 1].stopping) && (!run[i].accepting ==> !run[i + 1].accepting)
    ensures run[i].stopping ==> !(steps[i].Reads? && steps[i].reader.Pop?) && !(steps[i].Ends? && steps[i].ender.Requeue?)
  {
    StepAt(p, run, steps, i);
    match steps[i]
    case Outside(t, around) => StopsOutside(p, run[i], run[i + 1], t, around);
    case Marks(t, marker) => StopsMarks(p, run[i], run[i + 1], t, marker);
    case Reads(t, reader) => StopsReads(p, run[i], run[i + 1], t, reader);
    case Ends(t, ender) => StopsEnds(run[i], run[i + 1], t, ender);
  }

  predicate StaysStopped(s: State, s': State) {
    (s.stopping ==> s'.stopping) && (!s.accepting ==> !s'.accepting)
  }

  lemma {:induction false} StopsSince(run: seq<State>, k: nat, e: nat)
    requires k <= e < |run| && forall i :: k <= i < e ==> StaysStopped(run[i], run[i + 1])
    ensures StaysStopped(run[k], run[e])
    decreases e
  {
    if k < e {
      StopsSince(run, k, e - 1);
      assert StaysStopped(run[e - 1], run[e - 1 + 1]);
    }
  }

  lemma Stops(p: Program, run: seq<State>, steps: seq<Step>, k: nat, e: nat)
    requires IsRun(p, run, steps) && k <= e < |run|
    ensures StaysStopped(run[k], run[e])
  {
    forall i | k <= i < e ensures StaysStopped(run[i], run[i + 1]) {
      StopsAfter(p, run, steps, i);
    }
    StopsSince(run, k, e);
  }

  /** Once the client is told to stop nothing more is taken from the queue, and nothing is put back in it. */
  lemma StoppedForGood(p: Program, run: seq<State>, steps: seq<Step>, k: nat, i: nat, t: nat)
    requires IsRun(p, run, steps) && k < i < |steps| && steps[k] == Outside(t, Stop)
    ensures run[i].stopping && !(steps[i].Reads? && steps[i].reader.Pop?) && !(steps[i].Ends? && steps[i].ender.Requeue?)
  {
    StepAt(p, run, steps, k);
    Stops(p, run, steps, k + 1, i);
    StopsAfter(p, run, steps, i);
  }

  /** And once the taking of acts is closed, an act given is refused, and never done. */
  lemma ClosedForGood(p: Program, run: seq<State>, steps: seq<Step>, c: nat, i: nat, k: nat, u: nat, t: nat, act: nat)
    requires IsRun(p, run, steps) && c < i < k < |run| && steps[c] == Outside(u, CloseActs) && steps[i] == Outside(t, Ask(act))
    ensures act in run[k].refused && act !in run[k].given && act !in Ids(run[k].acted)
  {
    StepAt(p, run, steps, c);
    Stops(p, run, steps, c + 1, i);
    RefusedForGood(p, run, steps, t, act, i, k);
  }

  // ---------- who holds a value

  /** The step hands the value to one more holder, */
  predicate Finds(step: Step, j: nat) {
    step.Outside? && step.around == LiveFound(j)
  }

  /** or one lets go of it. */
  predicate Drops(step: Step, j: nat) {
    step.Outside? && step.around == DropLive(j)
  }

  /** The steps before `e` that do. */
  function FoundAt(steps: seq<Step>, e: nat, j: nat): set<nat> {
    set i: nat | i < e && i < |steps| && Finds(steps[i], j)
  }

  function DroppedAt(steps: seq<Step>, e: nat, j: nat): set<nat> {
    set i: nat | i < e && i < |steps| && Drops(steps[i], j)
  }

  lemma LivesOutside(p: Program, s: State, s': State, t: nat, step: Around, j: nat)
    requires OutsideNext(p, s, s', t, step) && j < |s'.slots|
    ensures j < |s.slots|
    ensures s'.slots[j].lives == s.slots[j].lives + (if step == LiveFound(j) then 1 else 0) - (if step == DropLive(j) then 1 else 0)
  {
  }

  lemma LivesMarks(p: Program, s: State, s': State, t: nat, step: Marker, j: nat)
    requires MarksNext(p, s, s', t, step) && j < |s'.slots|
    ensures s'.slots[j].lives == if j < |s.slots| then s.slots[j].lives else 1
  {
  }

  lemma LivesReads(p: Program, s: State, s': State, t: nat, step: Reader, j: nat)
    requires ReadsNext(p, s, s', t, step) && j < |s'.slots|
    ensures j < |s.slots| && s'.slots[j].lives == s.slots[j].lives
  {
  }

  lemma LivesEnds(s: State, s': State, t: nat, step: Ender, j: nat)
    requires EndsNext(s, s', t, step) && j < |s'.slots|
    ensures j < |s.slots| && s'.slots[j].lives == s.slots[j].lives
  {
  }

  /** One step more. */
  function LivesThen(lives: Option<nat>, found: bool, dropped: bool): int {
    match lives
    case None => 1
    case Some(n) => n + (if found then 1 else 0) - (if dropped then 1 else 0)
  }

  function LivesOf(s: State, j: nat): Option<nat> {
    if j < |s.slots| then Some(s.slots[j].lives) else None
  }

  lemma LivesAfter(p: Program, run: seq<State>, steps: seq<Step>, i: nat, j: nat)
    requires IsRun(p, run, steps) && i < |steps| && LivesOf(run[i + 1], j).Some?
    ensures LivesOf(run[i + 1], j).value == LivesThen(LivesOf(run[i], j), Finds(steps[i], j), Drops(steps[i], j))
    ensures LivesOf(run[i], j).None? ==> !Finds(steps[i], j) && !Drops(steps[i], j)
  {
    StepAt(p, run, steps, i);
    match steps[i]
    case Outside(t, around) => LivesOutside(p, run[i], run[i + 1], t, around, j);
    case Marks(t, marker) => LivesMarks(p, run[i], run[i + 1], t, marker, j);
    case Reads(t, reader) => LivesReads(p, run[i], run[i + 1], t, reader, j);
    case Ends(t, ender) => LivesEnds(run[i], run[i + 1], t, ender, j);
  }

  /** No entry is handed over or let go of before it is made. */
  lemma NoneBefore(p: Program, run: seq<State>, steps: seq<Step>, e: nat, j: nat)
    requires IsRun(p, run, steps) && e < |run| && LivesOf(run[e], j).None?
    ensures FoundAt(steps, e, j) == {} && DroppedAt(steps, e, j) == {}
  {
    forall i: nat | i < e ensures !Finds(steps[i], j) && !Drops(steps[i], j) {
      StepAt(p, run, steps, i);
      RunGoesOn(p, run, steps, i, e);
    }
  }

  /** What the step does to how many hold the entry; nobody does before it is made. */
  ghost predicate LivesMove(run: seq<State>, steps: seq<Step>, i: nat, j: nat)
    requires i < |steps| && i + 1 < |run|
  {
    LivesOf(run[i + 1], j).Some? ==>
      && (LivesOf(run[i], j).None? ==> FoundAt(steps, i, j) == {} && DroppedAt(steps, i, j) == {})
      && LivesOf(run[i + 1], j).value == (if LivesOf(run[i], j).Some? then LivesOf(run[i], j).value else 1)
                                         + (if Finds(steps[i], j) then 1 else 0) - (if Drops(steps[i], j) then 1 else 0)
  }

  lemma {:induction false} HoldersSince(run: seq<State>, steps: seq<Step>, e: nat, j: nat)
    requires |steps| < |run| && e <= |steps| && LivesOf(run[0], j).None? && LivesOf(run[e], j).Some?
    requires forall i: nat :: i < e ==> LivesMove(run, steps, i, j)
    ensures LivesOf(run[e], j).value == 1 + |FoundAt(steps, e, j)| - |DroppedAt(steps, e, j)|
    decreases e
  {
    assert e > 0 && LivesMove(run, steps, e - 1, j);
    if LivesOf(run[e - 1], j).Some? { HoldersSince(run, steps, e - 1, j); }
    OneMoreStep(steps, e - 1, j);
  }

  /** A value is held by its first holder and those it was handed to since, less those that let go: no more and no fewer. */
  lemma HoldersAreCounted(p: Program, run: seq<State>, steps: seq<Step>, e: nat, j: nat)
    requires IsRun(p, run, steps) && e < |run| && LivesOf(run[e], j).Some?
    ensures LivesOf(run[e], j).value == 1 + |FoundAt(steps, e, j)| - |DroppedAt(steps, e, j)|
  {
    forall i: nat | i < e ensures LivesMove(run, steps, i, j) {
      if LivesOf(run[i + 1], j).Some? { LivesAfter(p, run, steps, i, j); }
      if LivesOf(run[i], j).None? { NoneBefore(p, run, steps, i, j); }
    }
    HoldersSince(run, steps, e, j);
  }

  lemma OneMoreStep(steps: seq<Step>, e: nat, j: nat)
    requires e < |steps|
    ensures |FoundAt(steps, e + 1, j)| == |FoundAt(steps, e, j)| + if Finds(steps[e], j) then 1 else 0
    ensures |DroppedAt(steps, e + 1, j)| == |DroppedAt(steps, e, j)| + if Drops(steps[e], j) then 1 else 0
  {
    assert FoundAt(steps, e + 1, j) == if Finds(steps[e], j) then FoundAt(steps, e, j) + {e} else FoundAt(steps, e, j);
    assert DroppedAt(steps, e + 1, j) == if Drops(steps[e], j) then DroppedAt(steps, e, j) + {e} else DroppedAt(steps, e, j);
  }

  // ---------- the queue

  /** The entries put in the queue by the first `e` steps, in order, */
  ghost function PutIn(run: seq<State>, steps: seq<Step>, e: nat): seq<nat>
    requires e <= |steps| < |run|
  {
    if e == 0 then [] else PutIn(run, steps, e - 1) + PutBy(run[e - 1], steps[e - 1])
  }

  /** and those taken from it. */
  ghost function TakenOut(run: seq<State>, steps: seq<Step>, e: nat): seq<nat>
    requires e <= |steps| < |run|
  {
    if e == 0 then [] else TakenOut(run, steps, e - 1) + TakenBy(run[e], steps[e - 1])
  }

  lemma QueueOutside(p: Program, s: State, s': State, t: nat, step: Around)
    requires OutsideNext(p, s, s', t, step)
    ensures s'.queue == s.queue
  {
  }

  lemma QueueMarks(p: Program, s: State, s': State, t: nat, step: Marker)
    requires MarksNext(p, s, s', t, step)
    ensures s'.queue == s.queue + if step.Push? then [s.threads[t].job] else []
  {
  }

  lemma QueueReads(p: Program, s: State, s': State, t: nat, step: Reader)
    requires ReadsNext(p, s, s', t, step)
    ensures if step.Pop? then AtJob(s', t) && s.queue == [s'.threads[t].job] + s'.queue else s'.queue == s.queue
  {
  }

  lemma QueueEnds(s: State, s': State, t: nat, step: Ender)
    requires EndsNext(s, s', t, step)
    ensures s'.queue == s.queue
  {
  }

  /** What a step puts in the queue, and what it takes from it. */
  function PutBy(s: State, step: Step): seq<nat> {
    if step.Marks? && step.marker.Push? && AtJob(s, step.t) then [s.threads[step.t].job] else []
  }

  function TakenBy(s': State, step: Step): seq<nat> {
    if step.Reads? && step.reader.Pop? && AtJob(s', step.t) then [s'.threads[step.t].job] else []
  }

  lemma QueueStep(p: Program, s: State, s': State, step: Step)
    requires Next(p, s, s', step)
    ensures s.queue + PutBy(s, step) == TakenBy(s', step) + s'.queue
  {
    match step
    case Outside(t, around) => QueueOutside(p, s, s', t, around);
    case Marks(t, marker) => QueueMarks(p, s, s', t, marker);
    case Reads(t, reader) => QueueReads(p, s, s', t, reader);
    case Ends(t, ender) => QueueEnds(s, s', t, ender);
  }

  lemma QueueAt(p: Program, run: seq<State>, steps: seq<Step>, e: nat)
    requires IsRun(p, run, steps) && e < |steps|
    ensures run[e].queue + PutBy(run[e], steps[e]) == TakenBy(run[e + 1], steps[e]) + run[e + 1].queue
  {
    StepAt(p, run, steps, e);
    QueueStep(p, run[e], run[e + 1], steps[e]);
  }

  lemma Shifted(put: seq<nat>, taken: seq<nat>, queue: seq<nat>, more: seq<nat>, gone: seq<nat>, left: seq<nat>)
    requires put == taken + queue && queue + more == gone + left
    ensures put + more == (taken + gone) + left
  {
    assert put + more == taken + (queue + more);
  }

  predicate QueueMoves(s: State, s': State, step: Step) {
    s.queue + PutBy(s, step) == TakenBy(s', step) + s'.queue
  }

  lemma {:induction false} TakenSince(run: seq<State>, steps: seq<Step>, e: nat)
    requires e <= |steps| < |run| && run[0].queue == [] && forall i :: 0 <= i < e ==> QueueMoves(run[i], run[i + 1], steps[i])
    ensures PutIn(run, steps, e) == TakenOut(run, steps, e) + run[e].queue
    decreases e
  {
    if e > 0 {
      TakenSince(run, steps, e - 1);
      assert QueueMoves(run[e - 1], run[e - 1 + 1], steps[e - 1]);
      Shifted(PutIn(run, steps, e - 1), TakenOut(run, steps, e - 1), run[e - 1].queue, PutBy(run[e - 1], steps[e - 1]),
              TakenBy(run[e], steps[e - 1]), run[e].queue);
    }
  }

  /** Entries are taken to be read in the order they were put in the queue, and none is lost from it. */
  lemma TakenInOrder(p: Program, run: seq<State>, steps: seq<Step>, e: nat)
    requires IsRun(p, run, steps) && e <= |steps|
    ensures PutIn(run, steps, e) == TakenOut(run, steps, e) + run[e].queue
  {
    forall i | 0 <= i < e ensures QueueMoves(run[i], run[i + 1], steps[i]) {
      QueueAt(p, run, steps, i);
    }
    TakenSince(run, steps, e);
  }

  // ---------- the clock

  ghost predicate SameClock(s: State, a: nat, b: nat) {
    a < |s.worlds| && b < |s.worlds| && s.worlds[a].clock == s.worlds[b].clock
  }

  /** A thread that reads entry `j` has the clock as it was when the reading began. */
  ghost predicate ClockKeeps(s: State, pc: Pc, j: nat)
    requires j < |s.slots|
  {
    match pc
    case Clocked(job, nowAt) => job == j ==> SameClock(s, nowAt, Now(s))
    case Running(job, nowAt) => job == j ==> SameClock(s, nowAt, s.slots[j].begun)
    case Dated(job, nowAt, _) => job == j ==> SameClock(s, nowAt, s.slots[j].begun)
    case Answered(job, r) => job == j ==> SameClock(s, r.nowAt, r.begun)
    case _ => true
  }

  ghost predicate KeepsClock(s: State, j: nat) {
    j < |s.slots| ==>
      && (forall t :: 0 <= t < |s.threads| ==> ClockKeeps(s, s.threads[t], j))
      && (s.slots[j].last.Some? ==> SameClock(s, s.slots[j].last.value.nowAt, s.slots[j].last.value.begun))
  }

  /** The clock is moved while a thread has taken it and is about to begin to read the entry. */
  ghost predicate MovesBetween(s: State, step: Step, j: nat) {
    && step.Marks? && step.marker.MoveClock?
    && exists t :: 0 <= t < |s.threads| && s.threads[t].Clocked? && s.threads[t].job == j
  }

  /** The world goes on at the same clock. */
  ghost predicate SameTime(s: State, s': State) {
    && |s.worlds| == Now(s) + 1 && |s'.worlds| == Now(s') + 1 && s.worlds <= s'.worlds
    && s'.worlds[Now(s')].clock == s.worlds[Now(s)].clock
  }

  /** Where the entry's readings stay as they were, what one thread does next is all there is to show. */
  lemma ClockFrame(s: State, s': State, t: nat, j: nat)
    requires KeepsClock(s, j) && j < |s.slots| && j < |s'.slots| && SameTime(s, s') && |s'.threads| == |s.threads|
    requires SameReadings(s.slots[j], s'.slots[j])
    requires forall u :: 0 <= u < |s.threads| && u != t ==> s'.threads[u] == s.threads[u]
    requires t < |s.threads| ==> ClockKeeps(s', s'.threads[t], j)
    ensures KeepsClock(s', j)
  {
    forall u | 0 <= u < |s'.threads| && u != t ensures ClockKeeps(s', s'.threads[u], j) {
      assert ClockKeeps(s, s.threads[u], j);
    }
  }

  lemma ClockOutside(p: Program, s: State, s': State, t: nat, step: Around, j: nat)
    requires OutsideNext(p, s, s', t, step) && Recorded(p, s) && j < |s.slots| && KeepsClock(s, j)
    ensures KeepsClock(s', j)
  {
    match step
    case Commit(owner, _, _) => ClockFrame(s, s', owner, j);
    case ActBegin => ClockFrame(s, s', t, j);
    case ActEnd => ClockFrame(s, s', t, j);
    case _ => ClockFrame(s, s', |s.threads|, j);
  }

  lemma ClockMarks(p: Program, s: State, s': State, t: nat, step: Marker, j: nat)
    requires MarksNext(p, s, s', t, step) && Recorded(p, s) && j < |s.slots| && KeepsClock(s, j) && !step.MoveClock?
    ensures KeepsClock(s', j)
  {
    ClockFrame(s, s', t, j);
  }

  lemma ClockMoves(s: State, s': State, t: nat, clock: Time, j: nat)
    requires MoveClockStep(s, s', t, clock) && j < |s.slots| && KeepsClock(s, j)
    requires forall u :: 0 <= u < |s.threads| ==> !(s.threads[u].Clocked? && s.threads[u].job == j)
    ensures KeepsClock(s', j)
  {
    forall u | 0 <= u < |s'.threads| ensures ClockKeeps(s', s'.threads[u], j) {
      assert ClockKeeps(s, s.threads[u], j);
    }
  }

  lemma ClockReads(p: Program, s: State, s': State, t: nat, step: Reader, j: nat)
    requires ReadsNext(p, s, s', t, step) && Recorded(p, s) && InHand(s) && j < |s.slots| && KeepsClock(s, j)
    ensures KeepsClock(s', j)
  {
    assert ClockKeeps(s, s.threads[t], j);
    if step.Begin? && s.threads[t].job == j { ClockBegins(s, s', t, j); } else { ClockFrame(s, s', t, j); }
  }

  lemma ClockBegins(s: State, s': State, t: nat, j: nat)
    requires BeginStep(s, s', t) && |s.worlds| == Now(s) + 1 && InHand(s) && j < |s.slots| && KeepsClock(s, j) && s.threads[t].job == j
    ensures KeepsClock(s', j)
  {
    assert ClockKeeps(s, s.threads[t], j) && Owns(s.threads[t]) == Some(j);
    forall u | 0 <= u < |s'.threads| && u != t ensures ClockKeeps(s', s'.threads[u], j) {
      assert Owns(s.threads[u]) == Some(j) <==> s.slots[j].place == Hand(u);
    }
  }

  lemma ClockEnds(p: Program, s: State, s': State, t: nat, step: Ender, j: nat)
    requires EndsNext(s, s', t, step) && Recorded(p, s) && j < |s.slots| && KeepsClock(s, j)
    ensures KeepsClock(s', j)
  {
    assert ClockKeeps(s, s.threads[t], j);
    if step.End? && s.threads[t].job == j {
      forall u | 0 <= u < |s'.threads| && u != t ensures ClockKeeps(s', s'.threads[u], j) {
        assert ClockKeeps(s, s.threads[u], j);
      }
    } else {
      ClockFrame(s, s', t, j);
    }
  }

  lemma ClockNew(p: Program, s: State, s': State, step: Step, j: nat)
    requires Next(p, s, s', step) && Known(s) && |s.slots| <= j < |s'.slots|
    ensures KeepsClock(s', j)
  {
    match step
    case Outside(t, around) => NoneNew(p, s, s', t, around);
    case Marks(t, marker) => ClockNewMarks(p, s, s', t, marker, j);
    case Reads(t, reader) => GoesOnReads(p, s, s', t, reader);
    case Ends(t, ender) => GoesOnEnds(s, s', t, ender);
  }

  lemma ClockNewMarks(p: Program, s: State, s': State, t: nat, step: Marker, j: nat)
    requires MarksNext(p, s, s', t, step) && Known(s) && |s.slots| <= j < |s'.slots|
    ensures KeepsClock(s', j)
  {
    forall u | 0 <= u < |s'.threads| ensures ClockKeeps(s', s'.threads[u], j) {
      if u != t { assert j !in Strong(s.threads[u]); }
    }
  }

  lemma ClockNext(p: Program, s: State, s': State, step: Step, j: nat)
    requires Next(p, s, s', step) && Inv(p, s) && KeepsClock(s, j) && !MovesBetween(s, step, j)
    ensures KeepsClock(s', j)
  {
    StepGoesOn(p, s, s', step);
    if j >= |s.slots| {
      if j < |s'.slots| { ClockNew(p, s, s', step, j); }
    } else {
      match step
      case Outside(t, around) => ClockOutside(p, s, s', t, around, j);
      case Marks(t, marker) =>
        if marker.MoveClock? { ClockMoves(s, s', t, marker.clock, j); } else { ClockMarks(p, s, s', t, marker, j); }
      case Reads(t, reader) => ClockReads(p, s, s', t, reader, j);
      case Ends(t, ender) => ClockEnds(p, s, s', t, ender, j);
    }
  }

  lemma ClockAfter(p: Program, run: seq<State>, steps: seq<Step>, e: nat, j: nat)
    requires IsRun(p, run, steps) && e < |steps| && KeepsClock(run[e], j) && !MovesBetween(run[e], steps[e], j)
    ensures KeepsClock(run[e + 1], j)
  {
    InvRun(p, run, steps, e);
    StepAt(p, run, steps, e);
    ClockNext(p, run[e], run[e + 1], steps[e], j);
  }

  lemma {:induction false} ClockSince(p: Program, run: seq<State>, steps: seq<Step>, e: nat, j: nat)
    requires IsRun(p, run, steps) && e < |run| && forall i :: 0 <= i < e ==> !MovesBetween(run[i], steps[i], j)
    ensures KeepsClock(run[e], j)
    decreases e
  {
    if e > 0 {
      ClockSince(p, run, steps, e - 1, j);
      ClockAfter(p, run, steps, e - 1, j);
    }
  }

  /** A settled client shows what its queries answer now, unless the clock was moved in the moment a thread had taken it and not
      begun: of an entry for which it never was, the value is the current one, whatever its query reads. */
  lemma CurrentUnlessMoved(p: Program, run: seq<State>, steps: seq<Step>, j: nat)
    requires Declared(p) && IsRun(p, run, steps) && Settled(run[|steps|])
    requires j < |run[|steps|].slots| && run[|steps|].slots[j].lives > 0 && run[|steps|].slots[j].entry.snapshot.Ready?
    requires forall i :: 0 <= i < |steps| ==> !MovesBetween(run[i], steps[i], j)
    ensures var s := run[|steps|]; s.worlds != [] && s.slots[j].entry.snapshot.value == Direct(p, s, s.slots[j].entry.query)
  {
    ClockSince(p, run, steps, |steps|, j);
    InvRun(p, run, steps, |steps|);
    CurrentNow(p, run[|steps|], j);
  }

  lemma CurrentNow(p: Program, s: State, j: nat)
    requires Declared(p) && Inv(p, s) && Settled(s) && KeepsClock(s, j)
    requires j < |s.slots| && s.slots[j].lives > 0 && s.slots[j].entry.snapshot.Ready?
    ensures s.worlds != [] && s.slots[j].entry.snapshot.value == Direct(p, s, s.slots[j].entry.query)
  {
    HeldIsAtRest(p, s, j);
    assert SlotHonest(p, s, j);
    var q, r := s.slots[j].entry.query, s.slots[j].last.value;
    assert forall i :: r.readAt <= i < Now(s) ==> !Meets(s.touched[i], p.topics(q));
    AnswerStays(p, s, q, r.readAt, s.worlds[r.nowAt].clock);
    ClockIsNow(p, s, j);
  }

  lemma ClockIsNow(p: Program, s: State, j: nat)
    requires Declared(p) && Recorded(p, s) && j < |s.slots| && SlotHonest(p, s, j) && AtRest(p, s, j) && KeepsClock(s, j)
    requires var q, r := s.slots[j].entry.query, s.slots[j].last.value;
             r.nowAt < |s.worlds| && s.slots[j].entry.snapshot.Ready?
             && s.slots[j].entry.snapshot.value == p.answer(q, s.worlds[|s.worlds| - 1].db, s.worlds[r.nowAt].clock)
    ensures s.slots[j].entry.snapshot.value == Direct(p, s, s.slots[j].entry.query)
  {
    var q, r := s.slots[j].entry.query, s.slots[j].last.value;
    if Clock in p.topics(q) { AnswerStays(p, s, q, r.begun, s.worlds[r.nowAt].clock); }
  }
}
