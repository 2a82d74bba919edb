/** What the live-value cache promises, of every run. */
module LiveAtRest {
  import opened Options
  import opened LiveEntry
  import opened LiveProtocol
  import opened LiveOwnership
  import opened LiveCounts
  import opened LiveFreshness
  import opened LiveValues
  import opened LiveActs
  import opened LiveTheorems

  /** What asking `q` directly, without the cache, answers now. */
  function Direct(p: Program, s: State, q: Query): Value
    requires s.worlds != []
  {
    var world := s.worlds[|s.worlds| - 1];
    p.answer(q, world.db, world.clock)
  }

  /** Nothing is on its way: no commit unsent or unheard, no other process's commit not looked at, and
      no thread at an invalidation or at counting what it is about to queue. */
  ghost predicate NothingUnheard(s: State) {
    && s.writer.Free? && s.channel == [] && s.seen == s.version
    && forall t :: 0 <= t < |s.threads| ==> Quiet(s.threads[t])
  }

  predicate Quiet(pc: Pc) {
    !pc.Owing? && !pc.Marking? && !pc.Adding?
  }

  /** `Client::idle`. */
  predicate Idle(s: State) {
    s.busy == 0
  }

  /** An idle client with nothing unheard. */
  ghost predicate Settled(s: State) {
    Idle(s) && NothingUnheard(s) && !s.stopping
  }

  /** A client that says it is idle has nothing queued, and no thread with a job it has counted. */
  lemma IdleMeansNothingInHand(p: Program, run: seq<State>, steps: seq<Step>)
    requires IsRun(p, run, steps)
    ensures var s := run[|steps|];
            Idle(s) ==> s.queue == [] && forall t :: 0 <= t < |s.threads| ==> Load(s.threads[t]) == 0
    ensures run[|steps|].busy >= 0
  {
    InvRun(p, run, steps, |steps|);
    var s := run[|steps|];
    forall t | 0 <= t < |s.threads| ensures Load(s.threads[t]) <= Sum(s.threads, Load) {
      SumBounds(s.threads, t, Load);
    }
  }

  /** `idle` keeps its word, that nothing waits to be read and nothing is being read, of a client that is not stopping,
      exactly when no thread is between marking an entry and counting it. */
  lemma IdleExactly(p: Program, run: seq<State>, steps: seq<Step>)
    requires IsRun(p, run, steps) && Idle(run[|steps|]) && !run[|steps|].stopping
    ensures var s := run[|steps|];
            (forall j: nat :: Alive(s, j) ==> !s.slots[j].entry.queued && !s.slots[j].entry.running) <==>
              (forall t :: 0 <= t < |s.threads| ==> !s.threads[t].Adding?)
  {
    InvRun(p, run, steps, |steps|);
    IdleMeansNothingInHand(p, run, steps);
    IdleKeepsWord(run[|steps|]);
  }

  lemma IdleKeepsWord(s: State)
    requires InHand(s) && Queued(s) && Flagged(s) && !s.stopping && s.queue == []
    requires forall t :: 0 <= t < |s.threads| ==> Load(s.threads[t]) == 0
    ensures (forall j: nat :: Alive(s, j) ==> !s.slots[j].entry.queued && !s.slots[j].entry.running) <==>
              (forall t :: 0 <= t < |s.threads| ==> !s.threads[t].Adding?)
  {
    if t :| 0 <= t < |s.threads| && s.threads[t].Adding? {
      var j := s.threads[t].job;
      assert OwnsEntry(s.threads[t], |s.slots|) && j in Strong(s.threads[t]);
      assert FlagsFit(s, j) && Alive(s, j) && s.slots[j].entry.queued;
    } else {
      forall j: nat | Alive(s, j) ensures !s.slots[j].entry.queued && !s.slots[j].entry.running {
        PlaceHasOwner(s, j);
        assert FlagsFit(s, j);
      }
    }
  }

  lemma SharedMeets(a: Topics, b: Topics, topic: Topic)
    ensures topic in a && topic in b ==> Meets(a, b)
  {
    if topic in a && topic in b { assert topic in a * b; }
  }

  /** While nothing touched what `q` reads, its answer stays as it was. */
  lemma {:induction false} AnswerStays(p: Program, s: State, q: Query, from: nat, time: Time)
    requires Recorded(p, s) && from <= Now(s)
    requires forall i :: from <= i < Now(s) ==> !Meets(s.touched[i], p.topics(q))
    ensures p.answer(q, s.worlds[from].db, time) == p.answer(q, s.worlds[Now(s)].db, time)
    ensures Clock in p.topics(q) ==> s.worlds[from].clock == s.worlds[Now(s)].clock
    decreases Now(s) - from
  {
    if from < Now(s) {
      assert Leaves(p, s.worlds[from].db, s.worlds[from + 1].db, s.touched[from]);
      SharedMeets(s.touched[from], p.topics(q), Clock);
      AnswerStays(p, s, q, from + 1, time);
    }
  }

  /** The clock was not moved between a reading's taking of it and its beginning. */
  predicate ClockKept(s: State, r: Reading) {
    forall i :: r.nowAt <= i < r.begun && i < |s.touched| ==> Clock !in s.touched[i]
  }

  lemma {:induction false} ClockStays(p: Program, s: State, from: nat, until: nat)
    requires Recorded(p, s) && from <= until <= Now(s)
    requires forall i :: from <= i < until ==> Clock !in s.touched[i]
    ensures s.worlds[from].clock == s.worlds[until].clock
    decreases until - from
  {
    if from < until { ClockStays(p, s, from + 1, until); }
  }

  /** An entry at rest: every mark made was followed by a reading begun after it, and its last reading
      began after everything that ever touched what its query reads. */
  ghost predicate AtRest(p: Program, s: State, j: nat)
    requires j < |s.slots|
  {
    var slot := s.slots[j];
    && !slot.entry.queued && !slot.entry.running && slot.served == slot.marks
    && slot.last.Some? && slot.last.value.begun <= Now(s)
    && !TouchedSince(s, slot.last.value.begun, TopicsOf(p, s, j))
  }

  lemma PlaceHasOwner(s: State, j: nat)
    requires InHand(s) && j < |s.slots|
    ensures s.slots[j].place.Hand? ==>
              && s.slots[j].place.thread < |s.threads|
              && Owns(s.threads[s.slots[j].place.thread]) == Some(j)
  {
    assert InThread(s.slots[j].place, |s.threads|);
  }

  lemma HeldIsAtRest(p: Program, s: State, j: nat)
    requires Inv(p, s) && Settled(s) && Alive(s, j)
    ensures AtRest(p, s, j)
  {
    forall t | 0 <= t < |s.threads| ensures Owns(s.threads[t]).None? {
      SumBounds(s.threads, t, Load);
      assert Quiet(s.threads[t]);
    }
    var slot := s.slots[j];
    PlaceHasOwner(s, j);
    assert FlagsFit(s, j);
    assert SlotHonest(p, s, j) && MarksServed(slot) && FreshOrOnItsWay(p, s, j);
    assert !OnItsWay(s, j, TopicsOf(p, s, j));
  }

  /** No lost invalidation. In every interleaving, once the client is idle and nothing is unheard, every
      value held has been read; one that reads `Ready` is what its query answers on the database as it is
      now, at the clock its last reading took; and one that failed was last tried after everything that
      touched it. The clock its last reading took is the clock as it is, unless the clock was moved in the
      moment between its taking and the reading's beginning. */
  lemma NoLostInvalidation(p: Program, run: seq<State>, steps: seq<Step>, j: nat)
    requires Declared(p) && IsRun(p, run, steps) && Settled(run[|steps|])
    requires j < |run[|steps|].slots| && run[|steps|].slots[j].lives > 0
    ensures AtRest(p, run[|steps|], j)
    ensures var s := run[|steps|]; s.worlds != [] && s.slots[j].last.value.nowAt < |s.worlds|
    ensures var s, slot := run[|steps|], run[|steps|].slots[j];
            var q, r := slot.entry.query, slot.last.value;
            && (slot.entry.snapshot.Ready? || slot.entry.snapshot.Failed?)
            && (slot.entry.snapshot.Ready? ==>
                  && slot.entry.snapshot.value ==
                       p.answer(q, s.worlds[|s.worlds| - 1].db, s.worlds[r.nowAt].clock)
                  && (Clock !in p.topics(q) || ClockKept(s, r) ==> slot.entry.snapshot.value == Direct(p, s, q)))
  {
    InvRun(p, run, steps, |steps|);
    var s := run[|steps|];
    HeldIsAtRest(p, s, j);
    assert SlotHonest(p, s, j);
    var q, r := s.slots[j].entry.query, s.slots[j].last.value;
    assert forall i :: r.readAt <= i < Now(s) ==> !Meets(s.touched[i], p.topics(q));
    AnswerStays(p, s, q, r.readAt, s.worlds[r.nowAt].clock);
    if Clock in p.topics(q) && ClockKept(s, r) {
      ClockStays(p, s, r.nowAt, r.begun);
      AnswerStays(p, s, q, r.begun, s.worlds[r.nowAt].clock);
    }
  }

  /** Exclusive ownership. In every reachable state an entry is not both queued and being read, is in the
      queue at most once, and is answered for by the queue or by one thread; one being read is read by one
      thread. An entry marked queued that neither has is one nobody holds, or left by a stop. */
  lemma ExclusiveOwnership(p: Program, run: seq<State>, steps: seq<Step>)
    requires IsRun(p, run, steps)
    ensures var s := run[|steps|];
            && Distinct(s.queue)
            && (forall t, j: nat :: 0 <= t < |s.threads| && Owns(s.threads[t]) == Some(j) ==> j !in s.queue)
            && (forall t, u :: 0 <= t < u < |s.threads| && Owns(s.threads[t]).Some? ==>
                  Owns(s.threads[t]) != Owns(s.threads[u]))
            && (forall j: nat :: j < |s.slots| ==> OwnedOnce(s, j))
  {
    InvRun(p, run, steps, |steps|);
    HandsApart(run[|steps|]);
    forall j: nat | j < |run[|steps|].slots| ensures OwnedOnce(run[|steps|], j) { FlagsSayWhere(run[|steps|], j); }
  }

  /** An entry is not both queued and being read; it is being read exactly when a thread reads it; and one that is held and
      marked queued is in the queue or in the hand of a thread that is not reading it, unless the client is stopping. */
  ghost predicate OwnedOnce(s: State, j: nat)
    requires j < |s.slots|
  {
    var e := s.slots[j].entry;
    && !(e.queued && e.running)
    && (e.running <==> exists t :: 0 <= t < |s.threads| && IsReading(s.threads[t]) && s.threads[t].job == j)
    && (e.queued && !s.stopping && Alive(s, j) ==>
          || j in s.queue
          || exists t :: 0 <= t < |s.threads| && Owns(s.threads[t]) == Some(j) && !IsReading(s.threads[t]))
  }

  lemma HandsApart(s: State)
    requires InHand(s) && Queued(s)
    ensures forall t, j: nat :: 0 <= t < |s.threads| && Owns(s.threads[t]) == Some(j) ==> j !in s.queue
    ensures forall t, u :: 0 <= t < u < |s.threads| && Owns(s.threads[t]).Some? ==> Owns(s.threads[t]) != Owns(s.threads[u])
  {
    forall t, u | 0 <= t < u < |s.threads| && Owns(s.threads[t]).Some?
      ensures Owns(s.threads[t]) != Owns(s.threads[u])
    {
      assert OwnsEntry(s.threads[t], |s.slots|);
      assert s.slots[Owns(s.threads[t]).value].place == Hand(t);
    }
    forall t, j: nat | 0 <= t < |s.threads| && Owns(s.threads[t]) == Some(j) ensures j !in s.queue {
      assert OwnsEntry(s.threads[t], |s.slots|);
      assert s.slots[j].place == Hand(t);
    }
  }

  lemma FlagsSayWhere(s: State, j: nat)
    requires InHand(s) && Queued(s) && Flagged(s) && j < |s.slots|
    ensures OwnedOnce(s, j)
  {
    assert FlagsFit(s, j) && InThread(s.slots[j].place, |s.threads|);
    if t :| 0 <= t < |s.threads| && IsReading(s.threads[t]) && s.threads[t].job == j {
      assert s.slots[j].place == Hand(t);
    }
    if s.slots[j].place.Hand? {
      assert Owns(s.threads[s.slots[j].place.thread]) == Some(j);
    }
  }

  /** Two callers asking an equal query while one holds it share one entry. */
  lemma OneEntryAQuery(p: Program, run: seq<State>, steps: seq<Step>, j: nat, k: nat)
    requires IsRun(p, run, steps)
    requires j < |run[|steps|].slots| && k < |run[|steps|].slots|
    requires run[|steps|].slots[j].lives > 0 && run[|steps|].slots[k].lives > 0
    requires run[|steps|].slots[j].entry.query == run[|steps|].slots[k].entry.query
    ensures j == k
  {
    InvRun(p, run, steps, |steps|);
    var s := run[|steps|];
    assert Alive(s, j) && Alive(s, k);
  }

  /** Read your own write. A value `Ready` at or after a ticket's generation was read of a database that
      had every commit of that act in it, and of every act applied before. */
  lemma ReadYourOwnWrite(p: Program, run: seq<State>, steps: seq<Step>, j: nat, a: nat)
    requires IsRun(p, run, steps)
    requires j < |run[|steps|].slots| && run[|steps|].slots[j].entry.snapshot.Ready?
    requires a < |run[|steps|].acted|
    requires run[|steps|].slots[j].entry.snapshot.asOf >= run[|steps|].acted[a].generation
    ensures var s, slot := run[|steps|], run[|steps|].slots[j];
            && slot.last.Some?
            && var r := slot.last.value;
            && r.readAt < |s.worlds| && r.nowAt < |s.worlds|
            && slot.entry.snapshot.value == p.answer(slot.entry.query, s.worlds[r.readAt].db, s.worlds[r.nowAt].clock)
            && forall b :: 0 <= b <= a ==> s.acted[b].upto <= r.readAt
  {
    InvRun(p, run, steps, |steps|);
    var s := run[|steps|];
    assert SlotHonest(p, s, j);
    assert SlotShown(s.slots[j]) by { NeverReadIsLoading(p, run, steps, j); }
    var r := s.slots[j].last.value;
    forall b | 0 <= b <= a ensures s.acted[b].upto <= r.readAt {
      assert s.acted[b].generation <= s.acted[a].generation <= r.asOf;
      assert s.gens[s.acted[b].generation] <= s.gens[r.asOf];
    }
  }

  predicate SlotShown(slot: Slot) {
    slot.entry.snapshot.Ready? ==> slot.last.Some?
  }

  lemma NeverReadIsLoading(p: Program, run: seq<State>, steps: seq<Step>, j: nat)
    requires IsRun(p, run, steps) && j < |run[|steps|].slots|
    ensures SlotShown(run[|steps|].slots[j])
  {
    InvRun(p, run, steps, |steps|);
    var s := run[|steps|];
    assert TellsRight(s, j);
    assert Ascending(s.slots[j].shown, s.slots[j].last);
  }

  /** Change telling is exact. When no thread is between a reading's end and its telling, `told` is how many
      readings were news and `read` how many there were; between any two snapshots that look different
      something was told, and of a reading that answered as before nothing was; and the `asOf` of what was shown never goes back. */
  lemma TellingIsExact(p: Program, run: seq<State>, steps: seq<Step>, j: nat)
    requires IsRun(p, run, steps) && j < |run[|steps|].slots|
    requires var s := run[|steps|];
             forall t :: 0 <= t < |s.threads| ==> !s.threads[t].Telling? && !s.threads[t].Counting?
    ensures var slot := run[|steps|].slots[j];
            && slot.entry.told == NewsCount(slot.shown)
            && slot.entry.read == |slot.shown| - 1
            && slot.shown[|slot.shown| - 1] == slot.entry.snapshot
            && (forall i, k :: 0 <= i <= k < |slot.shown| && !LooksSame(slot.shown[i], slot.shown[k]) ==>
                  NewsCount(slot.shown[..i + 1]) < NewsCount(slot.shown[..k + 1]))
            && (forall i :: 0 < i < |slot.shown| && !slot.shown[i].Failed? && LooksSame(slot.shown[i - 1], slot.shown[i]) ==>
                  NewsCount(slot.shown[..i + 1]) == NewsCount(slot.shown[..i]))
            && (forall i, k :: 0 <= i <= k < |slot.shown| && slot.shown[i].Ready? && slot.shown[k].Ready? ==>
                  slot.shown[i].asOf <= slot.shown[k].asOf)
  {
    InvRun(p, run, steps, |steps|);
    NothingToTell(run[|steps|], j);
    assert Ascending(run[|steps|].slots[j].shown, run[|steps|].slots[j].last);
    NewsIsDifference(run[|steps|].slots[j].shown);
  }

  /** With no thread at telling or counting, what was told and counted is all there was. */
  lemma NothingToTell(s: State, j: nat)
    requires TellsAll(s) && j < |s.slots|
    requires forall t :: 0 <= t < |s.threads| ==> !s.threads[t].Telling? && !s.threads[t].Counting?
    ensures var slot := s.slots[j];
            && slot.shown != [] && slot.shown[|slot.shown| - 1] == slot.entry.snapshot
            && slot.entry.told == NewsCount(slot.shown) && slot.entry.read == |slot.shown| - 1
  {
    assert TellsRight(s, j);
    SumZero(s.threads, OwesTell(j));
    SumZero(s.threads, OwesCount(j));
  }

  lemma NewsIsDifference(shown: seq<Snapshot>)
    ensures forall i, k :: 0 <= i <= k < |shown| && !LooksSame(shown[i], shown[k]) ==>
              NewsCount(shown[..i + 1]) < NewsCount(shown[..k + 1])
    ensures forall i :: 0 < i < |shown| && !shown[i].Failed? && LooksSame(shown[i - 1], shown[i]) ==>
              NewsCount(shown[..i + 1]) == NewsCount(shown[..i])
  {
    forall i, k | 0 <= i <= k < |shown| && !LooksSame(shown[i], shown[k])
      ensures NewsCount(shown[..i + 1]) < NewsCount(shown[..k + 1])
    {
      DifferenceIsTold(shown, i, k);
    }
    forall i | 0 < i < |shown| && !shown[i].Failed? && LooksSame(shown[i - 1], shown[i])
      ensures NewsCount(shown[..i + 1]) == NewsCount(shown[..i])
    {
      assert shown[..i + 1][..i] == shown[..i];
    }
  }

  /** Between two snapshots that look different there was news. */
  lemma {:induction false} DifferenceIsTold(shown: seq<Snapshot>, i: nat, k: nat)
    requires i <= k < |shown|
    ensures NewsCount(shown[..i + 1]) <= NewsCount(shown[..k + 1])
    ensures !LooksSame(shown[i], shown[k]) ==> NewsCount(shown[..i + 1]) < NewsCount(shown[..k + 1])
    decreases k
  {
    if i < k {
      DifferenceIsTold(shown, i, k - 1);
      assert shown[..k + 1][..k] == shown[..k];
      assert shown[..k] == shown[..(k - 1) + 1];
    }
  }

  /** Acts are applied in the order they were given, each once: what was applied is the first of what was
      given, and all of it once none waits and none is being applied, stopped or not. None that was refused is. */
  lemma ActsInOrder(p: Program, run: seq<State>, steps: seq<Step>)
    requires IsRun(p, run, steps)
    ensures var s := run[|steps|];
            && Ids(s.acted) <= s.given && Distinct(Ids(s.acted))
            && (forall act :: act in s.refused ==> act !in Ids(s.acted) && act !in s.asked)
            && (s.asked == [] && (forall t :: 0 <= t < |s.threads| ==> !s.threads[t].Acting?) ==> Ids(s.acted) == s.given)
  {
    InvRun(p, run, steps, |steps|);
    GivenIsApplied(run[|steps|]);
    forall act | act in run[|steps|].refused ensures act !in Ids(run[|steps|].acted) && act !in run[|steps|].asked {
      RefusedIsNotApplied(run[|steps|], act);
    }
  }

  /** An act given once none is taken any more is refused for good: its ticket says nothing was done, and nothing is, in
      any state that follows. */
  lemma RefusedForGood(p: Program, run: seq<State>, steps: seq<Step>, t: nat, act: nat, i: nat, k: nat)
    requires IsRun(p, run, steps) && i < k < |run| && steps[i] == Outside(t, Ask(act)) && !run[i].accepting
    ensures !run[k].accepting && act in run[k].refused
    ensures act !in run[k].given && act !in Ids(run[k].acted)
  {
    assert Next(p, run[i], run[i + 1], steps[i]);
    RefusedSince(p, run, steps, act, i + 1, k);
    InvRun(p, run, steps, k);
    RefusedIsNotApplied(run[k], act);
  }

  lemma {:induction false} RefusedSince(p: Program, run: seq<State>, steps: seq<Step>, act: nat, i: nat, k: nat)
    requires IsRun(p, run, steps) && i <= k < |run| && !run[i].accepting && act in run[i].refused
    ensures !run[k].accepting && act in run[k].refused
    decreases k
  {
    if i < k {
      RefusedSince(p, run, steps, act, i, k - 1);
      assert Next(p, run[k - 1], run[k], steps[k - 1]);
      RefusedStays(p, run[k - 1], run[k], steps[k - 1], act);
    }
  }

  lemma RefusedStays(p: Program, s: State, s': State, step: Step, act: nat)
    requires Next(p, s, s', step) && !s.accepting && act in s.refused
    ensures !s'.accepting && act in s'.refused
  {
    match step
    case Outside(t, around) => RefusedOutside(p, s, s', t, around, act);
    case Marks(t, marker) => ActsMarksApart(p, s, s', t, marker);
    case Reads(t, reader) => ActsReadsApart(p, s, s', t, reader);
    case Ends(t, ender) => ActsEndsApart(s, s', t, ender);
  }

  lemma RefusedIsNotApplied(s: State, act: nat)
    requires OwnTickets(s) && InOrder(s) && act in s.refused
    ensures act !in s.given && act !in Ids(s.acted) && act !in s.asked
  {
    GivenIsApplied(s);
  }

  lemma GivenIsApplied(s: State)
    requires InOrder(s)
    ensures Ids(s.acted) <= s.given && forall act :: act in s.asked ==> act in s.given
    ensures s.asked == [] && (forall t :: 0 <= t < |s.threads| ==> !s.threads[t].Acting?) ==> Ids(s.acted) == s.given
  {
    if t :| 0 <= t < |s.threads| && s.threads[t].Acting? {
      assert s.given == Ids(s.acted) + ([s.threads[t].act] + s.asked);
    }
  }
}
