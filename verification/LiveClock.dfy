/** The one thing a settled client can show out of date: a value that reads the clock.

    A reader takes the clock before its entry is marked as being read, while it still counts as queued.
    A clock moved in that moment marks the entry, which is queued and so is not queued again; and the
    reading that follows uses the clock taken before. The promise that a settled value is the current one
    holds of a query exactly when its answer does not depend on the clock. */
module LiveClock {
  import opened LiveEntry
  import opened LiveProtocol
  import opened LiveAtRest

  /** The query answers the same at any time. */
  ghost predicate ClockFree(p: Program, q: Query) {
    forall db, t, t' :: p.answer(q, db, t) == p.answer(q, db, t')
  }

  /** In every run, every value of the query held by a settled client that reads `Ready` is what the query answers. */
  ghost predicate AlwaysCurrent(p: Program, q: Query) {
    forall run, steps, j: nat :: IsRun(p, run, steps) && CurrentAsked(run[|steps|], j, q) ==>
      CurrentAt(p, run[|steps|], j)
  }

  ghost predicate CurrentAsked(s: State, j: nat, q: Query) {
    && Settled(s) && j < |s.slots| && s.slots[j].lives > 0
    && s.slots[j].entry.query == q && s.slots[j].entry.snapshot.Ready?
  }

  predicate CurrentAt(p: Program, s: State, j: nat) {
    && s.worlds != [] && j < |s.slots| && s.slots[j].entry.snapshot.Ready?
    && s.slots[j].entry.snapshot.value == Direct(p, s, s.slots[j].entry.query)
  }

  /** A query's settled values are current in every run exactly when its own answer does not depend on the clock,
      whatever the program's other queries do. */
  lemma ClockExactly(p: Program, q: Query)
    requires Declared(p)
    ensures AlwaysCurrent(p, q) <==> ClockFree(p, q)
  {
    if ClockFree(p, q) {
      forall run, steps, j: nat | IsRun(p, run, steps) && CurrentAsked(run[|steps|], j, q)
        ensures CurrentAt(p, run[|steps|], j)
      {
        NoLostInvalidation(p, run, steps, j);
      }
    }
    if !ClockFree(p, q) {
      var db, t, t' :| p.answer(q, db, t) != p.answer(q, db, t');
      var run, steps := StaleRun(p, q, db, t, t');
      assert CurrentAsked(run[|steps|], 0, q) && !CurrentAt(p, run[|steps|], 0);
    }
  }

  /** A client of two threads in the run below: what the world is, the one entry, and where each thread is. */
  function Two(worlds: seq<World>, touched: seq<Topics>, slots: seq<Slot>, queue: seq<nat>, busy: int,
               reader: Pc, clock: Pc): State {
    State(worlds, touched, [0], Free, [], 0, 0, slots, queue, busy, [reader, clock], false, true, [], [], [], [])
  }

  /** A run goes on by one step. */
  lemma Go(p: Program, run: seq<State>, steps: seq<Step>, s: State, step: Step)
    returns (run': seq<State>, steps': seq<Step>)
    requires IsRun(p, run, steps) && Next(p, run[|steps|], s, step)
    ensures IsRun(p, run', steps') && run'[|steps'|] == s
  {
    run', steps' := run + [s], steps + [step];
  }

  /** A query is asked and queued. */
  lemma QueueRun(p: Program, q: Query, w: World) returns (run: seq<State>, steps: seq<Step>)
    ensures IsRun(p, run, steps)
    ensures run[|steps|] == Two([w], [], [NewSlot(q, 0).(place := InQueue)], [0], 1, Resting, Resting)
  {
    var slot := NewSlot(q, 0);
    run, steps := [Two([w], [], [], [], 0, Resting, Resting)], [];
    run, steps := Go(p, run, steps, Two([w], [], [slot], [], 0, Adding(0, ToResting), Resting), Marks(0, LiveNew(q)));
    run, steps := Go(p, run, steps, Two([w], [], [slot], [], 1, Pushing(0, ToResting), Resting), Marks(0, Add));
    run, steps := Go(p, run, steps, Two([w], [], [slot.(place := InQueue)], [0], 1, Resting, Resting), Marks(0, Push));
  }

  /** A reader takes it, and the clock. */
  lemma TakeRun(p: Program, q: Query, w: World) returns (run: seq<State>, steps: seq<Step>)
    ensures IsRun(p, run, steps)
    ensures run[|steps|] == Two([w], [], [NewSlot(q, 0)], [], 1, Clocked(0, 0), Resting)
  {
    var slot := NewSlot(q, 0);
    run, steps := QueueRun(p, q, w);
    run, steps := Go(p, run, steps, Two([w], [], [slot], [], 1, Taken(0), Resting), Reads(0, Pop));
    run, steps := Go(p, run, steps, Two([w], [], [slot], [], 1, Holding(0), Resting), Reads(0, Upgrade));
    run, steps := Go(p, run, steps, Two([w], [], [slot], [], 1, Clocked(0, 0), Resting), Reads(0, TakeClock));
  }

  /** The clock is moved, and what reads it is collected, the entry among it. */
  lemma CollectRun(p: Program, q: Query, w: World, clock: Time) returns (run: seq<State>, steps: seq<Step>)
    requires Clock in p.topics(q)
    ensures IsRun(p, run, steps)
    ensures run[|steps|] == Two([w, w.(clock := clock)], [{Clock}], [NewSlot(q, 0)], [], 1, Clocked(0, 0), Marking([0]))
  {
    var ws, touched: seq<Topics>, slot := [w, w.(clock := clock)], [{Clock}], NewSlot(q, 0);
    SharedMeets({Clock}, p.topics(q), Clock);
    run, steps := TakeRun(p, q, w);
    run, steps := Go(p, run, steps, Two(ws, touched, [slot], [], 1, Clocked(0, 0), Owing({Clock})), Marks(1, MoveClock(clock)));
    run, steps := Go(p, run, steps, Two(ws, touched, [slot], [], 1, Clocked(0, 0), Marking([0])), Marks(1, Collect([0])));
  }

  /** Everything collected is marked: the entry is queued, still. */
  lemma MoveRun(p: Program, q: Query, w: World, clock: Time) returns (run: seq<State>, steps: seq<Step>)
    requires Clock in p.topics(q)
    ensures IsRun(p, run, steps)
    ensures run[|steps|] == Two([w, w.(clock := clock)], [{Clock}], [NewSlot(q, 0).(marks := 1)], [], 1, Clocked(0, 0), Resting)
  {
    var ws, touched: seq<Topics>, slot := [w, w.(clock := clock)], [{Clock}], NewSlot(q, 0);
    var none: seq<nat> := [0][1..];
    assert none == [];
    run, steps := CollectRun(p, q, w, clock);
    run, steps := Go(p, run, steps, Two(ws, touched, [slot.(marks := 1)], [], 1, Clocked(0, 0), Marking([])), Marks(1, Mark));
    run, steps := Go(p, run, steps, Two(ws, touched, [slot.(marks := 1)], [], 1, Clocked(0, 0), Resting), Marks(1, MarkedAll));
  }

  /** The reading goes on with the clock it took. */
  lemma AnswerRun(p: Program, q: Query, db: Db, t: Time, t': Time, r: Reading) returns (run: seq<State>, steps: seq<Step>)
    requires Clock in p.topics(q) && r == Reading(0, 1, 1, 0, Ok(p.answer(q, db, t)))
    ensures IsRun(p, run, steps)
    ensures run[|steps|] == Two([World(db, t), World(db, t')], [{Clock}],
                                [BeginSlot(NewSlot(q, 0).(marks := 1), 1)], [], 1, Answered(0, r), Resting)
  {
    var ws, touched: seq<Topics> := [World(db, t), World(db, t')], [{Clock}];
    var begun := BeginSlot(NewSlot(q, 0).(marks := 1), 1);
    run, steps := MoveRun(p, q, World(db, t), t');
    run, steps := Go(p, run, steps, Two(ws, touched, [begun], [], 1, Running(0, 0), Resting), Reads(0, Begin));
    run, steps := Go(p, run, steps, Two(ws, touched, [begun], [], 1, Dated(0, 0, 0), Resting), Reads(0, TakeGeneration));
    run, steps := Go(p, run, steps, Two(ws, touched, [begun], [], 1, Answered(0, r), Resting), Reads(0, Read(r.outcome)));
  }

  /** It ends, with nothing to read again, and is told. */
  lemma ToldRun(p: Program, q: Query, db: Db, t: Time, t': Time, r: Reading, told: Slot) returns (run: seq<State>, steps: seq<Step>)
    requires Clock in p.topics(q) && r == Reading(0, 1, 1, 0, Ok(p.answer(q, db, t)))
    requires told == TellSlot(EndSlot(BeginSlot(NewSlot(q, 0).(marks := 1), 1), 0, r), true)
    ensures IsRun(p, run, steps)
    ensures run[|steps|] == Two([World(db, t), World(db, t')], [{Clock}], [told], [], 1, Counting(0, false), Resting)
  {
    var ws, touched: seq<Topics> := [World(db, t), World(db, t')], [{Clock}];
    var ended := EndSlot(BeginSlot(NewSlot(q, 0).(marks := 1), 1), 0, r);
    run, steps := AnswerRun(p, q, db, t, t', r);
    run, steps := Go(p, run, steps, Two(ws, touched, [ended], [], 1, Telling(0, true, false), Resting), Ends(0, End));
    run, steps := Go(p, run, steps, Two(ws, touched, [told], [], 1, Counting(0, false), Resting), Ends(0, Tell));
  }

  /** The client settles, showing what was so before. */
  lemma StaleRun(p: Program, q: Query, db: Db, t: Time, t': Time) returns (run: seq<State>, steps: seq<Step>)
    requires Declared(p) && p.answer(q, db, t) != p.answer(q, db, t')
    ensures IsRun(p, run, steps) && CurrentAsked(run[|steps|], 0, q)
    ensures !CurrentAt(p, run[|steps|], 0)
  {
    var ws, touched: seq<Topics> := [World(db, t), World(db, t')], [{Clock}];
    var r := Reading(0, 1, 1, 0, Ok(p.answer(q, db, t)));
    var told := TellSlot(EndSlot(BeginSlot(NewSlot(q, 0).(marks := 1), 1), 0, r), true);
    run, steps := ToldRun(p, q, db, t, t', r, told);
    run, steps := Go(p, run, steps, Two(ws, touched, [CountSlot(told)], [], 1, Finished(0, false), Resting), Ends(0, Count));
    run, steps := Go(p, run, steps, Two(ws, touched, [CountSlot(told)], [], 1, Parting, Resting), Ends(0, Release));
    run, steps := Go(p, run, steps, Two(ws, touched, [CountSlot(told)], [], 0, Resting, Resting), Ends(0, Sub));
  }

  /** Being idle is not being settled: a client can say it is idle, with no commit unheard, while a value held
      has yet to be read. Between an entry's marking and its counting in `busy` nothing shows it. */
  lemma IdleIsNotSettled(p: Program, q: Query, w: World) returns (run: seq<State>, steps: seq<Step>)
    ensures IsRun(p, run, steps)
    ensures var s := run[|steps|];
            && Idle(s) && s.writer.Free? && s.channel == [] && s.seen == s.version && !s.stopping
            && |s.slots| == 1 && s.slots[0].lives > 0 && s.slots[0].entry.snapshot.Loading? && s.slots[0].entry.queued
  {
    run, steps := [Two([w], [], [], [], 0, Resting, Resting)], [];
    run, steps := Go(p, run, steps, Two([w], [], [NewSlot(q, 0)], [], 0, Adding(0, ToResting), Resting), Marks(0, LiveNew(q)));
  }
}
