/** A ticket can say a later generation than a settled value that has its act in it: another's commit, of what the value does
    not read, can be counted before the act's thread takes the generation its ticket says (crates/mail-client/src/act.rs). */
module LiveTickets {
  import opened LiveEntry
  import opened LiveProtocol
  import opened LiveAtRest
  import opened LiveClock

  /** What has been committed and said. */
  datatype Told = Told(touched: seq<Topics>, gens: seq<nat>, writer: Writer, channel: seq<Topics>)

  /** The client of two threads in the run below: a reader, and the thread of acts, which does act 0. No commit changes the
      database. */
  function Acts(w: World, told: Told, slots: seq<Slot>, queue: seq<nat>, busy: int, reader: Pc, actor: Pc, acted: seq<Acted>): State {
    State(seq(|told.touched| + 1, _ => w), told.touched, told.gens, told.writer, told.channel, 0, 0, slots, queue, busy,
          [reader, actor], false, true, [0], [], [], acted)
  }

  /** A query, what the act touches, which it reads, and what the other commit does, which it does not. */
  datatype Case = Case(p: Program, q: Query, w: World, mine: Topics, others: Topics)

  ghost predicate Apart(c: Case) {
    c.mine != {} && c.others != {} && Meets(c.mine, c.p.topics(c.q)) && !Meets(c.others, c.p.topics(c.q))
  }

  /** The entry, queued, and marked. */
  function Entry0(c: Case): Slot {
    NewSlot(c.q, 0).(place := InQueue)
  }

  /** A query is asked and queued, and an act given and begun. */
  lemma BeginRun(c: Case) returns (run: seq<State>, steps: seq<Step>)
    ensures IsRun(c.p, run, steps)
    ensures run[|steps|] == Acts(c.w, Told([], [0], Free, []), [Entry0(c)], [0], 1, Resting, Acting(0, 0), [])
  {
    run, steps := QueueRun(c.p, c.q, c.w);
    var queued := run[|steps|];
    var asked := queued.(given := [0], asked := [0]);
    run, steps := Go(c.p, run, steps, asked, Outside(0, Ask(0)));
    var begun := Acts(c.w, Told([], [0], Free, []), [Entry0(c)], [0], 1, Resting, Acting(0, 0), []);
    assert begun.worlds == [c.w] && [0][1..] == begun.asked;
    run, steps := Go(c.p, run, steps, begun, Outside(1, ActBegin));
  }

  /** It commits, and that is counted and sent. */
  lemma CommitRun(c: Case) returns (run: seq<State>, steps: seq<Step>)
    requires Apart(c)
    ensures IsRun(c.p, run, steps)
    ensures run[|steps|] == Acts(c.w, Told([c.mine], [0, 1], Free, [c.mine]), [Entry0(c)], [0], 1, Resting, Acting(0, 1), [])
  {
    run, steps := BeginRun(c);
    var s1 := Acts(c.w, Told([c.mine], [0], Committed(1, c.mine), []), [Entry0(c)], [0], 1, Resting, Acting(0, 1), []);
    Same(c.w, c.w.db);
    assert s1.worlds == run[|steps|].worlds + [c.w];
    assert Declares(c.mine) + {} == c.mine;
    run, steps := Go(c.p, run, steps, s1, Outside(0, Commit(1, c.mine, c.w.db)));
    var s2 := s1.(gens := [0, 1], writer := Published(1, c.mine));
    run, steps := Go(c.p, run, steps, s2, Outside(0, Publish));
    run, steps := Go(c.p, run, steps, s2.(channel := [c.mine], writer := Free), Outside(0, Send));
  }

  lemma Same(w: World, db: Db)
    requires db == w.db
    ensures w.(db := db) == w
  {
  }

  /** The commit is heard, and the entry marked. */
  lemma HearRun(c: Case) returns (run: seq<State>, steps: seq<Step>)
    requires Apart(c)
    ensures IsRun(c.p, run, steps)
    ensures run[|steps|] == Acts(c.w, Told([c.mine], [0, 1], Free, []), [Entry0(c)], [0], 1, Marking([0]), Acting(0, 1), [])
  {
    run, steps := CommitRun(c);
    var told := Told([c.mine], [0, 1], Free, []);
    assert {} + c.mine == c.mine;
    run, steps := Go(c.p, run, steps, Acts(c.w, told, [Entry0(c)], [0], 1, Owing(c.mine), Acting(0, 1), []), Marks(0, Hear));
    run, steps := Go(c.p, run, steps, Acts(c.w, told, [Entry0(c)], [0], 1, Marking([0]), Acting(0, 1), []), Marks(0, Collect([0])));
  }

  lemma MarkRun(c: Case) returns (run: seq<State>, steps: seq<Step>)
    requires Apart(c)
    ensures IsRun(c.p, run, steps)
    ensures run[|steps|] == Acts(c.w, Told([c.mine], [0, 1], Free, []), [Entry0(c).(marks := 1)], [0], 1, Resting, Acting(0, 1), [])
  {
    run, steps := HearRun(c);
    var told := Told([c.mine], [0, 1], Free, []);
    var none: seq<nat> := [0][1..];
    assert none == [];
    run, steps := Go(c.p, run, steps, Acts(c.w, told, [Entry0(c).(marks := 1)], [0], 1, Marking([]), Acting(0, 1), []), Marks(0, Mark));
    run, steps := Go(c.p, run, steps, Acts(c.w, told, [Entry0(c).(marks := 1)], [0], 1, Resting, Acting(0, 1), []), Marks(0, MarkedAll));
  }

  /** What a reading then answers. */
  function Answer(c: Case): Reading {
    Reading(1, 1, 1, 1, Ok(c.p.answer(c.q, c.w.db, c.w.clock)))
  }

  /** The entry once it is read, and told, and counted. */
  function Begun0(c: Case): Slot {
    BeginSlot(NewSlot(c.q, 0).(marks := 1), 1)
  }

  function Told0(c: Case): Slot {
    TellSlot(EndSlot(Begun0(c), 0, Answer(c)), true)
  }

  lemma TakenRun(c: Case) returns (run: seq<State>, steps: seq<Step>)
    requires Apart(c)
    ensures IsRun(c.p, run, steps)
    ensures run[|steps|] == Acts(c.w, Told([c.mine], [0, 1], Free, []), [NewSlot(c.q, 0).(marks := 1)], [], 1, Clocked(0, 1), Acting(0, 1), [])
  {
    run, steps := MarkRun(c);
    var told, slot := Told([c.mine], [0, 1], Free, []), NewSlot(c.q, 0).(marks := 1);
    var none: seq<nat> := [0][1..];
    assert none == [];
    run, steps := Go(c.p, run, steps, Acts(c.w, told, [slot], [], 1, Taken(0), Acting(0, 1), []), Reads(0, Pop));
    run, steps := Go(c.p, run, steps, Acts(c.w, told, [slot], [], 1, Holding(0), Acting(0, 1), []), Reads(0, Upgrade));
    run, steps := Go(c.p, run, steps, Acts(c.w, told, [slot], [], 1, Clocked(0, 1), Acting(0, 1), []), Reads(0, TakeClock));
  }

  lemma ReadRun(c: Case) returns (run: seq<State>, steps: seq<Step>)
    requires Apart(c)
    ensures IsRun(c.p, run, steps)
    ensures run[|steps|] == Acts(c.w, Told([c.mine], [0, 1], Free, []), [Begun0(c)], [], 1, Answered(0, Answer(c)), Acting(0, 1), [])
  {
    run, steps := TakenRun(c);
    var told, slot := Told([c.mine], [0, 1], Free, []), Begun0(c);
    run, steps := Go(c.p, run, steps, Acts(c.w, told, [slot], [], 1, Running(0, 1), Acting(0, 1), []), Reads(0, Begin));
    run, steps := Go(c.p, run, steps, Acts(c.w, told, [slot], [], 1, Dated(0, 1, 1), Acting(0, 1), []), Reads(0, TakeGeneration));
    run, steps := Go(c.p, run, steps, Acts(c.w, told, [slot], [], 1, Answered(0, Answer(c)), Acting(0, 1), []),
                     Reads(0, Read(Answer(c).outcome)));
  }

  lemma ToldRun0(c: Case) returns (run: seq<State>, steps: seq<Step>)
    requires Apart(c)
    ensures IsRun(c.p, run, steps)
    ensures run[|steps|] == Acts(c.w, Told([c.mine], [0, 1], Free, []), [Told0(c)], [], 1, Counting(0, false), Acting(0, 1), [])
  {
    run, steps := ReadRun(c);
    var told, ended := Told([c.mine], [0, 1], Free, []), EndSlot(Begun0(c), 0, Answer(c));
    run, steps := Go(c.p, run, steps, Acts(c.w, told, [ended], [], 1, Telling(0, true, false), Acting(0, 1), []), Ends(0, End));
    run, steps := Go(c.p, run, steps, Acts(c.w, told, [Told0(c)], [], 1, Counting(0, false), Acting(0, 1), []), Ends(0, Tell));
  }

  /** The reader rests, the value as of generation 1. */
  lemma RestRun(c: Case) returns (run: seq<State>, steps: seq<Step>)
    requires Apart(c)
    ensures IsRun(c.p, run, steps)
    ensures run[|steps|] == Acts(c.w, Told([c.mine], [0, 1], Free, []), [CountSlot(Told0(c))], [], 0, Resting, Acting(0, 1), [])
  {
    run, steps := ToldRun0(c);
    var told, slots := Told([c.mine], [0, 1], Free, []), [CountSlot(Told0(c))];
    run, steps := Go(c.p, run, steps, Acts(c.w, told, slots, [], 1, Finished(0, false), Acting(0, 1), []), Ends(0, Count));
    run, steps := Go(c.p, run, steps, Acts(c.w, told, slots, [], 1, Parting, Acting(0, 1), []), Ends(0, Release));
    run, steps := Go(c.p, run, steps, Acts(c.w, told, slots, [], 0, Resting, Acting(0, 1), []), Ends(0, Sub));
  }

  /** Another commits, of what the query does not read, and that is counted. */
  lemma OtherRun(c: Case) returns (run: seq<State>, steps: seq<Step>)
    requires Apart(c)
    ensures IsRun(c.p, run, steps)
    ensures run[|steps|] == Acts(c.w, Told([c.mine, c.others], [0, 1, 2], Free, [c.others]), [CountSlot(Told0(c))], [], 0,
                                 Resting, Acting(0, 1), [])
  {
    run, steps := RestRun(c);
    var slots := [CountSlot(Told0(c))];
    var s1 := Acts(c.w, Told([c.mine, c.others], [0, 1], Committed(2, c.others), []), slots, [], 0, Resting, Acting(0, 1), []);
    Same(c.w, c.w.db);
    assert s1.worlds == run[|steps|].worlds + [c.w];
    assert Declares(c.others) + {} == c.others;
    run, steps := Go(c.p, run, steps, s1, Outside(0, Commit(2, c.others, c.w.db)));
    var s2 := s1.(gens := [0, 1, 2], writer := Published(2, c.others));
    run, steps := Go(c.p, run, steps, s2, Outside(0, Publish));
    run, steps := Go(c.p, run, steps, s2.(channel := [c.others], writer := Free), Outside(0, Send));
  }

  /** The act's ticket says the generation there is by then. */
  lemma TicketRun(c: Case) returns (run: seq<State>, steps: seq<Step>)
    requires Apart(c)
    ensures IsRun(c.p, run, steps)
    ensures run[|steps|] == Acts(c.w, Told([c.mine, c.others], [0, 1, 2], Free, []), [CountSlot(Told0(c))], [], 0,
                                 Owing(c.others), Resting, [Acted(0, 1, 2)])
  {
    run, steps := OtherRun(c);
    var slots, acted := [CountSlot(Told0(c))], [Acted(0, 1, 2)];
    run, steps := Go(c.p, run, steps, run[|steps|].(threads := [Resting, Resting], acted := acted), Outside(1, ActEnd));
    var told := Told([c.mine, c.others], [0, 1, 2], Free, []);
    assert {} + c.others == c.others;
    run, steps := Go(c.p, run, steps, Acts(c.w, told, slots, [], 0, Owing(c.others), Resting, acted), Marks(0, Hear));
  }

  /** And the client settles with the value as of the generation before. */
  lemma TicketOutrun(c: Case) returns (run: seq<State>, steps: seq<Step>)
    requires Apart(c)
    ensures IsRun(c.p, run, steps) && Settled(run[|steps|])
    ensures var s := run[|steps|];
            && |s.slots| == 1 && s.slots[0].entry.query == c.q && s.slots[0].lives > 0 && s.slots[0].entry.snapshot.Ready?
            && |s.acted| == 1 && s.slots[0].entry.snapshot.asOf == 1 && s.acted[0].generation == 2
            && |s.gens| == 3 && s.gens[1] >= s.acted[0].upto
  {
    run, steps := TicketRun(c);
    var slots, acted := [CountSlot(Told0(c))], [Acted(0, 1, 2)];
    var told := Told([c.mine, c.others], [0, 1, 2], Free, []);
    run, steps := Go(c.p, run, steps, Acts(c.w, told, slots, [], 0, Marking([]), Resting, acted), Marks(0, Collect([])));
    run, steps := Go(c.p, run, steps, Acts(c.w, told, slots, [], 0, Resting, Resting, acted), Marks(0, MarkedAll));
  }
}
