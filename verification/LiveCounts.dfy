/** What the client counts: `busy`, and what each entry has told. */
module LiveCounts {
  import opened LiveEntry
  import opened LiveProtocol
  import opened LiveOwnership

  /** The sum of `weight` over every thread. */
  function Sum(threads: seq<Pc>, weight: Pc -> nat): nat {
    if threads == [] then 0 else weight(threads[0]) + Sum(threads[1..], weight)
  }

  lemma {:induction false} SumSet(threads: seq<Pc>, t: nat, pc: Pc, weight: Pc -> nat)
    requires t < |threads|
    ensures Sum(threads[t := pc], weight) + weight(threads[t]) == Sum(threads, weight) + weight(pc)
  {
    if t == 0 {
      assert threads[t := pc][1..] == threads[1..];
    } else {
      assert threads[t := pc][1..] == threads[1..][t - 1 := pc];
      SumSet(threads[1..], t - 1, pc, weight);
    }
  }

  /** No thread weighs more than the sum of all. */
  lemma {:induction false} SumBounds(threads: seq<Pc>, t: nat, weight: Pc -> nat)
    requires t < |threads|
    ensures weight(threads[t]) <= Sum(threads, weight)
  {
    if t > 0 { SumBounds(threads[1..], t - 1, weight); }
  }

  lemma {:induction false} SumZero(threads: seq<Pc>, weight: Pc -> nat)
    requires forall t :: 0 <= t < |threads| ==> weight(threads[t]) == 0
    ensures Sum(threads, weight) == 0
  {
    if threads != [] { SumZero(threads[1..], weight); }
  }

  /** What a thread has added to `busy` and not taken down, other than what is in the queue. */
  function Load(pc: Pc): nat {
    match pc
    case Adding(_, next) => if next.ToLeaving? then 1 else 0
    case Pushing(_, next) => if next.ToLeaving? then 2 else 1
    case Taken(_) => 1
    case Holding(_) => 1
    case Clocked(_, _) => 1
    case Running(_, _) => 1
    case Dated(_, _, _) => 1
    case Answered(_, _) => 1
    case Telling(_, _, _) => 1
    case Counting(_, _) => 1
    case Finished(_, _) => 1
    case Parting => 1
    case _ => 0
  }

  /** `busy` is what is queued and what is in threads' hands. */
  ghost predicate BusyRight(s: State) {
    s.busy == |s.queue| + Sum(s.threads, Load)
  }

  /** A thread that counts itself in or out changes `busy` by as much. */
  lemma BusyBy(s: State, s': State, t: nat)
    requires BusyRight(s) && t < |s.threads| && |s'.threads| == |s.threads| && s'.threads == s.threads[t := s'.threads[t]]
    requires s'.busy - |s'.queue| - Load(s'.threads[t]) == s.busy - |s.queue| - Load(s.threads[t])
    ensures BusyRight(s')
  {
    SumSet(s.threads, t, s'.threads[t], Load);
  }

  lemma BusyOutside(p: Program, s: State, s': State, t: nat, step: Around)
    requires BusyRight(s) && OutsideNext(p, s, s', t, step)
    ensures BusyRight(s')
  {
    match step {
      case Commit(owner, _, _) => if owner < |s.threads| { BusyBy(s, s', owner); }
      case ActBegin => BusyBy(s, s', t);
      case ActEnd => BusyBy(s, s', t);
      case _ =>
    }
  }

  lemma BusyMarks(p: Program, s: State, s': State, t: nat, step: Marker)
    requires BusyRight(s) && MarksNext(p, s, s', t, step)
    ensures BusyRight(s')
  {
    BusyBy(s, s', t);
  }

  lemma BusyReads(p: Program, s: State, s': State, t: nat, step: Reader)
    requires BusyRight(s) && ReadsNext(p, s, s', t, step)
    ensures BusyRight(s')
  {
    BusyBy(s, s', t);
  }

  lemma BusyEnds(s: State, s': State, t: nat, step: Ender)
    requires BusyRight(s) && EndsNext(s, s', t, step)
    ensures BusyRight(s')
  {
    BusyBy(s, s', t);
  }

  // ---------- telling

  /** Whether a thread is still to tell that `j` changed, and to count that it was read. */
  function OwesTell(j: nat): Pc -> nat {
    (pc: Pc) => if pc.Telling? && pc.job == j && pc.news then 1 else 0
  }

  function OwesCount(j: nat): Pc -> nat {
    (pc: Pc) => if (pc.Telling? || pc.Counting?) && pc.job == j then 1 else 0
  }

  /** Whether the reading between two snapshots was news: what shows differs, or it failed. */
  predicate IsNews(before: Snapshot, after: Snapshot) {
    after.Failed? || !LooksSame(before, after)
  }

  function NewsCount(shown: seq<Snapshot>): nat {
    if |shown| < 2 then 0 else
    NewsCount(shown[..|shown| - 1]) + if IsNews(shown[|shown| - 2], shown[|shown| - 1]) then 1 else 0
  }

  /** What an entry has told, with what threads are about to tell, is the news there has been. */
  ghost predicate TellsRight(s: State, j: nat)
    requires j < |s.slots|
  {
    var slot := s.slots[j];
    && slot.shown != [] && slot.shown[|slot.shown| - 1] == slot.entry.snapshot
    && slot.entry.told + Sum(s.threads, OwesTell(j)) == NewsCount(slot.shown)
    && slot.entry.read + Sum(s.threads, OwesCount(j)) == |slot.shown| - 1
  }

  ghost predicate TellsAll(s: State) {
    forall j: nat :: j < |s.slots| ==> TellsRight(s, j)
  }

  /** A thread's step that is neither a tell nor a count leaves what is owed. */
  lemma OwedFrame(threads: seq<Pc>, t: nat, pc: Pc, j: nat)
    requires t < |threads|
    requires !threads[t].Telling? && !threads[t].Counting? && !pc.Telling? && !pc.Counting?
    ensures Sum(threads[t := pc], OwesTell(j)) == Sum(threads, OwesTell(j))
    ensures Sum(threads[t := pc], OwesCount(j)) == Sum(threads, OwesCount(j))
  {
    SumSet(threads, t, pc, OwesTell(j));
    SumSet(threads, t, pc, OwesCount(j));
  }

  /** Nothing told, counted or shown is changed. */
  predicate SameTold(a: Slot, b: Slot) {
    a.shown == b.shown && a.entry.snapshot == b.entry.snapshot && a.entry.told == b.entry.told && a.entry.read == b.entry.read
  }

  lemma TellsElsewhere(s: State, s': State)
    requires TellsAll(s) && s'.threads == s.threads && |s'.slots| == |s.slots|
    requires forall j :: 0 <= j < |s.slots| ==> SameTold(s.slots[j], s'.slots[j])
    ensures TellsAll(s')
  {
    forall j: nat | j < |s'.slots| ensures TellsRight(s', j) { assert TellsRight(s, j); }
  }

  lemma TellsKept(s: State, s': State, t: nat)
    requires TellsAll(s) && t < |s.threads| == |s'.threads| && s'.threads == s.threads[t := s'.threads[t]]
    requires !s.threads[t].Telling? && !s.threads[t].Counting? && !s'.threads[t].Telling? && !s'.threads[t].Counting?
    requires |s'.slots| == |s.slots| && forall j :: 0 <= j < |s.slots| ==> SameTold(s.slots[j], s'.slots[j])
    ensures TellsAll(s')
  {
    forall j: nat | j < |s'.slots| ensures TellsRight(s', j) {
      assert TellsRight(s, j);
      OwedFrame(s.threads, t, s'.threads[t], j);
    }
  }

  lemma TellingOutside(p: Program, s: State, s': State, t: nat, step: Around)
    requires TellsAll(s) && OutsideNext(p, s, s', t, step)
    ensures TellsAll(s')
  {
    match step {
      case Commit(owner, _, _) =>
        if owner < |s.threads| && s.threads[owner].Acting? { TellsKept(s, s', owner); } else { TellsElsewhere(s, s'); }
      case ActBegin => TellsKept(s, s', t);
      case ActEnd => TellsKept(s, s', t);
      case _ => TellsElsewhere(s, s');
    }
  }

  lemma TellingNew(s: State, s': State, t: nat, q: Query)
    requires TellsAll(s) && Known(s) && LiveNewStep(s, s', t, q)
    ensures TellsAll(s')
  {
    forall j: nat | j < |s'.slots| ensures TellsRight(s', j) {
      OwedFrame(s.threads, t, s'.threads[t], j);
      if j < |s.slots| { assert TellsRight(s, j); } else { NothingOwed(s, j); }
    }
  }

  lemma TellingMarks(p: Program, s: State, s': State, t: nat, step: Marker)
    requires TellsAll(s) && Known(s) && MarksNext(p, s, s', t, step)
    ensures TellsAll(s')
  {
    if step.LiveNew? { TellingNew(s, s', t, step.query); } else { TellsKept(s, s', t); }
  }

  /** Nobody owes anything to an entry that is not there yet. */
  lemma NothingOwed(s: State, j: nat)
    requires Known(s) && j >= |s.slots|
    ensures Sum(s.threads, OwesTell(j)) == 0 && Sum(s.threads, OwesCount(j)) == 0
  {
    forall t | 0 <= t < |s.threads| ensures OwesTell(j)(s.threads[t]) == 0 && OwesCount(j)(s.threads[t]) == 0 {
      assert j !in Strong(s.threads[t]);
    }
    SumZero(s.threads, OwesTell(j));
    SumZero(s.threads, OwesCount(j));
  }

  lemma TellingReads(p: Program, s: State, s': State, t: nat, step: Reader)
    requires TellsAll(s) && ReadsNext(p, s, s', t, step)
    ensures TellsAll(s')
  {
    TellsKept(s, s', t);
  }

  lemma NewsCountOne(shown: seq<Snapshot>, next: Snapshot)
    requires shown != []
    ensures NewsCount(shown + [next]) == NewsCount(shown) + if IsNews(shown[|shown| - 1], next) then 1 else 0
  {
    assert (shown + [next])[..|shown|] == shown;
  }

  lemma TellsRightEnd(s: State, s': State, t: nat, j: nat)
    requires TellsAll(s) && EndStep(s, s', t) && j < |s'.slots|
    ensures TellsRight(s', j)
  {
    assert TellsRight(s, j);
    SumSet(s.threads, t, s'.threads[t], OwesTell(j));
    SumSet(s.threads, t, s'.threads[t], OwesCount(j));
    if j == s.threads[t].job { NewsCountOne(s.slots[j].shown, s'.slots[j].entry.snapshot); }
  }

  /** A thread tells or counts what it owed, and owes it no more. */
  lemma TellingPaid(s: State, s': State, t: nat)
    requires TellsAll(s) && (TellStep(s, s', t) || CountStep(s, s', t))
    ensures TellsAll(s')
  {
    forall j: nat | j < |s'.slots| ensures TellsRight(s', j) {
      assert TellsRight(s, j);
      SumSet(s.threads, t, s'.threads[t], OwesTell(j));
      SumSet(s.threads, t, s'.threads[t], OwesCount(j));
    }
  }

  lemma TellingEnds(s: State, s': State, t: nat, step: Ender)
    requires TellsAll(s) && EndsNext(s, s', t, step)
    ensures TellsAll(s')
  {
    match step
    case End => forall j: nat | j < |s'.slots| ensures TellsRight(s', j) { TellsRightEnd(s, s', t, j); }
    case Tell => TellingPaid(s, s', t);
    case Count => TellingPaid(s, s', t);
    case _ => TellsKept(s, s', t);
  }

}
