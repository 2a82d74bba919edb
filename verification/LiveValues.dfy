/** What a value shown was read of, and what a ticket's generation says. */
module LiveValues {
  import opened Options
  import opened LiveEntry
  import opened LiveProtocol
  import opened LiveOwnership

  /** The world's history: each change leaves the answers of what does not read what it touched, and
      each generation counts the changes made by the time it was said. */
  ghost predicate Recorded(p: Program, s: State) {
    && |s.worlds| == Now(s) + 1
    && (forall i :: 0 <= i < Now(s) ==> Leaves(p, s.worlds[i].db, s.worlds[i + 1].db, s.touched[i]))
    && (forall i :: 0 <= i < Now(s) && Clock !in s.touched[i] ==> s.worlds[i + 1].clock == s.worlds[i].clock)
    && |s.gens| > 0
    && (forall g :: 0 <= g < |s.gens| ==> s.gens[g] <= Now(s))
    && (forall g, h :: 0 <= g <= h < |s.gens| ==> s.gens[g] <= s.gens[h])
  }

  /** What a reading of query `q` says it read, it read: its answer is that of the database as it was
      at `readAt` and the clock as it was at `nowAt`, and every commit up to `asOf` was in it. */
  ghost predicate Honest(p: Program, s: State, q: Query, r: Reading) {
    && r.nowAt <= r.begun <= r.readAt < |s.worlds|
    && r.asOf < |s.gens| && s.gens[r.asOf] <= r.readAt
    && (r.outcome.Ok? ==> r.outcome.value == p.answer(q, s.worlds[r.readAt].db, s.worlds[r.nowAt].clock))
  }

  /** The snapshot is that of the last reading. */
  predicate Shows(slot: Slot, r: Reading) {
    match r.outcome
    case Ok(value) => slot.entry.snapshot == Ready(value, r.asOf)
    case Err(error) => slot.entry.snapshot.Failed? && slot.entry.snapshot.error == error
  }

  ghost predicate SlotHonest(p: Program, s: State, j: nat)
    requires j < |s.slots|
  {
    var slot := s.slots[j];
    && slot.begun <= Now(s)
    && (slot.last.None? ==> slot.entry.queued || slot.entry.running)
    && (slot.last.Some? ==>
          && Honest(p, s, slot.entry.query, slot.last.value)
          && Shows(slot, slot.last.value)
          && (!slot.entry.running ==> slot.last.value.begun == slot.begun))
  }

  /** No reading of an entry says it is older than the one before. */
  predicate NoOlder(slot: Slot, asOf: nat) {
    slot.last.Some? ==> slot.last.value.asOf <= asOf
  }

  ghost predicate PcHonest(p: Program, s: State, pc: Pc) {
    match pc
    case Clocked(_, nowAt) => nowAt <= Now(s)
    case Running(job, nowAt) => job < |s.slots| && nowAt <= s.slots[job].begun
    case Dated(job, nowAt, asOf) =>
      && job < |s.slots| && nowAt <= s.slots[job].begun
      && asOf < |s.gens| && NoOlder(s.slots[job], asOf)
    case Answered(job, r) =>
      && job < |s.slots| && r.begun == s.slots[job].begun
      && Honest(p, s, s.slots[job].entry.query, r) && NoOlder(s.slots[job], r.asOf)
    case _ => true
  }

  ghost predicate AllHonest(p: Program, s: State) {
    && (forall j: nat :: j < |s.slots| ==> SlotHonest(p, s, j))
    && (forall t :: 0 <= t < |s.threads| ==> PcHonest(p, s, s.threads[t]))
  }

  lemma RecordedOutside(p: Program, s: State, s': State, t: nat, step: Around)
    requires Recorded(p, s) && OutsideNext(p, s, s', t, step)
    ensures Recorded(p, s')
  {
  }

  lemma RecordedMarks(p: Program, s: State, s': State, t: nat, step: Marker)
    requires Recorded(p, s) && MarksNext(p, s, s', t, step)
    ensures Recorded(p, s')
  {
  }

  /** The world goes on: what was stays in its history. */
  ghost predicate Grows(s: State, s': State) {
    s.worlds <= s'.worlds && s.gens <= s'.gens && |s.touched| <= |s'.touched| && |s.slots| <= |s'.slots|
  }

  /** Nothing said of its readings is changed. */
  predicate SameReadings(a: Slot, b: Slot) {
    a.begun == b.begun && a.last == b.last && a.entry.query == b.entry.query
  }

  /** Nor anything its value rests on. */
  predicate SameValue(a: Slot, b: Slot) {
    && SameReadings(a, b) && a.entry.snapshot == b.entry.snapshot
    && a.entry.running == b.entry.running && (a.entry.queued ==> b.entry.queued)
  }

  lemma SlotKept(p: Program, s: State, s': State, j: nat)
    requires Grows(s, s') && j < |s.slots| && SlotHonest(p, s, j) && SameValue(s.slots[j], s'.slots[j])
    ensures SlotHonest(p, s', j)
  {
  }

  lemma PcKept(p: Program, s: State, s': State, pc: Pc)
    requires Grows(s, s') && PcHonest(p, s, pc)
    requires IsReading(pc) && pc.job < |s.slots| ==> SameReadings(s.slots[pc.job], s'.slots[pc.job])
    ensures PcHonest(p, s', pc)
  {
  }

  /** Where every value stays, what a thread does next is all there is to show. */
  lemma HonestKept(p: Program, s: State, s': State, t: nat)
    requires AllHonest(p, s) && Grows(s, s') && |s'.slots| == |s.slots| && |s'.threads| == |s.threads|
    requires forall j :: 0 <= j < |s.slots| ==> SameValue(s.slots[j], s'.slots[j])
    requires forall u :: 0 <= u < |s.threads| && u != t ==> s'.threads[u] == s.threads[u]
    requires t < |s.threads| ==> PcHonest(p, s', s'.threads[t])
    ensures AllHonest(p, s')
  {
    forall j: nat | j < |s'.slots| ensures SlotHonest(p, s', j) { SlotKept(p, s, s', j); }
    forall u | 0 <= u < |s'.threads| && u != t ensures PcHonest(p, s', s'.threads[u]) {
      PcKept(p, s, s', s.threads[u]);
    }
  }

  /** And where one thread changes the value it is reading, that value and that thread. */
  lemma HonestBut(p: Program, s: State, s': State, t: nat, job: nat)
    requires AllHonest(p, s) && InHand(s) && Grows(s, s') && |s'.slots| == |s.slots| && |s'.threads| == |s.threads|
    requires t < |s.threads| && job < |s.slots| && Owns(s.threads[t]) == Some(job)
    requires s'.slots == s.slots[job := s'.slots[job]] && s'.threads == s.threads[t := s'.threads[t]]
    requires SlotHonest(p, s', job) && PcHonest(p, s', s'.threads[t])
    ensures AllHonest(p, s')
  {
    forall j: nat | j < |s'.slots| && j != job ensures SlotHonest(p, s', j) { SlotKept(p, s, s', j); }
    forall u | 0 <= u < |s'.threads| && u != t ensures PcHonest(p, s', s'.threads[u]) {
      assert IsReading(s.threads[u]) ==> Owns(s.threads[u]) == Some(s.threads[u].job);
      PcKept(p, s, s', s.threads[u]);
    }
  }

  lemma HonestOutside(p: Program, s: State, s': State, t: nat, step: Around)
    requires AllHonest(p, s) && Recorded(p, s) && OutsideNext(p, s, s', t, step)
    ensures AllHonest(p, s')
  {
    match step
    case Commit(owner, topics, db) => HonestCommit(p, s, s', owner, topics, db);
    case Foreign(db) => HonestForeign(p, s, s', db);
    case ActBegin => HonestKept(p, s, s', t);
    case ActEnd => HonestKept(p, s, s', t);
    case LiveFound(j) => HonestLives(p, s, s', j);
    case DropLive(j) => HonestLives(p, s, s', j);
    case _ => HonestSame(p, s, s');
  }

  lemma HonestSame(p: Program, s: State, s': State)
    requires AllHonest(p, s) && s'.slots == s.slots && s'.threads == s.threads && s'.worlds == s.worlds
    requires s'.touched == s.touched && s.gens <= s'.gens
    ensures AllHonest(p, s')
  {
    HonestElsewhere(p, s, s');
  }

  lemma HonestLives(p: Program, s: State, s': State, j: nat)
    requires AllHonest(p, s) && j < |s.slots| == |s'.slots| && s' == SetSlot(s, j, s.slots[j].(lives := s'.slots[j].lives))
    ensures AllHonest(p, s')
  {
    HonestElsewhere(p, s, s');
  }

  lemma HonestCommit(p: Program, s: State, s': State, t: nat, topics: Topics, db: Db)
    requires AllHonest(p, s) && CommitStep(p, s, s', t, topics, db)
    ensures AllHonest(p, s')
  {
    HonestKept(p, s, s', t);
  }

  lemma HonestForeign(p: Program, s: State, s': State, db: Db)
    requires AllHonest(p, s) && ForeignStep(p, s, s', db)
    ensures AllHonest(p, s')
  {
    HonestElsewhere(p, s, s');
  }

  lemma HonestElsewhere(p: Program, s: State, s': State)
    requires AllHonest(p, s) && Grows(s, s') && |s'.slots| == |s.slots| && s'.threads == s.threads
    requires forall j :: 0 <= j < |s.slots| ==> SameValue(s.slots[j], s'.slots[j])
    ensures AllHonest(p, s')
  {
    HonestKept(p, s, s', |s.threads|);
  }

  lemma HonestMarks(p: Program, s: State, s': State, t: nat, step: Marker)
    requires AllHonest(p, s) && Recorded(p, s) && MarksNext(p, s, s', t, step)
    ensures AllHonest(p, s')
  {
    if step.LiveNew? {
      forall j: nat | j < |s'.slots| ensures SlotHonest(p, s', j) {
        if j < |s.slots| { SlotKept(p, s, s', j); }
      }
      forall u | 0 <= u < |s'.threads| && u != t ensures PcHonest(p, s', s'.threads[u]) {
        PcKept(p, s, s', s.threads[u]);
      }
    } else {
      HonestKept(p, s, s', t);
    }
  }

  lemma HonestReads(p: Program, s: State, s': State, t: nat, step: Reader)
    requires AllHonest(p, s) && Recorded(p, s) && InHand(s) && ReadsNext(p, s, s', t, step)
    ensures AllHonest(p, s')
  {
    assert PcHonest(p, s, s.threads[t]);
    match step
    case Begin => HonestBegin(p, s, s', t);
    case Read(outcome) => HonestRead(p, s, s', t, outcome);
    case TakeGeneration =>
      assert SlotHonest(p, s, s.threads[t].job);
      HonestKept(p, s, s', t);
    case _ => HonestKept(p, s, s', t);
  }

  lemma HonestBegin(p: Program, s: State, s': State, t: nat)
    requires AllHonest(p, s) && Recorded(p, s) && InHand(s) && BeginStep(s, s', t)
    ensures AllHonest(p, s')
  {
    assert PcHonest(p, s, s.threads[t]) && SlotHonest(p, s, s.threads[t].job);
    HonestBut(p, s, s', t, s.threads[t].job);
  }

  lemma HonestRead(p: Program, s: State, s': State, t: nat, outcome: Outcome)
    requires AllHonest(p, s) && Recorded(p, s) && ReadStep(p, s, s', t, outcome)
    ensures AllHonest(p, s')
  {
    assert PcHonest(p, s, s.threads[t]) && SlotHonest(p, s, s.threads[t].job);
    HonestKept(p, s, s', t);
  }

  lemma HonestEnds(p: Program, s: State, s': State, t: nat, step: Ender)
    requires AllHonest(p, s) && Recorded(p, s) && InHand(s) && EndsNext(s, s', t, step)
    ensures AllHonest(p, s')
  {
    assert PcHonest(p, s, s.threads[t]);
    if step.End? {
      assert SlotHonest(p, s, s.threads[t].job);
      HonestBut(p, s, s', t, s.threads[t].job);
    } else {
      HonestKept(p, s, s', t);
    }
  }

  /** The snapshots an entry has shown, in order, never say they are older than one before. */
  ghost predicate Ages(s: State) {
    forall j :: 0 <= j < |s.slots| ==> Ascending(s.slots[j].shown, s.slots[j].last)
  }

  ghost predicate Ascending(shown: seq<Snapshot>, last: Option<Reading>) {
    && (forall i :: 0 <= i < |shown| && shown[i].Ready? ==> last.Some? && shown[i].asOf <= last.value.asOf)
    && (forall i, k :: 0 <= i <= k < |shown| && shown[i].Ready? && shown[k].Ready? ==> shown[i].asOf <= shown[k].asOf)
  }

  lemma AgesOutside(p: Program, s: State, s': State, t: nat, step: Around)
    requires Ages(s) && OutsideNext(p, s, s', t, step)
    ensures Ages(s')
  {
  }

  lemma AgesMarks(p: Program, s: State, s': State, t: nat, step: Marker)
    requires Ages(s) && MarksNext(p, s, s', t, step)
    ensures Ages(s')
  {
  }

  lemma AgesReads(p: Program, s: State, s': State, t: nat, step: Reader)
    requires Recorded(p, s) && Ages(s) && ReadsNext(p, s, s', t, step)
    ensures Recorded(p, s') && Ages(s')
  {
  }

  lemma AgesEnds(p: Program, s: State, s': State, t: nat, step: Ender)
    requires Recorded(p, s) && Ages(s) && AllHonest(p, s) && EndsNext(s, s', t, step)
    ensures Recorded(p, s') && Ages(s')
  {
    if step.End? {
      var job := s.threads[t].job;
      assert PcHonest(p, s, s.threads[t]);
      assert Ascending(s.slots[job].shown, s.slots[job].last);
      assert Ascending(s'.slots[job].shown, s'.slots[job].last);
    }
  }
}
