/** What an entry goes on showing while its readings fail: the last answer there was (crates/mail-client/src/live.rs). */
module LiveShown {
  import opened Options
  import opened LiveEntry
  import opened LiveProtocol
  import opened LiveCounts
  import opened LiveTheorems
  import opened LiveAtRest

  /** Of the first `n` snapshots, `value` is that of the last that was `Ready`, or none was. */
  ghost predicate IsLastReady(shown: seq<Snapshot>, n: nat, value: Option<Value>) {
    match value
    case None => forall k :: 0 <= k < n && k < |shown| ==> !shown[k].Ready?
    case Some(v) =>
      exists k :: 0 <= k < n && k < |shown| && shown[k].Ready? && shown[k].value == v
                  && forall m :: k < m < n && m < |shown| ==> !shown[m].Ready?
  }

  /** A failed reading, and one not made yet, show the last answer before. */
  ghost predicate KeepsLast(shown: seq<Snapshot>, i: nat)
    requires i < |shown|
  {
    !shown[i].Ready? ==> IsLastReady(shown, i, shown[i].last)
  }

  ghost predicate Remembers(slot: Slot) {
    && slot.shown != [] && slot.shown[|slot.shown| - 1] == slot.entry.snapshot
    && (forall i :: 0 <= i < |slot.shown| ==> KeepsLast(slot.shown, i))
    && forall i :: 0 < i < |slot.shown| ==> !slot.shown[i].Loading?
  }

  ghost predicate AllRemember(s: State) {
    forall j :: 0 <= j < |s.slots| ==> Remembers(s.slots[j])
  }

  /** What is shown, whichever state it is in, is the last answer up to then. */
  lemma ShownIsLast(shown: seq<Snapshot>, i: nat)
    requires i < |shown| && KeepsLast(shown, i)
    ensures IsLastReady(shown, i + 1, shown[i].Shown())
  {
    if !shown[i].Ready? && shown[i].last.Some? {
      var k :| 0 <= k < i && k < |shown| && shown[k].Ready? && shown[k].value == shown[i].last.value
               && forall m :: k < m < i && m < |shown| ==> !shown[m].Ready?;
      assert forall m :: k < m < i + 1 && m < |shown| ==> !shown[m].Ready?;
    }
  }

  lemma LastStays(shown: seq<Snapshot>, next: Snapshot, n: nat, value: Option<Value>)
    requires n <= |shown|
    ensures IsLastReady(shown + [next], n, value) <==> IsLastReady(shown, n, value)
  {
    var more := shown + [next];
    assert forall k :: 0 <= k < n ==> more[k] == shown[k];
    if value.Some? && IsLastReady(shown, n, value) {
      var k :| 0 <= k < n && k < |shown| && shown[k].Ready? && shown[k].value == value.value
               && forall m :: k < m < n && m < |shown| ==> !shown[m].Ready?;
      assert more[k].Ready? && more[k].value == value.value;
    }
    if value.Some? && IsLastReady(more, n, value) {
      var k :| 0 <= k < n && k < |more| && more[k].Ready? && more[k].value == value.value
               && forall m :: k < m < n && m < |more| ==> !more[m].Ready?;
      assert shown[k].Ready? && shown[k].value == value.value;
    }
  }

  /** One reading more. */
  lemma ReadingRemembers(shown: seq<Snapshot>, outcome: Outcome, asOf: nat)
    requires shown != [] && forall i :: 0 <= i < |shown| ==> KeepsLast(shown, i)
    ensures var next := After(shown[|shown| - 1], outcome, asOf);
            forall i :: 0 <= i <= |shown| ==> KeepsLast(shown + [next], i)
  {
    var last := |shown| - 1;
    var next := After(shown[last], outcome, asOf);
    forall i | 0 <= i <= |shown| ensures KeepsLast(shown + [next], i) {
      if i < |shown| {
        assert KeepsLast(shown, i) && (shown + [next])[i] == shown[i];
        if !shown[i].Ready? { LastStays(shown, next, i, shown[i].last); }
      } else {
        ShownIsLast(shown, last);
        LastStays(shown, next, |shown|, shown[last].Shown());
      }
    }
  }

  // ---------- every run

  predicate SameShown(a: Slot, b: Slot) {
    a.shown == b.shown && a.entry.snapshot == b.entry.snapshot
  }

  lemma ElsewhereRemembers(s: State, s': State, j: nat)
    requires AllRemember(s) && j < |s.slots| && j < |s'.slots| && SameShown(s.slots[j], s'.slots[j])
    ensures Remembers(s'.slots[j])
  {
  }

  lemma RemembersOutside(p: Program, s: State, s': State, t: nat, step: Around)
    requires AllRemember(s) && OutsideNext(p, s, s', t, step)
    ensures AllRemember(s')
  {
    forall j | 0 <= j < |s'.slots| ensures Remembers(s'.slots[j]) {
      if j < |s.slots| { ElsewhereRemembers(s, s', j); }
    }
  }

  lemma RemembersMarks(p: Program, s: State, s': State, t: nat, step: Marker)
    requires AllRemember(s) && MarksNext(p, s, s', t, step)
    ensures AllRemember(s')
  {
    forall j | 0 <= j < |s'.slots| ensures Remembers(s'.slots[j]) {
      if j < |s.slots| { ElsewhereRemembers(s, s', j); }
    }
  }

  lemma RemembersReads(p: Program, s: State, s': State, t: nat, step: Reader)
    requires AllRemember(s) && ReadsNext(p, s, s', t, step)
    ensures AllRemember(s')
  {
    forall j | 0 <= j < |s'.slots| ensures Remembers(s'.slots[j]) {
      if j < |s.slots| { ElsewhereRemembers(s, s', j); }
    }
  }

  lemma RemembersEnds(s: State, s': State, t: nat, step: Ender)
    requires AllRemember(s) && EndsNext(s, s', t, step)
    ensures AllRemember(s')
  {
    if step.End? {
      RemembersEnd(s, s', t);
    } else {
      forall j | 0 <= j < |s'.slots| ensures Remembers(s'.slots[j]) { ElsewhereRemembers(s, s', j); }
    }
  }

  lemma RemembersEnd(s: State, s': State, t: nat)
    requires AllRemember(s) && EndStep(s, s', t)
    ensures AllRemember(s')
  {
    var job, r := s.threads[t].job, s.threads[t].reading;
    ReadingRemembers(s.slots[job].shown, r.outcome, r.asOf);
    assert Remembers(s'.slots[job]);
    forall j | 0 <= j < |s'.slots| && j != job ensures Remembers(s'.slots[j]) { ElsewhereRemembers(s, s', j); }
  }

  lemma {:induction false} RemembersRun(p: Program, run: seq<State>, steps: seq<Step>, e: nat)
    requires IsRun(p, run, steps) && e < |run|
    ensures AllRemember(run[e])
    decreases e
  {
    if e > 0 {
      RemembersRun(p, run, steps, e - 1);
      RemembersStep(p, run, steps, e - 1);
    }
  }

  lemma RemembersStep(p: Program, run: seq<State>, steps: seq<Step>, e: nat)
    requires IsRun(p, run, steps) && e < |steps| && AllRemember(run[e])
    ensures AllRemember(run[e + 1])
  {
    assert Next(p, run[e], run[e + 1], steps[e]);
    match steps[e]
    case Outside(t, around) => RemembersOutside(p, run[e], run[e + 1], t, around);
    case Marks(t, marker) => RemembersMarks(p, run[e], run[e + 1], t, marker);
    case Reads(t, reader) => RemembersReads(p, run[e], run[e + 1], t, reader);
    case Ends(t, ender) => RemembersEnds(run[e], run[e + 1], t, ender);
  }

  /** An answer is not lost to a failure. In every run a value whose reading failed goes on showing the last answer it had, and
      nothing if it has had none; and a value not read yet shows nothing. */
  lemma FailuresKeepTheLast(p: Program, run: seq<State>, steps: seq<Step>, e: nat, j: nat)
    requires IsRun(p, run, steps) && e < |run| && j < |run[e].slots|
    ensures var slot := run[e].slots[j];
            && slot.shown != [] && slot.shown[|slot.shown| - 1] == slot.entry.snapshot
            && forall i :: 0 <= i < |slot.shown| && !slot.shown[i].Ready? ==> IsLastReady(slot.shown, i, slot.shown[i].last)
  {
    RemembersRun(p, run, steps, e);
    var slot := run[e].slots[j];
    assert Remembers(slot);
    forall i | 0 <= i < |slot.shown| && !slot.shown[i].Ready? ensures IsLastReady(slot.shown, i, slot.shown[i].last) {
      assert KeepsLast(slot.shown, i);
    }
  }

  /** A reading is news but where it answers what was answered just before. */
  predicate IsTold(shown: seq<Snapshot>, i: nat)
    requires 0 < i < |shown|
  {
    !(shown[i - 1].Ready? && shown[i].Ready? && shown[i - 1].value == shown[i].value)
  }

  function ToldAt(shown: seq<Snapshot>): set<nat> {
    set i: nat | 0 < i < |shown| && IsTold(shown, i)
  }

  lemma {:induction false} NewsIsTold(shown: seq<Snapshot>)
    requires forall i :: 0 <= i < |shown| ==> KeepsLast(shown, i)
    requires forall i :: 0 < i < |shown| ==> !shown[i].Loading?
    ensures NewsCount(shown) == |ToldAt(shown)|
  {
    if |shown| >= 2 {
      var n := |shown| - 1;
      var before := shown[..n];
      forall i | 0 <= i < n ensures KeepsLast(before, i) {
        assert KeepsLast(shown, i) && before + [shown[n]] == shown;
        if !before[i].Ready? { LastStays(before, shown[n], i, before[i].last); }
      }
      NewsIsTold(before);
      assert KeepsLast(shown, n - 1);
      assert forall i: nat :: 0 < i < n ==> (IsTold(shown, i) <==> IsTold(before, i));
      assert ToldAt(shown) == if IsTold(shown, n) then ToldAt(before) + {n} else ToldAt(before);
      assert IsNews(shown[n - 1], shown[n]) <==> IsTold(shown, n);
    } else {
      assert ToldAt(shown) == {};
    }
  }

  /** Whoever waits for a change is told of every reading but one that answers what was answered just before: of every failure,
      and of every answer after one. */
  lemma ToldExactly(p: Program, run: seq<State>, steps: seq<Step>, e: nat, j: nat)
    requires IsRun(p, run, steps) && e < |run| && j < |run[e].slots|
    requires forall t :: 0 <= t < |run[e].threads| ==> !run[e].threads[t].Telling? && !run[e].threads[t].Counting?
    ensures var slot := run[e].slots[j]; slot.entry.told == |ToldAt(slot.shown)|
  {
    RemembersRun(p, run, steps, e);
    InvRun(p, run, steps, e);
    NothingToTell(run[e], j);
    assert Remembers(run[e].slots[j]);
    NewsIsTold(run[e].slots[j].shown);
  }

  // ---------- one entry, however its readings end

  /** An entry after readings that ended so, one after another. */
  function AfterAll(e: Entry, outcomes: seq<Outcome>, asOf: seq<nat>): Entry
    requires |asOf| == |outcomes|
  {
    if outcomes == [] then e
    else
      var n := |outcomes| - 1;
      Ended(Begun(AfterAll(e, outcomes[..n], asOf[..n])), outcomes[n], asOf[n])
  }

  /** What is shown after them: the answer of the last and its generation, or, where the last failed, its failure and the last
      answer there was among them. */
  lemma {:induction false} ReadingsShow(query: Query, outcomes: seq<Outcome>, asOf: seq<nat>)
    requires |asOf| == |outcomes|
    ensures var shown := AfterAll(Fresh(query), outcomes, asOf).snapshot;
            if outcomes == [] then shown == Loading(None)
            else
              var n := |outcomes| - 1;
              match outcomes[n]
              case Ok(value) => shown == Ready(value, asOf[n])
              case Err(error) => shown.Failed? && shown.error == error && LastAnswer(outcomes, shown.last)
  {
    if outcomes != [] {
      var n := |outcomes| - 1;
      var before := AfterAll(Fresh(query), outcomes[..n], asOf[..n]).snapshot;
      ReadingsShow(query, outcomes[..n], asOf[..n]);
      if n > 0 { assert outcomes[..n][n - 1] == outcomes[n - 1]; }
      if outcomes[n].Err? { LastAnswerStays(outcomes, before); }
    }
  }

  /** `value` is the last answer among the outcomes, or there is none. */
  ghost predicate LastAnswer(outcomes: seq<Outcome>, value: Option<Value>) {
    match value
    case None => forall k :: 0 <= k < |outcomes| ==> outcomes[k].Err?
    case Some(v) =>
      exists k :: 0 <= k < |outcomes| && outcomes[k] == Ok(v) && forall m :: k < m < |outcomes| ==> outcomes[m].Err?
  }

  lemma LastAnswerStays(outcomes: seq<Outcome>, before: Snapshot)
    requires outcomes != [] && outcomes[|outcomes| - 1].Err?
    requires var n := |outcomes| - 1;
             if n == 0 then before == Loading(None)
             else match outcomes[n - 1]
                  case Ok(value) => before.Ready? && before.value == value
                  case Err(_) => before.Failed? && LastAnswer(outcomes[..n], before.last)
    ensures LastAnswer(outcomes, before.Shown())
  {
    var n := |outcomes| - 1;
    if n > 0 && outcomes[n - 1].Err? && before.last.Some? {
      var k :| 0 <= k < n && outcomes[..n][k] == Ok(before.last.value) && forall m :: k < m < n ==> outcomes[..n][m].Err?;
      forall m | k < m < |outcomes| ensures outcomes[m].Err? { assert m < n ==> outcomes[m] == outcomes[..n][m]; }
      assert outcomes[k] == Ok(before.last.value);
    } else if n > 0 && outcomes[n - 1].Err? {
      forall k | 0 <= k < |outcomes| ensures outcomes[k].Err? { assert k < n ==> outcomes[k] == outcomes[..n][k]; }
    } else if n > 0 {
      assert outcomes[n - 1] == Ok(before.value);
    }
  }
}
