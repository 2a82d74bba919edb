/** No invalidation is lost: an entry something has touched since its reading began is queued,
    marked to be read again, or still to be marked by something on its way. */
module LiveFreshness {
  import opened LiveEntry
  import opened LiveProtocol
  import opened LiveOwnership

  /** The topics entry `j`'s query reads. */
  function TopicsOf(p: Program, s: State, j: nat): Topics
    requires j < |s.slots|
  {
    p.topics(s.slots[j].entry.query)
  }

  /** Something that touches `topics` happened since the world had changed `from` times. */
  ghost predicate TouchedSince(s: State, from: nat, topics: Topics) {
    exists i :: from <= i < |s.touched| && Meets(s.touched[i], topics)
  }

  /** A thread will come to mark `j`. */
  predicate WillMark(pc: Pc, j: nat, topics: Topics) {
    match pc
    case Owing(owed) => Meets(owed, topics)
    case Marking(todo) => j in todo
    case Adding(_, next) => next.ToMarking? && j in next.todo
    case Pushing(_, next) => next.ToMarking? && j in next.todo
    case _ => false
  }

  /** Something on its way will come to mark `j`: a commit not sent, sent or heard, another
      process's commit not looked at, or a thread at its invalidation. */
  ghost predicate OnItsWay(s: State, j: nat, topics: Topics) {
    || (!s.writer.Free? && Meets(s.writer.topics, topics))
    || (s.seen != s.version && topics != {})
    || (exists i :: 0 <= i < |s.channel| && Meets(s.channel[i], topics))
    || (exists t :: 0 <= t < |s.threads| && WillMark(s.threads[t], j, topics))
  }

  predicate WillRead(e: Entry) {
    e.queued || (e.running && e.again)
  }

  ghost predicate FreshOrOnItsWay(p: Program, s: State, j: nat)
    requires j < |s.slots|
  {
    var topics := TopicsOf(p, s, j);
    TouchedSince(s, s.slots[j].begun, topics) ==> WillRead(s.slots[j].entry) || OnItsWay(s, j, topics)
  }

  /** For every entry held, while the client runs: nothing that touched it is forgotten, nor any
      mark made. */
  ghost predicate NothingLost(p: Program, s: State) {
    && s.seen <= s.version
    && (!s.stopping ==> forall j: nat :: Alive(s, j) ==> FreshOrOnItsWay(p, s, j))
    && (!s.stopping ==> forall j: nat :: Alive(s, j) ==> MarksServed(s.slots[j]))
  }

  predicate MarksServed(slot: Slot) {
    slot.served <= slot.marks && (slot.served < slot.marks ==> WillRead(slot.entry))
  }

  /** Every topic is one of all. */
  lemma AllMeets(topics: Topics)
    ensures Meets(ALL, topics) <==> topics != {}
  {
    if topics != {} {
      var topic :| topic in topics;
      assert topic in ALL * topics;
    }
  }

  lemma MeetsUnion(a: Topics, b: Topics, c: Topics)
    ensures Meets(a + b, c) <==> Meets(a, c) || Meets(b, c)
  {
    assert (a + b) * c == a * c + b * c;
  }

  /** What is on its way stays so while the threads keep what they are to mark, what is sent is
      not heard, and what the writer holds is held or sent. */
  lemma OnItsWayFrame(s: State, s': State, j: nat, topics: Topics)
    requires OnItsWay(s, j, topics)
    requires |s'.threads| == |s.threads| && s.channel <= s'.channel
    requires forall u :: 0 <= u < |s.threads| && WillMark(s.threads[u], j, topics) ==> WillMark(s'.threads[u], j, topics)
    requires !s.writer.Free? && Meets(s.writer.topics, topics) ==>
               || (!s'.writer.Free? && Meets(s'.writer.topics, topics))
               || (|s'.channel| > 0 && Meets(s'.channel[|s'.channel| - 1], topics))
    requires s.seen != s.version && topics != {} ==> s'.seen != s'.version
    ensures OnItsWay(s', j, topics)
  {
    if u :| 0 <= u < |s.threads| && WillMark(s.threads[u], j, topics) {
      assert WillMark(s'.threads[u], j, topics);
    } else if i :| 0 <= i < |s.channel| && Meets(s.channel[i], topics) {
      assert Meets(s'.channel[i], topics);
    }
  }

  lemma FreshOutside(p: Program, s: State, s': State, t: nat, step: Around)
    requires NothingLost(p, s) && OutsideNext(p, s, s', t, step)
    ensures NothingLost(p, s')
  {
    if !s'.stopping {
      forall j: nat | Alive(s', j) ensures FreshOrOnItsWay(p, s', j) && MarksServed(s'.slots[j]) {
        NoRevivalOutside(p, s, s', t, step, j);
        assert FreshOrOnItsWay(p, s, j) && MarksServed(s.slots[j]);
        var topics := TopicsOf(p, s, j);
        AllMeets(topics);
        if step.Commit? && s.writer.Committed? { MeetsUnion(Declares(step.topics), s.writer.topics, topics); }
        if OnItsWay(s, j, topics) { OnItsWayFrame(s, s', j, topics); }
      }
    }
  }

  lemma FreshMarks(p: Program, s: State, s': State, t: nat, step: Marker)
    requires NothingLost(p, s) && MarksNext(p, s, s', t, step)
    ensures NothingLost(p, s')
  {
    if !s'.stopping {
      forall j: nat | Alive(s', j) ensures FreshOrOnItsWay(p, s', j) && MarksServed(s'.slots[j]) {
        if j < |s.slots| {
          NoRevivalMarks(p, s, s', t, step, j);
          assert FreshOrOnItsWay(p, s, j) && MarksServed(s.slots[j]);
          var topics := TopicsOf(p, s, j);
          assert step.MoveClock? && Meets({Clock}, topics) ==> WillMark(s'.threads[t], j, topics);
          if OnItsWay(s, j, topics) && !(step.Mark? && s.threads[t].todo[0] == j) {
            MarkerKeepsOnItsWay(p, s, s', t, step, j, topics);
          }
        }
      }
    }
  }

  /** A marker's step leaves on its way all that was, but the one entry it marks. */
  lemma MarkerKeepsOnItsWay(p: Program, s: State, s': State, t: nat, step: Marker, j: nat, topics: Topics)
    requires MarksNext(p, s, s', t, step) && Alive(s, j) && topics == TopicsOf(p, s, j)
    requires OnItsWay(s, j, topics) && !(step.Mark? && s.threads[t].todo[0] == j)
    ensures OnItsWay(s', j, topics)
  {
    AllMeets(topics);
    match step {
      case Hear =>
        var more := if s.threads[t].Owing? then s.threads[t].topics else {};
        MeetsUnion(more, s.channel[0], topics);
        if i :| 0 <= i < |s.channel| && Meets(s.channel[i], topics) {
          if i > 0 { assert Meets(s'.channel[i - 1], topics); } else { assert WillMark(s'.threads[t], j, topics); }
        } else if u :| 0 <= u < |s.threads| && WillMark(s.threads[u], j, topics) {
          assert WillMark(s'.threads[u], j, topics);
        }
      case Look =>
        if topics != {} { assert WillMark(s'.threads[t], j, topics); } else { OnItsWayFrame(s, s', j, topics); }
      case Mark =>
        assert s.threads[t].todo == [s.threads[t].todo[0]] + s.threads[t].todo[1..];
        OnItsWayFrame(s, s', j, topics);
      case _ => OnItsWayFrame(s, s', j, topics);
    }
  }

  lemma FreshReads(p: Program, s: State, s': State, t: nat, step: Reader)
    requires NothingLost(p, s) && ReadsNext(p, s, s', t, step)
    ensures NothingLost(p, s')
  {
    if !s'.stopping {
      forall j: nat | Alive(s', j) ensures FreshOrOnItsWay(p, s', j) && MarksServed(s'.slots[j]) {
        NoRevivalReads(p, s, s', t, step, j);
        assert FreshOrOnItsWay(p, s, j) && MarksServed(s.slots[j]);
        var topics := TopicsOf(p, s, j);
        if OnItsWay(s, j, topics) { OnItsWayFrame(s, s', j, topics); }
      }
    }
  }

  lemma FreshEnds(p: Program, s: State, s': State, t: nat, step: Ender)
    requires NothingLost(p, s) && EndsNext(s, s', t, step)
    ensures NothingLost(p, s')
  {
    if !s'.stopping {
      forall j: nat | Alive(s', j) ensures FreshOrOnItsWay(p, s', j) && MarksServed(s'.slots[j]) {
        NoRevivalEnds(s, s', t, step, j);
        assert FreshOrOnItsWay(p, s, j) && MarksServed(s.slots[j]);
        var topics := TopicsOf(p, s, j);
        if OnItsWay(s, j, topics) { OnItsWayFrame(s, s', j, topics); }
      }
    }
  }
}
