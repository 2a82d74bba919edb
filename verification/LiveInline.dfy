/** The client with no threads (`Client::inline`): a value is read by whoever asks for it, and commits wait until
    `Settle` is called. */
module LiveInline {
  import opened Options
  import opened LiveEntry
  import opened LiveProtocol
  import opened LiveFreshness
  import opened LiveAtRest

  class InlineClient {
    const p: Program
    var db: Db
    var clock: Time
    var generation: nat
    /** The commits not acted on yet. */
    var heard: seq<Topics>
    /** Every entry made, and how many `Live`s hold each. */
    var entries: seq<LiveEntry>
    var lives: seq<nat>

    /** Nothing waits or runs between calls, and a value held is current but for the commits not acted on. */
    ghost predicate Valid()
      reads this, entries
    {
      && Declared(p) && |lives| == |entries| && Apart()
      && (forall j :: 0 <= j < |entries| ==> Rests(entries[j].View()))
      && (forall j :: 0 <= j < |entries| && lives[j] > 0 ==> Kept(entries[j].View()))
    }

    ghost predicate Apart()
      reads this
    {
      forall i, k :: 0 <= i < k < |entries| ==> entries[i] != entries[k]
    }

    /** The entry's value is the answer as of now, unless a commit not acted on touched it. */
    ghost predicate Kept(e: Entry)
      reads this
    {
      Touched(heard, p.topics(e.query)) || Current(e)
    }

    ghost predicate Current(e: Entry)
      reads this
    {
      IsCurrent(p, db, clock, e)
    }

    constructor (p: Program, db: Db, clock: Time)
      requires Declared(p)
      ensures Valid() && heard == [] && entries == [] && this.p == p && this.db == db && this.clock == clock
    {
      this.p, this.db, this.clock := p, db, clock;
      generation, heard, entries, lives := 0, [], [], [];
    }

    /** The store commits, somewhere: what it touched waits to be acted on. */
    method Commit(topics: Topics, db': Db)
      requires Valid() && Leaves(p, db, db', Declares(topics))
      modifies `heard, `db, `generation
      ensures Valid() && heard == old(heard) + [Declares(topics)] && db == db' && generation == old(generation) + 1
    {
      heard := heard + [Declares(topics)];
      db := db';
      generation := generation + 1;
      forall j | 0 <= j < |entries| && lives[j] > 0 ensures Kept(entries[j].View()) {
        TouchedMore(old(heard), Declares(topics), p.topics(entries[j].query));
        assert old(Kept(entries[j].View()));
      }
    }

    /** One reading: the answer as of now, or a failure, which may come at any time. */
    method ReadNow(q: Query) returns (answer: Outcome)
      ensures answer.Ok? ==> answer.value == p.answer(q, db, clock)
    {
      var fails: bool := *;
      if fails {
        var error: Error := *;
        return Err(error);
      }
      return Ok(p.answer(q, db, clock));
    }

    /** Entry `j` is read here, over again while it asks to be: which, nobody marking it meanwhile, is once. */
    method Enqueue(j: nat)
      requires j < |entries| && !entries[j].again
      modifies entries[j]
      ensures Rests(entries[j].View()) && Current(entries[j].View()) && ReadAt(entries[j].View(), generation)
      ensures entries[j].read == old(entries[j].read) + 1
    {
      var more := true;
      while more
        invariant !entries[j].again
        invariant more ==> entries[j].read == old(entries[j].read)
        invariant !more ==> Rests(entries[j].View()) && Current(entries[j].View()) && ReadAt(entries[j].View(), generation)
                            && entries[j].read == old(entries[j].read) + 1
        decreases more
      {
        var answer := ReadNow(entries[j].query);
        more := entries[j].Run(answer, generation);
      }
    }

    /** The held entries whose query names one of the topics are read, and no other is touched. */
    method Invalidate(topics: Topics)
      requires |lives| == |entries| && Apart() && forall j :: 0 <= j < |entries| ==> Rests(entries[j].View())
      modifies entries
      ensures forall j :: 0 <= j < |entries| ==> Rests(entries[j].View())
      ensures forall j :: 0 <= j < |entries| ==>
                if lives[j] > 0 && Meets(topics, p.topics(entries[j].query))
                then Current(entries[j].View()) && ReadAt(entries[j].View(), generation)
                else entries[j].View() == old(entries[j].View())
    {
      var k := 0;
      while k < |entries|
        invariant k <= |entries|
        invariant forall j :: 0 <= j < |entries| ==> Rests(entries[j].View())
        invariant forall j :: 0 <= j < k ==>
                    if lives[j] > 0 && Meets(topics, p.topics(entries[j].query))
                    then Current(entries[j].View()) && ReadAt(entries[j].View(), generation)
                    else entries[j].View() == old(entries[j].View())
        invariant forall j :: k <= j < |entries| ==> entries[j].View() == old(entries[j].View())
      {
        if lives[k] > 0 && Meets(topics, p.topics(entries[k].query)) {
          var enqueue := entries[k].Stale();
          if enqueue {
            Enqueue(k);
          }
        }
        k := k + 1;
      }
    }

    /** Nothing is left unheard, and every value held is what its query answers now. */
    method Settle()
      requires Valid()
      modifies `heard, entries
      ensures Valid() && heard == []
      ensures forall j :: 0 <= j < |entries| && lives[j] > 0 ==> Current(entries[j].View())
      ensures forall j :: 0 <= j < |entries| ==>
                if lives[j] > 0 && Touched(old(heard), p.topics(entries[j].query)) then ReadAt(entries[j].View(), generation)
                else entries[j].View() == old(entries[j].View())
    {
      var topics: Topics := {};
      var k := 0;
      while k < |heard|
        invariant k <= |heard|
        invariant forall q: Topics :: Meets(topics, q) <==> Touched(heard[..k], q)
      {
        assert heard[..k + 1] == heard[..k] + [heard[k]];
        forall q: Topics ensures Meets(topics + heard[k], q) <==> Touched(heard[..k + 1], q) {
          MeetsUnion(topics, heard[k], q);
          TouchedMore(heard[..k], heard[k], q);
        }
        topics := topics + heard[k];
        k := k + 1;
      }
      assert heard[..k] == heard;
      heard := [];
      if topics != {} {
        Invalidate(topics);
      }
      forall j | 0 <= j < |entries| && lives[j] > 0 ensures Current(entries[j].View()) {
        assert Meets(topics, p.topics(entries[j].query)) <==> Touched(old(heard), p.topics(entries[j].query));
        assert old(Kept(entries[j].View()));
      }
    }

    /** The clock is another from now on, and what reads it is read again. */
    method SetClock(clock': Time)
      requires Valid()
      modifies `clock, entries
      ensures Valid() && clock == clock'
      ensures heard == [] ==> forall j :: 0 <= j < |entries| && lives[j] > 0 ==> Current(entries[j].View())
      ensures forall j :: 0 <= j < |entries| ==>
                if lives[j] > 0 && Meets({Clock}, p.topics(entries[j].query)) then ReadAt(entries[j].View(), generation)
                else entries[j].View() == old(entries[j].View())
    {
      clock := clock';
      Invalidate({Clock});
      forall j | 0 <= j < |entries| && lives[j] > 0 ensures Kept(entries[j].View()) {
        assert old(Kept(entries[j].View()));
        ClockMoved(p, db, old(clock), clock, old(entries[j].View()));
      }
    }

    /** The value `q` answers, kept read: one someone holds, as it stands, or a new one read now. */
    method Live(q: Query) returns (j: nat)
      requires Valid() && Unshared()
      modifies `entries, `lives
      ensures Valid() && Unshared() && j < |entries| && entries[j].query == q && lives[j] > 0
      ensures if exists k :: 0 <= k < |old(entries)| && old(lives)[k] > 0 && old(entries)[k].query == q
              then entries == old(entries) && j < |old(lives)| && lives == old(lives)[j := old(lives)[j] + 1] && old(lives)[j] > 0
              else entries == old(entries) + [entries[j]] && lives == old(lives) + [1] && fresh(entries[j])
                   && Current(entries[j].View()) && ReadAt(entries[j].View(), generation)
    {
      var k := 0;
      while k < |entries|
        invariant k <= |entries|
        invariant forall i :: 0 <= i < k ==> !(lives[i] > 0 && entries[i].query == q)
      {
        if lives[k] > 0 && entries[k].query == q {
          lives := lives[k := lives[k] + 1];
          return k;
        }
        k := k + 1;
      }
      var entry := new LiveEntry(q);
      j := |entries|;
      entries, lives := entries + [entry], lives + [1];
      Enqueue(j);
    }

    /** No two entries held are of equal queries. */
    ghost predicate Unshared()
      reads this, entries
      requires |lives| == |entries|
    {
      forall i, k :: 0 <= i < k < |entries| && lives[i] > 0 && lives[k] > 0 ==> entries[i].query != entries[k].query
    }

    method Drop(j: nat)
      requires Valid() && j < |entries| && lives[j] > 0
      modifies `lives
      ensures Valid() && lives == old(lives)[j := old(lives)[j] - 1]
    {
      lives := lives[j := lives[j] - 1];
      forall i | 0 <= i < |entries| && lives[i] > 0 ensures Kept(entries[i].View()) {
        assert old(lives)[i] > 0 && old(Kept(entries[i].View()));
      }
    }
  }

  /** One of these commits touched something a query reads. */
  predicate Touched(heard: seq<Topics>, topics: Topics) {
    exists i :: 0 <= i < |heard| && Meets(heard[i], topics)
  }

  lemma TouchedMore(heard: seq<Topics>, more: Topics, topics: Topics)
    ensures Touched(heard + [more], topics) <==> Touched(heard, topics) || Meets(more, topics)
  {
    if Meets(more, topics) { assert Meets((heard + [more])[|heard|], topics); }
    if i :| 0 <= i < |heard| && Meets(heard[i], topics) { assert Meets((heard + [more])[i], topics); }
  }

  /** The entry has been read, and says this generation if it was answered. */
  predicate ReadAt(e: Entry, generation: nat) {
    !e.snapshot.Loading? && (e.snapshot.Ready? ==> e.snapshot.asOf == generation)
  }

  /** A value shown is the answer as of this database and clock. */
  predicate IsCurrent(p: Program, db: Db, clock: Time, e: Entry) {
    !e.snapshot.Loading? && (e.snapshot.Ready? ==> e.snapshot.value == p.answer(e.query, db, clock))
  }

  /** What does not read the clock is as current after it is moved. */
  lemma ClockMoved(p: Program, db: Db, clock: Time, clock': Time, e: Entry)
    requires Declared(p)
    ensures IsCurrent(p, db, clock, e) && !Meets({Clock}, p.topics(e.query)) ==> IsCurrent(p, db, clock', e)
  {
    SharedMeets({Clock}, p.topics(e.query), Clock);
  }

  /** An entry neither queued nor being read. */
  predicate Rests(e: Entry) {
    !e.queued && !e.running && !e.again
  }

  /** Threaded refines inline. Where a threaded client's run has come to the same database and clock as an
      inline client has settled at, and is settled itself, the two show the same value for an equal query, if
      both read it and no clock was moved as the threaded one's reading was about to begin. */
  lemma ThreadedShowsInline(p: Program, run: seq<State>, steps: seq<Step>, j: nat, inline: InlineClient, k: nat)
    requires Declared(p) && IsRun(p, run, steps) && Settled(run[|steps|])
    requires j < |run[|steps|].slots| && run[|steps|].slots[j].lives > 0
    requires inline.p == p && inline.Valid() && inline.heard == []
    requires k < |inline.entries| && inline.lives[k] > 0
    requires run[|steps|].worlds != [] && run[|steps|].worlds[|run[|steps|].worlds| - 1] == World(inline.db, inline.clock)
    requires inline.entries[k].query == run[|steps|].slots[j].entry.query
    requires inline.entries[k].snapshot.Ready? && run[|steps|].slots[j].entry.snapshot.Ready?
    requires var s, slot := run[|steps|], run[|steps|].slots[j];
             Clock !in p.topics(slot.entry.query) || (slot.last.Some? && ClockKept(s, slot.last.value))
    ensures run[|steps|].slots[j].entry.snapshot.value == inline.entries[k].snapshot.value
  {
    NoLostInvalidation(p, run, steps, j);
    assert inline.Kept(inline.entries[k].View());
  }
}
