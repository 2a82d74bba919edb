/** The watch on the database file for commits made elsewhere (crates/mail-client/src/external.rs): a look at the data
    version after each write to the file and from time to time, and what is owed to a write that a look could not settle. */
module ExternalWatch {
  import opened Options

  const LOOK_MS: nat := 2000
  const STEADY_MS: nat := 15000
  const OWED_MS: nat := 50

  /** One turn of the looking: whether a write was heard, and what the data version was, if it could be read. */
  datatype Turn = Turn(heard: bool, version: Option<int>)

  /** What the looking keeps: the version it has seen, and whether it owes a look soon. */
  datatype Watch = Watch(seen: Option<int>, owed: bool)

  predicate Moved(seen: Option<int>, turn: Turn) {
    turn.version.Some? && turn.version != seen
  }

  function Step(w: Watch, turn: Turn): Watch {
    Watch(if Moved(w.seen, turn) then turn.version else w.seen,
          match turn.version
          case None => w.owed || turn.heard
          case Some(_) => turn.heard && !Moved(w.seen, turn))
  }

  /** How long to wait for a write before looking. */
  function Every(owed: bool, watched: bool): nat {
    if owed then OWED_MS else if watched then STEADY_MS else LOOK_MS
  }

  /** The watch after some turns. */
  function After(first: Watch, turns: seq<Turn>): Watch {
    if turns == [] then first else Step(After(first, turns[..|turns| - 1]), turns[|turns| - 1])
  }

  function Start(seen: Option<int>): Watch {
    Watch(seen, false)
  }

  // ---------- what it should do, said without its state

  /** The versions that could be read, in order. */
  function Read(turns: seq<Turn>): seq<int> {
    if turns == [] then [] else
    Read(turns[..|turns| - 1]) + match turns[|turns| - 1].version case None => [] case Some(v) => [v]
  }

  /** The last version read, or the one there was at the start. */
  function LastRead(seen: Option<int>, turns: seq<Turn>): Option<int> {
    var read := Read(turns);
    if read == [] then seen else Some(read[|read| - 1])
  }

  /** How often the versions read changed, from the one there was at the start. */
  function Changes(seen: Option<int>, read: seq<int>): nat {
    if read == [] then 0 else
    var last := |read| - 1;
    var before := if last == 0 then seen else Some(read[last - 1]);
    Changes(seen, read[..last]) + if before != Some(read[last]) then 1 else 0
  }

  /** The version seen is always the last that could be read. */
  lemma {:induction false} SeenIsLastRead(seen: Option<int>, turns: seq<Turn>)
    ensures After(Start(seen), turns).seen == LastRead(seen, turns)
  {
    if turns != [] { SeenIsLastRead(seen, turns[..|turns| - 1]); }
  }

  /** And that is the version some turn read, with none after it that could be read, or the one at the start where none could. */
  lemma {:induction false} LastReadIs(seen: Option<int>, turns: seq<Turn>)
    ensures IsLastRead(seen, turns, LastRead(seen, turns))
  {
    if turns != [] {
      var n := |turns| - 1;
      LastReadIs(seen, turns[..n]);
      assert turns == turns[..n] + [turns[n]];
      OneTurnMore(seen, turns[..n], turns[n], LastRead(seen, turns[..n]));
    }
  }

  lemma OneTurnMore(seen: Option<int>, before: seq<Turn>, turn: Turn, version: Option<int>)
    requires IsLastRead(seen, before, version)
    ensures IsLastRead(seen, before + [turn], if turn.version.Some? then turn.version else version)
  {
    var turns := before + [turn];
    if turn.version.Some? {
      assert turns[|before|].version == turn.version;
    } else if j :| 0 <= j < |before| && before[j].version.Some? {
      var k :| 0 <= k < |before| && before[k].version.Some? && before[k].version == version
               && forall m :: k < m < |before| ==> before[m].version.None?;
      assert turns[k] == before[k] && forall m :: k < m < |turns| ==> turns[m].version.None?;
    } else {
      assert forall k :: 0 <= k < |turns| ==> turns[k].version.None?;
    }
  }

  /** The version that some turn read, and none after it could, or the one at the start where none could. */
  ghost predicate IsLastRead(seen: Option<int>, turns: seq<Turn>, version: Option<int>) {
    if forall k :: 0 <= k < |turns| ==> turns[k].version.None? then version == seen
    else exists j :: 0 <= j < |turns| && turns[j].version.Some? && turns[j].version == version
                     && forall k :: j < k < |turns| ==> turns[k].version.None?
  }

  /** The turns that read another version than the last that had been read. */
  function MovedAt(seen: Option<int>, turns: seq<Turn>): set<nat> {
    set i: nat | i < |turns| && turns[i].version.Some? && turns[i].version != LastRead(seen, turns[..i])
  }

  lemma MovedMore(seen: Option<int>, turns: seq<Turn>, i: nat)
    requires i < |turns|
    ensures MovedAt(seen, turns[..i + 1])
         == MovedAt(seen, turns[..i]) + if Moved(LastRead(seen, turns[..i]), turns[i]) then {i} else {}
  {
    forall k: nat | k <= i ensures turns[..i + 1][k] == turns[k] && turns[..i + 1][..k] == turns[..k] {}
    forall k: nat | k < i ensures turns[..i][k] == turns[k] && turns[..i][..k] == turns[..k] {}
  }

  /** The versions read changed at just those turns. */
  lemma {:induction false} ChangesAre(seen: Option<int>, turns: seq<Turn>)
    ensures Changes(seen, Read(turns)) == |MovedAt(seen, turns)|
  {
    if turns == [] {
      assert MovedAt(seen, turns) == {};
    } else {
      var n := |turns| - 1;
      assert turns[..n + 1] == turns;
      ChangesAre(seen, turns[..n]);
      ReadStep(seen, turns, n);
      MovedMore(seen, turns, n);
    }
  }

  /** The looking: it marks everything stale once for each change of the versions it read, and no more. */
  method Look(seen: Option<int>, watched: bool, turns: seq<Turn>)
    returns (now: Option<int>, owed: bool, invalidations: nat, waits: seq<nat>)
    ensures Watch(now, owed) == After(Start(seen), turns)
    ensures now == LastRead(seen, turns)
    ensures invalidations == |MovedAt(seen, turns)| && IsLastRead(seen, turns, now)
    ensures |waits| == |turns|
    ensures forall i :: 0 <= i < |turns| ==>
              waits[i] == if Owes(seen, turns[..i]) then 50 else if watched then 15_000 else 2_000
  {
    now, owed, invalidations, waits := seen, false, 0, [];
    for i := 0 to |turns|
      invariant Watch(now, owed) == After(Start(seen), turns[..i])
      invariant invalidations == Changes(seen, Read(turns[..i]))
      invariant |waits| == i
      invariant forall k :: 0 <= k < i ==> waits[k] == Every(After(Start(seen), turns[..k]).owed, watched)
    {
      waits := waits + [Every(owed, watched)];
      SeenIsLastRead(seen, turns[..i]);
      ReadStep(seen, turns, i);
      assert turns[..i + 1][..i] == turns[..i];
      var version := turns[i].version;
      var moved := version.Some? && version != now;
      owed := match version case None => owed || turns[i].heard case Some(_) => turns[i].heard && !moved;
      if moved {
        now := version;
        invalidations := invalidations + 1;
      }
    }
    assert turns[..|turns|] == turns;
    SeenIsLastRead(seen, turns);
    LastReadIs(seen, turns);
    ChangesAre(seen, turns);
    forall i | 0 <= i < |turns| ensures waits[i] == if Owes(seen, turns[..i]) then 50 else if watched then 15_000 else 2_000 {
      OwedExactly(seen, turns[..i]);
    }
  }

  lemma ReadStep(seen: Option<int>, turns: seq<Turn>, i: nat)
    requires i < |turns|
    ensures Changes(seen, Read(turns[..i + 1])) ==
            Changes(seen, Read(turns[..i])) + if Moved(LastRead(seen, turns[..i]), turns[i]) then 1 else 0
  {
    assert turns[..i + 1][..i] == turns[..i];
    var before, after := Read(turns[..i]), Read(turns[..i + 1]);
    if turns[i].version.Some? {
      assert after == before + [turns[i].version.value];
      assert after[..|before|] == before;
    } else {
      assert after == before;
    }
  }

  // ---------- owing

  /** A write heard at turn `j` has been followed by no look that could read the version, its own among them. */
  predicate Unsettled(turns: seq<Turn>, j: nat) {
    j < |turns| && turns[j].heard && forall k :: j <= k < |turns| ==> turns[k].version.None?
  }

  /** The last look that could read was turn `j`, which heard a write and found nothing moved. */
  predicate Early(seen: Option<int>, turns: seq<Turn>, j: nat) {
    && j < |turns| && turns[j].heard && turns[j].version.Some?
    && turns[j].version == LastRead(seen, turns[..j])
    && forall k :: j < k < |turns| ==> turns[k].version.None?
  }

  ghost predicate Owes(seen: Option<int>, turns: seq<Turn>) {
    (exists j: nat :: Unsettled(turns, j)) || (exists j: nat :: Early(seen, turns, j))
  }

  lemma UnreadSince(before: seq<Turn>, turn: Turn, j: nat)
    requires turn.version.None?
    ensures (forall k :: j <= k <= |before| ==> (before + [turn])[k].version.None?) <==>
              (forall k :: j <= k < |before| ==> before[k].version.None?)
  {
    assert forall k :: 0 <= k < |before| ==> (before + [turn])[k] == before[k];
    if forall k :: j <= k <= |before| ==> (before + [turn])[k].version.None? {
      forall k | j <= k < |before| ensures before[k].version.None? { assert (before + [turn])[k] == before[k]; }
    }
  }

  /** A turn that could not read leaves owed what was, and owes a look to what it heard. */
  lemma OwesUnread(seen: Option<int>, before: seq<Turn>, turn: Turn)
    requires turn.version.None?
    ensures Owes(seen, before + [turn]) <==> Owes(seen, before) || turn.heard
  {
    var turns, n := before + [turn], |before|;
    forall j: nat | j < n ensures Unsettled(turns, j) <==> Unsettled(before, j) { UnreadSince(before, turn, j); }
    forall j: nat | j < n ensures Early(seen, turns, j) <==> Early(seen, before, j) {
      UnreadSince(before, turn, j + 1);
      assert turns[..j] == before[..j];
    }
    assert turn.heard ==> Unsettled(turns, n);
    if j: nat :| Unsettled(before, j) { assert Unsettled(turns, j); }
    if j: nat :| Early(seen, before, j) { assert Early(seen, turns, j); }
  }

  /** One that could owes a look only to what it heard itself, where nothing moved. */
  lemma OwesRead(seen: Option<int>, before: seq<Turn>, turn: Turn)
    requires turn.version.Some?
    ensures Owes(seen, before + [turn]) <==> turn.heard && turn.version == LastRead(seen, before)
  {
    var turns, n := before + [turn], |before|;
    assert turns[n] == turn && turns[..n] == before;
    assert turn.heard && turn.version == LastRead(seen, before) ==> Early(seen, turns, n);
  }

  /** A look is owed exactly when a write was heard that no look since could settle, or the last look that could
      read heard one and found nothing moved. */
  lemma {:induction false} OwedExactly(seen: Option<int>, turns: seq<Turn>)
    ensures After(Start(seen), turns).owed <==> Owes(seen, turns)
  {
    if turns != [] {
      var n := |turns| - 1;
      OwedExactly(seen, turns[..n]);
      SeenIsLastRead(seen, turns[..n]);
      assert turns == turns[..n] + [turns[n]];
      if turns[n].version.None? { OwesUnread(seen, turns[..n], turns[n]); } else { OwesRead(seen, turns[..n], turns[n]); }
    }
  }

  /** A write heard too early gets one more look, soon, and then, if no other is heard, no more of them. */
  lemma EarlyWriteLookedAtOnce(seen: Option<int>, turns: seq<Turn>, next: Turn)
    requires turns != [] && Early(seen, turns, |turns| - 1) && next.version.Some? && !next.heard
    ensures forall watched :: Every(After(Start(seen), turns).owed, watched) == 50
    ensures !After(Start(seen), turns + [next]).owed
  {
    OwedExactly(seen, turns);
    assert (turns + [next])[..|turns|] == turns;
  }

  // ---------- other processes' commits

  /** Turn `i` is taken after `commits[i]` commits of other processes, which the data version tells apart. */
  ghost predicate Observes(start: nat, seen: Option<int>, commits: seq<nat>, turns: seq<Turn>, version: nat -> int) {
    && |commits| == |turns| && seen == Some(version(start))
    && (forall m: nat, n: nat :: version(m) == version(n) ==> m == n)
    && (forall i :: 0 <= i < |turns| && turns[i].version.Some? ==> turns[i].version == Some(version(commits[i])))
    && (forall i :: 0 <= i < |commits| ==> start <= commits[i])
    && (forall i, k :: 0 <= i <= k < |commits| ==> commits[i] <= commits[k])
  }

  /** How many commits there had been by the last look that could read. */
  function CommitsRead(start: nat, commits: seq<nat>, turns: seq<Turn>): nat
    requires |commits| == |turns|
  {
    if turns == [] then start
    else if turns[|turns| - 1].version.Some? then commits[|turns| - 1]
    else CommitsRead(start, commits[..|turns| - 1], turns[..|turns| - 1])
  }

  /** No commit is missed and none is counted twice: everything is marked stale at a look exactly when it could read
      and there were commits since the last that could; and never oftener than there were commits. */
  lemma {:induction false} CommitsHeardOnce(start: nat, seen: Option<int>, commits: seq<nat>, turns: seq<Turn>, version: nat -> int)
    requires Observes(start, seen, commits, turns, version)
    ensures var read := CommitsRead(start, commits, turns);
            && LastRead(seen, turns) == Some(version(read)) && start <= read
            && (commits != [] ==> read <= commits[|commits| - 1])
            && Changes(seen, Read(turns)) <= read - start
    ensures turns != [] ==>
              var n := |turns| - 1;
              Moved(LastRead(seen, turns[..n]), turns[n]) <==>
                turns[n].version.Some? && commits[n] > CommitsRead(start, commits[..n], turns[..n])
    decreases |turns|
  {
    if turns != [] {
      var n := |turns| - 1;
      CommitsHeardOnce(start, seen, commits[..n], turns[..n], version);
      assert turns[..n + 1] == turns;
      ReadStep(seen, turns, n);
    }
  }
}
