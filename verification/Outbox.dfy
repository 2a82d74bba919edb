/** When the outbox of each account is to be tried (crates/mail-client/src/fetch.rs): a pass is asked for at each moment
    a send waits for, in order, and which sends are left out. */
module Outbox {
  import opened Options

  type Account(==, !new)

  /** Milliseconds. */
  const AT_MOST: int := 60000
  const AGAIN: int := 1000

  /** The earliest moment strictly after `after`: what the store is asked for. */
  ghost predicate IsNext(moments: set<int>, after: int, due: Option<int>) {
    match due
    case None => forall m :: m in moments ==> m <= after
    case Some(d) => d in moments && d > after && forall m :: m in moments && m > after ==> d <= m
  }

  // ---------- one look round the accounts

  /** One account looked at: the moment its sends had been asked for up to, what the store said, if it could be
      read, and whether a pass was asked for. */
  datatype Looked = Looked(account: Account, after: int, due: Option<int>, told: bool)

  /** Up to when an account's sends have been asked for. */
  function UpTo(asked: map<Account, int>, began: int, account: Account): int {
    if account in asked then asked[account] else began
  }

  /** Up to when an account's sends have been asked for, after some looks. */
  function AskedAfter(asked: map<Account, int>, began: int, looks: seq<Looked>, account: Account): int {
    if looks == [] then UpTo(asked, began, account)
    else
      var last := looks[|looks| - 1];
      if last.account == account && last.told && last.due.Some? then last.due.value
      else AskedAfter(asked, began, looks[..|looks| - 1], account)
  }

  predicate Tells(due: Option<int>, now: int, busy: bool) {
    due.Some? && due.value <= now && !busy
  }

  /** What has been asked for, after one account's turn. */
  function Turned(asked: map<Account, int>, began: int, account: Account, due: Option<int>, now: int, busy: bool)
    : map<Account, int>
  {
    asked[account := if Tells(due, now, busy) then due.value else UpTo(asked, began, account)]
  }

  /** A wait of `wait` sleeps past nothing that was read. */
  predicate SleepsWell(due: Option<int>, now: int, busy: bool, wait: int) {
    due.Some? ==>
      && (due.value > now ==> wait <= due.value - now)
      && (due.value <= now && busy ==> wait <= AGAIN)
      && (due.value <= now && !busy ==> wait == 0)
  }

  /** How soon a look asks for the next, in milliseconds: at the moment it read, in a second where that is due and the link is
      busy, and at once where a pass was asked for. */
  function Asks(look: Looked, now: int): Option<int> {
    match look.due
    case None => None
    case Some(moment) => Some(if moment > now then moment - now else if look.told then 0 else 1_000)
  }

  /** The wait is the shortest that any look asks for, and a minute at most. */
  ghost predicate IsWait(looks: seq<Looked>, now: int, wait: int) {
    && 0 <= wait <= 60_000
    && (forall i :: 0 <= i < |looks| && Asks(looks[i], now).Some? ==> wait <= Asks(looks[i], now).value)
    && (wait == 60_000 || exists i :: 0 <= i < |looks| && Asks(looks[i], now) == Some(wait))
  }

  lemma WaitMore(looks: seq<Looked>, look: Looked, now: int, wait: int, wait': int)
    requires IsWait(looks, now, wait)
    requires wait' == match Asks(look, now) case None => wait case Some(w) => if w < wait then w else wait
    requires Asks(look, now).Some? ==> Asks(look, now).value >= 0
    ensures IsWait(looks + [look], now, wait')
  {
    var more := looks + [look];
    forall i | 0 <= i < |more| && Asks(more[i], now).Some? ensures wait' <= Asks(more[i], now).value {
      assert i < |looks| ==> more[i] == looks[i];
    }
    if wait' != 60_000 {
      if wait' == wait && (Asks(look, now).None? || Asks(look, now).value >= wait) {
        var i :| 0 <= i < |looks| && Asks(looks[i], now) == Some(wait);
        assert more[i] == looks[i];
      } else {
        assert more[|looks|] == look;
      }
    }
  }

  /** One account's turn. */
  method Turn(account: Account, asked: map<Account, int>, began: int, wait: int, now: int,
              next: (Account, int) -> Option<int>, busy: Account -> bool)
    returns (asked': map<Account, int>, wait': int, look: Looked)
    requires 0 <= wait <= AT_MOST
    ensures look.account == account && look.after == UpTo(asked, began, account)
    ensures look.due == next(account, look.after) && look.told == Tells(look.due, now, busy(account))
    ensures asked' == Turned(asked, began, account, look.due, now, busy(account))
    ensures 0 <= wait' <= wait && SleepsWell(look.due, now, busy(account), wait')
    ensures wait' == match Asks(look, now) case None => wait case Some(w) => if w < wait then w else wait
  {
    asked', wait' := asked, wait;
    if account !in asked' {
      asked' := asked'[account := began];
    }
    var after := asked'[account];
    var due := next(account, after);
    look := Looked(account, after, due, false);
    if due.Some? {
      if due.value > now {
        wait' := if wait' < due.value - now then wait' else due.value - now;
      } else if busy(account) {
        wait' := if wait' < AGAIN then wait' else AGAIN;
      } else {
        look := look.(told := true);
        asked' := asked'[account := due.value];
        wait' := 0;
      }
    }
  }

  /** A look is right: made after everything asked for so far, it tells exactly when a moment is due and the link is
      not busy, and nothing it read is slept past. */
  predicate RightLook(asked: map<Account, int>, began: int, looks: seq<Looked>, i: nat, now: int,
                      next: (Account, int) -> Option<int>, busy: Account -> bool, wait: int)
    requires i < |looks|
  {
    var look := looks[i];
    && look.after == AskedAfter(asked, began, looks[..i], look.account)
    && look.due == next(look.account, look.after)
    && look.told == Tells(look.due, now, busy(look.account))
    && SleepsWell(look.due, now, busy(look.account), wait)
  }

  lemma StaysRight(asked: map<Account, int>, began: int, looks: seq<Looked>, more: Looked, i: nat, now: int,
                   next: (Account, int) -> Option<int>, busy: Account -> bool, wait: int, wait': int)
    requires i < |looks| && RightLook(asked, began, looks, i, now, next, busy, wait) && 0 <= wait' <= wait
    ensures RightLook(asked, began, looks + [more], i, now, next, busy, wait')
  {
    assert (looks + [more])[..i] == looks[..i];
  }

  /** Look at each account once. `next` is the store's answer, `None` where there is none or it could not be read. */
  method Round(now: int, accounts: seq<Account>, asked: map<Account, int>, began: int,
               next: (Account, int) -> Option<int>, busy: Account -> bool)
    returns (asked': map<Account, int>, wait: int, looks: seq<Looked>)
    ensures IsWait(looks, now, wait)
    ensures |looks| == |accounts| && forall i :: 0 <= i < |looks| ==> looks[i].account == accounts[i]
    ensures forall i :: 0 <= i < |looks| ==> RightLook(asked, began, looks, i, now, next, busy, wait)
    ensures forall a :: UpTo(asked', began, a) == AskedAfter(asked, began, looks, a)
  {
    asked', wait, looks := asked, AT_MOST, [];
    for i := 0 to |accounts|
      invariant 0 <= wait <= AT_MOST && IsWait(looks, now, wait)
      invariant |looks| == i && forall k :: 0 <= k < i ==> looks[k].account == accounts[k]
      invariant forall k :: 0 <= k < i ==> RightLook(asked, began, looks, k, now, next, busy, wait)
      invariant forall a :: UpTo(asked', began, a) == AskedAfter(asked, began, looks, a)
    {
      ghost var before, slept := looks, wait;
      var look;
      asked', wait, look := Turn(accounts[i], asked', began, wait, now, next, busy);
      WaitMore(before, look, now, slept, wait);
      looks := looks + [look];
      assert looks[..i] == before;
      forall k | 0 <= k < i ensures RightLook(asked, began, looks, k, now, next, busy, wait) {
        StaysRight(asked, began, before, look, k, now, next, busy, slept, wait);
      }
    }
  }

  // ---------- every run

  datatype State = State(
    clock: int,
    began: int,
    queued: map<Account, set<int>>,      // moments of sends nobody has tried
    asked: map<Account, int>,
    told: map<Account, seq<int>>)        // the moments each account was asked for a pass at

  datatype Step =
    | Tick(clock: int)
    | Queue(account: Account, moment: int)
    | Leave(account: Account, moment: int)
    | Look(account: Account, now: int, due: Option<int>, readable: bool, busy: bool)

  function Queued(s: State, a: Account): set<int> {
    if a in s.queued then s.queued[a] else {}
  }

  function Asked(s: State, a: Account): int {
    UpTo(s.asked, s.began, a)
  }

  function Told(s: State, a: Account): seq<int> {
    if a in s.told then s.told[a] else []
  }

  predicate Init(s: State) {
    && s.clock == s.began && s.asked == map[] && s.told == map[]
  }

  /** One account's turn: `now` is the clock as the round began. */
  ghost predicate LookStep(s: State, s': State, a: Account, now: int, due: Option<int>, readable: bool, busy: bool) {
    && s.began <= now <= s.clock
    && (readable ==> IsNext(Queued(s, a), Asked(s, a), due))
    && (!readable ==> due.None?)
    && s' == s.(asked := Turned(s.asked, s.began, a, due, now, busy),
                told := if Tells(due, now, busy) then s.told[a := Told(s, a) + [due.value]] else s.told)
  }

  ghost predicate Next(s: State, s': State, step: Step) {
    match step
    case Tick(clock) => clock >= s.clock && s' == s.(clock := clock)
    case Queue(a, m) => s' == s.(queued := s.queued[a := Queued(s, a) + {m}])
    case Leave(a, m) => s' == s.(queued := s.queued[a := Queued(s, a) - {m}])
    case Look(a, now, due, readable, busy) => LookStep(s, s', a, now, due, readable, busy)
  }

  ghost predicate IsRun(run: seq<State>, steps: seq<Step>) {
    && |run| == |steps| + 1 && Init(run[0])
    && forall i {:trigger steps[i]} :: 0 <= i < |steps| ==> Next(run[i], run[i + 1], steps[i])
  }

  predicate Ascending(ms: seq<int>) {
    forall i, k :: 0 <= i < k < |ms| ==> ms[i] < ms[k]
  }

  /** What is told of an account is in order, between the beginning and now, and its last is what was asked up to. */
  ghost predicate InOrder(s: State, a: Account) {
    var told := Told(s, a);
    && Ascending(told)
    && (forall i :: 0 <= i < |told| ==> s.began < told[i] <= s.clock)
    && Asked(s, a) == (if told == [] then s.began else told[|told| - 1])
  }

  ghost predicate Inv(s: State) {
    s.began <= s.clock && forall a :: InOrder(s, a)
  }

  lemma InvNext(s: State, s': State, step: Step)
    requires Inv(s) && Next(s, s', step)
    ensures Inv(s')
  {
    forall a ensures InOrder(s', a) {
      assert InOrder(s, a);
    }
  }

  lemma {:induction false} InvRun(run: seq<State>, steps: seq<Step>, i: nat)
    requires IsRun(run, steps) && i < |run|
    ensures Inv(run[i])
  {
    if i > 0 {
      InvRun(run, steps, i - 1);
      InvNext(run[i - 1], run[i], steps[i - 1]);
    } else {
      forall a ensures InOrder(run[0], a) {}
    }
  }

  /** Wake-ups. In every run, the moments an account is asked for a pass at strictly increase, each after the fetching
      began and due when it was told; and none is told while its link is busy. */
  lemma WakesInOrder(run: seq<State>, steps: seq<Step>, a: Account)
    requires IsRun(run, steps)
    ensures var s := run[|steps|];
            Ascending(Told(s, a)) && forall i :: 0 <= i < |Told(s, a)| ==> s.began < Told(s, a)[i] <= s.clock
    ensures forall i :: 0 <= i < |steps| && Told(run[i + 1], a) != Told(run[i], a) ==>
              && steps[i].Look? && steps[i].account == a && !steps[i].busy
              && steps[i].due.Some? && steps[i].due.value <= steps[i].now
              && Told(run[i + 1], a) == Told(run[i], a) + [steps[i].due.value]
  {
    InvRun(run, steps, |steps|);
    assert InOrder(run[|steps|], a);
    forall i | 0 <= i < |steps| && Told(run[i + 1], a) != Told(run[i], a)
      ensures steps[i].Look? && steps[i].account == a && !steps[i].busy && steps[i].due.Some?
              && steps[i].due.value <= steps[i].now
              && Told(run[i + 1], a) == Told(run[i], a) + [steps[i].due.value]
    {
      assert Next(run[i], run[i + 1], steps[i]);
    }
  }

  /** What is due is told: a look that can read what is queued, of a link that is not busy, asks for a pass at the earliest moment
      queued that the account has not been asked past, if that has come. */
  lemma DueIsTold(run: seq<State>, steps: seq<Step>, k: nat, a: Account, now: int, due: Option<int>, m: int)
    requires IsRun(run, steps) && k < |steps| && steps[k] == Look(a, now, due, true, false)
    requires m in Queued(run[k], a) && Asked(run[k], a) < m <= now
    requires forall l :: l in Queued(run[k], a) && l > Asked(run[k], a) ==> m <= l
    ensures TellsAt(run, k, a, m) && Asked(run[k + 1], a) == m
  {
    assert Next(run[k], run[k + 1], steps[k]);
  }

  /** Step `k` asks account `a` for a pass at moment `m`. */
  ghost predicate TellsAt(run: seq<State>, k: nat, a: Account, m: int)
    requires k + 1 < |run|
  {
    Told(run[k + 1], a) == Told(run[k], a) + [m]
  }

  /** One step asks past a moment that stays queued exactly by telling it. */
  lemma CrossesByTelling(run: seq<State>, steps: seq<Step>, k: nat, a: Account, m: int)
    requires IsRun(run, steps) && k < |steps| && m in Queued(run[k], a)
    ensures Asked(run[k], a) <= Asked(run[k + 1], a)
    ensures TellsAt(run, k, a, m) <==> Asked(run[k], a) < m <= Asked(run[k + 1], a)
  {
    assert Next(run[k], run[k + 1], steps[k]);
    assert TellsAt(run, k, a, m) ==> Told(run[k + 1], a)[|Told(run[k], a)|] == m;
  }

  /** No send is passed over but one queued late. Of a moment that is queued at every state from `i` to `e`, its account is
      asked for a pass at it in between exactly when the account had not been asked past it at the first and has been at
      the last: so it is told as it is passed, unless it was passed when it was queued, and then it never is. */
  lemma {:induction false} PassedOverExactly(run: seq<State>, steps: seq<Step>, a: Account, m: int, i: nat, e: nat)
    requires IsRun(run, steps) && i <= e < |run| && forall k :: i <= k <= e ==> m in Queued(run[k], a)
    ensures (exists k :: i <= k < e && TellsAt(run, k, a, m)) <==> Asked(run[i], a) < m <= Asked(run[e], a)
    ensures Asked(run[i], a) <= Asked(run[e], a)
    decreases e
  {
    if i < e {
      PassedOverExactly(run, steps, a, m, i, e - 1);
      CrossesByTelling(run, steps, e - 1, a, m);
    }
  }

  /** A send queued for a moment its account has been asked past, or for that very moment, is not told for as long as it
      is queued. */
  lemma LateIsNeverTold(run: seq<State>, steps: seq<Step>, a: Account, m: int, i: nat, e: nat)
    requires IsRun(run, steps) && i < e < |run| && steps[i] == Queue(a, m) && m <= Asked(run[i], a)
    requires forall k :: i < k <= e ==> m in Queued(run[k], a)
    ensures forall k :: i < k < e ==> !TellsAt(run, k, a, m)
  {
    assert Next(run[i], run[i + 1], steps[i]);
    PassedOverExactly(run, steps, a, m, i + 1, e);
  }

  /** Such sends there are: once an account was asked for a pass at moment 8, any queued for then or earlier. */
  lemma LateRun(a: Account, m: int) returns (run: seq<State>, steps: seq<Step>)
    requires m <= 8
    ensures IsRun(run, steps) && |steps| == 5 && steps[4] == Queue(a, m)
    ensures m <= Asked(run[4], a) && m in Queued(run[5], a)
  {
    var s0 := State(0, 0, map[], map[], map[]);
    var s1 := s0.(clock := 10);
    var s2 := s1.(queued := s1.queued[a := Queued(s1, a) + {8}]);
    var s3 := s2.(asked := Turned(s2.asked, 0, a, Some(8), 10, false), told := s2.told[a := Told(s2, a) + [8]]);
    var s4 := s3.(queued := s3.queued[a := Queued(s3, a) - {8}]);
    var s5 := s4.(queued := s4.queued[a := Queued(s4, a) + {m}]);
    run := [s0, s1, s2, s3, s4, s5];
    steps := [Tick(10), Queue(a, 8), Look(a, 10, Some(8), true, false), Leave(a, 8), Queue(a, m)];
    assert Queued(s2, a) == {8};
    assert LookStep(s2, s3, a, 10, Some(8), true, false);
    forall i | 0 <= i < |steps| ensures Next(run[i], run[i + 1], steps[i]) {
      if i == 0 {} else if i == 1 {} else if i == 2 {} else if i == 3 {} else { assert i == 4; }
    }
  }

  /** A send queued for a moment still to come is told as it is passed. */
  lemma FutureIsTold(run: seq<State>, steps: seq<Step>, a: Account, m: int, i: nat, e: nat)
    requires IsRun(run, steps) && i < e < |run| && steps[i] == Queue(a, m) && m > run[i].clock
    requires (forall k :: i < k <= e ==> m in Queued(run[k], a)) && m <= Asked(run[e], a)
    ensures exists k :: i < k < e && TellsAt(run, k, a, m)
  {
    InvRun(run, steps, i);
    assert InOrder(run[i], a);
    assert Next(run[i], run[i + 1], steps[i]);
    PassedOverExactly(run, steps, a, m, i + 1, e);
  }
}
