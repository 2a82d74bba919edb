/** The relay's per-key object: what it was registered with, who listens, and whether an alert went unheard
    (relay/src/graph.ts).

    An object's calls can come between one another wherever one waits for a hash; from there to its end each runs
    with no other between, its storage being gated. So a call is two steps, and a run is any interleaving of them. */
module Relay {
  import opened Options

  type Text(==, !new)
  /** A SHA-256 in hex, as the code units of its string. */
  type Hash = seq<bv16>

  const FORGET_AFTER_MS: int := 30 * 24 * 60 * 60 * 1000

  /** Whether two strings are the same, each character looked at. */
  method Same(a: Hash, b: Hash) returns (same: bool)
    ensures same <==> a == b
  {
    if |a| != |b| {
      return false;
    }
    var differ: bv16 := 0;
    for i := 0 to |a|
      invariant differ == 0 <==> forall k :: 0 <= k < i ==> a[k] == b[k]
    {
      OrXor(differ, a[i], b[i]);
      differ := differ | (a[i] ^ b[i]);
    }
    same := differ == 0;
  }

  lemma OrXor(d: bv16, x: bv16, y: bv16)
    ensures d | (x ^ y) == 0 <==> d == 0 && x == y
  {
  }

  datatype Registration = Registration(clientStateHash: Hash, listenTokenHash: Hash)

  datatype Notified = Notified(
    subscriptionId: Text, clientState: Text,
    changeType: Option<Text>, resource: Option<Text>, lifecycleEvent: Option<Text>)

  datatype Frame =
    | Lifecycle(subscriptionId: Text, event: Text)
    | Change(subscriptionId: Text, changeType: Option<Text>, resource: Option<Text>)
    | Missed

  function FrameOf(item: Notified): Frame {
    match item.lifecycleEvent
    case Some(event) => Lifecycle(item.subscriptionId, event)
    case None => Change(item.subscriptionId, item.changeType, item.resource)
  }

  /** The frames of the notifications whose client state is the one registered, in order. */
  function Frames(items: seq<Notified>, hash: Hash, sha: Text -> Hash): seq<Frame> {
    if items == [] then [] else
    var last := |items| - 1;
    Frames(items[..last], hash, sha) + if sha(items[last].clientState) == hash then [FrameOf(items[last])] else []
  }

  /** A frame says what a notification does. */
  predicate Says(frame: Frame, item: Notified) {
    if item.lifecycleEvent.Some?
    then frame == Lifecycle(item.subscriptionId, item.lifecycleEvent.value)
    else frame == Change(item.subscriptionId, item.changeType, item.resource)
  }

  /** Which notifications are for the one registered: those whose client state has its hash. */
  function Matching(items: seq<Notified>, hash: Hash, sha: Text -> Hash): set<nat> {
    set i: nat | i < |items| && sha(items[i].clientState) == hash
  }

  /** The matching ones, each once, in the order they are in. */
  ghost predicate InOrder(at: seq<nat>, items: seq<Notified>, hash: Hash, sha: Text -> Hash) {
    && (forall k, l :: 0 <= k < l < |at| ==> at[k] < at[l])
    && (forall i: nat :: i in at <==> i in Matching(items, hash, sha))
  }

  /** The frames are those of these notifications. */
  ghost predicate AreOf(frames: seq<Frame>, items: seq<Notified>, at: seq<nat>) {
    |frames| == |at| && forall k :: 0 <= k < |at| ==> at[k] < |items| && Says(frames[k], items[at[k]])
  }

  lemma MatchingMore(before: seq<Notified>, item: Notified, hash: Hash, sha: Text -> Hash)
    ensures Matching(before + [item], hash, sha)
         == Matching(before, hash, sha) + if sha(item.clientState) == hash then {|before|} else {}
  {
    forall i: nat ensures i in Matching(before + [item], hash, sha) <==>
                            i in Matching(before, hash, sha) || (i == |before| && sha(item.clientState) == hash) {}
  }

  lemma OrderMore(at: seq<nat>, before: seq<Notified>, item: Notified, hash: Hash, sha: Text -> Hash)
    requires InOrder(at, before, hash, sha)
    ensures InOrder(at + if sha(item.clientState) == hash then [|before|] else [], before + [item], hash, sha)
  {
    MatchingMore(before, item, hash, sha);
    forall k | 0 <= k < |at| ensures at[k] < |before| { assert at[k] in Matching(before, hash, sha); }
  }

  lemma FramesMore(frames: seq<Frame>, before: seq<Notified>, item: Notified, at: seq<nat>, sent: bool)
    requires AreOf(frames, before, at)
    ensures AreOf(frames + (if sent then [FrameOf(item)] else []), before + [item], at + if sent then [|before|] else [])
  {
    forall k | 0 <= k < |at| ensures at[k] < |before| && Says(frames[k], (before + [item])[at[k]]) {}
  }

  /** The frames passed on are one for each matching notification, in order, saying what it does, and no others. */
  lemma {:induction false} FramesAre(items: seq<Notified>, hash: Hash, sha: Text -> Hash) returns (at: seq<nat>)
    ensures InOrder(at, items, hash, sha) && AreOf(Frames(items, hash, sha), items, at)
    ensures |at| == |Matching(items, hash, sha)|
  {
    if items == [] {
      at := [];
      assert Matching(items, hash, sha) == {};
    } else {
      var last := |items| - 1;
      var before, item := items[..last], items[last];
      assert items == before + [item];
      at := FramesAre(before, hash, sha);
      MatchingMore(before, item, hash, sha);
      OrderMore(at, before, item, hash, sha);
      FramesMore(Frames(before, hash, sha), before, item, at, sha(item.clientState) == hash);
      at := at + if sha(item.clientState) == hash then [last] else [];
    }
  }

  method MakeFrames(items: seq<Notified>, hash: Hash, sha: Text -> Hash) returns (frames: seq<Frame>)
    ensures frames == Frames(items, hash, sha)
  {
    frames := [];
    for i := 0 to |items|
      invariant frames == Frames(items[..i], hash, sha)
    {
      assert items[..i + 1][..i] == items[..i];
      var same := Same(sha(items[i].clientState), hash);
      if same {
        frames := frames + [FrameOf(items[i])];
      }
    }
    assert items[..|items|] == items;
  }

  /** Send every frame to every socket; `takes(s)` is how many a socket takes before it throws. Whether any took all. */
  method SendAll(sockets: seq<nat>, frames: seq<Frame>, takes: nat -> nat)
    returns (heard: bool, sent: map<nat, seq<Frame>>)
    ensures heard <==> exists i :: 0 <= i < |sockets| && takes(sockets[i]) >= |frames|
    ensures forall s :: s in sent <==> s in sockets
    ensures forall s :: s in sockets ==> sent[s] == frames[..if takes(s) < |frames| then takes(s) else |frames|]
  {
    heard, sent := false, map[];
    for i := 0 to |sockets|
      invariant heard <==> exists k :: 0 <= k < i && takes(sockets[k]) >= |frames|
      invariant forall s :: s in sent <==> s in sockets[..i]
      invariant forall s :: s in sockets[..i] ==> sent[s] == frames[..if takes(s) < |frames| then takes(s) else |frames|]
    {
      var socket := sockets[i];
      var k := 0;
      while k < |frames| && k < takes(socket)
        invariant k <= |frames| && k <= takes(socket)
      {
        k := k + 1;
      }
      sent := sent[socket := frames[..k]];
      if k == |frames| {
        heard := true;
      }
      assert sockets[..i + 1] == sockets[..i] + [socket];
    }
    assert sockets[..|sockets|] == sockets;
  }

  // ---------- the object, as its calls leave it

  datatype Object = Object(registration: Option<Registration>, missed: bool, alarm: Option<int>, sockets: seq<nat>)

  function Touched(o: Object, now: int): Object {
    o.(alarm := Some(now + FORGET_AFTER_MS))
  }

  predicate SomeTakes(sockets: seq<nat>, takes: nat -> nat, n: nat) {
    exists i :: 0 <= i < |sockets| && takes(sockets[i]) >= n
  }

  /** A batch nobody took whole is kept as missed, and one with nothing to pass on is no use of the key. */
  function Passed(o: Object, frames: seq<Frame>, takes: nat -> nat, now: int): Object {
    if frames == [] then o
    else Touched(o, now).(missed := o.missed || !SomeTakes(o.sockets, takes, |frames|))
  }

  /** A listener let in is told that something was missed, if it was; if the telling throws it is still to be told. */
  function LetIn(o: Object, socket: nat, sends: bool, now: int): Object {
    var joined := o.(sockets := o.sockets + [socket]);
    if o.missed && !sends then joined else Touched(joined.(missed := false), now)
  }

  /** A socket that takes `n` frames is sent the first ones of the matching notifications, or all of them. */
  ghost predicate Gets(frames: seq<Frame>, items: seq<Notified>, hash: Hash, sha: Text -> Hash, n: nat) {
    exists at :: InOrder(at, items, hash, sha) && |at| == |Matching(items, hash, sha)|
                 && AreOf(frames, items, at[..if n < |at| then n else |at|])
  }

  lemma GetsPrefix(frames: seq<Frame>, items: seq<Notified>, hash: Hash, sha: Text -> Hash, at: seq<nat>, n: nat)
    requires InOrder(at, items, hash, sha) && |at| == |Matching(items, hash, sha)| && AreOf(frames, items, at)
    ensures Gets(frames[..if n < |frames| then n else |frames|], items, hash, sha, n)
  {
  }

  class GraphRelay {
    var registration: Option<Registration>
    var missed: bool
    var alarm: Option<int>
    var sockets: seq<nat>

    ghost function View(): Object
      reads this
    {
      Object(registration, missed, alarm, sockets)
    }

    constructor ()
      ensures View() == Object(None, false, None, [])
    {
      registration, missed, alarm, sockets := None, false, None, [];
    }

    method Touch(now: int)
      modifies `alarm
      ensures View() == Touched(old(View()), now)
    {
      alarm := Some(now + FORGET_AFTER_MS);
    }

    /** Whether the key was registered already, and then it is left as it was. */
    method Register(r: Registration, now: int) returns (taken: bool)
      modifies `registration, `alarm
      ensures taken <==> old(registration).Some?
      ensures View() == if taken then old(View()) else Touched(old(View()).(registration := Some(r)), now)
    {
      if registration.Some? {
        return true;
      }
      registration := Some(r);
      Touch(now);
      return false;
    }

    /** `notified`, with the registration it found. */
    method Notified(items: seq<Notified>, found: Registration, sha: Text -> Hash, takes: nat -> nat, now: int)
      returns (sent: map<nat, seq<Frame>>)
      modifies `missed, `alarm
      ensures View() == Passed(old(View()), Frames(items, found.clientStateHash, sha), takes, now)
      ensures Matching(items, found.clientStateHash, sha) == {} ==> View() == old(View()) && sent == map[]
      ensures Matching(items, found.clientStateHash, sha) != {} ==> forall s :: s in sent <==> s in sockets
      ensures forall s :: s in sent ==> Gets(sent[s], items, found.clientStateHash, sha, takes(s))
      ensures !missed && Matching(items, found.clientStateHash, sha) != {} ==>
                exists s :: s in sent && |sent[s]| == |Matching(items, found.clientStateHash, sha)|
    {
      sent := map[];
      var frames := MakeFrames(items, found.clientStateHash, sha);
      ghost var at := FramesAre(items, found.clientStateHash, sha);
      if frames == [] {
        return;
      }
      Touch(now);
      var heard;
      heard, sent := SendAll(sockets, frames, takes);
      forall s | s in sent ensures Gets(sent[s], items, found.clientStateHash, sha, takes(s)) {
        GetsPrefix(frames, items, found.clientStateHash, sha, at, takes(s));
      }
      if !heard {
        missed := true;
      } else {
        ghost var i :| 0 <= i < |sockets| && takes(sockets[i]) >= |frames|;
        assert sockets[i] in sent && sent[sockets[i]] == frames;
      }
    }

    /** `fetch`, with the registration it found. `sends` is whether the new socket takes the word that something was
        missed. */
    method Fetch(bearer: Text, found: Registration, sha: Text -> Hash, socket: nat, sends: bool, now: int)
      returns (allowed: bool, told: bool)
      modifies `missed, `alarm, `sockets
      ensures allowed <==> sha(bearer) == found.listenTokenHash
      ensures told <==> allowed && old(missed) && sends
      ensures View() == if allowed then LetIn(old(View()), socket, sends, now) else old(View())
    {
      told := false;
      allowed := Same(sha(bearer), found.listenTokenHash);
      if !allowed {
        return;
      }
      sockets := sockets + [socket];
      if missed {
        if !sends {
          return;
        }
        told := true;
        missed := false;
      }
      Touch(now);
    }

    /** `alarm`: everything kept is forgotten. */
    method Alarm()
      modifies `registration, `missed, `alarm
      ensures View() == Object(None, false, None, old(sockets))
    {
      registration, missed, alarm := None, false, None;
    }
  }

  // ---------- every run of its calls

  /** A call waiting for a hash: a batch, with the registration it found; or a listener, with its own. */
  datatype Call =
    | Notifying(items: seq<Notified>, found: Registration)
    | Listening(bearer: Text, found: Registration)

  datatype State = State(
    relay: Object,
    now: int,
    calls: seq<Call>,
    lastUse: Option<int>)          // since the key was last forgotten

  datatype Step =
    | Register(registration: Registration)
    | Notify(items: seq<Notified>)
    | Pass(i: nat, takes: nat -> nat)
    | Listen(bearer: Text)
    | Accept(i: nat, socket: nat, sends: bool)
    | Close(i: nat)
    | Alarm
    | Tick(now: int)

  predicate Init(s: State) {
    s.relay == Object(None, false, None, []) && s.calls == [] && s.lastUse.None?
  }

  function Without<T>(xs: seq<T>, i: nat): seq<T>
    requires i < |xs|
  {
    xs[..i] + xs[i + 1..]
  }

  /** The notifications of a batch waiting that are for the one registered. */
  function MatchingOf(call: Call, sha: Text -> Hash): set<nat>
    requires call.Notifying?
  {
    Matching(call.items, call.found.clientStateHash, sha)
  }

  lemma FramesMatch(call: Call, sha: Text -> Hash)
    requires call.Notifying?
    ensures |FramesOf(call, sha)| == |MatchingOf(call, sha)|
    ensures FramesOf(call, sha) == [] <==> MatchingOf(call, sha) == {}
  {
    var at := FramesAre(call.items, call.found.clientStateHash, sha);
  }

  /** What a batch waiting has to pass on. */
  function FramesOf(call: Call, sha: Text -> Hash): seq<Frame>
    requires call.Notifying?
  {
    Frames(call.items, call.found.clientStateHash, sha)
  }

  /** A call ends, leaving the object as `o`; `used` is whether it used the key. */
  ghost predicate Ends(s: State, s': State, i: nat, o: Object, used: bool)
    requires i < |s.calls|
  {
    s' == State(o, s.now, Without(s.calls, i), if used then Some(s.now) else s.lastUse)
  }

  predicate Allowed(call: Call, sha: Text -> Hash) {
    call.Listening? && sha(call.bearer) == call.found.listenTokenHash
  }

  ghost predicate Next(s: State, s': State, step: Step, sha: Text -> Hash) {
    match step
    case Register(r) =>
      s' == if s.relay.registration.Some? then s
            else s.(relay := Touched(s.relay.(registration := Some(r)), s.now), lastUse := Some(s.now))
    case Notify(items) =>
      s' == if s.relay.registration.None? then s
            else s.(calls := s.calls + [Notifying(items, s.relay.registration.value)])
    case Pass(i, takes) =>
      && i < |s.calls| && s.calls[i].Notifying?
      && var frames := FramesOf(s.calls[i], sha);
         Ends(s, s', i, Passed(s.relay, frames, takes, s.now), frames != [])
    case Listen(bearer) =>
      s' == if s.relay.registration.None? then s
            else s.(calls := s.calls + [Listening(bearer, s.relay.registration.value)])
    case Accept(i, socket, sends) =>
      && i < |s.calls| && s.calls[i].Listening?
      && if Allowed(s.calls[i], sha)
         then Ends(s, s', i, LetIn(s.relay, socket, sends, s.now), !s.relay.missed || sends)
         else Ends(s, s', i, s.relay, false)
    case Close(i) => i < |s.relay.sockets| && s' == s.(relay := s.relay.(sockets := Without(s.relay.sockets, i)))
    case Alarm =>
      && s.relay.alarm.Some? && s.now >= s.relay.alarm.value
      && s' == s.(relay := Object(None, false, None, s.relay.sockets), lastUse := None)
    case Tick(now) => now >= s.now && s' == s.(now := now)
  }

  ghost predicate IsRun(run: seq<State>, steps: seq<Step>, sha: Text -> Hash) {
    && |run| == |steps| + 1 && Init(run[0])
    && forall i {:trigger steps[i]} :: 0 <= i < |steps| ==> Next(run[i], run[i + 1], steps[i], sha)
  }

  /** The alarm is set for as long after the last use as a key is kept. */
  ghost predicate Inv(s: State) {
    && (s.lastUse.Some? <==> s.relay.alarm.Some?)
    && (s.lastUse.Some? ==> s.relay.alarm == Some(s.lastUse.value + FORGET_AFTER_MS) && s.lastUse.value <= s.now)
    && (s.relay.registration.Some? ==> s.lastUse.Some?)
  }

  lemma {:induction false} InvRun(run: seq<State>, steps: seq<Step>, sha: Text -> Hash, i: nat)
    requires IsRun(run, steps, sha) && i < |run|
    ensures Inv(run[i])
  {
    if i > 0 {
      InvRun(run, steps, sha, i - 1);
      assert Next(run[i - 1], run[i], steps[i - 1], sha);
    }
  }

  /** Step `j` lets a listener in and tells it that something was missed. */
  ghost predicate TellsMissed(run: seq<State>, steps: seq<Step>, sha: Text -> Hash, j: nat)
    requires |run| == |steps| + 1 && j < |steps|
  {
    && steps[j].Accept? && steps[j].i < |run[j].calls| && Allowed(run[j].calls[steps[j].i], sha)
    && run[j].relay.missed && steps[j].sends
  }

  /** What was missed stays so until a listener is told or the key is forgotten. */
  lemma {:induction false} MissedStands(run: seq<State>, steps: seq<Step>, sha: Text -> Hash, i: nat, k: nat)
    requires IsRun(run, steps, sha) && i <= k < |run| && run[i].relay.missed
    ensures run[k].relay.missed || exists j :: i <= j < k && (steps[j].Alarm? || TellsMissed(run, steps, sha, j))
    decreases k
  {
    if i < k {
      MissedStands(run, steps, sha, i, k - 1);
      assert Next(run[k - 1], run[k], steps[k - 1], sha);
      if run[k - 1].relay.missed && !run[k].relay.missed {
        assert steps[k - 1].Alarm? || TellsMissed(run, steps, sha, k - 1);
      }
    }
  }

  /** No alert is lost in silence. In every run, a batch with a notification to pass on, ended at step `i`, was sent
      whole to a socket; or is kept as missed at every later state `k`, unless by then a listener let in has been told
      that something was missed, or the key has been forgotten. */
  lemma AlertsKept(run: seq<State>, steps: seq<Step>, sha: Text -> Hash, i: nat, k: nat)
    requires IsRun(run, steps, sha) && i < k < |run| && steps[i].Pass?
    ensures steps[i].i < |run[i].calls| && run[i].calls[steps[i].i].Notifying?
    ensures var matching := MatchingOf(run[i].calls[steps[i].i], sha);
            matching != {} ==>
              || SomeTakes(run[i].relay.sockets, steps[i].takes, |matching|)
              || run[k].relay.missed
              || exists j :: i < j < k && (steps[j].Alarm? || TellsMissed(run, steps, sha, j))
  {
    assert Next(run[i], run[i + 1], steps[i], sha);
    FramesMatch(run[i].calls[steps[i].i], sha);
    if run[i + 1].relay.missed { MissedStands(run, steps, sha, i + 1, k); }
  }

  /** And nobody is told so for nothing: a listener told that something was missed had a batch before it, since the last
      that was told and since the key was last forgotten, that no socket took whole. */
  lemma {:induction false} MissedHasCause(run: seq<State>, steps: seq<Step>, sha: Text -> Hash, k: nat)
    requires IsRun(run, steps, sha) && k < |run| && run[k].relay.missed
    ensures exists i :: 0 <= i < k && LeftUnheard(run, steps, sha, i)
                        && forall j :: i < j < k ==> !steps[j].Alarm? && !TellsMissed(run, steps, sha, j)
  {
    if k > 0 {
      assert Next(run[k - 1], run[k], steps[k - 1], sha);
      if steps[k - 1].Pass? { FramesMatch(run[k - 1].calls[steps[k - 1].i], sha); }
      if LeftUnheard(run, steps, sha, k - 1) {
      } else {
        MissedHasCause(run, steps, sha, k - 1);
      }
    }
  }

  /** Step `i` ends a batch with something to pass on that no socket took whole. */
  ghost predicate LeftUnheard(run: seq<State>, steps: seq<Step>, sha: Text -> Hash, i: nat)
    requires |run| == |steps| + 1 && i < |steps|
  {
    && steps[i].Pass? && steps[i].i < |run[i].calls| && run[i].calls[steps[i].i].Notifying?
    && var matching := MatchingOf(run[i].calls[steps[i].i], sha);
       matching != {} && !SomeTakes(run[i].relay.sockets, steps[i].takes, |matching|)
  }

  /** A registration is written once: it stands until the key is forgotten. */
  lemma {:induction false} RegistrationStands(run: seq<State>, steps: seq<Step>, sha: Text -> Hash, i: nat, k: nat)
    requires IsRun(run, steps, sha) && i <= k < |run| && run[i].relay.registration.Some?
    requires forall j :: i <= j < k ==> !steps[j].Alarm?
    ensures run[k].relay.registration == run[i].relay.registration
    decreases k
  {
    if i < k {
      RegistrationStands(run, steps, sha, i, k - 1);
      assert Next(run[k - 1], run[k], steps[k - 1], sha);
    }
  }

  /** Step `j` uses the key: it registers it, has something to pass on, or lets a listener in, but one that could not be told that
      something was missed. */
  ghost predicate UsesKey(run: seq<State>, steps: seq<Step>, sha: Text -> Hash, j: nat)
    requires |run| == |steps| + 1 && j < |steps|
  {
    match steps[j]
    case Register(_) => run[j].relay.registration.None?
    case Pass(i, _) => i < |run[j].calls| && run[j].calls[i].Notifying? && MatchingOf(run[j].calls[i], sha) != {}
    case Accept(i, _, sends) => i < |run[j].calls| && Allowed(run[j].calls[i], sha) && (!run[j].relay.missed || sends)
    case _ => false
  }

  lemma UseIsLast(run: seq<State>, steps: seq<Step>, sha: Text -> Hash, j: nat)
    requires IsRun(run, steps, sha) && j < |steps|
    ensures UsesKey(run, steps, sha, j) ==> run[j + 1].lastUse == Some(run[j].now)
    ensures run[j].now <= run[j + 1].now
    ensures run[j].lastUse.Some? && !steps[j].Alarm? && !UsesKey(run, steps, sha, j) ==> run[j + 1].lastUse == run[j].lastUse
  {
    assert Next(run[j], run[j + 1], steps[j], sha);
    if steps[j].Pass? { FramesMatch(run[j].calls[steps[j].i], sha); }
  }

  lemma {:induction false} LastUseSince(run: seq<State>, steps: seq<Step>, sha: Text -> Hash, j: nat, i: nat)
    requires IsRun(run, steps, sha) && j <= i < |run| && run[j].lastUse.Some?
    requires forall l :: j <= l < i ==> !steps[l].Alarm?
    ensures run[i].lastUse.Some? && run[i].lastUse.value >= run[j].lastUse.value
    decreases i
  {
    if j < i {
      LastUseSince(run, steps, sha, j, i - 1);
      InvRun(run, steps, sha, i - 1);
      UseIsLast(run, steps, sha, i - 1);
    }
  }

  /** A key is forgotten only once it has gone unused for thirty days: at no time sooner after any use of it. */
  lemma ForgottenOnlyUnused(run: seq<State>, steps: seq<Step>, sha: Text -> Hash, j: nat, i: nat)
    requires IsRun(run, steps, sha) && j < i < |steps| && steps[i].Alarm? && UsesKey(run, steps, sha, j)
    ensures run[i].now - run[j].now >= 2_592_000_000 || exists l :: j < l < i && steps[l].Alarm?
  {
    if forall l :: j < l < i ==> !steps[l].Alarm? {
      UseIsLast(run, steps, sha, j);
      LastUseSince(run, steps, sha, j + 1, i);
      InvRun(run, steps, sha, i);
      assert Next(run[i], run[i + 1], steps[i], sha);
    }
  }

  /** And one whose use is thirty days ago is forgotten as soon as the alarm may go: it is set for then. */
  lemma AlarmIsSet(run: seq<State>, steps: seq<Step>, sha: Text -> Hash, j: nat, i: nat)
    requires IsRun(run, steps, sha) && j < i < |run| && UsesKey(run, steps, sha, j)
    requires forall l :: j < l < i ==> !steps[l].Alarm? && !UsesKey(run, steps, sha, l)
    ensures run[i].relay.alarm == Some(run[j].now + 2_592_000_000)
    decreases i
  {
    UseIsLast(run, steps, sha, i - 1);
    if i - 1 > j {
      AlarmIsSet(run, steps, sha, j, i - 1);
      InvRun(run, steps, sha, i - 1);
    }
    InvRun(run, steps, sha, i);
  }

  /** A listener let in is sent what is passed on until it closes: it stays among the sockets. */
  lemma {:induction false} ListenersStay(run: seq<State>, steps: seq<Step>, sha: Text -> Hash, j: nat, k: nat)
    requires IsRun(run, steps, sha) && j < k < |run| && steps[j].Accept?
    requires steps[j].i < |run[j].calls| && Allowed(run[j].calls[steps[j].i], sha)
    ensures steps[j].socket in run[k].relay.sockets || exists l :: j < l < k && Closes(run, steps, l, steps[j].socket)
    decreases k
  {
    assert Next(run[k - 1], run[k], steps[k - 1], sha);
    if k - 1 > j {
      ListenersStay(run, steps, sha, j, k - 1);
      if steps[k - 1].Close? && steps[j].socket in run[k - 1].relay.sockets {
        var sockets, c := run[k - 1].relay.sockets, steps[k - 1].i;
        var at :| 0 <= at < |sockets| && sockets[at] == steps[j].socket;
        if at == c {
          assert Closes(run, steps, k - 1, steps[j].socket);
        } else {
          assert Without(sockets, c)[if at < c then at else at - 1] == steps[j].socket;
        }
      }
    }
  }

  ghost predicate Closes(run: seq<State>, steps: seq<Step>, l: nat, socket: nat) {
    && l < |steps| && l < |run| && steps[l].Close? && steps[l].i < |run[l].relay.sockets|
    && run[l].relay.sockets[steps[l].i] == socket
  }

  /** A registration taken at some step, or there before one, and not forgotten since, is there. */
  lemma StillRegistered(run: seq<State>, steps: seq<Step>, sha: Text -> Hash, j: nat, k: nat)
    requires IsRun(run, steps, sha) && j < k < |run| && (forall l :: j <= l < k ==> !steps[l].Alarm?)
    requires run[j].relay.registration.Some? || steps[j].Register?
    ensures run[k].relay.registration.Some?
  {
    assert Next(run[j], run[j + 1], steps[j], sha);
    RegistrationStands(run, steps, sha, j + 1, k);
  }

  /** Nothing is registered from state `i` to state `k`. */
  lemma {:induction false} NoneRegistered(run: seq<State>, steps: seq<Step>, sha: Text -> Hash, i: nat, k: nat)
    requires IsRun(run, steps, sha) && i <= k < |run| && run[i].relay.registration.None?
    requires forall j :: i <= j < k ==> !steps[j].Register?
    ensures run[k].relay.registration.None?
    decreases k
  {
    if i < k {
      NoneRegistered(run, steps, sha, i, k - 1);
      assert Next(run[k - 1], run[k], steps[k - 1], sha);
    }
  }

  /** Step `i` left unheard a batch of a key forgotten as it waited, and nothing since has told of it, forgotten it or
      registered the key. */
  ghost predicate Stray(run: seq<State>, steps: seq<Step>, sha: Text -> Hash, i: nat, k: nat)
    requires |run| == |steps| + 1 && i < k < |run|
  {
    && LeftUnheard(run, steps, sha, i) && run[i].relay.registration.None?
    && forall j :: i < j < k ==> !steps[j].Alarm? && !steps[j].Register? && !TellsMissed(run, steps, sha, j)
  }

  /** A key with no registration says something was missed exactly when a batch outlived the key it was posted to. */
  lemma StrayExactly(run: seq<State>, steps: seq<Step>, sha: Text -> Hash, k: nat)
    requires IsRun(run, steps, sha) && k < |run|
    ensures run[k].relay.missed && run[k].relay.registration.None? <==>
              exists i :: 0 <= i < k && Stray(run, steps, sha, i, k)
  {
    if run[k].relay.missed && run[k].relay.registration.None? { MissedIsStray(run, steps, sha, k); }
    if i :| 0 <= i < k && Stray(run, steps, sha, i, k) { StrayIsMissed(run, steps, sha, i, k); }
  }

  lemma MissedIsStray(run: seq<State>, steps: seq<Step>, sha: Text -> Hash, k: nat)
    requires IsRun(run, steps, sha) && k < |run| && run[k].relay.missed && run[k].relay.registration.None?
    ensures exists i :: 0 <= i < k && Stray(run, steps, sha, i, k)
  {
    MissedHasCause(run, steps, sha, k);
    var i :| 0 <= i < k && LeftUnheard(run, steps, sha, i)
             && forall j :: i < j < k ==> !steps[j].Alarm? && !TellsMissed(run, steps, sha, j);
    if run[i].relay.registration.Some? { StillRegistered(run, steps, sha, i, k); }
    forall j | i < j < k ensures !steps[j].Register? {
      if steps[j].Register? { StillRegistered(run, steps, sha, j, k); }
    }
    assert Stray(run, steps, sha, i, k);
  }

  lemma StrayIsMissed(run: seq<State>, steps: seq<Step>, sha: Text -> Hash, i: nat, k: nat)
    requires IsRun(run, steps, sha) && i < k < |run| && Stray(run, steps, sha, i, k)
    ensures run[k].relay.missed && run[k].relay.registration.None?
  {
    assert Next(run[i], run[i + 1], steps[i], sha);
    FramesMatch(run[i].calls[steps[i].i], sha);
    MissedStands(run, steps, sha, i + 1, k);
    NoneRegistered(run, steps, sha, i + 1, k);
  }

  /** What the gates do not keep: a batch that waits for its hashes as its key is forgotten leaves `missed` set for a key
      with no registration, which the next to register that key will be told of. */
  lemma StrayMissed(r: Registration, item: Notified, sha: Text -> Hash) returns (run: seq<State>, steps: seq<Step>)
    requires sha(item.clientState) == r.clientStateHash
    ensures IsRun(run, steps, sha) && run[|steps|].relay.missed && run[|steps|].relay.registration.None?
  {
    var call := Notifying([item], r);
    var o1 := Object(Some(r), false, Some(FORGET_AFTER_MS), []);
    var o4 := Object(None, false, None, []);
    var o5 := Object(None, true, Some(2 * FORGET_AFTER_MS), []);
    assert [item][..0] == [];
    assert Frames([item], r.clientStateHash, sha) == [FrameOf(item)];
    assert Without([call], 0) == [];
    var takes: nat -> nat := n => 0;
    run := [State(o4, 0, [], None), State(o1, 0, [], Some(0)), State(o1, 0, [call], Some(0)),
            State(o1, FORGET_AFTER_MS, [call], Some(0)), State(o4, FORGET_AFTER_MS, [call], None),
            State(o5, FORGET_AFTER_MS, [], Some(FORGET_AFTER_MS))];
    steps := [Register(r), Notify([item]), Tick(FORGET_AFTER_MS), Alarm, Pass(0, takes)];
    forall i | 0 <= i < |steps| ensures Next(run[i], run[i + 1], steps[i], sha) {
      if i == 0 {} else if i == 1 {} else if i == 2 {} else if i == 3 {} else { assert i == 4; }
    }
  }
}
