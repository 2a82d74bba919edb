/** The registry of values held, by their query (`Client::live`): weak references in buckets, the dead
    ones let go of as the map doubles. What the protocol's steps say of making, finding and collecting
    entries is what the registry does. */
module LiveRegistry {
  import opened LiveEntry
  import opened LiveProtocol
  import opened LiveOwnership

  /** A query and the entry made for it, which may be gone by now. */
  datatype Pair = Pair(query: Query, entry: nat)

  /** The pairs whose entry someone still holds. */
  function Retain(pairs: seq<Pair>, alive: set<nat>): (kept: seq<Pair>)
    ensures forall pair :: pair in kept <==> pair in pairs && pair.entry in alive
    ensures |kept| <= |pairs|
  {
    if pairs == [] then [] else
    var rest := Retain(pairs[1..], alive);
    if pairs[0].entry in alive then [pairs[0]] + rest else rest
  }

  predicate IsPowerOfTwo(n: nat) {
    n == 1 || (n > 1 && n % 2 == 0 && IsPowerOfTwo(n / 2))
  }

  function Power(k: nat): nat {
    if k == 0 then 1 else 2 * Power(k - 1)
  }

  ghost predicate IsPower(n: nat) {
    exists k: nat :: n == Power(k)
  }

  lemma {:induction false} PowersAre(n: nat)
    ensures IsPowerOfTwo(n) <==> IsPower(n)
  {
    if n > 1 && n % 2 == 0 {
      PowersAre(n / 2);
      if k: nat :| n / 2 == Power(k) { assert n == Power(k + 1); }
    } else if n == 1 {
      assert n == Power(0);
    }
    if k: nat :| n == Power(k) { PowerIs(k); }
  }

  lemma {:induction false} PowerIs(k: nat)
    ensures IsPowerOfTwo(Power(k)) && Power(k) >= 1
  {
    if k > 0 {
      PowerIs(k - 1);
      assert Power(k) == 2 * Power(k - 1) && Power(k) / 2 == Power(k - 1);
    }
  }

  /** Each pair of a bucket is of a query of its own, and that query is of this bucket. */
  ghost predicate BucketFits(pairs: seq<Pair>, bucket: Query -> nat, b: nat, queryOf: map<nat, Query>) {
    && (forall pair :: pair in pairs ==>
          bucket(pair.query) == b && pair.entry in queryOf && queryOf[pair.entry] == pair.query)
    && forall i, k :: 0 <= i < k < |pairs| ==> pairs[i].query != pairs[k].query
  }

  lemma {:induction false} RetainFits(pairs: seq<Pair>, alive: set<nat>, bucket: Query -> nat, b: nat, queryOf: map<nat, Query>)
    requires BucketFits(pairs, bucket, b, queryOf)
    ensures BucketFits(Retain(pairs, alive), bucket, b, queryOf)
  {
    if pairs != [] {
      assert pairs == [pairs[0]] + pairs[1..];
      RetainFits(pairs[1..], alive, bucket, b, queryOf);
      var rest := Retain(pairs[1..], alive);
      forall k | 0 <= k < |rest| ensures rest[k].query != pairs[0].query {
        assert rest[k] in pairs[1..];
      }
    }
  }

  type Held = map<nat, seq<Pair>>

  ghost predicate Fits(held: Held, bucket: Query -> nat, queryOf: map<nat, Query>) {
    forall b :: b in held ==> BucketFits(held[b], bucket, b, queryOf)
  }

  ghost predicate Registered(held: Held, bucket: Query -> nat, query: Query, e: nat) {
    bucket(query) in held && Pair(query, e) in held[bucket(query)]
  }

  ghost predicate AllRegistered(held: Held, bucket: Query -> nat, queryOf: map<nat, Query>, alive: set<nat>) {
    forall e :: e in alive ==> e in queryOf && Registered(held, bucket, queryOf[e], e)
  }

  function Bucket(held: Held, b: nat): seq<Pair> {
    if b in held then held[b] else []
  }

  /** The map with the dead of the query's bucket let go of and the new pair pushed. */
  function Pushed(held: Held, b: nat, alive: set<nat>, pair: Pair): Held {
    held[b := Retain(Bucket(held, b), alive) + [pair]]
  }

  /** The map with every dead pair let go of, and every bucket left empty. */
  function Swept(held: Held, alive: set<nat>): Held {
    map b | b in held && Retain(held[b], alive) != [] :: Retain(held[b], alive)
  }

  /** Every pair is of an entry someone holds. */
  ghost predicate AllAlive(held: Held, alive: set<nat>) {
    forall b, pair :: b in held && pair in held[b] ==> pair.entry in alive
  }

  lemma BucketPushed(pairs: seq<Pair>, alive: set<nat>, bucket: Query -> nat, query: Query, next: nat, queryOf: map<nat, Query>)
    requires BucketFits(pairs, bucket, bucket(query), queryOf) && next !in queryOf
    requires forall pair :: pair in pairs && pair.entry in alive ==> pair.query != query
    ensures BucketFits(Retain(pairs, alive) + [Pair(query, next)], bucket, bucket(query), queryOf[next := query])
  {
    RetainFits(pairs, alive, bucket, bucket(query), queryOf);
    var kept := Retain(pairs, alive);
    forall k | 0 <= k < |kept| ensures kept[k].query != query {
      assert kept[k] in kept;
    }
  }

  /** If the pair found for a query is of an entry nobody holds, or none is found, nobody holds the query. */
  lemma NoneHeld(held: Held, bucket: Query -> nat, queryOf: map<nat, Query>, alive: set<nat>, query: Query, i: nat)
    requires Fits(held, bucket, queryOf) && AllRegistered(held, bucket, queryOf, alive)
    requires var pairs := Bucket(held, bucket(query));
             && i <= |pairs| && (forall k :: 0 <= k < i ==> pairs[k].query != query)
             && (i < |pairs| ==> pairs[i].query == query && pairs[i].entry !in alive)
    ensures forall e :: e in alive ==> queryOf[e] != query
  {
    var pairs := Bucket(held, bucket(query));
    forall e | e in alive ensures queryOf[e] != query {
      assert Registered(held, bucket, queryOf[e], e);
    }
  }

  /** Registering a query none holds keeps everything held registered, each query once. */
  lemma PushKeeps(held: Held, bucket: Query -> nat, queryOf: map<nat, Query>, alive: set<nat>, query: Query, next: nat)
    requires Fits(held, bucket, queryOf) && AllRegistered(held, bucket, queryOf, alive) && next !in queryOf
    requires forall e :: e in alive ==> queryOf[e] != query
    ensures var held' := Pushed(held, bucket(query), alive, Pair(query, next));
            && Fits(held', bucket, queryOf[next := query])
            && AllRegistered(held', bucket, queryOf[next := query], alive + {next})
  {
    var pairs := Bucket(held, bucket(query));
    forall pair | pair in pairs && pair.entry in alive ensures pair.query != query {
      assert queryOf[pair.entry] == pair.query;
    }
    BucketPushed(pairs, alive, bucket, query, next, queryOf);
    var held' := Pushed(held, bucket(query), alive, Pair(query, next));
    forall b | b in held' ensures BucketFits(held'[b], bucket, b, queryOf[next := query]) {
      if b != bucket(query) { assert BucketFits(held[b], bucket, b, queryOf); }
    }
    forall e | e in alive ensures Registered(held', bucket, queryOf[e], e) {
      assert Registered(held, bucket, queryOf[e], e);
    }
  }

  /** The sweep removes none that is held. */
  lemma SweepKeeps(held: Held, bucket: Query -> nat, queryOf: map<nat, Query>, alive: set<nat>)
    requires Fits(held, bucket, queryOf) && AllRegistered(held, bucket, queryOf, alive)
    ensures Fits(Swept(held, alive), bucket, queryOf)
    ensures AllRegistered(Swept(held, alive), bucket, queryOf, alive)
    ensures AllAlive(Swept(held, alive), alive)
  {
    forall b | b in Swept(held, alive) ensures BucketFits(Swept(held, alive)[b], bucket, b, queryOf) {
      RetainFits(held[b], alive, bucket, b, queryOf);
    }
    forall e | e in alive ensures Registered(Swept(held, alive), bucket, queryOf[e], e) {
      assert Registered(held, bucket, queryOf[e], e);
      assert Pair(queryOf[e], e) in Retain(held[bucket(queryOf[e])], alive);
    }
  }

  /** A query let go of and asked again while its bucket is still there. The map is no larger, so where its size is a power of two
      every bucket is looked at, each time; and where every other bucket has one held, it is as it was once the query is let go
      of again. */
  lemma RemadeIsSweptAgain(held: Held, alive: set<nat>, query: Query, bucket: Query -> nat, next: nat)
    requires bucket(query) in held && IsPowerOfTwo(|held|) && next !in alive
    requires forall b :: b in held && b != bucket(query) ==> Retain(held[b], alive) != []
    ensures var pushed := Pushed(held, bucket(query), alive, Pair(query, next));
            var swept := Swept(pushed, alive + {next});
            && |pushed| == |held| && IsPowerOfTwo(|pushed|) && swept.Keys == held.Keys && |swept| == |held|
            && forall b :: b in swept && b != bucket(query) ==> Retain(swept[b], alive) != []
  {
    var pushed := Pushed(held, bucket(query), alive, Pair(query, next));
    var swept := Swept(pushed, alive + {next});
    SameKeys(held, pushed);
    assert Pair(query, next) in pushed[bucket(query)];
    forall b | b in pushed ensures Retain(pushed[b], alive + {next}) != [] {
      if b != bucket(query) {
        SomeStays(held[b], alive, alive + {next});
      } else {
        assert Pair(query, next) in Retain(pushed[b], alive + {next});
      }
    }
    assert swept.Keys == pushed.Keys;
    SameKeys(held, swept);
    forall b | b in swept && b != bucket(query) ensures Retain(swept[b], alive) != [] {
      SomeStays(held[b], alive, alive + {next});
    }
  }

  lemma SomeStays(pairs: seq<Pair>, alive: set<nat>, more: set<nat>)
    requires Retain(pairs, alive) != [] && alive <= more
    ensures Retain(pairs, more) != [] && Retain(Retain(pairs, more), alive) != []
  {
    var pair := Retain(pairs, alive)[0];
    assert pair in Retain(pairs, alive) && pair in Retain(pairs, more) && pair in Retain(Retain(pairs, more), alive);
  }

  lemma SameKeys(a: Held, b: Held)
    requires a.Keys == b.Keys
    ensures |a| == |b|
  {
    assert |a| == |a.Keys| && |b| == |b.Keys|;
  }

  /** Every entry held is listed, and none is twice. */
  ghost predicate Listed(every: seq<nat>, alive: set<nat>, queryOf: map<nat, Query>) {
    (forall e :: e in alive ==> e in every) && (forall e :: e in every ==> e in queryOf) && Distinct(every)
  }

  /** No two held are of equal queries. */
  ghost predicate AllDifferent(alive: set<nat>, queryOf: map<nat, Query>) {
    forall e, f :: e in alive && f in alive && e != f && e in queryOf && f in queryOf ==> queryOf[e] != queryOf[f]
  }

  lemma PushLists(every: seq<nat>, queryOf: map<nat, Query>, alive: set<nat>, query: Query, next: nat)
    requires Listed(every, alive, queryOf) && AllDifferent(alive, queryOf) && next !in queryOf
    requires forall e :: e in alive && e in queryOf ==> queryOf[e] != query
    ensures Listed(every + [next], alive + {next}, queryOf[next := query])
    ensures AllDifferent(alive + {next}, queryOf[next := query])
  {
  }

  class Registry {
    /** Where a query is filed; equal queries are filed together. */
    const bucket: Query -> nat
    var held: Held
    /** The entries that have been made, each once, less those an invalidation found dead. */
    var every: seq<nat>
    /** Every entry ever made, and its query. */
    ghost var queryOf: map<nat, Query>

    /** With `alive` the entries someone holds: each is registered and found by the change thread, no bucket
        has a query twice, and no two that are held are of equal queries. */
    ghost predicate Valid(alive: set<nat>)
      reads this
    {
      && Fits(held, bucket, queryOf)
      && AllRegistered(held, bucket, queryOf, alive)
      && Listed(every, alive, queryOf)
      && AllDifferent(alive, queryOf)
    }

    constructor (bucket: Query -> nat)
      ensures Valid({}) && every == [] && this.bucket == bucket
    {
      this.bucket := bucket;
      held, every, queryOf := map[], [], map[];
    }

    /** An entry let go of is one fewer held; nothing is done, and what is held is still found. */
    lemma Dropped(alive: set<nat>, fewer: set<nat>)
      requires Valid(alive) && fewer <= alive
      ensures Valid(fewer)
    {
    }

    /** The entry for `query`: the one someone holds, if any does, else a new one, registered. */
    method Live(query: Query, alive: set<nat>, next: nat) returns (entry: nat, made: bool)
      requires Valid(alive) && next !in queryOf
      modifies this
      ensures Valid(alive + {entry})
      ensures entry in queryOf && queryOf[entry] == query
      ensures made <==> forall e :: e in alive ==> old(queryOf)[e] != query
      ensures made ==> entry == next && queryOf == old(queryOf)[next := query] && every == old(every) + [next]
      ensures !made ==> entry in alive && held == old(held) && every == old(every) && queryOf == old(queryOf)
    {
      var b := bucket(query);
      var pairs := Bucket(held, b);
      assert BucketFits(pairs, bucket, b, queryOf);
      var found := Find(pairs, query);
      if found < |pairs| && pairs[found].entry in alive {
        entry, made := pairs[found].entry, false;
        assert alive + {entry} == alive;
        return;
      }
      NoneHeld(held, bucket, queryOf, alive, query, found);
      Register(query, alive, next);
      entry, made := next, true;
    }

    /** A query nobody holds is registered, the dead of its bucket let go of, and all the dead as the map doubles. */
    method Register(query: Query, alive: set<nat>, next: nat)
      requires Valid(alive) && next !in queryOf && forall e :: e in alive ==> queryOf[e] != query
      modifies this
      ensures Valid(alive + {next}) && queryOf == old(queryOf)[next := query] && every == old(every) + [next]
      ensures IsPower(|old(held).Keys + {bucket(query)}|) ==> AllAlive(held, alive + {next})
    {
      var b := bucket(query);
      PushKeeps(held, bucket, queryOf, alive, query, next);
      PushLists(every, queryOf, alive, query, next);
      held := Pushed(held, b, alive, Pair(query, next));
      queryOf := queryOf[next := query];
      assert held.Keys == old(held).Keys + {b} && |held| == |held.Keys|;
      Sweep(alive + {next});
      every := every + [next];
    }

    /** All the dead are let go of if the number of buckets is a power of two. */
    method Sweep(alive: set<nat>)
      requires Fits(held, bucket, queryOf) && AllRegistered(held, bucket, queryOf, alive)
      modifies `held
      ensures Fits(held, bucket, queryOf) && AllRegistered(held, bucket, queryOf, alive)
      ensures IsPower(|old(held)|) ==> AllAlive(held, alive)
      ensures !IsPower(|old(held)|) ==> held == old(held)
    {
      PowersAre(|held|);
      if IsPowerOfTwo(|held|) {
        SweepKeeps(held, bucket, queryOf, alive);
        held := Swept(held, alive);
      }
    }

    /** For an invalidation: the entries nobody holds are let go of, and those held that `wanted` says are handed out. */
    method Collect(alive: set<nat>, wanted: nat -> bool) returns (todo: seq<nat>)
      requires Valid(alive)
      modifies `every
      ensures Valid(alive) && forall e :: e in every <==> e in old(every) && e in alive
      ensures Distinct(todo) && forall e :: e in todo <==> e in alive && wanted(e)
    {
      todo := [];
      var kept: seq<nat> := [];
      for i := 0 to |every|
        invariant Distinct(kept) && forall e :: e in kept <==> e in every[..i] && e in alive
        invariant Distinct(todo) && forall e :: e in todo <==> e in every[..i] && e in alive && wanted(e)
      {
        assert every[..i + 1] == every[..i] + [every[i]];
        if every[i] in alive {
          kept := kept + [every[i]];
          if wanted(every[i]) {
            todo := todo + [every[i]];
          }
        }
      }
      assert every[..|every|] == every;
      every := kept;
    }

    /** The first pair asked with `query`, or the length. */
    static method Find(pairs: seq<Pair>, query: Query) returns (i: nat)
      ensures i <= |pairs| && (i < |pairs| ==> pairs[i].query == query)
      ensures forall k :: 0 <= k < i ==> pairs[k].query != query
    {
      i := 0;
      while i < |pairs| && pairs[i].query != query
        invariant i <= |pairs|
        invariant forall k :: 0 <= k < i ==> pairs[k].query != query
      {
        i := i + 1;
      }
    }
  }

  // ---------- the registry in the protocol

  /** The entries that can be upgraded to. */
  ghost function Upgradable(s: State): set<nat> {
    set j: nat | j < |s.slots| && Alive(s, j)
  }

  /** The registry is right for a state of the protocol. */
  ghost predicate Serves(r: Registry, s: State)
    reads r
  {
    && r.Valid(Upgradable(s))
    && (forall j :: j in r.queryOf ==> j < |s.slots|)
    && (forall j :: j in Upgradable(s) ==> r.queryOf[j] == s.slots[j].entry.query)
  }

  lemma ServesFewer(r: Registry, s: State, s': State)
    requires Serves(r, s) && Upgradable(s') <= Upgradable(s) && |s.slots| <= |s'.slots|
    requires forall j :: j in Upgradable(s') ==> s'.slots[j].entry.query == s.slots[j].entry.query
    ensures Serves(r, s')
  {
    r.Dropped(Upgradable(s), Upgradable(s'));
  }

  /** Every step but the making of an entry leaves the registry right, with nothing done to it. */
  lemma StepServes(p: Program, r: Registry, s: State, s': State, step: Step)
    requires Serves(r, s) && Next(p, s, s', step) && !(step.Marks? && step.marker.LiveNew?)
    ensures Serves(r, s')
  {
    match step {
      case Outside(t, around) =>
        QueriesOutside(p, s, s', t, around);
        forall j | j in Upgradable(s') ensures Alive(s, j) { NoRevivalOutside(p, s, s', t, around, j); }
      case Marks(t, marker) =>
        QueriesMarks(p, s, s', t, marker);
        forall j | j in Upgradable(s') ensures Alive(s, j) { NoRevivalMarks(p, s, s', t, marker, j); }
      case Reads(t, reader) =>
        QueriesReads(p, s, s', t, reader);
        forall j | j in Upgradable(s') ensures Alive(s, j) { NoRevivalReads(p, s, s', t, reader, j); }
      case Ends(t, ender) =>
        QueriesEnds(s, s', t, ender);
        forall j | j in Upgradable(s') ensures Alive(s, j) { NoRevivalEnds(s, s', t, ender, j); }
    }
    ServesFewer(r, s, s');
  }

  predicate SameQueries(s: State, s': State) {
    |s'.slots| == |s.slots| && forall j :: 0 <= j < |s.slots| ==> s'.slots[j].entry.query == s.slots[j].entry.query
  }

  lemma QueriesOutside(p: Program, s: State, s': State, t: nat, step: Around)
    requires OutsideNext(p, s, s', t, step)
    ensures SameQueries(s, s')
  {
  }

  lemma QueriesMarks(p: Program, s: State, s': State, t: nat, step: Marker)
    requires MarksNext(p, s, s', t, step) && !step.LiveNew?
    ensures SameQueries(s, s')
  {
  }

  lemma QueriesReads(p: Program, s: State, s': State, t: nat, step: Reader)
    requires ReadsNext(p, s, s', t, step)
    ensures SameQueries(s, s')
  {
  }

  lemma QueriesEnds(s: State, s': State, t: nat, step: Ender)
    requires EndsNext(s, s', t, step)
    ensures SameQueries(s, s')
  {
  }

  /** A query asked of the registry is the protocol's step: a new entry exactly where it makes one, and else one found. */
  method LiveStep(r: Registry, ghost s: State, alive: set<nat>, ghost t: nat, query: Query, next: nat)
    returns (entry: nat, made: bool, ghost s': State)
    requires Serves(r, s) && alive == Upgradable(s) && next == |s.slots| && t < |s.threads| && s.threads[t].Resting?
    modifies r
    ensures Serves(r, s') && if made then LiveNewStep(s, s', t, query) else LiveFoundStep(s, s', entry)
    ensures entry < |s'.slots| && s'.slots[entry].entry.query == query && s'.slots[entry].lives > 0
  {
    entry, made := r.Live(query, alive, next);
    if made {
      s' := SetPc(s, t, Adding(|s.slots|, ToResting)).(slots := s.slots + [NewSlot(query, t)]);
      MadeIsUpgradable(s, s', t, query);
    } else {
      assert entry in Upgradable(s);
      s' := SetSlot(s, entry, s.slots[entry].(lives := s.slots[entry].lives + 1));
      FoundIsUpgradable(s, s', entry);
    }
  }

  lemma MadeIsUpgradable(s: State, s': State, t: nat, query: Query)
    requires t < |s.threads| && s.threads[t].Resting?
    requires s' == SetPc(s, t, Adding(|s.slots|, ToResting)).(slots := s.slots + [NewSlot(query, t)])
    ensures Upgradable(s') == Upgradable(s) + {|s.slots|}
  {
    forall j: nat | j < |s.slots| ensures Alive(s', j) <==> Alive(s, j) {
      if u :| 0 <= u < |s.threads| && j in Strong(s.threads[u]) { assert j in Strong(s'.threads[u]); }
    }
    assert Alive(s', |s.slots|);
  }

  lemma FoundIsUpgradable(s: State, s': State, entry: nat)
    requires LiveFoundStep(s, s', entry)
    ensures Upgradable(s') == Upgradable(s)
  {
    forall j: nat | j < |s.slots| ensures Alive(s', j) <==> Alive(s, j) {}
  }

  /** What the registry hands out for an invalidation is what the protocol's step takes. */
  method CollectStepOf(p: Program, r: Registry, ghost s: State, alive: set<nat>, ghost t: nat, topics: Topics, queryOf: nat -> Query)
    returns (todo: seq<nat>, ghost s': State)
    requires Serves(r, s) && alive == Upgradable(s) && t < |s.threads| && s.threads[t] == Owing(topics)
    requires forall j :: j in alive ==> queryOf(j) == s.slots[j].entry.query
    modifies r
    ensures Serves(r, s') && CollectStep(p, s, s', t, todo)
  {
    todo := r.Collect(alive, (j: nat) => Meets(topics, p.topics(queryOf(j))));
    s' := SetPc(s, t, Marking(todo));
    assert CollectStep(p, s, s', t, todo);
    StepServes(p, r, s, s', Marks(t, LiveProtocol.Marker.Collect(todo)));
  }
}
