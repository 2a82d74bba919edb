/** Sorting and dropping repeats, as `Vec::sort` and `Vec::dedup` do, of things that have a rank. */
module Sorting {
  function Insert<T>(x: T, xs: seq<T>, rank: T -> int): seq<T> {
    if xs == [] || rank(x) <= rank(xs[0]) then [x] + xs else [xs[0]] + Insert(x, xs[1..], rank)
  }

  function Sort<T>(xs: seq<T>, rank: T -> int): seq<T> {
    if xs == [] then [] else Insert(xs[0], Sort(xs[1..], rank), rank)
  }

  /** Each run of equal neighbours once. */
  function Dedup<T(==)>(xs: seq<T>): seq<T> {
    if |xs| < 2 then xs
    else if xs[0] == xs[1] then Dedup(xs[1..])
    else [xs[0]] + Dedup(xs[1..])
  }

  function SortDedup<T(==)>(xs: seq<T>, rank: T -> int): seq<T> {
    Dedup(Sort(xs, rank))
  }

  predicate Ordered<T>(xs: seq<T>, rank: T -> int) {
    forall i, k :: 0 <= i < k < |xs| ==> rank(xs[i]) <= rank(xs[k])
  }

  predicate Ascending<T>(xs: seq<T>, rank: T -> int) {
    forall i, k :: 0 <= i < k < |xs| ==> rank(xs[i]) < rank(xs[k])
  }

  ghost predicate Ranked<T(!new)>(rank: T -> int) {
    forall x, y :: rank(x) == rank(y) ==> x == y
  }

  ghost function Elements<T>(xs: seq<T>): set<T> {
    set x | x in xs
  }

  lemma ElementsCons<T>(x: T, xs: seq<T>)
    ensures Elements([x] + xs) == {x} + Elements(xs)
  {
  }

  lemma OrderedCons<T>(x: T, xs: seq<T>, rank: T -> int)
    requires Ordered(xs, rank) && forall y :: y in Elements(xs) ==> rank(x) <= rank(y)
    ensures Ordered([x] + xs, rank)
  {
    forall k | 0 <= k < |xs| ensures rank(x) <= rank(xs[k]) { assert xs[k] in Elements(xs); }
  }

  lemma AscendingCons<T>(x: T, xs: seq<T>, rank: T -> int)
    requires Ascending(xs, rank) && forall y :: y in Elements(xs) ==> rank(x) < rank(y)
    ensures Ascending([x] + xs, rank)
  {
    forall k | 0 <= k < |xs| ensures rank(x) < rank(xs[k]) { assert xs[k] in Elements(xs); }
  }

  lemma {:induction false} InsertOrdered<T>(x: T, xs: seq<T>, rank: T -> int)
    requires Ordered(xs, rank)
    ensures Ordered(Insert(x, xs, rank), rank) && Elements(Insert(x, xs, rank)) == {x} + Elements(xs)
  {
    if xs == [] || rank(x) <= rank(xs[0]) {
      ElementsCons(x, xs);
      OrderedCons(x, xs, rank);
    } else {
      var first, rest := xs[0], xs[1..];
      assert xs == [first] + rest;
      assert Ordered(rest, rank);
      InsertOrdered(x, rest, rank);
      InsertedAfter(x, first, rest, Insert(x, rest, rank), rank);
    }
  }

  lemma InsertedAfter<T>(x: T, first: T, rest: seq<T>, inserted: seq<T>, rank: T -> int)
    requires Ordered([first] + rest, rank) && rank(first) <= rank(x)
    requires Ordered(inserted, rank) && Elements(inserted) == {x} + Elements(rest)
    ensures Ordered([first] + inserted, rank) && Elements([first] + inserted) == {x} + Elements([first] + rest)
  {
    ElementsCons(first, rest);
    ElementsCons(first, inserted);
    forall y | y in Elements(rest) ensures rank(first) <= rank(y) {
      var k :| 0 <= k < |rest| && rest[k] == y;
      assert ([first] + rest)[0] == first && ([first] + rest)[k + 1] == y;
    }
    OrderedCons(first, inserted, rank);
  }

  lemma {:induction false} SortOrdered<T>(xs: seq<T>, rank: T -> int)
    ensures Ordered(Sort(xs, rank), rank) && Elements(Sort(xs, rank)) == Elements(xs)
  {
    if xs != [] {
      SortOrdered(xs[1..], rank);
      InsertOrdered(xs[0], Sort(xs[1..], rank), rank);
      assert xs == [xs[0]] + xs[1..];
    }
  }

  lemma {:induction false} DedupAscending<T(!new)>(xs: seq<T>, rank: T -> int)
    requires Ordered(xs, rank) && Ranked(rank)
    ensures Ascending(Dedup(xs), rank) && Elements(Dedup(xs)) == Elements(xs)
    ensures xs != [] ==> Dedup(xs) != [] && Dedup(xs)[0] == xs[0]
  {
    if |xs| >= 2 {
      DedupAscending(xs[1..], rank);
      assert xs == [xs[0]] + xs[1..];
      ElementsCons(xs[0], xs[1..]);
      var more := Dedup(xs[1..]);
      ElementsCons(xs[0], more);
      if xs[0] != xs[1] {
        forall y | y in Elements(more) ensures rank(xs[0]) < rank(y) {
          assert rank(xs[1]) <= rank(y);
        }
        AscendingCons(xs[0], more, rank);
      } else {
        assert xs[0] in Elements(xs[1..]);
      }
    }
  }

  /** The result is in order, without repeats, and of the same things. */
  lemma SortDedupIs<T(!new)>(xs: seq<T>, rank: T -> int)
    requires Ranked(rank)
    ensures Ascending(SortDedup(xs, rank), rank) && Elements(SortDedup(xs, rank)) == Elements(xs)
  {
    SortOrdered(xs, rank);
    DedupAscending(Sort(xs, rank), rank);
  }

  /** There is one way to put things in order without repeats. */
  lemma {:induction false} AscendingUnique<T(!new)>(xs: seq<T>, ys: seq<T>, rank: T -> int)
    requires Ascending(xs, rank) && Ascending(ys, rank) && Elements(xs) == Elements(ys)
    ensures xs == ys
  {
    EmptyElements(xs);
    EmptyElements(ys);
    if xs != [] {
      FirstIsLeast(xs, ys, rank);
      FirstIsLeast(ys, xs, rank);
      assert xs[0] in Elements(ys) && ys[0] in Elements(xs);
      assert rank(xs[0]) == rank(ys[0]);
      FirstIsSame(xs, ys, rank);
      assert Elements(xs[1..]) == Elements(xs) - {xs[0]} by { WithoutFirst(xs, rank); }
      assert Elements(ys[1..]) == Elements(ys) - {ys[0]} by { WithoutFirst(ys, rank); }
      AscendingUnique(xs[1..], ys[1..], rank);
      assert xs == [xs[0]] + xs[1..] && ys == [ys[0]] + ys[1..];
    }
  }

  lemma EmptyElements<T>(xs: seq<T>)
    ensures xs == [] <==> Elements(xs) == {}
  {
    if xs != [] { assert xs[0] in Elements(xs); }
  }

  lemma FirstIsLeast<T>(xs: seq<T>, ys: seq<T>, rank: T -> int)
    requires Ascending(xs, rank) && Elements(xs) == Elements(ys) && xs != [] && ys != []
    ensures rank(xs[0]) <= rank(ys[0])
  {
    assert ys[0] in Elements(xs);
  }

  lemma FirstIsSame<T>(xs: seq<T>, ys: seq<T>, rank: T -> int)
    requires Ascending(xs, rank) && Elements(xs) == Elements(ys) && xs != [] && ys != [] && rank(xs[0]) == rank(ys[0])
    ensures xs[0] == ys[0]
  {
    assert ys[0] in Elements(xs);
    var i :| 0 <= i < |xs| && xs[i] == ys[0];
  }

  lemma WithoutFirst<T>(xs: seq<T>, rank: T -> int)
    requires Ascending(xs, rank) && xs != []
    ensures Elements(xs[1..]) == Elements(xs) - {xs[0]}
  {
    assert xs == [xs[0]] + xs[1..];
  }

  /** The things of `order` that are in `xs`, as they are in `order`. */
  function Among<T(==)>(order: seq<T>, xs: seq<T>): seq<T> {
    if order == [] then [] else (if order[0] in xs then [order[0]] else []) + Among(order[1..], xs)
  }

  lemma {:induction false} AmongIs<T(!new)>(order: seq<T>, xs: seq<T>, rank: T -> int)
    requires Ascending(order, rank)
    ensures Ascending(Among(order, xs), rank)
    ensures Elements(Among(order, xs)) == Elements(order) * Elements(xs)
  {
    if order != [] {
      var first, rest := order[0], order[1..];
      assert order == [first] + rest;
      AmongIs(rest, xs, rank);
      ElementsCons(first, rest);
      ElementsCons(first, Among(rest, xs));
      forall y | y in Elements(Among(rest, xs)) ensures rank(first) < rank(y) {
        var k :| 0 <= k < |rest| && rest[k] == y;
        assert order[0] == first && order[k + 1] == y;
      }
      AscendingCons(first, Among(rest, xs), rank);
      assert first in xs <==> first in Elements(xs);
      assert [] + Among(rest, xs) == Among(rest, xs);
    }
  }

  /** What is in order and without repeats is itself, picked out of all there is in that order. */
  lemma InThatOrder<T(!new)>(order: seq<T>, xs: seq<T>, rank: T -> int)
    requires Ascending(order, rank) && Ascending(xs, rank) && Elements(xs) <= Elements(order)
    ensures xs == Among(order, xs)
  {
    AmongIs(order, xs, rank);
    AscendingUnique(xs, Among(order, xs), rank);
  }
}
