/** How much work reading a file is: no byte of it is handed out more than three times, however many false lengths it says
    (crates/mail-archive/src/mbox.rs).

    A byte is named by how many come after it. Each has a credit, how often it may yet be handed out; every part of a reading
    is shown to hand a byte out no oftener than its credit falls. */
module MboxWork {
  import opened Options
  import opened Bytes
  import opened MboxFormat
  import opened MboxSplit
  import opened MboxSound
  import opened MboxRuns
  import opened MboxReader

  // ---------- credit

  /** Whether byte `q` is in the first piece, and whether it is in any. */
  function Hit(pieces: seq<Piece>, q: nat): nat {
    if pieces != [] && Size(pieces[1..]) <= q < Size(pieces) then 1 else 0
  }

  function In(pieces: seq<Piece>, q: nat): nat {
    if q < Size(pieces) then 1 else 0
  }

  lemma {:induction false} FirstAt(pieces: seq<Piece>, q: nat)
    requires pieces != []
    ensures First(pieces)[q] == Hit(pieces, q) && In(pieces, q) == Hit(pieces, q) + In(pieces[1..], q)
  {
    SpanAt(Size(pieces[1..]), Size(pieces), q);
    assert Size(pieces) == |pieces[0]| + Size(pieces[1..]);
  }

  /** How often byte `q` may yet be handed out once no length is believed: twice in a piece that begins `From `, which a
      scan may put back, else once. */
  function ScanCredit(pieces: seq<Piece>, q: nat): nat {
    if pieces == [] then 0 else
    (if StartsFrom(pieces[0]) then 2 * Hit(pieces, q) else Hit(pieces, q)) + ScanCredit(pieces[1..], q)
  }

  function Credit(pieces: seq<Piece>, lie: bool, q: nat): nat {
    if lie then ScanCredit(pieces, q) else 3 * In(pieces, q)
  }

  /** After the first piece that is not blank. */
  function Past(pieces: seq<Piece>): seq<Piece> {
    var rest := SkipBlanks(pieces).rest;
    if rest == [] then [] else rest[1..]
  }

  /** The credit of what is left after a message: its blank lines and its envelope line are read once more. */
  function BoundaryCredit(pieces: seq<Piece>, lie: bool, q: nat): nat {
    Looked(pieces)[q] + Credit(Past(pieces), lie, q)
  }

  /** A reading, and what is left after it, hand out byte `q` no oftener than `credit`. */
  predicate Pays(r: Reading, credit: nat, q: nat) {
    r.handed[q] + BoundaryCredit(r.rest, r.lie, q) <= credit
  }

  lemma {:induction false} ScanCreditBounds(pieces: seq<Piece>, q: nat)
    ensures In(pieces, q) <= ScanCredit(pieces, q) <= 2 * In(pieces, q)
  {
    if pieces != [] {
      FirstAt(pieces, q);
      ScanCreditBounds(pieces[1..], q);
    }
  }

  /** A byte's credit is what it is in the last pieces, whatever comes before them. */
  lemma {:induction false} ScanCreditBefore(a: seq<Piece>, b: seq<Piece>, q: nat)
    requires q < Size(b)
    ensures ScanCredit(a + b, q) == ScanCredit(b, q)
  {
    if a == [] {
      assert a + b == b;
    } else {
      assert (a + b)[1..] == a[1..] + b;
      FlattenConcat(a[1..], b);
      ScanCreditBefore(a[1..], b, q);
    }
  }

  // ---------- what is looked at

  lemma {:induction false} SkipAt(pieces: seq<Piece>, q: nat)
    ensures var skipped := SkipBlanks(pieces);
            skipped.handed[q] + In(skipped.rest, q) == In(pieces, q) && Size(skipped.rest) <= Size(pieces)
  {
    if pieces != [] && Blank(pieces[0]) {
      FirstAt(pieces, q);
      SkipAt(pieces[1..], q);
      assert Size(pieces) == |pieces[0]| + Size(pieces[1..]);
    }
  }

  /** Each byte is looked at once, the first piece's among them, or is past. */
  lemma {:induction false} LookAt(pieces: seq<Piece>, q: nat)
    ensures Looked(pieces)[q] + In(Past(pieces), q) == In(pieces, q)
    ensures Hit(pieces, q) <= Looked(pieces)[q]
  {
    SkipAt(pieces, q);
    var rest := SkipBlanks(pieces).rest;
    if rest != [] { FirstAt(rest, q); }
    if pieces != [] { FirstAt(pieces, q); PastIsAfter(pieces, q); }
  }

  lemma {:induction false} PastIsAfter(pieces: seq<Piece>, q: nat)
    requires pieces != []
    ensures In(Past(pieces), q) <= In(pieces[1..], q)
  {
    if Blank(pieces[0]) {
      SkipAt(pieces[1..], q);
      var rest := SkipBlanks(pieces[1..]).rest;
      if rest != [] { assert Size(rest) == |rest[0]| + Size(rest[1..]); }
    }
  }

  // ---------- a scanned body

  /** A scan hands out a byte, and leaves it, no oftener than its credit. */
  lemma {:induction false} ScanHandedPays(pieces: seq<Piece>, afterBlank: bool, lie: bool, q: nat)
    ensures ScanHanded(pieces, afterBlank)[q] + BoundaryCredit(ScanRest(pieces, afterBlank), lie, q) <= Credit(pieces, lie, q)
  {
    if pieces != [] {
      FirstAt(pieces, q);
      if ScanEnds(pieces, afterBlank) {
        AtEnvelope(pieces);
      } else {
        ScanHandedPays(pieces[1..], Blank(pieces[0]), lie, q);
      }
    }
  }

  lemma {:induction false} ScanPays(pieces: seq<Piece>, envelope: Envelope, raw: seq<Byte>, lie: bool, q: nat)
    ensures Pays(Scanned(pieces, envelope, raw, lie), Credit(pieces, lie, q), q)
  {
    ScanHandedPays(pieces, true, lie, q);
  }

  // ---------- a counted body

  /** A byte of the body is handed out once, and of what is left only one of the first piece, the rest of one that was cut. */
  predicate TakenOnce(taken: Taken, pieces: seq<Piece>, q: nat) {
    taken.handed[q] <= if q < Size(taken.rest) then Hit(taken.rest, q) else In(pieces, q)
  }

  /** Counting hands out bytes so. */
  lemma {:induction false} TakenAt(pieces: seq<Piece>, n: nat, q: nat)
    requires NoneEmpty(pieces)
    ensures TakenOnce(TakeBody(pieces, n), pieces, q)
    decreases |pieces|
  {
    if n > 0 && pieces != [] {
      if |pieces[0]| > n {
        CutHands(pieces, n, q);
      } else {
        TakenAt(pieces[1..], n - |pieces[0]|, q);
        TakeConserves(pieces[1..], n - |pieces[0]|);
        MoreTaken(pieces, TakeBody(pieces[1..], n - |pieces[0]|), q);
      }
    }
  }

  lemma {:induction false} MoreTaken(pieces: seq<Piece>, more: Taken, q: nat)
    requires pieces != [] && TakenOnce(more, pieces[1..], q) && Size(more.rest) <= Size(pieces[1..])
    ensures TakenOnce(Taken(pieces[0] + more.body, more.rest, First(pieces) + more.handed), pieces, q)
  {
    FirstAt(pieces, q);
  }

  lemma {:induction false} CutHands(pieces: seq<Piece>, n: nat, q: nat)
    requires pieces != [] && n < |pieces[0]|
    ensures var cut := [pieces[0][n..]] + pieces[1..]; First(pieces)[q] <= if q < Size(cut) then Hit(cut, q) else In(pieces, q)
  {
    FirstAt(pieces, q);
    var cut := [pieces[0][n..]] + pieces[1..];
    assert cut[1..] == pieces[1..];
    assert Size(cut) == |pieces[0]| - n + Size(pieces[1..]);
  }

  /** A length that fits, and what is left after it. */
  lemma {:induction false} CountedPays(pieces: seq<Piece>, n: nat, q: nat)
    requires NoneEmpty(pieces)
    ensures Counted(pieces, n)[q] + BoundaryCredit(TakeBody(pieces, n).rest, false, q) <= 3 * In(pieces, q)
  {
    TakenAt(pieces, n, q);
    TakeConserves(pieces, n);
    LookAt(TakeBody(pieces, n).rest, q);
  }

  /** What follows a body whose length does not fit is handed out to see that, and is scanned; and the rest of a piece that
      was cut had been handed out before. */
  lemma {:induction false} RestPays(rest: seq<Piece>, q: nat)
    requires rest == [] || !AtBoundary(rest)
    ensures Hit(rest, q) + Looked(rest)[q] + ScanCredit(rest, q) <= 3 * In(rest, q)
  {
    if rest != [] {
      FirstAt(rest, q);
      BlankIsNotFrom(rest[0]);
      if Blank(rest[0]) {
        BlankFirst(rest);
        RestPays(rest[1..], q);
      } else {
        ScanCreditBounds(rest[1..], q);
      }
    }
  }

  lemma BlankFirst(rest: seq<Piece>)
    requires rest != [] && Blank(rest[0])
    ensures AtBoundary(rest) == AtBoundary(rest[1..]) && Looked(rest) == First(rest) + Looked(rest[1..])
  {
  }

  lemma BlankIsNotFrom(line: Piece)
    ensures Blank(line) ==> !StartsFrom(line)
  {
    if StartsFrom(line) { FromIsNotBlank(line); }
  }

  /** One that does not, put back to be scanned. */
  lemma {:induction false} RejectedPays(pieces: seq<Piece>, n: nat, q: nat)
    requires NoneEmpty(pieces) && !Fits(pieces, n)
    ensures Counted(pieces, n)[q] + ScanCredit(PutBack(pieces, n), q) <= 3 * In(pieces, q)
  {
    TakenAt(pieces, n, q);
    TakeConserves(pieces, n);
    RejectedLengthUndone(pieces, n);
    var taken := TakeBody(pieces, n);
    LookAt(taken.rest, q);
    if q < Size(taken.rest) {
      ScanCreditBefore(Lines(taken.body), taken.rest, q);
      RestPays(taken.rest, q);
    } else {
      ScanCreditBounds(PutBack(pieces, n), q);
    }
  }

  lemma {:induction false} BodyPays(pieces: seq<Piece>, envelope: Envelope, raw: seq<Byte>, length: Option<nat>, lie: bool, q: nat)
    requires NoneEmpty(pieces)
    ensures Pays(ParseBody(pieces, envelope, raw, length, lie), Credit(pieces, lie, q), q)
  {
    if !Believed(length, lie) {
      ScanPays(pieces, envelope, raw, lie, q);
    } else if Fits(pieces, length.value) {
      CountedPays(pieces, length.value, q);
    } else {
      RejectedPays(pieces, length.value, q);
      ScanPays(PutBack(pieces, length.value), envelope, raw, true, q);
    }
  }

  // ---------- a message, and a file

  lemma {:induction false} HeadCredit(pieces: seq<Piece>, length: Option<nat>, lie: bool, q: nat)
    ensures var head := TakeHeaders(pieces, length); head.handed[q] + Credit(head.rest, lie, q) <= Credit(pieces, lie, q)
  {
    if pieces != [] {
      FirstAt(pieces, q);
      if !Blank(pieces[0]) { HeadCredit(pieces[1..], Says(pieces[0], length), lie, q); }
    }
  }

  lemma {:induction false} HeadersPay(pieces: seq<Piece>, envelope: Envelope, lie: bool, q: nat)
    requires NoneEmpty(pieces)
    ensures Pays(ParseHeaders(pieces, envelope, lie), Credit(pieces, lie, q), q)
  {
    HeadIs(pieces, None);
    HeadCredit(pieces, None, lie, q);
    var head := TakeHeaders(pieces, None);
    if head.ended { BodyPays(head.rest, envelope, head.raw, head.length, lie, q); }
  }

  lemma {:induction false} MessagePays(pieces: seq<Piece>, lie: bool, q: nat)
    requires NoneEmpty(pieces) && AtBoundary(pieces)
    ensures Pays(Parse(pieces, lie), BoundaryCredit(pieces, lie, q), q)
  {
    SkipIs(pieces);
    var rest := SkipBlanks(pieces).rest;
    if rest != [] { HeadersPay(rest[1..], ParseEnvelope(TrimEol(rest[0])), lie, q); }
  }

  lemma {:induction false} RunPays(pieces: seq<Piece>, lie: bool, q: nat)
    requires NoneEmpty(pieces) && AtBoundary(pieces)
    ensures ReadAll(pieces, lie).handed[q] <= BoundaryCredit(pieces, lie, q)
    decreases Size(pieces)
  {
    MessagePays(pieces, lie, q);
    var r := Parse(pieces, lie);
    if r.item.Message? {
      SplitsAtBoundary(pieces, lie);
      RunPays(r.rest, r.lie, q);
    }
  }

  lemma {:induction false} NotMboxHands(pieces: seq<Piece>, lie: bool, q: nat)
    requires !AtBoundary(pieces)
    ensures Parse(pieces, lie).item.NotMbox? && Parse(pieces, lie).handed[q] <= In(pieces, q)
  {
    LookAt(pieces, q);
  }

  /** Reading a file whole hands out no byte of it more than three times, and nothing that is not of it. */
  lemma {:induction false} EachByteThrice(source: seq<Byte>, q: nat)
    ensures NoneEmpty(Lines(source))
    ensures ReadAll(Lines(source), false).handed[q] <= if q < |source| then 3 else 0
  {
    LinesNoneEmpty(source);
    LinesFlatten(source);
    var pieces := Lines(source);
    if AtBoundary(pieces) {
      RunPays(pieces, false, q);
      LookAt(pieces, q);
    } else {
      NotMboxHands(pieces, false, q);
      ReadAllStep(pieces, false);
    }
  }

  /** And so what is handed out in all is at most three times the file. */
  lemma LinearWork(source: seq<Byte>)
    ensures NoneEmpty(Lines(source)) && |ReadAll(Lines(source), false).handed| <= 3 * |source|
  {
    LinesNoneEmpty(source);
    var handed := ReadAll(Lines(source), false).handed;
    forall q: nat ensures handed[q] <= if q < |source| then 3 else 0 { EachByteThrice(source, q); }
    AtMost(handed, |source|);
  }

  lemma AtMost(handed: Handed, n: nat)
    requires forall q: nat :: handed[q] <= if q < n then 3 else 0
    ensures |handed| <= 3 * n
  {
    var all := Span(0, n) + Span(0, n) + Span(0, n);
    SpanSize(0, n);
    forall q: nat ensures handed[q] <= all[q] { SpanAt(0, n, q); }
    assert all == handed + (all - handed);
    assert |all| == |Span(0, n) + Span(0, n)| + |Span(0, n)|;
  }

  // ---------- the iterator

  /** What is left to be said of a reader's file, and to be handed out. */
  ghost predicate Leaves(reader: Reader, items: seq<Item>, handed: Handed)
    reads reader
  {
    if reader.done then items == [] && handed == multiset{}
    else
      && NoneEmpty(reader.Pending())
      && items == ReadAll(reader.Pending(), reader.lengthsLie).items
      && handed == ReadAll(reader.Pending(), reader.lengthsLie).handed
  }

  ghost function Left(reader: Reader): nat
    reads reader
  {
    if reader.done then 0 else 1 + Size(reader.Pending())
  }

  /** The next item is the first of what is left, until nothing is. */
  method Take(reader: Reader, ghost items: seq<Item>, ghost handed: Handed)
    returns (item: Option<Item>, ghost items': seq<Item>, ghost handed': Handed)
    requires !reader.done && Leaves(reader, items, handed)
    modifies reader
    ensures Leaves(reader, items', handed') && reader.handed + handed' == old(reader.handed) + handed
    ensures item.Some? ==> items == [item.value] + items'
    ensures item.None? ==> items == items'
    ensures Left(reader) < old(Left(reader))
  {
    ReadAllStep(reader.Pending(), reader.lengthsLie);
    ghost var all := ReadAll(reader.Pending(), reader.lengthsLie);
    ghost var r := Parse(reader.Pending(), reader.lengthsLie);
    item := reader.Next();
    if r.item.Message? {
      ghost var rest := ReadAll(reader.Pending(), reader.lengthsLie);
      items', handed' := rest.items, rest.handed;
      AddMore(old(reader.handed), r.handed, rest.handed);
    } else {
      items', handed' := [], multiset{};
      AddNothing(reader.handed);
    }
  }

  /** Take every item that is left. */
  method Drain(reader: Reader, ghost all: seq<Item>, ghost cost: Handed) returns (items: seq<Item>)
    requires Leaves(reader, all, cost)
    modifies reader
    ensures items == all && reader.handed == old(reader.handed) + cost && reader.done
  {
    ghost var left, owed := all, cost;
    items := [];
    while !reader.done
      invariant Leaves(reader, left, owed) && all == items + left && old(reader.handed) + cost == reader.handed + owed
      decreases Left(reader)
    {
      var item;
      item, left, owed := Take(reader, left, owed);
      if item.Some? {
        Reassociate(items, [item.value], left);
        items := items + [item.value];
      }
    }
    assert items + [] == items;
    AddNothing(reader.handed);
  }

  /** Read a file whole. */
  method ReadFile(source: seq<Byte>) returns (items: seq<Item>, ghost handed: Handed)
    ensures NoneEmpty(Lines(source)) && items == ReadAll(Lines(source), false).items
    ensures forall i :: 0 < i < |items| ==> items[i].Message?
    ensures forall q: nat :: handed[q] <= if q < |source| then 3 else 0
    ensures |handed| <= 3 * |source|
  {
    LinearWork(source);
    var reader := new Reader(source);
    ghost var whole := ReadAll(reader.Pending(), reader.lengthsLie);
    items := Drain(reader, whole.items, whole.handed);
    handed := reader.handed;
    assert handed == whole.handed;
    forall q: nat ensures handed[q] <= if q < |source| then 3 else 0 { EachByteThrice(source, q); }
    OnlyFirstIsNotMbox(Lines(source), false);
  }
}
