/** A whole file read: it ends, it splits only at boundaries, at most one length is found false, and what is pending is
    always its last bytes (crates/mail-archive/src/mbox.rs). */
module MboxRuns {
  import opened Options
  import opened Bytes
  import opened MboxFormat
  import opened MboxSplit
  import opened MboxSound

  // ---------- a boundary after every message

  lemma AtEnvelope(pieces: seq<Piece>)
    requires pieces != [] && StartsFrom(pieces[0])
    ensures AtBoundary(pieces) && SkipBlanks(pieces) == Skipped(pieces, multiset{})
  {
    FromIsNotBlank(pieces[0]);
  }

  lemma FromIsNotBlank(line: Piece)
    requires StartsFrom(line)
    ensures !Blank(line)
  {
    QuotedIsNotBlank(line) by { assert line[0] == line[..5][0] == FROM[0]; }
  }

  /** A body leaves what comes after it at a boundary, empty of no piece, and with no bytes more. */
  lemma BodyLeavesBoundary(pieces: seq<Piece>, envelope: Envelope, raw: seq<Byte>, length: Option<nat>, lie: bool)
    requires NoneEmpty(pieces)
    ensures var r := ParseBody(pieces, envelope, raw, length, lie);
            && r.item.Message? && AtBoundary(r.rest) && NoneEmpty(r.rest) && Size(r.rest) <= Size(pieces)
            && (lie ==> r.lie)
  {
    if Believed(length, lie) {
      TakeConserves(pieces, length.value);
      RejectedLengthUndone(pieces, length.value);
      if !Fits(pieces, length.value) { ScanLeavesBoundary(PutBack(pieces, length.value), envelope, raw, true); }
    } else {
      ScanLeavesBoundary(pieces, envelope, raw, lie);
    }
  }

  lemma ScanLeavesBoundary(pieces: seq<Piece>, envelope: Envelope, raw: seq<Byte>, lie: bool)
    requires NoneEmpty(pieces)
    ensures var r := Scanned(pieces, envelope, raw, lie);
            AtBoundary(r.rest) && NoneEmpty(r.rest) && Size(r.rest) <= Size(pieces)
  {
    RestAtBoundary(pieces, true);
  }

  lemma {:induction false} RestAtBoundary(pieces: seq<Piece>, afterBlank: bool)
    requires NoneEmpty(pieces)
    ensures var rest := ScanRest(pieces, afterBlank);
            AtBoundary(rest) && NoneEmpty(rest) && Size(rest) <= Size(pieces)
  {
    if pieces != [] {
      if ScanEnds(pieces, afterBlank) {
        AtEnvelope(pieces);
      } else {
        RestAtBoundary(pieces[1..], Blank(pieces[0]));
        assert Flatten(pieces) == pieces[0] + Flatten(pieces[1..]);
      }
    }
  }

  /** What blank pieces and what comes after them are made of. */
  lemma {:induction false} SkipIs(pieces: seq<Piece>)
    ensures var skipped := SkipBlanks(pieces);
            && Size(skipped.rest) <= Size(pieces)
            && (NoneEmpty(pieces) ==> NoneEmpty(skipped.rest))
            && (skipped.rest != [] ==> !Blank(skipped.rest[0]))
  {
    if pieces != [] && Blank(pieces[0]) {
      assert Flatten(pieces) == pieces[0] + Flatten(pieces[1..]);
      SkipIs(pieces[1..]);
    }
  }

  /** What headers and what comes after them are made of. */
  lemma {:induction false} HeadIs(pieces: seq<Piece>, length: Option<nat>)
    ensures var head := TakeHeaders(pieces, length);
            && Size(head.rest) <= Size(pieces)
            && (NoneEmpty(pieces) ==> NoneEmpty(head.rest))
  {
    if pieces != [] {
      assert Flatten(pieces) == pieces[0] + Flatten(pieces[1..]);
      if !Blank(pieces[0]) { HeadIs(pieces[1..], Says(pieces[0], length)); }
    }
  }

  lemma {:induction false} HeadersLeaveBoundary(pieces: seq<Piece>, envelope: Envelope, lie: bool)
    requires NoneEmpty(pieces)
    ensures var r := ParseHeaders(pieces, envelope, lie);
            && r.item.Message? && AtBoundary(r.rest) && NoneEmpty(r.rest) && Size(r.rest) <= Size(pieces)
            && (lie ==> r.lie)
  {
    HeadIs(pieces, None);
    var head := TakeHeaders(pieces, None);
    if head.ended { BodyLeavesBoundary(head.rest, envelope, head.raw, head.length, lie); }
  }

  lemma BoundaryIsMbox(pieces: seq<Piece>, lie: bool)
    requires AtBoundary(pieces)
    ensures !Parse(pieces, lie).item.NotMbox?
  {
  }

  /** Splitting is sound: after a message, what is left begins at a boundary, so what is read next is another
      message or the end and never `NotMbox`; and each message is some bytes fewer to read. */
  lemma {:induction false} SplitsAtBoundary(pieces: seq<Piece>, lie: bool)
    requires NoneEmpty(pieces) && Parse(pieces, lie).item.Message?
    ensures var r := Parse(pieces, lie);
            && AtBoundary(r.rest) && !Parse(r.rest, r.lie).item.NotMbox?
            && NoneEmpty(r.rest) && Size(r.rest) < Size(pieces) && (lie ==> r.lie)
  {
    SkipIs(pieces);
    var rest := SkipBlanks(pieces).rest;
    assert Flatten(rest) == rest[0] + Flatten(rest[1..]);
    HeadersLeaveBoundary(rest[1..], ParseEnvelope(TrimEol(rest[0])), lie);
    var r := Parse(pieces, lie);
    BoundaryIsMbox(r.rest, r.lie);
  }

  // ---------- a whole file

  datatype Whole = Whole(items: seq<Item>, handed: Handed, rejected: nat)

  /** Everything the iterator says of `pieces`, in order, the bytes handed out for it, and how many lengths were
      found false. */
  function ReadAll(pieces: seq<Piece>, lie: bool): Whole
    requires NoneEmpty(pieces)
    decreases Size(pieces)
  {
    var r := Parse(pieces, lie);
    if r.item.Message? then
      SplitsAtBoundary(pieces, lie);
      var more := ReadAll(r.rest, r.lie);
      Whole([r.item] + more.items, r.handed + more.handed, (if r.lie && !lie then 1 else 0) + more.rejected)
    else Whole(if r.item.NotMbox? then [NotMbox] else [], r.handed, 0)
  }

  lemma ReadAllStep(pieces: seq<Piece>, lie: bool)
    requires NoneEmpty(pieces)
    ensures var all, r := ReadAll(pieces, lie), Parse(pieces, lie);
            match r.item
            case Message(_, _) =>
              && NoneEmpty(r.rest) && Size(r.rest) < Size(pieces)
              && all.items == [r.item] + ReadAll(r.rest, r.lie).items
              && all.handed == r.handed + ReadAll(r.rest, r.lie).handed
            case NotMbox => all.items == [NotMbox] && all.handed == r.handed
            case EndOfFile => all.items == [] && all.handed == r.handed
  {
    if Parse(pieces, lie).item.Message? { SplitsAtBoundary(pieces, lie); }
  }

  predicate AllMessages(items: seq<Item>) {
    forall i :: 0 <= i < |items| ==> items[i].Message?
  }

  lemma OneMore(item: Item, items: seq<Item>)
    requires AllMessages(items)
    ensures item.Message? ==> AllMessages([item] + items)
    ensures forall i :: 0 < i < |[item] + items| ==> ([item] + items)[i].Message?
  {
  }

  lemma {:induction false} AllFromBoundary(pieces: seq<Piece>, lie: bool)
    requires NoneEmpty(pieces) && AtBoundary(pieces)
    ensures AllMessages(ReadAll(pieces, lie).items)
    decreases Size(pieces)
  {
    var r := Parse(pieces, lie);
    ReadAllStep(pieces, lie);
    BoundaryIsMbox(pieces, lie);
    if r.item.Message? {
      SplitsAtBoundary(pieces, lie);
      AllFromBoundary(r.rest, r.lie);
      OneMore(r.item, ReadAll(r.rest, r.lie).items);
    }
  }

  /** Only the first thing said of a file can be that it is not an mbox. */
  lemma {:induction false} OnlyFirstIsNotMbox(pieces: seq<Piece>, lie: bool)
    requires NoneEmpty(pieces)
    ensures var items := ReadAll(pieces, lie).items; forall i :: 0 < i < |items| ==> items[i].Message?
    ensures AtBoundary(pieces) ==> AllMessages(ReadAll(pieces, lie).items)
  {
    var r := Parse(pieces, lie);
    ReadAllStep(pieces, lie);
    if AtBoundary(pieces) { AllFromBoundary(pieces, lie); }
    if r.item.Message? {
      SplitsAtBoundary(pieces, lie);
      AllFromBoundary(r.rest, r.lie);
      OneMore(r.item, ReadAll(r.rest, r.lie).items);
    }
  }

  /** At most one length is found false in a file. */
  lemma {:induction false} OneLie(pieces: seq<Piece>, lie: bool)
    requires NoneEmpty(pieces)
    ensures ReadAll(pieces, lie).rejected <= if lie then 0 else 1
    decreases Size(pieces)
  {
    var r := Parse(pieces, lie);
    if r.item.Message? {
      SplitsAtBoundary(pieces, lie);
      OneLie(r.rest, r.lie);
    }
  }

  lemma LinesNoneEmpty(source: seq<Byte>)
    ensures NoneEmpty(Lines(source))
  {
    LinesWellSplit(source);
    WellSplitLines(Lines(source));
    forall i | 0 <= i < |Lines(source)| ensures Lines(source)[i] != [] { assert Lines(source)[i] in Lines(source); }
  }

  // ---------- what is pending

  /** `all` ends with `end`. */
  predicate EndsWith(all: seq<Byte>, end: seq<Byte>) {
    |end| <= |all| && all[|all| - |end|..] == end
  }

  lemma EndsMore(front: seq<Byte>, all: seq<Byte>, end: seq<Byte>)
    requires EndsWith(all, end)
    ensures EndsWith(front + all, end)
  {
    assert (front + all)[|front| + |all| - |end|..] == all[|all| - |end|..];
  }

  lemma {:induction false} SkipEnds(pieces: seq<Piece>)
    ensures EndsWith(Flatten(pieces), Flatten(SkipBlanks(pieces).rest))
  {
    if pieces != [] && Blank(pieces[0]) {
      SkipEnds(pieces[1..]);
      EndsMore(pieces[0], Flatten(pieces[1..]), Flatten(SkipBlanks(pieces).rest));
    }
  }

  lemma {:induction false} HeadEnds(pieces: seq<Piece>, length: Option<nat>)
    ensures EndsWith(Flatten(pieces), Flatten(TakeHeaders(pieces, length).rest))
  {
    if pieces != [] {
      if !Blank(pieces[0]) { HeadEnds(pieces[1..], Says(pieces[0], length)); }
      EndsMore(pieces[0], Flatten(pieces[1..]), Flatten(TakeHeaders(pieces, length).rest));
    }
  }

  lemma {:induction false} ScanEndsWith(pieces: seq<Piece>, afterBlank: bool)
    ensures EndsWith(Flatten(pieces), Flatten(ScanRest(pieces, afterBlank)))
  {
    if !ScanEnds(pieces, afterBlank) {
      ScanEndsWith(pieces[1..], Blank(pieces[0]));
      EndsMore(pieces[0], Flatten(pieces[1..]), Flatten(ScanRest(pieces, afterBlank)));
    }
  }

  lemma {:induction false} BodyEndsWith(pieces: seq<Piece>, envelope: Envelope, raw: seq<Byte>, length: Option<nat>, lie: bool)
    requires NoneEmpty(pieces)
    ensures EndsWith(Flatten(pieces), Flatten(ParseBody(pieces, envelope, raw, length, lie).rest))
  {
    if !Believed(length, lie) {
      ScanEndsWith(pieces, true);
    } else if Fits(pieces, length.value) {
      TakeEndsWith(pieces, length.value);
    } else {
      RejectedLengthUndone(pieces, length.value);
      ScanEndsWith(PutBack(pieces, length.value), true);
    }
  }

  lemma {:induction false} TakeEndsWith(pieces: seq<Piece>, n: nat)
    requires NoneEmpty(pieces)
    ensures EndsWith(Flatten(pieces), Flatten(TakeBody(pieces, n).rest))
  {
    TakeConserves(pieces, n);
    var taken := TakeBody(pieces, n);
    EndsMore(taken.body, Flatten(taken.rest), Flatten(taken.rest));
  }

  lemma {:induction false} HeadersEndWith(pieces: seq<Piece>, envelope: Envelope, lie: bool)
    requires NoneEmpty(pieces)
    ensures EndsWith(Flatten(pieces), Flatten(ParseHeaders(pieces, envelope, lie).rest))
  {
    HeadEnds(pieces, None);
    HeadIs(pieces, None);
    var head := TakeHeaders(pieces, None);
    if head.ended {
      BodyEndsWith(head.rest, envelope, head.raw, head.length, lie);
      EndsTwice(Flatten(pieces), Flatten(head.rest), Flatten(ParseHeaders(pieces, envelope, lie).rest));
    }
  }

  lemma EndsTwice(all: seq<Byte>, end: seq<Byte>, last: seq<Byte>)
    requires EndsWith(all, end) && EndsWith(end, last)
    ensures EndsWith(all, last)
  {
    assert all == all[..|all| - |end|] + end;
    EndsMore(all[..|all| - |end|], end, last);
  }

  /** What is left after a reading is the last bytes there were: so the number of bytes after one names it. */
  lemma {:induction false} RestIsEnd(pieces: seq<Piece>, lie: bool)
    requires NoneEmpty(pieces)
    ensures EndsWith(Flatten(pieces), Flatten(Parse(pieces, lie).rest))
  {
    SkipEnds(pieces);
    SkipIs(pieces);
    var rest := SkipBlanks(pieces).rest;
    if rest != [] {
      var after := Flatten(Parse(pieces, lie).rest);
      if StartsFrom(rest[0]) { HeadersEndWith(rest[1..], ParseEnvelope(TrimEol(rest[0])), lie); }
      EndsMore(rest[0], Flatten(rest[1..]), after);
      EndsTwice(Flatten(pieces), Flatten(rest), after);
    }
  }
}
