/** A file whose messages say how long their bodies are is read by what they say: nothing in it is quoted, and no line of a
    body is looked at (crates/mail-archive/src/mbox.rs). */
module MboxCounted {
  import opened Options
  import opened Bytes
  import opened MboxFormat
  import opened MboxSplit
  import opened MboxSound
  import opened MboxRuns
  import opened MboxWritten
  import opened MboxRoundTrip
  import opened MboxFields

  /** A message as it is in such a file: its envelope line, its header lines and the blank one that ends them, its body as it
      is, and the blank lines after it. */
  datatype Entry = Entry(envelope: Piece, headers: seq<Piece>, body: seq<Byte>, gap: seq<Piece>)

  function FileOf(entries: seq<Entry>): seq<Byte> {
    if entries == [] then [] else
    var e := entries[0];
    e.envelope + (Flatten(e.headers) + (e.body + (Flatten(e.gap) + FileOf(entries[1..]))))
  }

  /** What its messages are: every body as it is. */
  function MessagesOf(entries: seq<Entry>): seq<Item> {
    if entries == [] then [] else
    var e := entries[0];
    [Message(ParseEnvelope(TrimEol(e.envelope)), Flatten(e.headers) + e.body)] + MessagesOf(entries[1..])
  }

  predicate AreLines(lines: seq<Piece>) {
    forall line :: line in lines ==> Terminated(line)
  }

  predicate OnlyLastBlank(lines: seq<Piece>) {
    lines != [] && Blank(lines[|lines| - 1]) && forall i :: 0 <= i < |lines| - 1 ==> !Blank(lines[i])
  }

  /** The last header line that says a length says the body's, of no more than 64 MiB; and a blank line comes after a body that
      does not end in a newline. */
  ghost predicate WellFormed(e: Entry) {
    && Terminated(e.envelope) && StartsFrom(e.envelope)
    && AreLines(e.headers) && OnlyLastBlank(e.headers)
    && IsLastLength(e.headers, None, Some(|e.body|)) && |e.body| <= 67_108_864
    && AreLines(e.gap) && (forall i :: 0 <= i < |e.gap| ==> Blank(e.gap[i]))
    && (e.gap == [] ==> e.body == [] || EndsInLF(e.body))
  }

  // ---------- one message

  /** What counting leaves of the lines of a text are the lines of what it leaves. */
  lemma {:induction false} CountingLeaves(pieces: seq<Piece>, n: nat)
    requires WellSplit(pieces)
    ensures WellSplit(TakeBody(pieces, n).rest)
    decreases |pieces|
  {
    if n > 0 && pieces != [] {
      var first, others := pieces[0], pieces[1..];
      if |first| > n {
        var tail := first[n..];
        assert tail[..|tail| - 1] == first[..|first| - 1][n..];
        WellSplitFirst(tail, others);
      } else {
        CountingLeaves(others, n - |first|);
      }
    }
  }

  lemma Counts(body: seq<Byte>, after: seq<Byte>)
    ensures var taken := TakeBody(Lines(body + after), |body|); taken.body == body && taken.rest == Lines(after)
  {
    LinesWellSplit(body + after);
    LinesFlatten(body + after);
    LinesNoneEmpty(body + after);
    CountsPieces(Lines(body + after), body, after);
  }

  lemma CountsPieces(pieces: seq<Piece>, body: seq<Byte>, after: seq<Byte>)
    requires WellSplit(pieces) && NoneEmpty(pieces) && Flatten(pieces) == body + after
    ensures var taken := TakeBody(pieces, |body|); taken.body == body && taken.rest == Lines(after)
  {
    TakeConserves(pieces, |body|);
    CountingLeaves(pieces, |body|);
    var taken := TakeBody(pieces, |body|);
    SameSplit(taken.body, Flatten(taken.rest), body, after);
    WellSplitIs(taken.rest);
  }

  lemma SameSplit(a: seq<Byte>, b: seq<Byte>, c: seq<Byte>, d: seq<Byte>)
    requires a + b == c + d && |a| <= |c| && (|a| < |c| ==> b == [])
    ensures a == c && b == d
  {
    assert |a| == |c|;
    assert a == (a + b)[..|a|] && c == (c + d)[..|a|] && b == (a + b)[|a|..] && d == (c + d)[|a|..];
  }

  lemma {:induction false} HeadersAsTheyAre(headers: seq<Piece>, rest: seq<Piece>, before: Option<nat>)
    requires OnlyLastBlank(headers)
    ensures var head := TakeHeaders(headers + rest, before);
            head.raw == Flatten(headers) && head.length == LengthSaid(headers, before) && head.ended && head.rest == rest
  {
    var first, others := headers[0], headers[1..];
    assert headers == [first] + others;
    Reassociate([first], others, rest);
    assert (headers + rest)[0] == first && (headers + rest)[1..] == others + rest;
    if others == [] {
      assert others + rest == rest;
      assert LengthSaid(others, Says(first, before)) == Says(first, before);
      FlattenOne(first);
    } else {
      assert forall i :: 0 <= i < |others| ==> others[i] == headers[i + 1];
      assert first == headers[0];
      HeadersAsTheyAre(others, rest, Says(first, before));
    }
  }

  lemma {:induction false} GapIsBoundary(gap: seq<Piece>, rest: seq<Piece>)
    requires (forall i :: 0 <= i < |gap| ==> Blank(gap[i])) && AtBoundary(rest)
    ensures AtBoundary(gap + rest)
  {
    if gap == [] {
      assert gap + rest == rest;
    } else {
      assert (gap + rest)[0] == gap[0] && (gap + rest)[1..] == gap[1..] + rest;
      GapIsBoundary(gap[1..], rest);
    }
  }

  lemma OneLast(values: seq<Option<nat>>, before: Option<nat>, a: Option<nat>, b: Option<nat>)
    requires IsLast(values, before, a) && IsLast(values, before, b)
    ensures a == b
  {
  }

  lemma LengthSaidBy(headers: seq<Piece>, said: Option<nat>)
    requires IsLastLength(headers, None, said)
    ensures LengthSaid(headers, None) == said
  {
    LengthSaidIsLast(headers, None);
    OneLast(Lengths(headers), None, said, LengthSaid(headers, None));
  }

  /** A message whose length is that of its body, which a boundary comes after, is read as it is. */
  lemma CountedReads(e: Entry, rest: seq<Byte>)
    requires WellFormed(e) && AtBoundary(Lines(rest))
    ensures var r := ParseFirst([e.envelope] + (e.headers + Lines(e.body + (Flatten(e.gap) + rest))), false);
            && r.item == Message(ParseEnvelope(TrimEol(e.envelope)), Flatten(e.headers) + e.body)
            && r.rest == e.gap + Lines(rest) && !r.lie
  {
    var after := Flatten(e.gap) + rest;
    var pieces := Lines(e.body + after);
    assert ([e.envelope] + (e.headers + pieces))[1..] == e.headers + pieces;
    HeadersAsTheyAre(e.headers, pieces, None);
    LengthSaidBy(e.headers, Some(|e.body|));
    Counts(e.body, after);
    LinesOfFlatten(e.gap, rest);
    GapIsBoundary(e.gap, Lines(rest));
    BodyCounted(pieces, ParseEnvelope(TrimEol(e.envelope)), Flatten(e.headers), e.body);
  }

  lemma BodyCounted(pieces: seq<Piece>, envelope: Envelope, raw: seq<Byte>, body: seq<Byte>)
    requires |body| <= 67_108_864
    requires var taken := TakeBody(pieces, |body|); taken.body == body && AtBoundary(taken.rest)
    ensures var r := ParseBody(pieces, envelope, raw, Some(|body|), false);
            r.item == Message(envelope, raw + body) && r.rest == TakeBody(pieces, |body|).rest && !r.lie
  {
  }

  // ---------- a whole file

  lemma LinesOfEntry(e: Entry, rest: seq<Byte>)
    requires WellFormed(e)
    ensures Lines(e.envelope + (Flatten(e.headers) + (e.body + (Flatten(e.gap) + rest)))) ==
            [e.envelope] + (e.headers + Lines(e.body + (Flatten(e.gap) + rest)))
  {
    var after := e.body + (Flatten(e.gap) + rest);
    LinesOfFlatten(e.headers, after);
    LinesFirst(e.envelope, Flatten(e.headers) + after);
  }

  lemma EntryAtBoundary(e: Entry, rest: seq<Byte>)
    requires WellFormed(e)
    ensures AtBoundary(Lines(e.envelope + (Flatten(e.headers) + (e.body + (Flatten(e.gap) + rest)))))
  {
    LinesOfEntry(e, rest);
    StartsAtBoundary(e.envelope, e.headers + Lines(e.body + (Flatten(e.gap) + rest)));
  }

  lemma StartsAtBoundary(line: Piece, others: seq<Piece>)
    requires StartsFrom(line)
    ensures AtBoundary([line] + others)
  {
    AtEnvelope([line] + others);
  }

  lemma FileAtBoundary(entries: seq<Entry>)
    requires forall i :: 0 <= i < |entries| ==> WellFormed(entries[i])
    ensures AtBoundary(Lines(FileOf(entries)))
  {
    if entries != [] {
      EntryAtBoundary(entries[0], FileOf(entries[1..]));
    }
  }

  lemma BlankBeforeParse(blank: Piece, pieces: seq<Piece>, lie: bool)
    requires Blank(blank)
    ensures Same(Parse([blank] + pieces, lie), Parse(pieces, lie))
  {
    assert ([blank] + pieces)[1..] == pieces;
  }

  lemma {:induction false} GapChangesNothing(gap: seq<Piece>, pieces: seq<Piece>, lie: bool)
    requires NoneEmpty(gap + pieces) && NoneEmpty(pieces) && forall i :: 0 <= i < |gap| ==> Blank(gap[i])
    ensures ReadAll(gap + pieces, lie).items == ReadAll(pieces, lie).items
  {
    if gap == [] {
      assert gap + pieces == pieces;
    } else {
      var first, others := gap[0], gap[1..];
      assert gap == [first] + others;
      Reassociate([first], others, pieces);
      assert others + pieces == (gap + pieces)[1..];
      GapChangesNothing(others, pieces, lie);
      BlankBeforeParse(first, others + pieces, lie);
      SameParse(gap + pieces, others + pieces, lie);
    }
  }

  /** A file of such messages is read as exactly them, whatever their bodies are: lines that are envelopes in every way, quoted
      lines and blank ones are body where the length says so. */
  lemma {:induction false} CountedFile(entries: seq<Entry>)
    requires forall i :: 0 <= i < |entries| ==> WellFormed(entries[i])
    ensures ItemsOf(FileOf(entries), false) == MessagesOf(entries)
  {
    LinesNoneEmpty(FileOf(entries));
    if entries != [] {
      var e, more := entries[0], entries[1..];
      var rest := FileOf(more);
      CountedFile(more);
      FileAtBoundary(more);
      LinesNoneEmpty(rest);
      LinesOfEntry(e, rest);
      CountedReads(e, rest);
      NothingToSkip([e.envelope] + (e.headers + Lines(e.body + (Flatten(e.gap) + rest))));
      ReadAllStep(Lines(FileOf(entries)), false);
      GapChangesNothing(e.gap, Lines(rest), false);
    }
  }

  lemma NothingToSkip(pieces: seq<Piece>)
    requires pieces != [] && StartsFrom(pieces[0])
    ensures Parse(pieces, false) == ParseFirst(pieces, false)
  {
    AtEnvelope(pieces);
    assert multiset{} + ParseFirst(pieces, false).handed == ParseFirst(pieces, false).handed;
  }

  // ---------- what says so

  lemma {:induction false} LengthsAt(headers: seq<Piece>)
    ensures |Lengths(headers)| == |headers| && forall i :: 0 <= i < |headers| ==> Lengths(headers)[i] == ContentLength(headers[i])
  {
    if headers != [] {
      LengthsAt(headers[1..]);
      forall i | 0 < i < |headers| ensures Lengths(headers)[i] == ContentLength(headers[i]) {
        assert Lengths(headers)[i] == Lengths(headers[1..])[i - 1] && headers[i] == headers[1..][i - 1];
      }
    }
  }

  /** A header line says a body's length whatever the case of its name's letters and the white space around the number. */
  lemma SaidInAnyCase(headers: seq<Piece>, i: nat, name: seq<Byte>, value: seq<Byte>, n: nat)
    requires i < |headers| && TrimEol(headers[i]) == name + ([COLON] + value) && COLON !in name
    requires IsLengthName(name) && SaysNumber(value, n)
    requires forall k :: i < k < |headers| ==> ContentLength(headers[k]).None?
    ensures IsLastLength(headers, None, Some(n))
  {
    ContentLengthExactly(headers[i], name, value, n);
    LengthsAt(headers);
    assert Lengths(headers)[i] == Some(n);
  }

  /** A length longer than 64 MiB is as good as none. */
  lemma TooLongIsScanned(pieces: seq<Piece>, envelope: Envelope, raw: seq<Byte>, n: nat, lie: bool)
    requires n > 67_108_864
    ensures ParseBody(pieces, envelope, raw, Some(n), lie) == ParseBody(pieces, envelope, raw, None, lie)
  {
  }
}
