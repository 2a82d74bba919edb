/** A line of a message cut in two by a length another message says: what comes back of it, no length being believed any
    more (crates/mail-archive/src/mbox.rs). */
module MboxCuts {
  import opened Options
  import opened Bytes
  import opened MboxFormat
  import opened MboxSplit
  import opened MboxSound
  import opened MboxWritten
  import opened MboxLengths

  // ---------- any pieces, read

  /** What pieces are read as, no length being believed: those of the header section as they are, those after it unquoted. */
  function ReadOf(pieces: seq<Piece>): seq<Byte> {
    Flatten(HeaderOf(pieces)) + Flatten(UnquoteAll(BodyOf(pieces)))
  }

  lemma {:induction false} ReadOfFirst(first: Piece, others: seq<Piece>)
    ensures ReadOf([first] + others) == first + if Blank(first) then Flatten(UnquoteAll(others)) else ReadOf(others)
  {
    assert ([first] + others)[1..] == others;
    if Blank(first) {
      FlattenOne(first);
    } else {
      FlattenFirst(first, HeaderOf(others));
      Reassociate(first, Flatten(HeaderOf(others)), Flatten(UnquoteAll(BodyOf(others))));
    }
  }

  lemma {:induction false} TakenNext(first: Piece, others: seq<Piece>, length: Option<nat>)
    requires !Blank(first)
    ensures var head, more := TakeHeaders([first] + others, length), TakeHeaders(others, Says(first, length));
            head.ended == more.ended && head.raw == first + more.raw && head.rest == more.rest
  {
    assert ([first] + others)[1..] == others;
  }

  /** The headers of any pieces and a blank line after them, and what is left then. */
  lemma {:induction false} PiecesTaken(pieces: seq<Piece>, rest: seq<Piece>, length: Option<nat>)
    ensures var head := TakeHeaders(pieces + ([NEWLINE] + rest), length);
            && head.ended && head.raw == Flatten(HeaderOf(pieces)) + (if HasBlank(pieces) then [] else [LF])
            && head.rest == if HasBlank(pieces) then (BodyOf(pieces) + [NEWLINE]) + rest else rest
  {
    if pieces == [] {
      NewlineIsBlank();
      assert pieces + ([NEWLINE] + rest) == [NEWLINE] + rest;
      TakenBlank(NEWLINE, rest, length);
      FlattenOne(NEWLINE);
    } else {
      var first, others := pieces[0], pieces[1..];
      assert pieces == [first] + others;
      Reassociate([first], others, [NEWLINE] + rest);
      if Blank(first) {
        TakenBlank(first, others + ([NEWLINE] + rest), length);
        Reassociate(others, [NEWLINE], rest);
      } else {
        PiecesTaken(others, rest, Says(first, length));
        TakenNext(first, others + ([NEWLINE] + rest), length);
        FlattenFirst(first, HeaderOf(others));
        Reassociate(first, Flatten(HeaderOf(others)), if HasBlank(pieces) then [] else [LF]);
      }
    }
  }

  lemma {:induction false} ReadEnds(pieces: seq<Piece>)
    requires pieces != [] && EndsInLF(pieces[|pieces| - 1])
    ensures EndsInLF(ReadOf(pieces))
  {
    var first, others := pieces[0], pieces[1..];
    assert pieces == [first] + others;
    ReadOfFirst(first, others);
    if others != [] {
      if Blank(first) { EndsUnquoted(others); } else { ReadEnds(others); }
    }
  }

  /** Any pieces of which none begins `From `, the last of them ended by an LF, a blank line, and what is next. */
  lemma {:induction false} PlainReads(pieces: seq<Piece>, rest: seq<Piece>, envelope: Envelope)
    requires pieces != [] && EndsInLF(pieces[|pieces| - 1]) && Next(rest)
    requires forall i :: 0 <= i < |pieces| ==> !StartsFrom(pieces[i])
    ensures Reads(ParseHeaders(pieces + ([NEWLINE] + rest), envelope, true), Message(envelope, ReadOf(pieces)), rest, true)
  {
    PiecesTaken(pieces, rest, None);
    ReadEnds(pieces);
    HeaderThenBody(pieces);
    var raw, body := Flatten(HeaderOf(pieces)), BodyOf(pieces);
    if HasBlank(pieces) {
      assert raw + [] == raw;
      BodyIsOf(pieces);
      ScannedBack(body, rest, envelope, raw, true);
    } else {
      assert raw + [] == raw && UnquoteAll(body) == [];
      ScanNext(rest);
      assert (raw + [LF]) + [] == raw + [LF];
      SeparatorStripped(raw);
    }
  }

  lemma BodyIsOf(pieces: seq<Piece>)
    requires forall i :: 0 <= i < |pieces| ==> !StartsFrom(pieces[i])
    ensures forall i :: 0 <= i < |BodyOf(pieces)| ==> !StartsFrom(BodyOf(pieces)[i])
  {
    HeaderThenBody(pieces);
    var headers, body := HeaderOf(pieces), BodyOf(pieces);
    forall i | 0 <= i < |body| ensures !StartsFrom(body[i]) { assert body[i] == (headers + body)[|headers| + i]; }
  }

  // ---------- what should come back

  lemma {:induction false} KeptFirst(first: Piece, others: seq<Piece>, exact: bool)
    ensures Kept([first] + others, exact) ==
              (if exact then first else Quote(first)) + if Blank(first) then Flatten(others) else Kept(others, exact)
  {
    FlattenFirst(first, others);
    assert ([first] + others)[1..] == others;
    if Blank(first) {
      assert QuoteAll([first]) == [Quote(first)];
      FlattenOne(Quote(first));
    } else {
      QuoteAllFirst(first, HeaderOf(others));
      FlattenFirst(Quote(first), QuoteAll(HeaderOf(others)));
      Reassociate(Quote(first), Flatten(QuoteAll(HeaderOf(others))), Flatten(BodyOf(others)));
    }
  }

  /** The lines themselves are as long only where no header line is quoted. */
  lemma {:induction false} KeptIs(lines: seq<Piece>)
    ensures |Kept(lines, false)| >= |Kept(lines, true)|
    ensures NoneQuoted(HeaderOf(lines)) ==> Kept(lines, false) == Kept(lines, true)
    ensures |Kept(lines, false)| == |Kept(lines, true)| ==> NoneQuoted(HeaderOf(lines))
  {
    HeaderThenBody(lines);
    FlattenConcat(HeaderOf(lines), BodyOf(lines));
    QuotingLengthens(HeaderOf(lines));
  }

  /** Each line is ended by an LF. */
  predicate AllEnded(lines: seq<Piece>) {
    lines != [] ==> Terminated(lines[0]) && AllEnded(lines[1..])
  }

  lemma {:induction false} AllEndedIs(lines: seq<Piece>)
    requires forall line :: line in lines ==> Terminated(line)
    ensures AllEnded(lines)
  {
    if lines != [] { AllEndedIs(lines[1..]); }
  }

  /** Quoted lines that are not cut are read so. */
  lemma {:induction false} ReadOfQuoted(lines: seq<Piece>)
    requires AllEnded(lines)
    ensures ReadOf(QuoteAll(lines)) == Kept(lines, false)
  {
    if lines != [] {
      var first, others := lines[0], lines[1..];
      assert lines == [first] + others;
      QuoteAllFirst(first, others);
      QuoteTerminated(first);
      ReadOfFirst(Quote(first), QuoteAll(others));
      KeptFirst(first, others, false);
      QuoteAllUndone(others);
      if !Blank(first) { ReadOfQuoted(others); }
    }
  }

  // ---------- one of a message's own lines

  /** Whether a message of these headers comes back with its line `l`, as it is quoted, cut in two. A line of the body must
      be unquoted in parts as it is whole. In the header section a part that is blank ends the section there: the second part
      must be its own unquoting, and the lines of the section after it come back as they were, those before as they were
      quoted. Any other cut of a header line does nothing. */
  predicate LineHarmless(headers: seq<Piece>, l: nat, head: Piece, tail: Piece, exact: bool) {
    if l >= |headers| then PartsUnquote(head, tail) && (exact ==> NoneQuoted(headers))
    else if Blank(head) || Blank(tail) then
      Unquote(tail) == tail && NoneQuoted(if exact then headers[..l + 1] else headers[l + 1..])
    else exact ==> NoneQuoted(headers)
  }

  lemma NoneQuotedFirst(first: Piece, others: seq<Piece>)
    ensures NoneQuoted([first] + others) <==> !NeedsQuote(first) && NoneQuoted(others)
  {
    var lines := [first] + others;
    assert lines[0] == first && lines[1..] == others;
    if NoneQuoted(lines) {
      forall i | 0 <= i < |others| ensures !NeedsQuote(others[i]) { assert others[i] == lines[i + 1]; }
    }
  }

  /** The header section of lines that begin with one. */
  lemma {:induction false} HeadersFirst(first: Piece, others: seq<Piece>)
    ensures HeaderOf([first] + others) == [first] + MoreHeaders(first, others)
  {
    assert ([first] + others)[1..] == others;
  }

  function MoreHeaders(first: Piece, others: seq<Piece>): seq<Piece> {
    if Blank(first) then [] else HeaderOf(others)
  }

  lemma NoneQuotedUpTo(first: Piece, headers: seq<Piece>, l: nat)
    requires l < |headers|
    ensures NoneQuoted(([first] + headers)[..l + 2]) <==> !NeedsQuote(first) && NoneQuoted(headers[..l + 1])
    ensures ([first] + headers)[l + 2..] == headers[l + 1..]
  {
    assert ([first] + headers)[..l + 2] == [first] + headers[..l + 1];
    NoneQuotedFirst(first, headers[..l + 1]);
  }

  /** A later line. */
  lemma {:induction false} LaterHarmless(first: Piece, headers: seq<Piece>, l: nat, head: Piece, tail: Piece, exact: bool)
    ensures LineHarmless([first] + headers, l + 1, head, tail, exact) <==>
              (exact ==> !NeedsQuote(first)) && LineHarmless(headers, l, head, tail, exact)
  {
    NoneQuotedFirst(first, headers);
    if l < |headers| { NoneQuotedUpTo(first, headers, l); }
  }

  lemma {:induction false} BlankIsPlain(line: Piece)
    requires Blank(line)
    ensures !NeedsQuote(line) && Unquote(line) == line && Quote(line) == line
  {
    if NeedsQuote(line) { QuotedIsNotBlank(line); }
  }

  /** A line before others, read as `read` and to come back as `Kept` says. */
  lemma {:induction false} SameLater(first: Piece, others: seq<Piece>, read: seq<Byte>, exact: bool)
    requires Terminated(first)
    ensures Quote(first) + read == Kept([first] + others, exact) <==>
              (exact ==> !NeedsQuote(first)) && read == if Blank(first) then Flatten(others) else Kept(others, exact)
  {
    KeptFirst(first, others, exact);
    if Blank(first) { BlankIsPlain(first); }
    var wanted := if Blank(first) then Flatten(others) else Kept(others, exact);
    if exact && NeedsQuote(first) {
      QuotedDiffers(first, wanted, read);
    } else {
      SameAfter(Quote(first), read, wanted);
    }
  }

  /** What quoted lines are read as, one of them cut. */
  function ReadCut(lines: seq<Piece>, l: nat, head: Piece, tail: Piece): seq<Byte>
    requires l < |lines|
  {
    ReadOf(InParts(QuoteAll(lines), l, head, tail))
  }

  lemma {:induction false} ReadFurther(first: Piece, others: seq<Piece>, l: nat, head: Piece, tail: Piece)
    requires Terminated(first) && l < |others|
    ensures ReadCut([first] + others, l + 1, head, tail) == Quote(first) +
              if Blank(first) then Flatten(UnquoteAll(InParts(QuoteAll(others), l, head, tail)))
              else ReadCut(others, l, head, tail)
  {
    QuoteTerminated(first);
    QuoteAllFirst(first, others);
    InPartsNext(Quote(first), QuoteAll(others), l, head, tail);
    ReadOfFirst(Quote(first), InParts(QuoteAll(others), l, head, tail));
  }

  lemma {:induction false} ReadBody(others: seq<Piece>, l: nat, head: Piece, tail: Piece)
    requires l < |others| && Quote(others[l]) == head + tail
    ensures Flatten(UnquoteAll(InParts(QuoteAll(others), l, head, tail))) == Flatten(others) <==> PartsUnquote(head, tail)
  {
    PartsSame(QuoteAll(others), l, head, tail);
    QuoteAllUndone(others);
  }

  // ---------- the first line

  /** Two parts before quoted lines, read. */
  lemma {:induction false} ReadOfParts(head: Piece, tail: Piece, others: seq<Piece>)
    requires AllEnded(others)
    ensures ReadOf([head] + ([tail] + QuoteAll(others))) == head + (TailRead(head, tail) + AfterParts(head, tail, others))
  {
    var quoted := QuoteAll(others);
    ReadOfFirst(head, [tail] + quoted);
    QuoteAllUndone(others);
    if Blank(head) {
      UnquotedFirst(tail, quoted);
    } else {
      ReadOfFirst(tail, quoted);
      if !Blank(tail) { ReadOfQuoted(others); }
    }
  }

  /** The second part as it is read, */
  function TailRead(head: Piece, tail: Piece): Piece {
    if Blank(head) then Unquote(tail) else tail
  }

  /** and what is read after it. */
  function AfterParts(head: Piece, tail: Piece, others: seq<Piece>): seq<Byte> {
    if Blank(head) || Blank(tail) then Flatten(others) else Kept(others, false)
  }

  /** Of the parts of a quoted line that is terminated, a first that is blank is a CR, and so no line is quoted that it
      begins; and a blank line that is cut is `\r\n`. */
  lemma {:induction false} BlankPart(first: Piece, head: Piece, tail: Piece)
    requires Terminated(first) && Quote(first) == head + tail && head != [] && tail != []
    ensures Blank(head) ==> !NeedsQuote(first)
    ensures Blank(first) ==> Blank(head) && Blank(tail)
    ensures Blank(tail) ==> Unquote(tail) == tail
  {
    QuoteTerminated(first);
    HeadHasNone(head, tail);
    assert NeedsQuote(first) ==> (head + tail)[0] == GT;
    if Blank(head) { assert head == [CR]; }
    if Blank(first) {
      BlankIsPlain(first);
      BlankInTwo(head, tail);
    }
    if Blank(tail) { BlankIsPlain(tail); }
  }

  lemma HeadHasNone(head: Piece, tail: Piece)
    requires Terminated(head + tail) && tail != []
    ensures LF !in head
  {
    var line := head + tail;
    forall i | 0 <= i < |head| ensures head[i] != LF { assert line[..|line| - 1][i] == head[i]; }
  }

  lemma BlankInTwo(head: Piece, tail: Piece)
    requires Blank(head + tail) && EndsInLF(head + tail) && head != [] && tail != []
    ensures Blank(head) && Blank(tail)
  {
    var line := head + tail;
    assert |line| == 2 && line[0] == CR && line[1] == LF;
    assert head == [CR] && tail == [LF];
    assert [CR][..0] == [] && [LF][..0] == [];
  }

  /** What is read, and what should be, after the first part. */
  lemma SameLengths(head: seq<Byte>, tail: seq<Byte>, got: seq<Byte>, after: seq<Byte>, wanted: seq<Byte>)
    requires |got| < |tail| || got == tail
    requires |after| < |wanted| || after == wanted || (got == tail && |after| > |wanted|)
    ensures head + (got + after) == (head + tail) + wanted <==> got == tail && after == wanted
  {
    if got == tail && after == wanted {
      Reassociate(head, tail, wanted);
    } else {
      assert |head + (got + after)| != |(head + tail) + wanted|;
    }
  }

  /** No header line after the first is one that is quoted. */
  predicate OthersPlain(first: Piece, others: seq<Piece>) {
    NoneQuoted(MoreHeaders(first, others))
  }

  /** Whether a cut of the first line does harm. */
  lemma {:induction false} FirstHarmless(first: Piece, headers: seq<Piece>, head: Piece, tail: Piece, exact: bool)
    ensures LineHarmless([first] + headers, 0, head, tail, exact) <==>
              if Blank(head) || Blank(tail) then Unquote(tail) == tail && if exact then !NeedsQuote(first) else NoneQuoted(headers)
              else exact ==> !NeedsQuote(first) && NoneQuoted(headers)
  {
    NoneQuotedFirst(first, headers);
    NoneQuotedFirst(first, []);
    assert [first] + [] == [first];
    assert ([first] + headers)[..1] == [first] && ([first] + headers)[1..] == headers;
  }

  /** Two parts of the first line, read, against the lines with their headers as they are quoted, */
  lemma {:induction false} FirstQuoted(first: Piece, others: seq<Piece>, head: Piece, tail: Piece)
    requires Terminated(first) && Quote(first) == head + tail && head != [] && tail != []
    ensures head + (TailRead(head, tail) + AfterParts(head, tail, others)) == Kept([first] + others, false) <==>
              (Blank(head) || Blank(tail) ==> Unquote(tail) == tail && OthersPlain(first, others))
  {
    BlankPart(first, head, tail);
    KeptFirst(first, others, false);
    KeptIs(others);
    SameLengths(head, tail, TailRead(head, tail), AfterParts(head, tail, others),
                if Blank(first) then Flatten(others) else Kept(others, false));
  }

  /** and against the lines themselves. */
  lemma {:induction false} FirstExact(first: Piece, others: seq<Piece>, head: Piece, tail: Piece)
    requires Terminated(first) && Quote(first) == head + tail && head != [] && tail != []
    ensures head + (TailRead(head, tail) + AfterParts(head, tail, others)) == Kept([first] + others, true) <==>
              !NeedsQuote(first) && if Blank(head) || Blank(tail) then Unquote(tail) == tail else OthersPlain(first, others)
  {
    BlankPart(first, head, tail);
    KeptFirst(first, others, true);
    KeptIs(others);
    var after := AfterParts(head, tail, others);
    if NeedsQuote(first) {
      assert |head + (tail + after)| > |first + Flatten(others)|;
    } else {
      SameLengths(head, tail, TailRead(head, tail), after, Flatten(others));
    }
  }

  // ---------- any line

  /** Lines as they are quoted, one of them cut, come back exactly when the cut is harmless. */
  predicate CutTells(lines: seq<Piece>, l: nat, head: Piece, tail: Piece, exact: bool)
    requires l < |lines|
  {
    ReadCut(lines, l, head, tail) == Kept(lines, exact) <==> LineHarmless(HeaderOf(lines), l, head, tail, exact)
  }

  lemma {:induction false} CutFirst(first: Piece, others: seq<Piece>, head: Piece, tail: Piece, exact: bool)
    requires Terminated(first) && AllEnded(others) && Quote(first) == head + tail && head != [] && tail != []
    ensures CutTells([first] + others, 0, head, tail, exact)
  {
    QuoteAllFirst(first, others);
    InPartsFirst(Quote(first), QuoteAll(others), head, tail);
    ReadOfParts(head, tail, others);
    HeadersFirst(first, others);
    FirstHarmless(first, MoreHeaders(first, others), head, tail, exact);
    if exact { FirstExact(first, others, head, tail); } else { FirstQuoted(first, others, head, tail); }
  }

  lemma {:induction false} CutFurther(first: Piece, others: seq<Piece>, l: nat, head: Piece, tail: Piece, exact: bool)
    requires Terminated(first) && l < |others| && Quote(others[l]) == head + tail
    requires !Blank(first) ==> CutTells(others, l, head, tail, exact)
    ensures CutTells([first] + others, l + 1, head, tail, exact)
  {
    ReadFurther(first, others, l, head, tail);
    HeadersFirst(first, others);
    LaterHarmless(first, MoreHeaders(first, others), l, head, tail, exact);
    var read := if Blank(first) then Flatten(UnquoteAll(InParts(QuoteAll(others), l, head, tail)))
                else ReadCut(others, l, head, tail);
    SameLater(first, others, read, exact);
    if Blank(first) { ReadBody(others, l, head, tail); }
  }

  lemma {:induction false} LineCut(lines: seq<Piece>, l: nat, head: Piece, tail: Piece, exact: bool)
    requires AllEnded(lines) && l < |lines| && Quote(lines[l]) == head + tail && head != [] && tail != []
    ensures CutTells(lines, l, head, tail, exact)
  {
    var first, others := lines[0], lines[1..];
    assert [first] + others == lines;
    if l == 0 {
      CutFirst(first, others, head, tail, exact);
    } else {
      assert others[l - 1] == lines[l];
      if !Blank(first) { LineCut(others, l - 1, head, tail, exact); }
      CutFurther(first, others, l - 1, head, tail, exact);
    }
  }

  /** For every cut of every line. */
  lemma LineCutExactly(lines: seq<Piece>, l: nat, head: Piece, tail: Piece, exact: bool)
    requires (forall line :: line in lines ==> Terminated(line)) && PartsOf(QuoteAll(lines), l, head, tail)
    ensures ReadOf(InParts(QuoteAll(lines), l, head, tail)) == Kept(lines, exact) <==>
              LineHarmless(HeaderOf(lines), l, head, tail, exact)
  {
    AllEndedIs(lines);
    LineCut(lines, l, head, tail, exact);
  }

  // ---------- the envelope line

  lemma {:induction false} TrimStartLeaves(bytes: seq<Byte>)
    ensures |TrimStart(bytes)| <= |bytes|
    decreases |bytes|
  {
    if SpaceAt(bytes) != 0 { TrimStartLeaves(bytes[SpaceAt(bytes)..]); }
  }

  /** An envelope line gives no more than it has after `From `. */
  lemma {:induction false} EnvelopeWithin(line: seq<Byte>)
    requires StartsFrom(line)
    ensures var said := ParseEnvelope(line); said.date == [] || |said.sender| + 1 + |said.date| <= |line| - 5
  {
    TrimStartLeaves(line[5..]);
  }

  /** A written envelope line cut before its LF says another date. */
  lemma {:induction false} CutEnvelopeSays(mail: Mail, head: Piece, tail: Piece)
    requires IsDate(mail.date) && EnvelopeLine(mail.sender, mail.date) == head + tail && |tail| > 1 && StartsFrom(head)
    ensures ParseEnvelope(TrimEol(head)) != EnvelopeOf(mail)
  {
    EnvelopeLineReads(mail.sender, mail.date);
    HeadHasNone(head, tail);
    FromStays(head);
    EnvelopeWithin(TrimEol(head));
    assert mail.date != [];
  }

  /** Without its end, a line still begins `From `. */
  lemma FromStays(line: seq<Byte>)
    requires StartsFrom(line) && LF !in line
    ensures StartsFrom(TrimEol(line)) && |TrimEol(line)| <= |line|
  {
    assert line[..5][4] == FROM[4];
    assert TrimEol(line)[..5] == line[..5];
  }

  lemma {:induction false} HeadersKeepEnvelope(pieces: seq<Piece>, envelope: Envelope, lie: bool)
    ensures var r := ParseHeaders(pieces, envelope, lie); r.item.Message? && r.item.envelope == envelope
  {
  }

  /** A blank line first is kept, and ends the headers. */
  lemma {:induction false} AfterNewline(lines: seq<Piece>)
    ensures ReadOf([NEWLINE] + QuoteAll(lines)) == NEWLINE + Flatten(lines)
  {
    NewlineIsBlank();
    ReadOfFirst(NEWLINE, QuoteAll(lines));
    QuoteAllUndone(lines);
  }

  /** It is not what lines come back as. */
  lemma {:induction false} NewlineShows(lines: seq<Piece>, exact: bool)
    requires lines != [] && forall line :: line in lines ==> Terminated(line)
    ensures NEWLINE + Flatten(lines) != Kept(lines, exact)
  {
    var first, others := lines[0], lines[1..];
    assert lines == [first] + others;
    KeptFirst(first, others, exact);
    if exact || Blank(first) {
      BlankFirstKept(first, others);
      assert |NEWLINE + Flatten(lines)| == 1 + |Kept(lines, true)|;
    } else {
      assert first in lines;
      FirstByte(first);
      assert Kept(lines, false)[0] == Quote(first)[0] && (NEWLINE + Flatten(lines))[0] == LF;
    }
  }

  lemma {:induction false} BlankFirstKept(first: Piece, others: seq<Piece>)
    ensures Blank(first) ==> Kept([first] + others, false) == Kept([first] + others, true)
  {
    if Blank(first) {
      BlankIsPlain(first);
      KeptFirst(first, others, false);
      KeptFirst(first, others, true);
      FlattenFirst(first, others);
    }
  }

  lemma FirstByte(line: Piece)
    requires Terminated(line) && !Blank(line)
    ensures Quote(line)[0] != LF
  {
    NewlineIsBlank();
    assert line != NEWLINE;
    assert |line| > 1 ==> line[0] == line[..|line| - 1][0];
  }

  // ---------- a message in a file no length of which is believed any more

  /** What a message should come back as. */
  function Wanted(mail: Mail, exact: bool): Item {
    Message(EnvelopeOf(mail), Back(LinesOf(mail), exact))
  }

  lemma LinesEnded(mail: Mail)
    ensures forall line :: line in LinesOf(mail) ==> Terminated(line)
    ensures NoneEmpty(LinesOf(mail))
  {
    AllTerminated(Unix(mail.raw));
    var lines := LinesOf(mail);
    forall i | 0 <= i < |lines| ensures lines[i] != [] { assert lines[i] in lines; }
  }

  /** Before a line that was cut: it comes back, and leaves the parts, unless the line was the next envelope line and the first
      part is one no more. */
  lemma {:induction false} BeforeCutReads(mail: Mail, rest: seq<Piece>, j: nat, head: Piece, tail: Piece, exact: bool)
    requires IsDate(mail.date) && Next(rest) && Cuts(rest, j, head, tail)
    ensures var r := Parse(WrittenLines(mail) + InParts(rest, j, head, tail), true);
            && r.item.Message? && r.lie
            && (r.item == Wanted(mail, exact) <==>
                  (j == 0 ==> IsEnvelope(head)) && (exact ==> NoneQuoted(HeaderOf(LinesOf(mail)))))
            && (r.item == Wanted(mail, exact) ==> r.rest == InParts(rest, j, head, tail))
  {
    LinesEnded(mail);
    ReadByBody(mail, InParts(rest, j, head, tail), true);
    LaterReads(LinesOf(mail), rest, EnvelopeOf(mail), j, head, tail, 0);
    var r := Parse(WrittenLines(mail) + InParts(rest, j, head, tail), true);
    ExplainedExactly(r.item.raw, LinesOf(mail), exact);
  }

  /** With nothing cut. */
  lemma {:induction false} UncutReads(mail: Mail, rest: seq<Piece>, exact: bool)
    requires IsDate(mail.date) && Next(rest)
    ensures var r := Parse(WrittenLines(mail) + rest, true);
            && r.item.Message? && r.lie && r.rest == rest
            && (r.item == Wanted(mail, exact) <==> (exact ==> NoneQuoted(HeaderOf(LinesOf(mail)))))
  {
    LinesEnded(mail);
    ReadByBody(mail, rest, true);
    ScannedFront(LinesOf(mail), rest, EnvelopeOf(mail), true);
    ExplainedExactly(ReadBackOf(LinesOf(mail)), LinesOf(mail), exact);
  }

  /** A line begins a message, and says its sender and its date. */
  predicate Opens(line: Piece, mail: Mail) {
    StartsFrom(line) && ParseEnvelope(TrimEol(line)) == EnvelopeOf(mail)
  }

  /** A message is read, the one wanted or not, and leaves `rest`. */
  predicate Leads(r: Reading, wanted: Item, same: bool, rest: seq<Piece>) {
    r.item.Message? && r.lie && r.rest == rest && (r.item == wanted <==> same)
  }

  /** Where the line cut is the message's own. */
  lemma {:induction false} OwnCutReads(mail: Mail, line: Piece, l: nat, head: Piece, tail: Piece, rest: seq<Piece>, exact: bool)
    requires Opens(line, mail) && Next(rest) && PartsOf(QuoteAll(LinesOf(mail)), l, head, tail) && !StartsFrom(tail)
    ensures var parts := InParts(QuoteAll(LinesOf(mail)), l, head, tail);
            Leads(Parse([line] + (parts + ([NEWLINE] + rest)), true), Wanted(mail, exact),
                  LineHarmless(HeaderOf(LinesOf(mail)), l, head, tail, exact), rest)
  {
    var parts := InParts(QuoteAll(LinesOf(mail)), l, head, tail);
    LinesEnded(mail);
    QuotedParts(LinesOf(mail), l, head, tail);
    ParseFrom(line, parts + ([NEWLINE] + rest), true);
    PlainReads(parts, rest, EnvelopeOf(mail));
    LineCutExactly(LinesOf(mail), l, head, tail, exact);
  }

  /** Where it is the message's envelope line, it never comes back. */
  lemma {:induction false} EnvelopeCutReads(mail: Mail, head: Piece, tail: Piece, rest: seq<Piece>, exact: bool)
    requires IsDate(mail.date) && Next(rest) && EnvelopeLine(mail.sender, mail.date) == head + tail
    requires IsEnvelope(head) && tail != [] && !StartsFrom(tail)
    requires !AtBoundary([tail] + (QuoteAll(LinesOf(mail)) + ([NEWLINE] + rest)))
    ensures Parse([head] + ([tail] + (QuoteAll(LinesOf(mail)) + ([NEWLINE] + rest))), true).item != Wanted(mail, exact)
  {
    var after := [tail] + (QuoteAll(LinesOf(mail)) + ([NEWLINE] + rest));
    ParseFrom(head, after, true);
    HeadersKeepEnvelope(after, ParseEnvelope(TrimEol(head)), true);
    if |tail| > 1 {
      CutEnvelopeSays(mail, head, tail);
    } else {
      EnvelopeTerminated(mail.sender, mail.date);
      assert tail[0] == (head + tail)[|head + tail| - 1];
      assert tail == NEWLINE;
      NewlineFirst(LinesOf(mail), rest, ParseEnvelope(TrimEol(head)), mail, exact);
    }
  }

  lemma {:induction false} NewlineFirst(lines: seq<Piece>, rest: seq<Piece>, envelope: Envelope, mail: Mail, exact: bool)
    requires Next(rest) && lines == LinesOf(mail) && !AtBoundary([NEWLINE] + (QuoteAll(lines) + ([NEWLINE] + rest)))
    ensures ParseHeaders([NEWLINE] + (QuoteAll(lines) + ([NEWLINE] + rest)), envelope, true).item != Wanted(mail, exact)
  {
    LinesEnded(mail);
    if lines == [] {
      assert QuoteAll(lines) + ([NEWLINE] + rest) == [NEWLINE] + rest;
      TwoBlanks(rest);
    } else {
      NewlineShows(lines, exact);
      AfterNewline(lines);
      NewlineAndQuoted(lines);
      Reassociate([NEWLINE], QuoteAll(lines), [NEWLINE] + rest);
      PlainReads([NEWLINE] + QuoteAll(lines), rest, envelope);
    }
  }

  lemma NewlineAndQuoted(lines: seq<Piece>)
    requires lines != [] && forall line :: line in lines ==> Terminated(line)
    ensures var pieces := [NEWLINE] + QuoteAll(lines);
            EndsInLF(pieces[|pieces| - 1]) && forall i :: 0 <= i < |pieces| ==> !StartsFrom(pieces[i])
  {
    NewlineIsBlank();
    QuoteAllUndone(lines);
    QuotedTerminated(lines);
    assert QuoteAll(lines)[|lines| - 1] in QuoteAll(lines);
  }

  lemma {:induction false} TwoBlanks(rest: seq<Piece>)
    requires Next(rest)
    ensures AtBoundary([NEWLINE] + ([NEWLINE] + rest))
  {
    NewlineThenNext(rest);
    NewlineIsBlank();
    assert ([NEWLINE] + ([NEWLINE] + rest))[1..] == [NEWLINE] + rest;
  }
}
