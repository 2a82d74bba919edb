/** Writing and reading undo each other: messages written one after another are read back as they were, in
    order, and exactly when they are (crates/mail-archive/src/mbox.rs). */
module MboxRoundTrip {
  import opened Bytes
  import opened MboxFormat
  import opened MboxSplit
  import opened MboxSound
  import opened MboxRuns
  import opened MboxWritten
  import opened MboxLengths
  import opened MboxCuts

  // ---------- one message after another

  /** A blank line before changes nothing that is read. */
  lemma BlankBefore(pieces: seq<Piece>, lie: bool)
    requires NoneEmpty(pieces)
    ensures NoneEmpty([NEWLINE] + pieces)
    ensures ReadAll([NEWLINE] + pieces, lie).items == ReadAll(pieces, lie).items
  {
    ParseAfterBlank(pieces, lie);
    NewlineTerminated();
    SameParse([NEWLINE] + pieces, pieces, lie);
  }

  lemma SameParse(a: seq<Piece>, b: seq<Piece>, lie: bool)
    requires NoneEmpty(a) && NoneEmpty(b) && Same(Parse(a, lie), Parse(b, lie))
    ensures ReadAll(a, lie).items == ReadAll(b, lie).items
  {
  }

  /** All but what it took to read, and what is left after no message. */
  predicate Same(a: Reading, b: Reading) {
    a.item == b.item && a.lie == b.lie && (a.item.Message? ==> a.rest == b.rest)
  }

  lemma {:induction false} ParseAfterBlank(pieces: seq<Piece>, lie: bool)
    ensures Same(Parse([NEWLINE] + pieces, lie), Parse(pieces, lie))
  {
    NewlineIsBlank();
    assert ([NEWLINE] + pieces)[1..] == pieces;
  }

  /** What is left after a message: what came after its lines, or the blank line before it too. */
  predicate LeftAfter(left: seq<Piece>, rest: seq<Piece>) {
    left == rest || left == [NEWLINE] + rest
  }

  /** What is read is a message and others exactly when it is the first of them and they are read of what it leaves. */
  lemma {:induction false} ReadThen(pieces: seq<Piece>, lie: bool, wanted: Item, left: seq<Piece>, more: seq<Item>)
    requires NoneEmpty(pieces) && NoneEmpty(left)
    requires var r := Parse(pieces, lie); r.item.Message? && (r.item == wanted ==> LeftAfter(r.rest, left))
    ensures var r := Parse(pieces, lie);
            ReadAll(pieces, lie).items == [wanted] + more <==> r.item == wanted && ReadAll(left, r.lie).items == more
  {
    var r := Parse(pieces, lie);
    ReadAllStep(pieces, lie);
    SameItems(r.item, ReadAll(r.rest, r.lie).items, wanted, more);
    BlankBefore(left, r.lie);
  }

  lemma SameItems(a: Item, x: seq<Item>, b: Item, y: seq<Item>)
    ensures [a] + x == [b] + y <==> a == b && x == y
  {
    assert ([a] + x)[0] == a && ([a] + x)[1..] == x;
    assert ([b] + y)[0] == b && ([b] + y)[1..] == y;
  }

  // ---------- one message

  /** What the length a message says does; one that is not believed cuts no line. */
  function LengthDoes(mail: Mail, after: seq<Byte>, lie: bool): Outcome {
    if Believed(LengthOf(mail), lie) then OutcomeOf(LinesOf(mail), Lines(after), LengthOf(mail).value) else CutsNone
  }

  /** A length the message says is believed and is found false. */
  predicate Rejects(mail: Mail, after: seq<Byte>, lie: bool) {
    Believed(LengthOf(mail), lie) && !LengthDoes(mail, after, lie).Accepted?
  }

  /** The message comes back. */
  predicate Safe(mail: Mail, after: seq<Byte>, lie: bool, exact: bool) {
    && (Believed(LengthOf(mail), lie) ==> ComesBack(LinesOf(mail), Lines(after), LengthOf(mail).value))
    && (exact ==> NoneQuoted(HeaderOf(LinesOf(mail))))
  }

  /** What is left after it then. */
  predicate LeftBy(left: seq<Piece>, mail: Mail, after: seq<Byte>, lie: bool) {
    match LengthDoes(mail, after, lie)
    case CutsNext(j, head, tail) => j < |Lines(after)| && left == InParts(Lines(after), j, head, tail)
    case _ => LeftAfter(left, Lines(after))
  }

  /** What a reading of the message comes to: itself, exactly when it is safe. */
  predicate Comes(r: Reading, mail: Mail, after: seq<Byte>, lie: bool, exact: bool) {
    && r.item.Message? && (r.item == Wanted(mail, exact) <==> Safe(mail, after, lie, exact))
    && (var does := LengthDoes(mail, after, lie); does.CutsNext? ==> Cuts(Lines(after), does.j, does.head, does.tail))
    && (Safe(mail, after, lie, exact) ==> r.lie == (lie || Rejects(mail, after, lie)) && LeftBy(r.rest, mail, after, lie))
  }

  lemma {:induction false} BodyComes(mail: Mail, after: seq<Byte>, lie: bool, exact: bool)
    requires Next(Lines(after))
    ensures Comes(BodyReading(LinesOf(mail), Lines(after), EnvelopeOf(mail), lie), mail, after, lie, exact)
  {
    var r := BodyReading(LinesOf(mail), Lines(after), EnvelopeOf(mail), lie);
    WrittenSplits(mail, after);
    LinesEnded(mail);
    if Believed(LengthOf(mail), lie) {
      EmptySaysNothing(mail);
      BodyExactly(LinesOf(mail), Lines(after), EnvelopeOf(mail), LengthOf(mail));
    } else {
      ScannedFront(LinesOf(mail), Lines(after), EnvelopeOf(mail), lie);
    }
    ExplainedExactly(r.item.raw, LinesOf(mail), exact);
  }

  lemma ComesToo(a: Reading, b: Reading, mail: Mail, after: seq<Byte>, lie: bool, exact: bool)
    requires Alike(a, b) && Comes(b, mail, after, lie, exact)
    ensures Comes(a, mail, after, lie, exact)
  {
  }

  /** What is read of the first message, and what is left. */
  lemma {:induction false} FirstReads(mail: Mail, after: seq<Byte>, lie: bool, exact: bool)
    requires IsDate(mail.date) && Next(Lines(after))
    ensures Comes(Parse(WrittenLines(mail) + Lines(after), lie), mail, after, lie, exact)
  {
    ReadByBody(mail, Lines(after), lie);
    BodyComes(mail, after, lie, exact);
    ComesToo(Parse(WrittenLines(mail) + Lines(after), lie), BodyReading(LinesOf(mail), Lines(after), EnvelopeOf(mail), lie),
             mail, after, lie, exact);
  }

  // ---------- files

  ghost predicate Dated(mails: seq<Mail>) {
    forall i :: 0 <= i < |mails| ==> IsDate(mails[i].date)
  }

  function WantedAll(mails: seq<Mail>, exact: bool): seq<Item> {
    if mails == [] then [] else [Wanted(mails[0], exact)] + WantedAll(mails[1..], exact)
  }

  /** No header line of any message is one that is quoted. */
  predicate AllPlain(mails: seq<Mail>) {
    mails != [] ==> NoneQuoted(HeaderOf(LinesOf(mails[0]))) && AllPlain(mails[1..])
  }

  /** Whether messages come back with line `j` of what is written of them in two parts, no length being believed: the line is no
      message's envelope line, and does its own message no harm. */
  predicate CutHarmless(mails: seq<Mail>, j: nat, head: Piece, tail: Piece, exact: bool) {
    && mails != []
    && var headers, own := HeaderOf(LinesOf(mails[0])), |WrittenLines(mails[0])|;
       if j >= own then (exact ==> NoneQuoted(headers)) && CutHarmless(mails[1..], j - own, head, tail, exact)
       else j != 0 && LineHarmless(headers, j - 1, head, tail, exact) && (exact ==> AllPlain(mails[1..]))
  }

  /** Each message, in turn, comes back and leaves what comes after it: one that says no length that is believed, or an accepted
      one that is true with nothing quoted, or a rejected one that cut no line, or a line of its own body into parts that are
      unquoted to it, or a line of a later message harmlessly. After one that is rejected, `lie`, no other is believed. To come
      back as it was, `exact`, no header line of it may be quoted but one that a cut lets be unquoted. */
  predicate Writable(mails: seq<Mail>, lie: bool, exact: bool) {
    mails != [] ==>
      var mail, after := mails[0], WriteAll(mails[1..]);
      && Safe(mail, after, lie, exact)
      && match LengthDoes(mail, after, lie)
         case CutsNext(j, head, tail) => CutHarmless(mails[1..], j, head, tail, exact)
         case _ => Writable(mails[1..], lie || Rejects(mail, after, lie), exact)
  }

  lemma NextAfter(mails: seq<Mail>)
    requires Dated(mails)
    ensures Next(Lines(WriteAll(mails)))
  {
    if mails != [] {
      LinesOfWritten(mails[0], WriteAll(mails[1..]));
      EnvelopeLineReads(mails[0].sender, mails[0].date);
      var line := EnvelopeLine(mails[0].sender, mails[0].date);
      assert Lines(WriteAll(mails))[0] == line;
    }
  }

  /** Everything read of a file. */
  function ItemsOf(source: seq<Byte>, lie: bool): seq<Item> {
    LinesNoneEmpty(source);
    ReadAll(Lines(source), lie).items
  }

  /** Where no length is believed, every message comes back. */
  lemma {:induction false} LieReads(mails: seq<Mail>, exact: bool)
    requires Dated(mails)
    ensures ItemsOf(WriteAll(mails), true) == WantedAll(mails, exact) <==> (exact ==> AllPlain(mails))
  {
    if mails != [] {
      var mail, after := mails[0], WriteAll(mails[1..]);
      NextAfter(mails[1..]);
      LieReads(mails[1..], exact);
      LinesOfWritten(mail, after);
      LinesNoneEmpty(WriteAll(mails));
      LinesNoneEmpty(after);
      UncutReads(mail, Lines(after), exact);
      ReadThen(WrittenLines(mail) + Lines(after), true, Wanted(mail, exact), Lines(after), WantedAll(mails[1..], exact));
    }
  }

  // ---------- a line of a later message cut

  /** The lines of everything written. */
  function FileLines(mails: seq<Mail>): seq<Piece> {
    if mails == [] then [] else WrittenLines(mails[0]) + FileLines(mails[1..])
  }

  lemma {:induction false} FileLinesAre(mails: seq<Mail>)
    requires Dated(mails)
    ensures Lines(WriteAll(mails)) == FileLines(mails) && NoneEmpty(FileLines(mails)) && Next(FileLines(mails))
  {
    if mails != [] {
      FileLinesAre(mails[1..]);
      LinesOfWritten(mails[0], WriteAll(mails[1..]));
    }
    NextAfter(mails);
    LinesNoneEmpty(WriteAll(mails));
  }

  /** Everything read of pieces, one of them cut, where no length is believed. */
  function ItemsOfParts(pieces: seq<Piece>, j: nat, head: Piece, tail: Piece): seq<Item>
    requires NoneEmpty(pieces) && PartsOf(pieces, j, head, tail)
  {
    PartsNoneEmpty(pieces, j, head, tail);
    ReadAll(InParts(pieces, j, head, tail), true).items
  }

  lemma {:induction false} PartsNoneEmpty(pieces: seq<Piece>, j: nat, head: Piece, tail: Piece)
    requires NoneEmpty(pieces) && PartsOf(pieces, j, head, tail)
    ensures NoneEmpty(InParts(pieces, j, head, tail))
  {
    if j > 0 { PartsNoneEmpty(pieces[1..], j - 1, head, tail); }
  }

  /** A line cut after the first, and not the blank one, is one of `quoted`. */
  lemma {:induction false} CutInQuoted(line: Piece, quoted: seq<Piece>, rest: seq<Piece>, j: nat, head: Piece, tail: Piece)
    requires var pieces := [line] + (quoted + ([NEWLINE] + rest));
             NoneEmpty(pieces) && Cuts(pieces, j, head, tail) && 0 < j < |quoted| + 2
    ensures PartsOf(quoted, j - 1, head, tail) && !StartsFrom(tail)
    ensures InParts([line] + (quoted + ([NEWLINE] + rest)), j, head, tail)
         == [line] + (InParts(quoted, j - 1, head, tail) + ([NEWLINE] + rest))
  {
    var after := quoted + ([NEWLINE] + rest);
    TailIsNotFrom([line] + after, j, tail);
    InPartsNext(line, after, j - 1, head, tail);
    assert after[|quoted|] == NEWLINE && |head + tail| >= 2;
    InPartsBefore(quoted, [NEWLINE] + rest, j - 1, head, tail);
  }

  /** After the first pieces. */
  lemma {:induction false} CutPastFirst(own: seq<Piece>, rest: seq<Piece>, j: nat, head: Piece, tail: Piece)
    requires NoneEmpty(own + rest) && Cuts(own + rest, j, head, tail) && j >= |own|
    ensures NoneEmpty(rest) && Cuts(rest, j - |own|, head, tail)
    ensures InParts(own + rest, j, head, tail) == own + InParts(rest, j - |own|, head, tail)
    ensures NoneEmpty(own + InParts(rest, j - |own|, head, tail))
  {
    InPartsAfter(own, rest, j, head, tail);
    PartsNoneEmpty(own + rest, j, head, tail);
    forall i | 0 <= i < |rest| ensures rest[i] != [] { assert (own + rest)[|own| + i] == rest[i]; }
  }

  /** A message, and then messages with a line cut. */
  lemma {:induction false} CutFurtherOn(mail: Mail, rest: seq<Piece>, j: nat, head: Piece, tail: Piece, exact: bool, more: seq<Item>)
    requires IsDate(mail.date) && Next(rest) && NoneEmpty(rest) && Cuts(rest, j, head, tail)
    requires NoneEmpty(WrittenLines(mail) + InParts(rest, j, head, tail))
    ensures ReadAll(WrittenLines(mail) + InParts(rest, j, head, tail), true).items == [Wanted(mail, exact)] + more <==>
              && (exact ==> NoneQuoted(HeaderOf(LinesOf(mail)))) && (j == 0 ==> IsEnvelope(head))
              && ItemsOfParts(rest, j, head, tail) == more
  {
    BeforeCutReads(mail, rest, j, head, tail, exact);
    PartsNoneEmpty(rest, j, head, tail);
    ReadThen(WrittenLines(mail) + InParts(rest, j, head, tail), true, Wanted(mail, exact), InParts(rest, j, head, tail), more);
  }

  /** A message with its envelope line cut. */
  lemma {:induction false} EnvelopeCutLoses(mail: Mail, head: Piece, tail: Piece, rest: seq<Piece>, exact: bool, more: seq<Item>)
    requires IsDate(mail.date) && Next(rest) && IsEnvelope(head) && EnvelopeLine(mail.sender, mail.date) == head + tail
    requires tail != [] && !StartsFrom(tail) && !AtBoundary([tail] + (QuoteAll(LinesOf(mail)) + ([NEWLINE] + rest)))
    requires NoneEmpty([head] + ([tail] + (QuoteAll(LinesOf(mail)) + ([NEWLINE] + rest))))
    ensures ReadAll([head] + ([tail] + (QuoteAll(LinesOf(mail)) + ([NEWLINE] + rest))), true).items
         != [Wanted(mail, exact)] + more
  {
    EnvelopeCutReads(mail, head, tail, rest, exact);
    FirstWrong([head] + ([tail] + (QuoteAll(LinesOf(mail)) + ([NEWLINE] + rest))), true, Wanted(mail, exact), more);
  }

  lemma {:induction false} FirstWrong(pieces: seq<Piece>, lie: bool, wanted: Item, more: seq<Item>)
    requires NoneEmpty(pieces) && Parse(pieces, lie).item != wanted && wanted.Message?
    ensures ReadAll(pieces, lie).items != [wanted] + more
  {
    ReadAllStep(pieces, lie);
    var items := ReadAll(pieces, lie).items;
    assert items != [] ==> items[0] == Parse(pieces, lie).item;
  }

  /** A message with one of its own lines cut, read as the one wanted or not. */
  lemma {:induction false} OwnCutTells(line: Piece, quoted: seq<Piece>, rest: seq<Piece>, j: nat, head: Piece, tail: Piece,
                                       wanted: Item, same: bool, more: seq<Item>)
    requires var pieces := [line] + (quoted + ([NEWLINE] + rest));
             NoneEmpty(rest) && NoneEmpty(pieces) && Cuts(pieces, j, head, tail) && 0 < j < |quoted| + 2
    requires PartsOf(quoted, j - 1, head, tail)
    requires Leads(Parse([line] + (InParts(quoted, j - 1, head, tail) + ([NEWLINE] + rest)), true), wanted, same, rest)
    ensures ItemsOfParts([line] + (quoted + ([NEWLINE] + rest)), j, head, tail) == [wanted] + more <==>
              same && ReadAll(rest, true).items == more
  {
    var pieces := [line] + (quoted + ([NEWLINE] + rest));
    PartsNoneEmpty(pieces, j, head, tail);
    CutInQuoted(line, quoted, rest, j, head, tail);
    ReadThen(InParts(pieces, j, head, tail), true, wanted, rest, more);
  }

  /** A message with one of its lines cut, and then others. */
  lemma {:induction false} CutInFirst(mail: Mail, rest: seq<Piece>, j: nat, head: Piece, tail: Piece, exact: bool, more: seq<Item>)
    requires IsDate(mail.date) && Next(rest) && NoneEmpty(rest) && NoneEmpty(WrittenLines(mail) + rest)
    requires Cuts(WrittenLines(mail) + rest, j, head, tail) && j < |WrittenLines(mail)| && (j == 0 ==> IsEnvelope(head))
    ensures ItemsOfParts(WrittenLines(mail) + rest, j, head, tail) == [Wanted(mail, exact)] + more <==>
              j != 0 && LineHarmless(HeaderOf(LinesOf(mail)), j - 1, head, tail, exact) && ReadAll(rest, true).items == more
  {
    WrittenThen(EnvelopeLine(mail.sender, mail.date), QuoteAll(LinesOf(mail)), rest);
    if j == 0 {
      CutInEnvelope(mail, rest, head, tail, exact, more);
    } else {
      EnvelopeSays(mail.sender, mail.date);
      CutInOwn(mail, EnvelopeLine(mail.sender, mail.date), rest, j, head, tail, exact, more);
    }
  }

  lemma {:induction false} CutInEnvelope(mail: Mail, rest: seq<Piece>, head: Piece, tail: Piece, exact: bool, more: seq<Item>)
    requires var pieces := [EnvelopeLine(mail.sender, mail.date)] + (QuoteAll(LinesOf(mail)) + ([NEWLINE] + rest));
             IsDate(mail.date) && Next(rest) && NoneEmpty(pieces) && Cuts(pieces, 0, head, tail) && IsEnvelope(head)
    ensures var pieces := [EnvelopeLine(mail.sender, mail.date)] + (QuoteAll(LinesOf(mail)) + ([NEWLINE] + rest));
            ItemsOfParts(pieces, 0, head, tail) != [Wanted(mail, exact)] + more
  {
    var line, after := EnvelopeLine(mail.sender, mail.date), QuoteAll(LinesOf(mail)) + ([NEWLINE] + rest);
    TailIsNotFrom([line] + after, 0, tail);
    PartsNoneEmpty([line] + after, 0, head, tail);
    InPartsFirst(line, after, head, tail);
    EnvelopeCutLoses(mail, head, tail, rest, exact, more);
  }

  lemma {:induction false} CutInOwn(mail: Mail, line: Piece, rest: seq<Piece>, j: nat, head: Piece, tail: Piece, exact: bool,
                                    more: seq<Item>)
    requires Opens(line, mail) && Next(rest) && NoneEmpty(rest) && 0 < j < |LinesOf(mail)| + 2
    requires var pieces := [line] + (QuoteAll(LinesOf(mail)) + ([NEWLINE] + rest));
             NoneEmpty(pieces) && Cuts(pieces, j, head, tail)
    ensures ItemsOfParts([line] + (QuoteAll(LinesOf(mail)) + ([NEWLINE] + rest)), j, head, tail) == [Wanted(mail, exact)] + more <==>
              LineHarmless(HeaderOf(LinesOf(mail)), j - 1, head, tail, exact) && ReadAll(rest, true).items == more
  {
    CutInQuoted(line, QuoteAll(LinesOf(mail)), rest, j, head, tail);
    OwnCutReads(mail, line, j - 1, head, tail, rest, exact);
    OwnCutTells(line, QuoteAll(LinesOf(mail)), rest, j, head, tail, Wanted(mail, exact),
                LineHarmless(HeaderOf(LinesOf(mail)), j - 1, head, tail, exact), more);
  }

  /** The cut is in a message after the first. */
  lemma {:induction false} CutAfterFirst(mail: Mail, rest: seq<Piece>, j: nat, head: Piece, tail: Piece, exact: bool, more: seq<Item>)
    requires IsDate(mail.date) && Next(rest) && NoneEmpty(rest) && NoneEmpty(WrittenLines(mail) + rest)
    requires Cuts(WrittenLines(mail) + rest, j, head, tail) && j >= |WrittenLines(mail)|
    ensures Cuts(rest, j - |WrittenLines(mail)|, head, tail)
    ensures ItemsOfParts(WrittenLines(mail) + rest, j, head, tail) == [Wanted(mail, exact)] + more <==>
              && (exact ==> NoneQuoted(HeaderOf(LinesOf(mail)))) && (j == |WrittenLines(mail)| ==> IsEnvelope(head))
              && ItemsOfParts(rest, j - |WrittenLines(mail)|, head, tail) == more
  {
    CutPastFirst(WrittenLines(mail), rest, j, head, tail);
    CutFurtherOn(mail, rest, j - |WrittenLines(mail)|, head, tail, exact, more);
  }

  /** Messages with a line of one of them in two parts come back exactly when that is harmless. */
  predicate CutTellsAll(mails: seq<Mail>, j: nat, head: Piece, tail: Piece, exact: bool)
    requires NoneEmpty(FileLines(mails)) && Cuts(FileLines(mails), j, head, tail)
  {
    ItemsOfParts(FileLines(mails), j, head, tail) == WantedAll(mails, exact) <==> CutHarmless(mails, j, head, tail, exact)
  }

  lemma {:induction false} HarmlessLater(mails: seq<Mail>, j: nat, head: Piece, tail: Piece, exact: bool)
    requires mails != [] && j >= |WrittenLines(mails[0])|
    ensures var j' := j - |WrittenLines(mails[0])|;
            && (CutHarmless(mails, j, head, tail, exact) <==>
                  (exact ==> NoneQuoted(HeaderOf(LinesOf(mails[0])))) && CutHarmless(mails[1..], j', head, tail, exact))
            && (j' == 0 ==> !CutHarmless(mails[1..], j', head, tail, exact))
  {
  }

  lemma {:induction false} CutTellsLater(mail: Mail, rest: seq<Piece>, j: nat, head: Piece, tail: Piece, exact: bool, more: seq<Item>,
                                         harmless: bool)
    requires IsDate(mail.date) && Next(rest) && NoneEmpty(rest) && NoneEmpty(WrittenLines(mail) + rest)
    requires Cuts(WrittenLines(mail) + rest, j, head, tail) && j >= |WrittenLines(mail)|
    requires Cuts(rest, j - |WrittenLines(mail)|, head, tail)
    requires j == |WrittenLines(mail)| ==> !harmless
    requires j > |WrittenLines(mail)| || IsEnvelope(head) ==>
               (ItemsOfParts(rest, j - |WrittenLines(mail)|, head, tail) == more <==> harmless)
    ensures ItemsOfParts(WrittenLines(mail) + rest, j, head, tail) == [Wanted(mail, exact)] + more <==>
              (exact ==> NoneQuoted(HeaderOf(LinesOf(mail)))) && harmless
  {
    CutAfterFirst(mail, rest, j, head, tail, exact, more);
  }

  lemma {:induction false} CutTellsFirst(mails: seq<Mail>, j: nat, head: Piece, tail: Piece, exact: bool)
    requires Dated(mails) && mails != [] && NoneEmpty(FileLines(mails))
    requires Cuts(FileLines(mails), j, head, tail) && j < |WrittenLines(mails[0])| && (j == 0 ==> IsEnvelope(head))
    ensures CutTellsAll(mails, j, head, tail, exact)
  {
    FileLinesAre(mails[1..]);
    LieReads(mails[1..], exact);
    CutInFirst(mails[0], FileLines(mails[1..]), j, head, tail, exact, WantedAll(mails[1..], exact));
  }

  /** For every cut of every line. */
  lemma {:induction false} CutReadsExactly(mails: seq<Mail>, j: nat, head: Piece, tail: Piece, exact: bool)
    requires Dated(mails) && NoneEmpty(FileLines(mails))
    requires Cuts(FileLines(mails), j, head, tail) && (j == 0 ==> IsEnvelope(head))
    ensures CutTellsAll(mails, j, head, tail, exact)
  {
    var own := |WrittenLines(mails[0])|;
    if j >= own {
      FileLinesAre(mails[1..]);
      InPartsAfter(WrittenLines(mails[0]), FileLines(mails[1..]), j, head, tail);
      if j > own || IsEnvelope(head) { CutReadsExactly(mails[1..], j - own, head, tail, exact); }
      HarmlessLater(mails, j, head, tail, exact);
      CutTellsLater(mails[0], FileLines(mails[1..]), j, head, tail, exact, WantedAll(mails[1..], exact),
                    CutHarmless(mails[1..], j - own, head, tail, exact));
    } else {
      CutTellsFirst(mails, j, head, tail, exact);
    }
  }

  // ---------- the round trip

  lemma {:induction false} FirstThenRest(mails: seq<Mail>, lie: bool, exact: bool)
    requires Dated(mails) && mails != []
    requires var mail, after := mails[0], WriteAll(mails[1..]);
             match LengthDoes(mail, after, lie)
             case CutsNext(j, head, tail) =>
               Cuts(Lines(after), j, head, tail) && NoneEmpty(Lines(after)) && (j == 0 ==> IsEnvelope(head)) ==>
                 (ItemsOfParts(Lines(after), j, head, tail) == WantedAll(mails[1..], exact) <==>
                  CutHarmless(mails[1..], j, head, tail, exact))
             case _ =>
               ItemsOf(after, lie || Rejects(mail, after, lie)) == WantedAll(mails[1..], exact) <==>
                 Writable(mails[1..], lie || Rejects(mail, after, lie), exact)
    ensures ItemsOf(WriteAll(mails), lie) == WantedAll(mails, exact) <==> Writable(mails, lie, exact)
  {
    var mail, after := mails[0], WriteAll(mails[1..]);
    var rest := Lines(after);
    NextAfter(mails[1..]);
    LinesNoneEmpty(WriteAll(mails));
    LinesNoneEmpty(after);
    LinesOfWritten(mail, after);
    FirstReads(mail, after, lie, exact);
    match LengthDoes(mail, after, lie)
    case CutsNext(j, head, tail) =>
      PartsNoneEmpty(rest, j, head, tail);
      ReadThen(WrittenLines(mail) + rest, lie, Wanted(mail, exact), InParts(rest, j, head, tail), WantedAll(mails[1..], exact));
    case _ =>
      ReadThen(WrittenLines(mail) + rest, lie, Wanted(mail, exact), rest, WantedAll(mails[1..], exact));
  }

  /** The mbox round trip, exactly: messages written one after another are read back in order, as many as there were, exactly
      when they are writable. */
  lemma {:induction false} RoundTripExactly(mails: seq<Mail>, lie: bool, exact: bool)
    requires Dated(mails)
    ensures ItemsOf(WriteAll(mails), lie) == WantedAll(mails, exact) <==> Writable(mails, lie, exact)
  {
    if mails != [] {
      var mail, after := mails[0], WriteAll(mails[1..]);
      match LengthDoes(mail, after, lie) {
        case CutsNext(j, head, tail) =>
          if Cuts(Lines(after), j, head, tail) && (j == 0 ==> IsEnvelope(head)) {
            FileLinesAre(mails[1..]);
            CutReadsExactly(mails[1..], j, head, tail, exact);
          }
        case _ => RoundTripExactly(mails[1..], lie || Rejects(mail, after, lie), exact);
      }
      FirstThenRest(mails, lie, exact);
    }
  }

  lemma {:induction false} WantedAllIs(mails: seq<Mail>, exact: bool)
    ensures |WantedAll(mails, exact)| == |mails|
    ensures forall i :: 0 <= i < |mails| ==> WantedAll(mails, exact)[i] == Wanted(mails[i], exact)
  {
    if mails != [] { WantedAllIs(mails[1..], exact); }
  }

  /** The mbox round trip: messages are read back in order, each with its sender without white space (`MAILER-DAEMON` if nothing
      was left) and its date, and each in its Unix form, a final newline supplied, an empty one as a single newline, its header
      lines as they were quoted, exactly when they are writable. */
  lemma RoundTrip(mails: seq<Mail>)
    requires Dated(mails)
    ensures var items := ItemsOf(WriteAll(mails), false);
            Writable(mails, false, false) <==>
              && |items| == |mails|
              && forall i :: 0 <= i < |mails| ==>
                   items[i] == Message(Envelope(SenderWritten(mails[i].sender), mails[i].date), ReadBack(mails[i].raw))
  {
    RoundTripExactly(mails, false, false);
    WantedAllIs(mails, false);
    forall i | 0 <= i < |mails| ensures Wanted(mails[i], false) == Expected(mails[i]) { WantedIsExpected(mails[i]); }
  }

  lemma WantedIsExpected(mail: Mail)
    ensures Wanted(mail, false) == Expected(mail)
  {
  }

  /** What a message should be read back as. */
  function DeliveredItem(mail: Mail): Item {
    Message(EnvelopeOf(mail), Delivered(mail.raw))
  }

  lemma WantedIsDelivered(mail: Mail)
    ensures Wanted(mail, true) == DeliveredItem(mail)
  {
    LinesFlatten(Unix(mail.raw));
  }

  function DeliveredAll(mails: seq<Mail>): (items: seq<Item>)
    ensures |items| == |mails| && forall i :: 0 <= i < |mails| ==> items[i] == DeliveredItem(mails[i])
  {
    seq(|mails|, i requires 0 <= i < |mails| => DeliveredItem(mails[i]))
  }

  /** Messages are read back as they should be exactly when they are writable with their header lines as they are. */
  lemma RoundTripDelivers(mails: seq<Mail>)
    requires Dated(mails)
    ensures ItemsOf(WriteAll(mails), false) == DeliveredAll(mails) <==> Writable(mails, false, true)
  {
    RoundTripExactly(mails, false, true);
    WantedAllIs(mails, true);
    forall i | 0 <= i < |mails| ensures Wanted(mails[i], true) == DeliveredItem(mails[i]) { WantedIsDelivered(mails[i]); }
    assert WantedAll(mails, true) == DeliveredAll(mails);
  }

  /** For which it is enough that no header line of any is one that is quoted. */
  lemma {:induction false} PlainDelivers(mails: seq<Mail>, lie: bool)
    requires Writable(mails, lie, false) && AllPlain(mails)
    ensures Writable(mails, lie, true)
  {
    if mails != [] {
      var mail, after := mails[0], WriteAll(mails[1..]);
      match LengthDoes(mail, after, lie)
      case CutsNext(j, head, tail) => PlainCut(mails[1..], j, head, tail);
      case _ => PlainDelivers(mails[1..], lie || Rejects(mail, after, lie));
    }
  }

  lemma {:induction false} PlainCut(mails: seq<Mail>, j: nat, head: Piece, tail: Piece)
    requires CutHarmless(mails, j, head, tail, false) && AllPlain(mails)
    ensures CutHarmless(mails, j, head, tail, true)
  {
    var own := |WrittenLines(mails[0])|;
    if j >= own { PlainCut(mails[1..], j - own, head, tail); }
  }

  /** A cut is in a header line and one part of it is blank, and so ends the headers. */
  predicate EndsHeaders(mails: seq<Mail>, j: nat, head: Piece, tail: Piece) {
    && mails != []
    && var headers, own := HeaderOf(LinesOf(mails[0])), |WrittenLines(mails[0])|;
       if j >= own then EndsHeaders(mails[1..], j - own, head, tail)
       else 0 < j <= |headers| && (Blank(head) || Blank(tail))
  }

  /** A length that is rejected makes such a cut. */
  predicate LengthEndsHeaders(mails: seq<Mail>, lie: bool) {
    && mails != []
    && var mail, after := mails[0], WriteAll(mails[1..]);
       match LengthDoes(mail, after, lie)
       case CutsNext(j, head, tail) => EndsHeaders(mails[1..], j, head, tail)
       case _ => LengthEndsHeaders(mails[1..], lie || Rejects(mail, after, lie))
  }

  /** And where no rejected length ends the headers of a later message, only then: messages are read back as they should be
      exactly when they are writable and no header line of any is one that is quoted. */
  lemma {:induction false} DeliversExactly(mails: seq<Mail>, lie: bool)
    requires !LengthEndsHeaders(mails, lie)
    ensures Writable(mails, lie, true) <==> Writable(mails, lie, false) && AllPlain(mails)
  {
    if mails != [] {
      var mail, after := mails[0], WriteAll(mails[1..]);
      match LengthDoes(mail, after, lie)
      case CutsNext(j, head, tail) => CutDeliversExactly(mails[1..], j, head, tail);
      case _ => DeliversExactly(mails[1..], lie || Rejects(mail, after, lie));
    }
  }

  lemma {:induction false} CutDeliversExactly(mails: seq<Mail>, j: nat, head: Piece, tail: Piece)
    requires !EndsHeaders(mails, j, head, tail)
    ensures CutHarmless(mails, j, head, tail, true) <==> CutHarmless(mails, j, head, tail, false) && AllPlain(mails)
  {
    if mails != [] {
      var own := |WrittenLines(mails[0])|;
      if j >= own { CutDeliversExactly(mails[1..], j - own, head, tail); }
    }
  }

  /** Messages of which each says no length that is believed, or one that is true with nothing quoted, are writable. */
  lemma {:induction false} PlainIsWritable(mails: seq<Mail>)
    requires Dated(mails)
    requires forall i :: 0 <= i < |mails| && Believed(LengthOf(mails[i]), false) ==> True(LinesOf(mails[i]), LengthOf(mails[i]).value)
    ensures Writable(mails, false, false)
  {
    if mails != [] {
      var mail, after := mails[0], WriteAll(mails[1..]);
      NextAfter(mails[1..]);
      PlainIsSafe(mail, after);
      PlainIsWritable(mails[1..]);
    }
  }

  lemma {:induction false} PlainIsSafe(mail: Mail, after: seq<Byte>)
    requires Next(Lines(after)) && (Believed(LengthOf(mail), false) ==> True(LinesOf(mail), LengthOf(mail).value))
    ensures Safe(mail, after, false, false) && !LengthDoes(mail, after, false).CutsNext? && !Rejects(mail, after, false)
  {
    WrittenSplits(mail, after);
    if Believed(LengthOf(mail), false) { TrueLeaves(LinesOf(mail), Lines(after)); }
  }
}
