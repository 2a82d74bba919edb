/** Messages that do not come back as they were, each with what it takes (crates/mail-archive/src/mbox.rs). */
module MboxLosses {
  import opened Options
  import opened Bytes
  import opened MboxFormat
  import opened MboxSplit
  import opened MboxSound
  import opened MboxWritten
  import opened MboxLengths
  import opened MboxCuts
  import opened MboxRoundTrip

  // ---------- lines that are written as they are

  lemma {:induction false} LfPlain(raw: seq<Byte>)
    requires CR !in raw
    ensures Lf(raw) == raw
  {
    if raw != [] { LfPlain(raw[1..]); }
  }

  lemma {:induction false} FlattenPlain(lines: seq<Piece>)
    requires forall line :: line in lines ==> CR !in line
    ensures CR !in Flatten(lines)
  {
    if lines != [] { FlattenPlain(lines[1..]); }
  }

  /** Lines in Unix form already are what they are written as. */
  lemma PlainLines(lines: seq<Piece>)
    requires lines != [] && forall line :: line in lines ==> Terminated(line) && CR !in line
    ensures Lines(Unix(Flatten(lines))) == lines
  {
    FlattenPlain(lines);
    LfPlain(Flatten(lines));
    forall i | 0 <= i < |lines| ensures Terminated(lines[i]) { assert lines[i] in lines; }
    EndsTerminated(lines);
    LinesOfFlatten(lines, []);
    assert Flatten(lines) + [] == Flatten(lines) && lines + Lines([]) == lines;
  }

  // ---------- messages that say a length

  /** `content-length:` and digits, a line. */
  function LengthHeader(digits: seq<Byte>): Piece {
    CONTENT_LENGTH + ([COLON] + digits) + [LF]
  }

  /** A number of one digit or two. */
  predicate Numeral(digits: seq<Byte>, n: nat) {
    && 1 <= |digits| <= 2 && (forall i :: 0 <= i < |digits| ==> IsDigit(digits[i]))
    && n == if |digits| == 1 then digits[0] - 48 else 10 * (digits[0] - 48) + (digits[1] - 48)
  }

  lemma NumeralIs(digits: seq<Byte>, n: nat)
    requires Numeral(digits, n)
    ensures TrimEnd(TrimStart(digits)) == digits && ParseSize(digits) == Some(n)
  {
    var one := digits[..1];
    assert one[..0] == [] && Digits(one[..0]) == Some(0);
    assert Digits(one) == Some(digits[0] - 48);
    assert |digits| == 1 ==> digits == one;
    assert |digits| == 2 ==> digits[..1] == one;
  }

  lemma {:induction false} LengthHeaderSays(digits: seq<Byte>, n: nat)
    requires Numeral(digits, n)
    ensures ContentLength(LengthHeader(digits)) == Some(n)
  {
    var bare := CONTENT_LENGTH + ([COLON] + digits);
    assert LengthHeader(digits)[..|bare|] == bare;
    LengthLine(LengthHeader(digits), digits);
    NumeralIs(digits, n);
  }

  lemma {:induction false} LengthLine(line: Piece, value: seq<Byte>)
    requires TrimEol(line) == CONTENT_LENGTH + ([COLON] + value)
    ensures ContentLength(line) == ParseSize(TrimEnd(TrimStart(value)))
  {
    var bare := TrimEol(line);
    assert bare[..14] == CONTENT_LENGTH && bare[15..] == value;
    assert COLON !in CONTENT_LENGTH && forall i :: 0 <= i < 14 ==> Lower(CONTENT_LENGTH[i]) == CONTENT_LENGTH[i];
    PositionIs(bare, COLON, 14);
    assert forall i :: 0 <= i < 14 ==> bare[i] == CONTENT_LENGTH[i];
  }

  lemma LengthHeaderIsLine(digits: seq<Byte>, n: nat)
    requires Numeral(digits, n)
    ensures var line := LengthHeader(digits); Terminated(line) && !Blank(line) && !NeedsQuote(line) && CR !in line
  {
    var line := LengthHeader(digits);
    assert LF !in CONTENT_LENGTH && CR !in CONTENT_LENGTH;
    assert line[..|line| - 1] == CONTENT_LENGTH + ([COLON] + digits);
    assert line[0] == 99 && TrimEol(line)[0] == 99;
  }

  /** A message of one such header and a body of one line. */
  function Short(digits: seq<Byte>, body: Piece): seq<Piece> {
    [LengthHeader(digits), NEWLINE, body]
  }

  lemma {:induction false} ShortSays(digits: seq<Byte>, n: nat, body: Piece)
    requires Numeral(digits, n)
    ensures HasBlank(Short(digits, body)) && BodyOf(Short(digits, body)) == [body]
    ensures LengthSaid(WrittenHeaders(Short(digits, body)), None) == Some(n)
    ensures Front(Short(digits, body)) == [Quote(body)] + [NEWLINE]
    ensures NoneQuoted(HeaderOf(Short(digits, body)))
  {
    var first := LengthHeader(digits);
    LengthHeaderSays(digits, n);
    LengthHeaderIsLine(digits, n);
    assert Short(digits, body) == [first] + [NEWLINE, body];
    ShortParts(first, body);
    SaidOnce(first);
  }

  lemma {:induction false} ShortParts(first: Piece, body: Piece)
    requires !Blank(first) && !NeedsQuote(first)
    ensures var lines := [first] + [NEWLINE, body];
            && HasBlank(lines) && BodyOf(lines) == [body] && Front(lines) == [Quote(body)] + [NEWLINE]
            && WrittenHeaders(lines) == [first] + [NEWLINE] && NoneQuoted(HeaderOf(lines))
  {
    var others := [NEWLINE, body];
    NewlineIsBlank();
    BlankIsPlain(NEWLINE);
    assert ([first] + others)[1..] == others && others == [NEWLINE] + [body] && others[1..] == [body];
    WrittenAfter(first, others);
    WrittenBlank(NEWLINE, [body]);
    assert HeaderOf(others) == [NEWLINE];
  }

  /** Headers of one line and the blank line say what it does. */
  lemma {:induction false} SaidOnce(first: Piece)
    ensures LengthSaid([first] + [NEWLINE], None) == ContentLength(first)
  {
    NewlineIsBlank();
    assert ([first] + [NEWLINE])[1..] == [NEWLINE] && [NEWLINE][1..] == [];
    assert LengthSaid([NEWLINE], Says(first, None)) == Says(first, None);
  }

  lemma {:induction false} ShortIs(digits: seq<Byte>, n: nat, body: Piece, mail: Mail)
    requires Numeral(digits, n) && Terminated(body) && CR !in body && mail.raw == Flatten(Short(digits, body))
    ensures LinesOf(mail) == Short(digits, body) && LengthOf(mail) == Some(n)
  {
    LengthHeaderIsLine(digits, n);
    NewlineIsBlank();
    PlainLines(Short(digits, body));
    ShortSays(digits, n, body);
  }

  // ---------- counting

  /** Counting goes past a piece. */
  lemma {:induction false} CutStep(first: Piece, others: seq<Piece>, n: nat)
    requires n > 0 && |first| <= n
    ensures var pieces, m := [first] + others, n - |first|;
            && CutAt(pieces, n) == 1 + CutAt(others, m) && CutHead(pieces, n) == CutHead(others, m)
            && CutTail(pieces, n) == CutTail(others, m) && CutsClean(pieces, n) == CutsClean(others, m)
            && TakeBody(pieces, n).rest == TakeBody(others, m).rest
  {
    assert ([first] + others)[1..] == others;
  }

  /** It cuts one. */
  lemma {:induction false} CutStop(first: Piece, others: seq<Piece>, n: nat)
    requires 0 < n < |first|
    ensures var pieces := [first] + others;
            && CutAt(pieces, n) == 0 && CutHead(pieces, n) == first[..n] && CutTail(pieces, n) == first[n..]
            && !CutsClean(pieces, n) && TakeBody(pieces, n).rest == [first[n..]] + others
  {
    assert ([first] + others)[1..] == others;
  }

  // ---------- one message alone

  /** A message alone in a file comes back exactly when it is safe. */
  lemma {:induction false} AloneReads(mail: Mail, lie: bool, exact: bool)
    requires IsDate(mail.date)
    ensures ItemsOf(WriteAll([mail]), lie) == [Wanted(mail, exact)] <==> Safe(mail, [], lie, exact)
  {
    var none: seq<Mail> := [];
    assert [mail][1..] == none && WriteAll(none) == [];
    RoundTripExactly([mail], lie, exact);
    assert WantedAll([mail], exact) == [Wanted(mail, exact)];
    FirstReads(mail, [], lie, exact);
  }

  /** One that says a length comes back or not as `ComesBack` says, and comes back where no length is believed. */
  lemma {:induction false} AloneSays(mail: Mail, lines: seq<Piece>, n: nat)
    requires IsDate(mail.date) && LinesOf(mail) == lines && LengthOf(mail) == Some(n) && n <= MAX_COUNTED
    ensures ItemsOf(WriteAll([mail]), false) == [Expected(mail)] <==> ComesBack(lines, [], n)
    ensures ItemsOf(WriteAll([mail]), true) == [Expected(mail)]
  {
    WantedIsExpected(mail);
    AloneReads(mail, false, false);
    AloneReads(mail, true, false);
  }

  /** A length that is accepted and not true: a message with a body of one blank line that says its length is nothing comes
      back without it, what follows being blank lines and the end. */
  lemma UntrueLengthLoses(sender: string, date: seq<Byte>)
    requires IsDate(date)
    ensures var mail := Mail(sender, date, Flatten(Short([48], NEWLINE)));
            ItemsOf(WriteAll([mail]), false) != [Expected(mail)]
  {
    var mail := Mail(sender, date, Flatten(Short([48], NEWLINE)));
    NewlineIsBlank();
    ShortIs([48], 0, NEWLINE, mail);
    NothingFits();
    AloneSays(mail, Short([48], NEWLINE), 0);
  }

  lemma {:induction false} NothingFits()
    ensures !ComesBack(Short([48], NEWLINE), [], 0)
  {
    var pieces := [NEWLINE, NEWLINE];
    NewlineIsBlank();
    BlankIsPlain(NEWLINE);
    ShortSays([48], 0, NEWLINE);
    assert Front(Short([48], NEWLINE)) + [] == pieces;
    assert pieces[1..] == [NEWLINE] && [NEWLINE][1..] == [];
    assert SkipBlanks([NEWLINE]).rest == [];
    FlattenOne(NEWLINE);
  }

  /** A line that is quoted, and that line quoted, and what the length 3 cuts it into. */
  const FROM_X: Piece := [70, 114, 111, 109, 32, 120, 10]
  const QUOTED: Piece := [62, 70, 114, 111, 109, 32, 120, 10]
  const CUT_HEAD: Piece := [62, 70, 114]
  const CUT_TAIL: Piece := [111, 109, 32, 120, 10]

  lemma FromIsQuoted()
    ensures Terminated(FROM_X) && CR !in FROM_X && NeedsQuote(FROM_X) && !Blank(FROM_X) && Quote(FROM_X) == QUOTED
    ensures Terminated(QUOTED) && CR !in QUOTED && NeedsQuote(QUOTED) && !Blank(QUOTED) && !StartsFrom(QUOTED)
  {
    assert FROM_X[..5] == FROM;
    assert QUOTED[1..] == FROM_X && [GT] + FROM_X == QUOTED;
    assert LF !in FROM_X[..6] && LF !in QUOTED[..7];
    assert TrimEol(QUOTED)[0] == GT && TrimEol(FROM_X)[0] == 70;
    assert QUOTED[..5][0] == GT;
  }

  lemma CutApart()
    ensures QUOTED[..3] == CUT_HEAD && QUOTED[3..] == CUT_TAIL && CUT_HEAD + CUT_TAIL == QUOTED
    ensures !PartsUnquote(CUT_HEAD, CUT_TAIL)
    ensures !StartsFrom(CUT_TAIL) && !Blank(CUT_TAIL)
  {
    FromIsQuoted();
    assert QUOTED[1..] == FROM_X;
    assert CUT_HEAD[1..] == [70, 114];
    assert CUT_TAIL[..5][0] == 111;
    assert TrimEol(CUT_TAIL)[0] == 111;
    assert Unquote(CUT_HEAD) + Unquote(CUT_TAIL) == QUOTED;
  }

  /** A length that is rejected and cut a quoted line: a message with the body `From x` that says its length is 3 comes back
      with the line still quoted, where with no length believed it comes back as it was. */
  lemma CutQuotingStays(sender: string, date: seq<Byte>)
    requires IsDate(date)
    ensures var mail := Mail(sender, date, Flatten(Short([51], FROM_X)));
            ItemsOf(WriteAll([mail]), false) != [Expected(mail)] && ItemsOf(WriteAll([mail]), true) == [Expected(mail)]
  {
    var mail := Mail(sender, date, Flatten(Short([51], FROM_X)));
    FromIsQuoted();
    ShortIs([51], 3, FROM_X, mail);
    CutFromStays();
    AloneSays(mail, Short([51], FROM_X), 3);
  }

  lemma {:induction false} CutFromStays()
    ensures !ComesBack(Short([51], FROM_X), [], 3)
  {
    ShortSays([51], 3, FROM_X);
    FromIsQuoted();
    CutApart();
    CutStop(QUOTED, [NEWLINE], 3);
    NotAtBoundary(CUT_TAIL, [NEWLINE]);
    OwnOutcome(Short([51], FROM_X), [QUOTED] + [NEWLINE], 3);
  }

  lemma NotAtBoundary(line: Piece, others: seq<Piece>)
    requires !Blank(line) && !StartsFrom(line)
    ensures !AtBoundary([line] + others)
  {
  }

  lemma OwnOutcome(lines: seq<Piece>, pieces: seq<Piece>, n: nat)
    requires Front(lines) == pieces && !AtBoundary(TakeBody(pieces, n).rest) && !CutsClean(pieces, n)
    requires CutAt(pieces, n) < |BodyOf(lines)|
    ensures OutcomeOf(lines, [], n) == CutsOwn(CutHead(pieces, n), CutTail(pieces, n))
  {
    assert Front(lines) + [] == pieces;
  }

  /** A header line that is quoted: a message that is one line, `>From x`, comes back with another `>`. */
  lemma HeaderQuoteStays(sender: string, date: seq<Byte>)
    requires IsDate(date)
    ensures ItemsOf(WriteAll([Mail(sender, date, QUOTED)]), false) != [DeliveredItem(Mail(sender, date, QUOTED))]
  {
    var mail := Mail(sender, date, QUOTED);
    FromIsQuoted();
    FlattenOne(QUOTED);
    PlainLines([QUOTED]);
    OneHeader(QUOTED);
    assert NeedsQuote(HeaderOf(LinesOf(mail))[0]);
    WantedIsDelivered(mail);
    AloneReads(mail, false, true);
  }

  lemma {:induction false} OneHeader(line: Piece)
    requires !Blank(line)
    ensures HeaderOf([line]) == [line] && !HasBlank([line])
  {
    assert [line][1..] == [] && [line] + [] == [line];
  }

  // ---------- one message and another

  const X: Piece := [120, 10]
  const A: Piece := [97, 10]

  lemma LettersPlain()
    ensures forall line :: line in {X, A} ==> Terminated(line) && CR !in line && !Blank(line) && !NeedsQuote(line)
  {
    assert X[..1] == [120] && A[..1] == [97];
    assert TrimEol(X) == [120] && TrimEol(A) == [97];
  }

  /** A message whose body is `x`, that says the length `digits`, */
  function SayingLength(sender: string, date: seq<Byte>, digits: seq<Byte>): Mail {
    Mail(sender, date, Flatten(Short(digits, X)))
  }

  /** and what is pending after its headers, another written after it. */
  lemma {:induction false} PendingIs(mail: Mail, digits: seq<Byte>, n: nat, other: Mail)
    requires Numeral(digits, n) && LinesOf(mail) == Short(digits, X) && IsDate(other.date)
    ensures Lines(WriteAll([other])) == WrittenLines(other)
    ensures Front(LinesOf(mail)) + WrittenLines(other)
         == [X] + ([NEWLINE] + ([EnvelopeLine(other.sender, other.date)] + (QuoteAll(LinesOf(other)) + [NEWLINE])))
  {
    LettersPlain();
    assert X in {X, A};
    ShortSays(digits, n, X);
    OneWritten(other);
    FourIs(X, EnvelopeLine(other.sender, other.date), QuoteAll(LinesOf(other)));
  }

  lemma FourIs(x: Piece, line: Piece, quoted: seq<Piece>)
    ensures ([x] + [NEWLINE]) + ([line] + quoted + [NEWLINE]) == [x] + ([NEWLINE] + ([line] + (quoted + [NEWLINE])))
  {
  }

  lemma {:induction false} OneWritten(mail: Mail)
    requires IsDate(mail.date)
    ensures Lines(WriteAll([mail])) == WrittenLines(mail)
  {
    assert [mail][1..] == [];
    FileLinesAre([mail]);
    assert WrittenLines(mail) + [] == WrittenLines(mail);
  }

  /** The envelope line of a message is 32 bytes: a date of 24, say, and a sender of one letter. */
  predicate EnvelopeIs32(mail: Mail) {
    |SenderWritten(mail.sender)| + |mail.date| == 25
  }

  lemma EnvelopeSize(mail: Mail)
    requires EnvelopeIs32(mail)
    ensures |EnvelopeLine(mail.sender, mail.date)| == 32
  {
  }

  /** Counting `n` bytes of pieces cuts piece `k`, and what is left of it begins no message. */
  predicate CutsInto(pieces: seq<Piece>, n: nat, k: nat, head: Piece, tail: Piece) {
    && CutAt(pieces, n) == k && CutHead(pieces, n) == head && CutTail(pieces, n) == tail
    && !CutsClean(pieces, n) && !AtBoundary(TakeBody(pieces, n).rest)
  }

  lemma NextOutcome(lines: seq<Piece>, rest: seq<Piece>, pieces: seq<Piece>, n: nat, j: nat, head: Piece, tail: Piece)
    requires Front(lines) + rest == pieces && CutsInto(pieces, n, |Front(lines)| + j, head, tail) && |BodyOf(lines)| <= |Front(lines)|
    ensures OutcomeOf(lines, rest, n) == CutsNext(j, head, tail)
  {
  }

  /** Counting 35 bytes goes past the body, the blank line and the envelope line of the other. */
  lemma {:induction false} CutPast(line: Piece, others: seq<Piece>, n: nat, l: nat, head: Piece, tail: Piece)
    requires |line| == 32 && n > 35 && CutsInto(others, n - 35, l, head, tail)
    ensures CutsInto([X] + ([NEWLINE] + ([line] + others)), n, 3 + l, head, tail)
  {
    CutStep(X, [NEWLINE] + ([line] + others), n);
    CutStep(NEWLINE, [line] + others, n - 2);
    CutStep(line, others, n - 3);
  }

  /** The first message comes back, having cut line `l` of the other. */
  lemma {:induction false} FirstCuts(mail: Mail, digits: seq<Byte>, n: nat, other: Mail, others: seq<Piece>, l: nat, head: Piece,
                                     tail: Piece, exact: bool)
    requires Numeral(digits, n) && n > 35 && mail == SayingLength(mail.sender, mail.date, digits)
    requires IsDate(other.date) && EnvelopeIs32(other)
    requires others == QuoteAll(LinesOf(other)) + [NEWLINE] && CutsInto(others, n - 35, l, head, tail)
    ensures Safe(mail, WriteAll([other]), false, exact)
    ensures LengthDoes(mail, WriteAll([other]), false) == CutsNext(1 + l, head, tail)
  {
    LettersPlain();
    assert X in {X, A};
    ShortIs(digits, n, X, mail);
    ShortSays(digits, n, X);
    PendingIs(mail, digits, n, other);
    EnvelopeSize(other);
    CutPast(EnvelopeLine(other.sender, other.date), others, n, l, head, tail);
    NextOutcome(LinesOf(mail), Lines(WriteAll([other])),
                [X] + ([NEWLINE] + ([EnvelopeLine(other.sender, other.date)] + others)), n, 1 + l, head, tail);
  }

  lemma {:induction false} TwoWanted(mail: Mail, other: Mail, exact: bool)
    ensures [mail, other][1..] == [other] && [other][1..] == []
    ensures WantedAll([mail, other], exact) == [Wanted(mail, exact), Wanted(other, exact)]
  {
    var none: seq<Mail> := [];
    assert [mail, other][1..] == [other] && [other][1..] == none;
    assert WantedAll(none, exact) == [];
    assert WantedAll([other], exact) == [Wanted(other, exact)];
  }

  lemma {:induction false} OneHarmless(other: Mail, l: nat, head: Piece, tail: Piece, exact: bool)
    requires l < |LinesOf(other)|
    ensures CutHarmless([other], 1 + l, head, tail, exact) <==> LineHarmless(HeaderOf(LinesOf(other)), l, head, tail, exact)
  {
    assert [other][1..] == [];
    assert AllPlain([]);
  }

  lemma {:induction false} TwoWritable(mail: Mail, other: Mail, j: nat, head: Piece, tail: Piece, exact: bool)
    requires Safe(mail, WriteAll([other]), false, exact) && LengthDoes(mail, WriteAll([other]), false) == CutsNext(j, head, tail)
    ensures Writable([mail, other], false, exact) <==> CutHarmless([other], j, head, tail, exact)
  {
    assert [mail, other][1..] == [other];
  }

  /** So the two come back exactly when the cut does the other no harm. */
  lemma {:induction false} TwoRead(mail: Mail, other: Mail, l: nat, head: Piece, tail: Piece, exact: bool)
    requires IsDate(mail.date) && IsDate(other.date) && l < |LinesOf(other)| && Safe(mail, WriteAll([other]), false, exact)
    requires LengthDoes(mail, WriteAll([other]), false) == CutsNext(1 + l, head, tail)
    ensures ItemsOf(WriteAll([mail, other]), false) == [Wanted(mail, exact), Wanted(other, exact)] <==>
              LineHarmless(HeaderOf(LinesOf(other)), l, head, tail, exact)
  {
    TwoWritable(mail, other, 1 + l, head, tail, exact);
    OneHarmless(other, l, head, tail, exact);
    TwoWanted(mail, other, exact);
    RoundTripExactly([mail, other], false, exact);
  }

  /** A message `SayingLength` and another of the lines `lines`, of which it cuts line `l`. */
  predicate CutsTwo(mail: Mail, digits: seq<Byte>, n: nat, other: Mail, lines: seq<Piece>, l: nat, head: Piece, tail: Piece) {
    && Numeral(digits, n) && n > 35 && mail == SayingLength(mail.sender, mail.date, digits) && EnvelopeIs32(other)
    && LinesOf(other) == lines && l < |lines| && CutsInto(QuoteAll(lines) + [NEWLINE], n - 35, l, head, tail)
  }

  lemma {:induction false} CutTwo(mail: Mail, digits: seq<Byte>, n: nat, other: Mail, lines: seq<Piece>, l: nat, head: Piece,
                                   tail: Piece, exact: bool)
    requires IsDate(mail.date) && IsDate(other.date) && CutsTwo(mail, digits, n, other, lines, l, head, tail)
    ensures Safe(mail, WriteAll([other]), false, exact)
    ensures ItemsOf(WriteAll([mail, other]), false) == [Wanted(mail, exact), Wanted(other, exact)] <==>
              LineHarmless(HeaderOf(lines), l, head, tail, exact)
  {
    FirstCuts(mail, digits, n, other, QuoteAll(lines) + [NEWLINE], l, head, tail, exact);
    TwoRead(mail, other, l, head, tail, exact);
  }

  /** The lines `a`, a blank one, and `From x`. The sixth byte of them, as they are written, ends the first part of the last. */
  const WITH_BODY: seq<Piece> := [A, NEWLINE, FROM_X]

  lemma {:induction false} WithBodyIs(mail: Mail)
    requires mail.raw == Flatten(WITH_BODY)
    ensures LinesOf(mail) == WITH_BODY
  {
    LettersPlain();
    assert A in {X, A};
    NewlineTerminated();
    FromIsQuoted();
    PlainLines(WITH_BODY);
  }

  lemma WithBodyQuoted()
    ensures QuoteAll(WITH_BODY) + [NEWLINE] == [A] + ([NEWLINE] + ([QUOTED] + [NEWLINE]))
  {
    LettersPlain();
    assert A in {X, A};
    NewlineIsBlank();
    BlankIsPlain(NEWLINE);
    FromIsQuoted();
    assert QuoteAll(WITH_BODY) == [A, NEWLINE, QUOTED];
  }

  lemma {:induction false} WithBodySays()
    ensures HeaderOf(WITH_BODY) == [A, NEWLINE]
    ensures LengthSaid(WrittenHeaders(WITH_BODY), None).None?
  {
    LettersPlain();
    assert A in {X, A};
    NewlineIsBlank();
    BlankIsPlain(NEWLINE);
    assert WITH_BODY == [A] + [NEWLINE, FROM_X] && [NEWLINE, FROM_X] == [NEWLINE] + [FROM_X];
    HeadersFirst(A, [NEWLINE, FROM_X]);
    HeadersFirst(NEWLINE, [FROM_X]);
    WrittenAfter(A, [NEWLINE, FROM_X]);
    WrittenBlank(NEWLINE, [FROM_X]);
    SaidOnce(A);
    LetterSaysNothing(A);
  }

  lemma LetterSaysNothing(line: Piece)
    requires COLON !in line
    ensures ContentLength(line).None?
  {
    var bare := TrimEol(line);
    assert forall b :: b in bare ==> b in line;
  }

  lemma {:induction false} SixthByte()
    ensures CutsInto([A] + ([NEWLINE] + ([QUOTED] + [NEWLINE])), 6, 2, CUT_HEAD, CUT_TAIL)
  {
    CutApart();
    CutStep(A, [NEWLINE] + ([QUOTED] + [NEWLINE]), 6);
    CutStep(NEWLINE, [QUOTED] + [NEWLINE], 4);
    CutStop(QUOTED, [NEWLINE], 3);
    NotAtBoundary(CUT_TAIL, [NEWLINE]);
  }

  lemma {:induction false} SixthByteCuts(mail: Mail, other: Mail)
    requires mail == SayingLength(mail.sender, mail.date, [52, 49]) && other.raw == Flatten(WITH_BODY) && EnvelopeIs32(other)
    ensures CutsTwo(mail, [52, 49], 41, other, WITH_BODY, 2, CUT_HEAD, CUT_TAIL)
  {
    WithBodyIs(other);
    WithBodyQuoted();
    SixthByte();
  }

  lemma {:induction false} SixthByteHarms()
    ensures !LineHarmless(HeaderOf(WITH_BODY), 2, CUT_HEAD, CUT_TAIL, false)
  {
    WithBodySays();
    CutApart();
  }

  /** A rejected length that cuts a quoted line of the next message's body: the first message says 41, with the body `x`, and
      the next says no length. Written one after the other they do not both come back, though the first is safe and the next
      alone does. */
  lemma LaterQuotingStays(mail: Mail, other: Mail)
    requires mail == SayingLength(mail.sender, mail.date, [52, 49]) && IsDate(mail.date)
    requires other.raw == Flatten(WITH_BODY) && IsDate(other.date) && EnvelopeIs32(other)
    ensures LengthOf(other).None? && Safe(mail, WriteAll([other]), false, false)
    ensures ItemsOf(WriteAll([mail, other]), false) != [Expected(mail), Expected(other)]
    ensures ItemsOf(WriteAll([other]), false) == [Expected(other)]
  {
    SixthByteCuts(mail, other);
    SixthByteHarms();
    CutTwo(mail, [52, 49], 41, other, WITH_BODY, 2, CUT_HEAD, CUT_TAIL, false);
    WantedIsExpected(mail);
    WantedIsExpected(other);
    WithBodyIs(other);
    WithBodySays();
    AloneReads(other, false, false);
  }

  /** The lines `a` and `From x`. The first byte of them is all of the first line but its LF. */
  const NO_BODY: seq<Piece> := [A, FROM_X]

  lemma {:induction false} NoBodyIs(mail: Mail)
    requires mail.raw == Flatten(NO_BODY)
    ensures LinesOf(mail) == NO_BODY
  {
    LettersPlain();
    assert A in {X, A};
    FromIsQuoted();
    PlainLines(NO_BODY);
  }

  lemma {:induction false} NoBodyQuoted()
    ensures HeaderOf(NO_BODY) == [A] + [FROM_X]
    ensures QuoteAll(NO_BODY) + [NEWLINE] == [A] + ([QUOTED] + [NEWLINE])
  {
    LettersPlain();
    assert A in {X, A};
    FromIsQuoted();
    assert NO_BODY == [A] + [FROM_X];
    assert QuoteAll(NO_BODY) == [A, QUOTED];
    HeadersFirst(A, [FROM_X]);
    OneHeader(FROM_X);
  }

  lemma {:induction false} FirstByteCut()
    ensures CutsInto([A] + ([QUOTED] + [NEWLINE]), 1, 0, [97], NEWLINE)
  {
    FromIsQuoted();
    NewlineIsBlank();
    CutStop(A, [QUOTED] + [NEWLINE], 1);
    assert A[..1] == [97] && A[1..] == NEWLINE;
    NotAtBoundary(QUOTED, [NEWLINE]);
    assert ([NEWLINE] + ([QUOTED] + [NEWLINE]))[1..] == [QUOTED] + [NEWLINE];
  }

  lemma {:induction false} FirstByteCuts(mail: Mail, other: Mail)
    requires mail == SayingLength(mail.sender, mail.date, [51, 54]) && other.raw == Flatten(NO_BODY) && EnvelopeIs32(other)
    ensures CutsTwo(mail, [51, 54], 36, other, NO_BODY, 0, [97], NEWLINE)
  {
    NoBodyIs(other);
    NoBodyQuoted();
    FirstByteCut();
  }

  lemma {:induction false} FirstByteHarms(exact: bool)
    ensures LineHarmless(HeaderOf(NO_BODY), 0, [97], NEWLINE, exact) <==> exact
  {
    NoBodyQuoted();
    NewlineIsBlank();
    LettersPlain();
    assert A in {X, A};
    FromIsQuoted();
    FirstHarmless(A, [FROM_X], [97], NEWLINE, exact);
    assert NeedsQuote([FROM_X][0]);
  }

  /** A rejected length that cuts a line of the next message's headers before its LF, which ends the headers there: the line
      after it, that was quoted, is unquoted, and both messages come back as they were, where the next alone does not. */
  lemma CutUnquotes(mail: Mail, other: Mail)
    requires mail == SayingLength(mail.sender, mail.date, [51, 54]) && IsDate(mail.date)
    requires other.raw == Flatten(NO_BODY) && IsDate(other.date) && EnvelopeIs32(other)
    ensures ItemsOf(WriteAll([mail, other]), false) == [DeliveredItem(mail), DeliveredItem(other)]
    ensures ItemsOf(WriteAll([mail, other]), false) != [Expected(mail), Expected(other)]
    ensures ItemsOf(WriteAll([other]), false) != [DeliveredItem(other)]
  {
    FirstByteCuts(mail, other);
    FirstByteHarms(false);
    FirstByteHarms(true);
    CutTwo(mail, [51, 54], 36, other, NO_BODY, 0, [97], NEWLINE, false);
    CutTwo(mail, [51, 54], 36, other, NO_BODY, 0, [97], NEWLINE, true);
    WantedIsExpected(mail);
    WantedIsExpected(other);
    WantedIsDelivered(mail);
    WantedIsDelivered(other);
    NoBodyNotDelivered(other);
  }

  lemma {:induction false} NoBodyNotDelivered(mail: Mail)
    requires mail.raw == Flatten(NO_BODY) && IsDate(mail.date)
    ensures ItemsOf(WriteAll([mail]), false) != [Wanted(mail, true)]
  {
    NoBodyIs(mail);
    NoBodyQuoted();
    FromIsQuoted();
    assert NeedsQuote(([A] + [FROM_X])[1]);
    AloneReads(mail, false, true);
  }
}
