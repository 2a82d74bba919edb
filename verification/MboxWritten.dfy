/** A message as it is written: the lines it makes in the file, and what a scan makes of them
    (crates/mail-archive/src/mbox.rs). */
module MboxWritten {
  import opened Options
  import opened Bytes
  import opened MboxFormat
  import opened MboxSplit
  import opened MboxRuns

  /** A message to write: its envelope's sender and formatted date, and its bytes. */
  datatype Mail = Mail(sender: string, date: seq<Byte>, raw: seq<Byte>)

  function WriteAll(mails: seq<Mail>): seq<Byte> {
    if mails == [] then [] else Written(mails[0].sender, mails[0].date, mails[0].raw) + WriteAll(mails[1..])
  }

  /** The message's Unix form, with a final newline supplied. */
  function Unix(raw: seq<Byte>): seq<Byte> {
    var unix := Lf(raw);
    if unix == [] || EndsInLF(unix) then unix else unix + [LF]
  }

  /** What a message should be read back as: its Unix form, or a single newline if it was empty. */
  function Delivered(raw: seq<Byte>): seq<Byte> {
    if Unix(raw) == [] then [LF] else Unix(raw)
  }

  /** The lines of the header section, its blank line too, */
  function HeaderOf(lines: seq<Piece>): seq<Piece> {
    if lines == [] then [] else if Blank(lines[0]) then [lines[0]] else [lines[0]] + HeaderOf(lines[1..])
  }

  /** and the lines after it. */
  function BodyOf(lines: seq<Piece>): seq<Piece> {
    if lines == [] then [] else if Blank(lines[0]) then lines[1..] else BodyOf(lines[1..])
  }

  predicate HasBlank(lines: seq<Piece>) {
    lines != [] && (Blank(lines[0]) || HasBlank(lines[1..]))
  }

  lemma {:induction false} HeaderThenBody(lines: seq<Piece>)
    ensures HeaderOf(lines) + BodyOf(lines) == lines
    ensures !HasBlank(lines) ==> HeaderOf(lines) == lines && BodyOf(lines) == []
    ensures lines != [] ==> HeaderOf(lines) != []
  {
    if lines != [] {
      var first, others := lines[0], lines[1..];
      assert lines == [first] + others;
      if !Blank(first) {
        HeaderThenBody(others);
        Reassociate([first], HeaderOf(others), BodyOf(others));
      }
    }
  }

  function HeaderLines(raw: seq<Byte>): seq<Piece> {
    HeaderOf(Lines(Unix(raw)))
  }

  /** What lines are read back as: the writer quotes every one and the reader unquotes those of the body. */
  function ReadBackOf(lines: seq<Piece>): seq<Byte> {
    if lines == [] then [LF] else Flatten(QuoteAll(HeaderOf(lines))) + Flatten(BodyOf(lines))
  }

  function ReadBack(raw: seq<Byte>): seq<Byte> {
    ReadBackOf(Lines(Unix(raw)))
  }

  predicate NoneQuoted(lines: seq<Piece>) {
    forall i :: 0 <= i < |lines| ==> !NeedsQuote(lines[i])
  }

  /** A message is read back as it should be exactly when no header line is one that is quoted. */
  lemma {:induction false} ReadBackIsDelivered(raw: seq<Byte>)
    ensures ReadBack(raw) == Delivered(raw) <==> NoneQuoted(HeaderLines(raw))
  {
    LinesFlatten(Unix(raw));
    ReadBackOfIs(Lines(Unix(raw)), Unix(raw));
  }

  lemma {:induction false} ReadBackOfIs(lines: seq<Piece>, unix: seq<Byte>)
    requires Flatten(lines) == unix && (lines == [] <==> unix == [])
    ensures ReadBackOf(lines) == (if unix == [] then [LF] else unix) <==> NoneQuoted(HeaderOf(lines))
  {
    var headers, body := HeaderOf(lines), BodyOf(lines);
    HeaderThenBody(lines);
    FlattenConcat(headers, body);
    QuotedBefore(headers, Flatten(body));
  }

  lemma QuotedBefore(headers: seq<Piece>, body: seq<Byte>)
    ensures Flatten(QuoteAll(headers)) + body == Flatten(headers) + body <==> NoneQuoted(headers)
  {
    QuotingLengthens(headers);
    Longer(Flatten(QuoteAll(headers)), Flatten(headers), body);
  }

  lemma Longer(long: seq<Byte>, short: seq<Byte>, after: seq<Byte>)
    ensures |long| > |short| ==> long + after != short + after
  {
    if |long| > |short| { assert |long + after| > |short + after|; }
  }

  /** Quoting makes lines longer, if any needs it, and else leaves them. */
  lemma {:induction false} QuotingLengthens(lines: seq<Piece>)
    ensures (forall i :: 0 <= i < |lines| ==> !NeedsQuote(lines[i])) ==> QuoteAll(lines) == lines
    ensures Size(QuoteAll(lines)) >= Size(lines)
    ensures (exists i :: 0 <= i < |lines| && NeedsQuote(lines[i])) ==> Size(QuoteAll(lines)) > Size(lines)
  {
    if lines != [] {
      assert QuoteAll(lines)[1..] == QuoteAll(lines[1..]);
      QuotingLengthens(lines[1..]);
      assert Size(lines) == |lines[0]| + Size(lines[1..]);
      if i :| 0 <= i < |lines| && NeedsQuote(lines[i]) {
        if i > 0 { assert NeedsQuote(lines[1..][i - 1]); }
      }
    }
  }

  // ---------- the envelope line

  lemma Utf8Clean(c: char, rest: seq<Byte>)
    requires !IsWhitespace(c)
    ensures forall b :: b in Utf8(c) ==> b != LF && b != CR && b != SPACE
    ensures SpaceAt(Utf8(c) + rest) == 0
    ensures !AsciiSpace(Utf8(c)[0])
  {
  }

  predicate NoneWhite(text: string) {
    forall i :: 0 <= i < |text| ==> !IsWhitespace(text[i])
  }

  lemma {:induction false} NoSpaceNoneWhite(text: string)
    ensures NoneWhite(NoSpace(text))
  {
    if text != "" { NoSpaceNoneWhite(text[1..]); }
  }

  lemma {:induction false} EncodeClean(text: string)
    requires NoneWhite(text)
    ensures forall b :: b in Encode(text) ==> b != LF && b != CR && b != SPACE
  {
    if text != "" {
      Utf8Clean(text[0], []);
      EncodeClean(text[1..]);
    }
  }

  /** The sender written is some bytes, none of them a space, and nothing is trimmed off it. */
  lemma SenderClean(sender: string, rest: seq<Byte>)
    ensures var s := SenderWritten(sender);
            && s != [] && (forall b :: b in s ==> b != LF && b != CR && b != SPACE)
            && TrimStart(s + rest) == s + rest && TrimAsciiStart(s + rest) == s + rest
  {
    var bare := NoSpace(sender);
    NoSpaceNoneWhite(sender);
    if bare != "" {
      EncodeClean(bare);
      Utf8Clean(bare[0], Encode(bare[1..]) + rest);
      Reassociate(Utf8(bare[0]), Encode(bare[1..]), rest);
    }
  }

  lemma {:induction false} PositionIs(bytes: seq<Byte>, b: Byte, i: nat)
    requires i < |bytes| && bytes[i] == b && b !in bytes[..i]
    ensures Position(bytes, b) == i
  {
    if i > 0 {
      assert bytes[0] == bytes[..i][0];
      assert bytes[1..][..i - 1] == bytes[..i][1..];
      PositionIs(bytes[1..], b, i - 1);
    }
  }

  lemma LineTrims(bare: seq<Byte>)
    requires bare != [] && LF !in bare && CR !in bare
    ensures TrimEol(bare + [LF]) == bare && Terminated(bare + [LF])
  {
    var line := bare + [LF];
    assert line[..|line| - 1] == bare;
    assert bare[|bare| - 1] in bare;
  }

  lemma TimeAfterSpace(s: seq<Byte>, date: seq<Byte>)
    requires IsDate(date)
    ensures exists i :: |s| <= i < |s + ([SPACE] + date)| && TimeAt(s + ([SPACE] + date), i)
  {
    var i: nat :| TimeAt(date, i);
    assert TimeAt(s + ([SPACE] + date), |s| + 1 + i);
  }

  /** A sender and a date are found in what they make. */
  lemma {:induction false} TailReads(s: seq<Byte>, date: seq<Byte>)
    requires SPACE !in s && IsDate(date)
    requires var tail := s + ([SPACE] + date); TrimStart(tail) == tail && TrimAsciiStart(tail) == tail
    ensures var line := FROM + (s + ([SPACE] + date));
            LooksLikeEnvelope(line) && ParseEnvelope(line) == Envelope(s, date)
  {
    var tail := s + ([SPACE] + date);
    assert (FROM + tail)[..5] == FROM && (FROM + tail)[5..] == tail;
    SpaceAfter(s, date);
    TimeAfterSpace(s, date);
  }

  lemma {:induction false} SpaceAfter(s: seq<Byte>, date: seq<Byte>)
    requires SPACE !in s
    ensures var tail := s + ([SPACE] + date);
            Position(tail, SPACE) == |s| && tail[..|s|] == s && tail[|s| + 1..] == date
  {
    var tail := s + ([SPACE] + date);
    CutAfter(s, SPACE, date);
    assert tail[..|s|] == s;
    PositionIs(tail, SPACE, |s|);
  }

  /** The envelope line written is one line, is an envelope, and says the sender and the date it was given. */
  lemma EnvelopeLineReads(sender: string, date: seq<Byte>)
    requires IsDate(date)
    ensures var line := EnvelopeLine(sender, date);
            && Terminated(line) && IsEnvelope(line)
            && ParseEnvelope(TrimEol(line)) == Envelope(SenderWritten(sender), date)
  {
    SenderClean(sender, [SPACE] + date);
    EnvelopeLineOf(SenderWritten(sender), date);
  }

  lemma EnvelopeLineOf(s: seq<Byte>, date: seq<Byte>)
    requires IsDate(date) && s != [] && forall b :: b in s ==> b != LF && b != CR && b != SPACE
    requires var tail := s + ([SPACE] + date); TrimStart(tail) == tail && TrimAsciiStart(tail) == tail
    ensures var line := FROM + (s + ([SPACE] + date)) + [LF];
            Terminated(line) && IsEnvelope(line) && ParseEnvelope(TrimEol(line)) == Envelope(s, date)
  {
    var bare := FROM + (s + ([SPACE] + date));
    NoBreaks(s, date);
    TailReads(s, date);
    assert bare[..5] == FROM;
    EnvelopeOfBare(bare, Envelope(s, date));
  }

  lemma EnvelopeOfBare(bare: seq<Byte>, envelope: Envelope)
    requires StartsFrom(bare) && LF !in bare && CR !in bare
    requires LooksLikeEnvelope(bare) && ParseEnvelope(bare) == envelope
    ensures Terminated(bare + [LF]) && IsEnvelope(bare + [LF]) && ParseEnvelope(TrimEol(bare + [LF])) == envelope
  {
    LineTrims(bare);
    assert (bare + [LF])[..5] == bare[..5];
  }

  lemma NoBreaks(s: seq<Byte>, date: seq<Byte>)
    requires LF !in s && CR !in s && LF !in date && CR !in date
    ensures var bare := FROM + (s + ([SPACE] + date)); LF !in bare && CR !in bare
  {
    assert LF !in FROM && CR !in FROM;
  }

  // ---------- what is written, as lines

  /** A final newline supplied completes the last line, quoted or not. */
  lemma {:induction false} QuotedCompleted(lines: seq<Piece>)
    requires WellSplit(lines) && lines != [] && !EndsInLF(Flatten(lines))
    ensures Flatten(QuoteAll(lines)) + [LF] == Flatten(QuoteAll(Lines(Flatten(lines) + [LF])))
  {
    var first, others := lines[0], lines[1..];
    QuoteFirst(lines);
    if others == [] {
      assert first + [] == first && QuoteAll(others) == [] && Quote(first) + [] == Quote(first);
      CompletedLine(first);
    } else {
      var more := Lines(Flatten(others) + [LF]);
      assert Flatten(others) == others[0] + Flatten(others[1..]);
      QuotedCompleted(others);
      Reassociate(first, Flatten(others), [LF]);
      LinesFirst(first, Flatten(others) + [LF]);
      QuoteFirst([first] + more);
      assert ([first] + more)[1..] == more;
      Reassociate(Quote(first), Flatten(QuoteAll(others)), [LF]);
    }
  }

  lemma {:induction false} CompletedLine(line: seq<Byte>)
    requires IsLine(line) && !EndsInLF(line)
    ensures Quote(line) + [LF] == Flatten(QuoteAll(Lines(line + [LF])))
  {
    assert LF !in line by { assert line == line[..|line| - 1] + [line[|line| - 1]]; }
    assert (line + [LF])[..|line|] == line;
    OneLine(line + [LF]);
    QuoteCompleted(line);
    assert QuoteAll([line + [LF]]) == [Quote(line + [LF])];
    FlattenOne(Quote(line + [LF]));
  }

  const NEWLINE: Piece := [LF]

  lemma NewlineIsBlank()
    ensures Blank(NEWLINE) && Terminated(NEWLINE) && !StartsFrom(NEWLINE) && Unquote(NEWLINE) == NEWLINE
    ensures ContentLength(NEWLINE).None?
  {
    assert NEWLINE[..0] == [];
  }

  /** The lines a message is written as: its envelope line, its own, each quoted if it must be, and a blank one. */
  function WrittenLines(mail: Mail): seq<Piece> {
    [EnvelopeLine(mail.sender, mail.date)] + QuoteAll(Lines(Unix(mail.raw))) + [NEWLINE]
  }

  lemma WrittenIsLines(mail: Mail)
    ensures Written(mail.sender, mail.date, mail.raw) == Flatten(WrittenLines(mail))
  {
    var line, unix := EnvelopeLine(mail.sender, mail.date), Lf(mail.raw);
    var quoted := QuoteAll(Lines(Unix(mail.raw)));
    FlattenConcat([line] + quoted, [NEWLINE]);
    FlattenConcat([line], quoted);
    FlattenOne(line);
    FlattenOne(NEWLINE);
    if unix != [] && !EndsInLF(unix) {
      LinesWellSplit(unix);
      LinesFlatten(unix);
      QuotedCompleted(Lines(unix));
      Reassociate(line, Flatten(QuoteAll(Lines(unix))), [LF]);
    } else {
      assert line + Flatten(quoted) + [] == line + Flatten(quoted);
    }
  }

  lemma EnvelopeTerminated(sender: string, date: seq<Byte>)
    requires IsDate(date)
    ensures Terminated(EnvelopeLine(sender, date))
  {
    EnvelopeLineReads(sender, date);
  }

  lemma NewlineTerminated()
    ensures Terminated(NEWLINE)
  {
  }

  lemma QuotedTerminated(lines: seq<Piece>)
    requires forall line :: line in lines ==> Terminated(line)
    ensures forall line :: line in QuoteAll(lines) ==> Terminated(line)
  {
    forall i | 0 <= i < |lines| ensures Terminated(QuoteAll(lines)[i]) {
      assert lines[i] in lines;
      QuoteTerminated(lines[i]);
    }
  }

  lemma WrittenTerminated(mail: Mail)
    requires IsDate(mail.date)
    ensures forall line :: line in WrittenLines(mail) ==> Terminated(line)
  {
    EnvelopeTerminated(mail.sender, mail.date);
    NewlineTerminated();
    AllTerminated(Unix(mail.raw));
    QuotedTerminated(Lines(Unix(mail.raw)));
    AllOf(EnvelopeLine(mail.sender, mail.date), QuoteAll(Lines(Unix(mail.raw))), NEWLINE);
  }

  lemma AllOf(first: Piece, lines: seq<Piece>, last: Piece)
    requires Terminated(first) && Terminated(last) && forall line :: line in lines ==> Terminated(line)
    ensures forall line :: line in [first] + lines + [last] ==> Terminated(line)
  {
  }

  /** A message written before others splits into its lines and theirs. */
  lemma LinesOfWritten(mail: Mail, rest: seq<Byte>)
    requires IsDate(mail.date)
    ensures Lines(Written(mail.sender, mail.date, mail.raw) + rest) == WrittenLines(mail) + Lines(rest)
  {
    WrittenIsLines(mail);
    WrittenTerminated(mail);
    LinesOfFlatten(WrittenLines(mail), rest);
  }

  // ---------- what is read of them

  /** What comes after a message's lines: nothing, or an envelope line. */
  predicate Next(rest: seq<Piece>) {
    rest == [] || IsEnvelope(rest[0])
  }

  /** Whether a scan that has taken these lines has just taken a blank one. */
  predicate AfterBlank(lines: seq<Piece>, before: bool) {
    if lines == [] then before else Blank(lines[|lines| - 1])
  }

  /** A scan takes lines that are no envelopes, whatever comes after them. */
  lemma {:induction false} ScanOver(lines: seq<Piece>, after: seq<Piece>, afterBlank: bool)
    requires forall i :: 0 <= i < |lines| ==> !IsEnvelope(lines[i])
    ensures ScanBody(lines + after, afterBlank) == Flatten(UnquoteAll(lines)) + ScanBody(after, AfterBlank(lines, afterBlank))
    ensures ScanRest(lines + after, afterBlank) == ScanRest(after, AfterBlank(lines, afterBlank))
  {
    if lines == [] {
      assert lines + after == after;
    } else {
      var first, others := lines[0], lines[1..];
      assert lines + after == [first] + (others + after);
      assert UnquoteAll(lines)[1..] == UnquoteAll(others);
      ScanOver(others, after, Blank(first));
      ScanOne(first, others + after, afterBlank);
      Reassociate(Unquote(first), Flatten(UnquoteAll(others)), ScanBody(after, AfterBlank(lines, afterBlank)));
    }
  }

  lemma {:induction false} ScanOne(first: Piece, others: seq<Piece>, afterBlank: bool)
    requires !IsEnvelope(first)
    ensures ScanBody([first] + others, afterBlank) == Unquote(first) + ScanBody(others, Blank(first))
    ensures ScanRest([first] + others, afterBlank) == ScanRest(others, Blank(first))
  {
    assert ([first] + others)[1..] == others;
  }

  /** Lines that do not begin `From `, then a blank one, then what is next: a scan ends there. */
  lemma {:induction false} ScanStops(lines: seq<Piece>, rest: seq<Piece>, afterBlank: bool)
    requires (forall i :: 0 <= i < |lines| ==> !StartsFrom(lines[i])) && Next(rest)
    ensures ScanBody((lines + [NEWLINE]) + rest, afterBlank) == Flatten(UnquoteAll(lines)) + [LF]
    ensures ScanRest((lines + [NEWLINE]) + rest, afterBlank) == rest
  {
    NewlineIsBlank();
    ScanOver(lines + [NEWLINE], rest, afterBlank);
    UnquoteWithNewline(lines);
    ScanNext(rest);
  }

  lemma ScanNext(rest: seq<Piece>)
    requires Next(rest)
    ensures ScanBody(rest, true) == [] && ScanRest(rest, true) == rest
  {
  }

  /** Lines quoted are unquoted to the lines, and none begins `From `. */
  lemma QuoteAllUndone(lines: seq<Piece>)
    ensures UnquoteAll(QuoteAll(lines)) == lines
    ensures forall i :: 0 <= i < |lines| ==> !StartsFrom(QuoteAll(lines)[i])
  {
    forall i | 0 <= i < |lines| ensures UnquoteAll(QuoteAll(lines))[i] == lines[i] && !StartsFrom(QuoteAll(lines)[i]) {
      QuoteUndone(lines[i]);
    }
  }

  lemma UnquoteWithNewline(quoted: seq<Piece>)
    ensures Flatten(UnquoteAll(quoted + [NEWLINE])) == Flatten(UnquoteAll(quoted)) + [LF]
  {
    NewlineIsBlank();
    assert UnquoteAll(quoted + [NEWLINE]) == UnquoteAll(quoted) + [NEWLINE];
    FlattenConcat(UnquoteAll(quoted), [NEWLINE]);
    FlattenOne(NEWLINE);
  }

  lemma {:induction false} ScannedUpTo(pieces: seq<Piece>, rest: seq<Piece>, body: seq<Byte>, envelope: Envelope, raw: seq<Byte>, lie: bool)
    requires ScanBody(pieces, true) == body + [LF] && ScanRest(pieces, true) == rest && EndsInLF(raw + body)
    ensures Reads(Scanned(pieces, envelope, raw, lie), Message(envelope, raw + body), rest, lie)
  {
    Reassociate(raw, body, [LF]);
    SeparatorStripped(raw + body);
  }

  /** What a reading came to. */
  predicate Reads(r: Reading, item: Item, rest: seq<Piece>, lie: bool) {
    r.item == item && r.rest == rest && r.lie == lie
  }

  lemma CutAfter<T>(a: seq<T>, x: T, c: seq<T>)
    ensures (a + ([x] + c))[..|a| + 1] == a + [x] && (a + ([x] + c))[|a| + 1..] == c
  {
  }

  /** Lines none of which begins `From `, a blank one and what is next, scanned, are the lines unquoted. */
  lemma {:induction false} ScannedBack(quoted: seq<Piece>, rest: seq<Piece>, envelope: Envelope, raw: seq<Byte>, lie: bool)
    requires (forall i :: 0 <= i < |quoted| ==> !StartsFrom(quoted[i])) && Next(rest)
    requires EndsInLF(raw + Flatten(UnquoteAll(quoted)))
    ensures Reads(Scanned((quoted + [NEWLINE]) + rest, envelope, raw, lie),
                  Message(envelope, raw + Flatten(UnquoteAll(quoted))), rest, lie)
  {
    ScanStops(quoted, rest, true);
    ScannedUpTo((quoted + [NEWLINE]) + rest, rest, Flatten(UnquoteAll(quoted)), envelope, raw, lie);
  }

  lemma {:induction false} EndsTerminated(lines: seq<Piece>)
    requires forall i :: 0 <= i < |lines| ==> Terminated(lines[i])
    ensures lines != [] ==> EndsInLF(Flatten(lines))
  {
    if lines != [] {
      EndsTerminated(lines[1..]);
      assert Flatten(lines) == lines[0] + Flatten(lines[1..]);
    }
  }

  /** The blank line the writer added, and nothing more, is stripped. */
  lemma SeparatorStripped(body: seq<Byte>)
    requires EndsInLF(body)
    ensures StripSeparator(body + [LF]) == body
  {
    var raw := body + [LF];
    assert raw[|raw| - 2] == LF;
    assert raw[..|raw| - 1] == body;
  }

  /** The header lines as they are written: where there is no blank line, the one after the message ends them. */
  function WrittenHeaders(lines: seq<Piece>): seq<Piece> {
    QuoteAll(HeaderOf(lines)) + if HasBlank(lines) then [] else [NEWLINE]
  }

  /** What is written of a message after its headers: its body and the blank line after it, or nothing, where that blank
      line is what ended the headers. */
  function Front(lines: seq<Piece>): seq<Piece> {
    if HasBlank(lines) then QuoteAll(BodyOf(lines)) + [NEWLINE] else []
  }

  lemma BodyEnds(raw: seq<Byte>, body: seq<Piece>)
    requires EndsInLF(raw) && forall line :: line in body ==> Terminated(line)
    ensures EndsInLF(raw + Flatten(body))
  {
    EndsTerminated(body);
  }

  lemma QuoteAllFirst(first: Piece, others: seq<Piece>)
    ensures QuoteAll([first] + others) == [Quote(first)] + QuoteAll(others)
  {
  }

  lemma WrittenEnds(headers: seq<Piece>)
    requires headers != [] && forall line :: line in headers ==> Terminated(line)
    ensures EndsInLF(Flatten(QuoteAll(headers)))
  {
    QuotedTerminated(headers);
    EndsTerminated(QuoteAll(headers));
  }

  lemma {:induction false} WithoutBlank(lines: seq<Piece>)
    requires !HasBlank(lines)
    ensures Flatten(WrittenHeaders(lines)) == Flatten(QuoteAll(lines)) + [LF]
    ensures ReadBackOf(lines) == if QuoteAll(lines) == [] then [LF] else Flatten(QuoteAll(lines))
  {
    var quoted := QuoteAll(lines);
    HeaderThenBody(lines);
    FlattenConcat(quoted, [NEWLINE]);
    FlattenOne(NEWLINE);
    assert Flatten(quoted) + [] == Flatten(quoted);
  }

  /** The last length headers say, `length` having been said before them. */
  function LengthSaid(headers: seq<Piece>, length: Option<nat>): Option<nat> {
    if headers == [] then length else LengthSaid(headers[1..], Says(headers[0], length))
  }

  /** A line before. */
  lemma {:induction false} WrittenAfter(first: Piece, others: seq<Piece>)
    requires !Blank(first)
    ensures WrittenHeaders([first] + others) == [Quote(first)] + WrittenHeaders(others)
    ensures Front([first] + others) == Front(others)
  {
    assert ([first] + others)[1..] == others;
    QuoteAllFirst(first, HeaderOf(others));
    Reassociate([Quote(first)], QuoteAll(HeaderOf(others)), if HasBlank(others) then [] else [NEWLINE]);
  }

  lemma {:induction false} WrittenBlank(first: Piece, others: seq<Piece>)
    requires Blank(first)
    ensures WrittenHeaders([first] + others) == [Quote(first)] && Front([first] + others) == QuoteAll(others) + [NEWLINE]
  {
    assert ([first] + others)[1..] == others;
    assert QuoteAll([first]) == [Quote(first)] && [Quote(first)] + [] == [Quote(first)];
  }

  lemma {:induction false} WrittenNothing()
    ensures WrittenHeaders([]) == [NEWLINE] && Front([]) == []
  {
    var none: seq<Piece> := [];
    assert QuoteAll(none) + [NEWLINE] == [NEWLINE];
  }

  /** The headers of what is written of lines, and what is left then. */
  lemma {:induction false} HeadersTaken(lines: seq<Piece>, rest: seq<Piece>, length: Option<nat>)
    requires forall line :: line in lines ==> Terminated(line)
    ensures var head := TakeHeaders(QuoteAll(lines) + ([NEWLINE] + rest), length);
            && head.ended && head.raw == Flatten(WrittenHeaders(lines))
            && head.length == LengthSaid(WrittenHeaders(lines), length) && head.rest == Front(lines) + rest
  {
    if lines == [] {
      WrittenNothing();
      assert QuoteAll(lines) + ([NEWLINE] + rest) == [NEWLINE] + rest;
      NewlineIsBlank();
      TakenBlank(NEWLINE, rest, length);
    } else {
      var first, others := lines[0], lines[1..];
      assert lines == [first] + others;
      QuoteAllFirst(first, others);
      Reassociate([Quote(first)], QuoteAll(others), [NEWLINE] + rest);
      QuoteTerminated(first);
      if Blank(first) {
        WrittenBlank(first, others);
        Reassociate(QuoteAll(others), [NEWLINE], rest);
        TakenBlank(Quote(first), QuoteAll(others) + ([NEWLINE] + rest), length);
      } else {
        WrittenAfter(first, others);
        HeadersTaken(others, rest, Says(Quote(first), length));
        TakenMore(Quote(first), QuoteAll(others) + ([NEWLINE] + rest), WrittenHeaders(others), length);
      }
    }
  }

  lemma {:induction false} TakenBlank(first: Piece, rest: seq<Piece>, length: Option<nat>)
    requires Blank(first)
    ensures var head := TakeHeaders([first] + rest, length);
            && head.ended && head.raw == Flatten([first]) && head.length == LengthSaid([first], length) && head.rest == rest
  {
    assert ([first] + rest)[1..] == rest && [first][1..] == [];
    FlattenOne(first);
  }

  lemma {:induction false} TakenMore(first: Piece, rest: seq<Piece>, headers: seq<Piece>, length: Option<nat>)
    requires !Blank(first)
    requires var more := TakeHeaders(rest, Says(first, length));
             more.ended && more.raw == Flatten(headers) && more.length == LengthSaid(headers, Says(first, length))
    ensures var head, more := TakeHeaders([first] + rest, length), TakeHeaders(rest, Says(first, length));
            && head.ended && head.raw == Flatten([first] + headers) && head.length == LengthSaid([first] + headers, length)
            && head.rest == more.rest
  {
    assert ([first] + rest)[1..] == rest && ([first] + headers)[1..] == headers;
  }

  // ---------- what a scan makes of it

  /** Headers that end in a blank line end in LF, and the message is read back as they and its body. */
  lemma HeadersAndBody(lines: seq<Piece>)
    requires HasBlank(lines) && forall line :: line in lines ==> Terminated(line)
    ensures EndsInLF(Flatten(WrittenHeaders(lines)))
    ensures ReadBackOf(lines) == Flatten(WrittenHeaders(lines)) + Flatten(BodyOf(lines))
    ensures forall line :: line in BodyOf(lines) ==> Terminated(line)
  {
    HeaderThenBody(lines);
    var headers, body := HeaderOf(lines), BodyOf(lines);
    assert WrittenHeaders(lines) == QuoteAll(headers);
    forall line | line in headers ensures Terminated(line) { assert line in headers + body; }
    forall line | line in body ensures Terminated(line) { assert line in headers + body; }
    WrittenEnds(headers);
  }

  lemma {:induction false} ScannedBody(body: seq<Piece>, rest: seq<Piece>, envelope: Envelope, raw: seq<Byte>, lie: bool)
    requires (forall line :: line in body ==> Terminated(line)) && Next(rest) && EndsInLF(raw)
    ensures Reads(Scanned((QuoteAll(body) + [NEWLINE]) + rest, envelope, raw, lie),
                  Message(envelope, raw + Flatten(body)), rest, lie)
  {
    QuoteAllUndone(body);
    BodyEnds(raw, body);
    ScannedBack(QuoteAll(body), rest, envelope, raw, lie);
  }

  lemma {:induction false} ScannedNothing(headers: seq<Piece>, rest: seq<Piece>, envelope: Envelope, lie: bool)
    requires (forall line :: line in headers ==> Terminated(line)) && Next(rest)
    ensures Reads(Scanned(rest, envelope, Flatten(headers) + [LF], lie),
                  Message(envelope, if headers == [] then [LF] else Flatten(headers)), rest, lie)
  {
    ScanNext(rest);
    var raw := Flatten(headers) + [LF];
    assert raw + [] == raw;
    if headers == [] {
      assert raw == [LF];
    } else {
      EndsTerminated(headers);
      SeparatorStripped(Flatten(headers));
    }
  }

  /** A message written and scanned is read back, and what comes after it is left. */
  lemma {:induction false} ScannedFront(lines: seq<Piece>, rest: seq<Piece>, envelope: Envelope, lie: bool)
    requires (forall line :: line in lines ==> Terminated(line)) && Next(rest)
    ensures Reads(Scanned(Front(lines) + rest, envelope, Flatten(WrittenHeaders(lines)), lie),
                  Message(envelope, ReadBackOf(lines)), rest, lie)
  {
    if HasBlank(lines) {
      ScannedBlank(lines, rest, envelope, lie);
    } else {
      ScannedNoBlank(lines, rest, envelope, lie);
    }
  }

  lemma {:induction false} ScannedBlank(lines: seq<Piece>, rest: seq<Piece>, envelope: Envelope, lie: bool)
    requires (forall line :: line in lines ==> Terminated(line)) && Next(rest) && HasBlank(lines)
    ensures Reads(Scanned(Front(lines) + rest, envelope, Flatten(WrittenHeaders(lines)), lie),
                  Message(envelope, ReadBackOf(lines)), rest, lie)
  {
    HeadersAndBody(lines);
    ScannedBody(BodyOf(lines), rest, envelope, Flatten(WrittenHeaders(lines)), lie);
  }

  lemma {:induction false} ScannedNoBlank(lines: seq<Piece>, rest: seq<Piece>, envelope: Envelope, lie: bool)
    requires (forall line :: line in lines ==> Terminated(line)) && Next(rest) && !HasBlank(lines)
    ensures Reads(Scanned(Front(lines) + rest, envelope, Flatten(WrittenHeaders(lines)), lie),
                  Message(envelope, ReadBackOf(lines)), rest, lie)
  {
    NoBlankIs(lines, rest);
    QuotedTerminated(lines);
    ScannedAs(QuoteAll(lines), Front(lines) + rest, rest, Flatten(WrittenHeaders(lines)), ReadBackOf(lines), envelope, lie);
  }

  lemma {:induction false} NoBlankIs(lines: seq<Piece>, rest: seq<Piece>)
    requires !HasBlank(lines)
    ensures Front(lines) + rest == rest && Flatten(WrittenHeaders(lines)) == Flatten(QuoteAll(lines)) + [LF]
    ensures ReadBackOf(lines) == if QuoteAll(lines) == [] then [LF] else Flatten(QuoteAll(lines))
  {
    WithoutBlank(lines);
    assert [] + rest == rest;
  }

  lemma {:induction false} ScannedAs(headers: seq<Piece>, pieces: seq<Piece>, rest: seq<Piece>, raw: seq<Byte>, back: seq<Byte>,
                                     envelope: Envelope, lie: bool)
    requires (forall line :: line in headers ==> Terminated(line)) && Next(rest) && pieces == rest
    requires raw == Flatten(headers) + [LF] && back == if headers == [] then [LF] else Flatten(headers)
    ensures Reads(Scanned(pieces, envelope, raw, lie), Message(envelope, back), rest, lie)
  {
    ScannedNothing(headers, rest, envelope, lie);
  }

  // ---------- a message, read by what is read of its body

  /** All but what it took to read. */
  predicate Alike(a: Reading, b: Reading) {
    a.item == b.item && a.rest == b.rest && a.lie == b.lie
  }

  lemma {:induction false} ParseFrom(line: Piece, after: seq<Piece>, lie: bool)
    requires StartsFrom(line)
    ensures Alike(Parse([line] + after, lie), ParseHeaders(after, ParseEnvelope(TrimEol(line)), lie))
  {
    FromIsNotBlank(line);
    assert ([line] + after)[1..] == after;
  }

  lemma WrittenThen(line: Piece, quoted: seq<Piece>, rest: seq<Piece>)
    ensures [line] + quoted + [NEWLINE] + rest == [line] + (quoted + ([NEWLINE] + rest))
  {
  }

  lemma EnvelopeSays(sender: string, date: seq<Byte>)
    requires IsDate(date)
    ensures var line := EnvelopeLine(sender, date);
            StartsFrom(line) && ParseEnvelope(TrimEol(line)) == Envelope(SenderWritten(sender), date)
  {
    EnvelopeLineReads(sender, date);
  }

  function EnvelopeOf(mail: Mail): Envelope {
    Envelope(SenderWritten(mail.sender), mail.date)
  }

  function LinesOf(mail: Mail): seq<Piece> {
    Lines(Unix(mail.raw))
  }

  /** What a message written is read back as. */
  function Expected(mail: Mail): Item {
    Message(EnvelopeOf(mail), ReadBackOf(LinesOf(mail)))
  }

  /** What is read of its body, after its headers, is what is read of a message. */
  function BodyReading(lines: seq<Piece>, rest: seq<Piece>, envelope: Envelope, lie: bool): Reading {
    var written := WrittenHeaders(lines);
    ParseBody(Front(lines) + rest, envelope, Flatten(written), LengthSaid(written, None), lie)
  }

  lemma {:induction false} HeadersThenBody(lines: seq<Piece>, rest: seq<Piece>, envelope: Envelope, lie: bool)
    requires forall line :: line in lines ==> Terminated(line)
    ensures Alike(ParseHeaders(QuoteAll(lines) + ([NEWLINE] + rest), envelope, lie), BodyReading(lines, rest, envelope, lie))
  {
    HeadersTaken(lines, rest, None);
  }

  lemma {:induction false} ReadByBody(mail: Mail, rest: seq<Piece>, lie: bool)
    requires IsDate(mail.date)
    ensures Alike(Parse(WrittenLines(mail) + rest, lie), BodyReading(LinesOf(mail), rest, EnvelopeOf(mail), lie))
  {
    var line, lines := EnvelopeLine(mail.sender, mail.date), LinesOf(mail);
    EnvelopeSays(mail.sender, mail.date);
    WrittenThen(line, QuoteAll(lines), rest);
    ParseFrom(line, QuoteAll(lines) + ([NEWLINE] + rest), lie);
    AllTerminated(Unix(mail.raw));
    HeadersThenBody(lines, rest, EnvelopeOf(mail), lie);
  }
}
