/** What a `Content-Length` does to a message written and read back: the writer quotes and completes a body and
    leaves the length as it was, and the reader may believe it (crates/mail-archive/src/mbox.rs). */
module MboxLengths {
  import opened Options
  import opened Bytes
  import opened MboxFormat
  import opened MboxSplit
  import opened MboxSound
  import opened MboxRuns
  import opened MboxWritten

  // ---------- quoting shows

  /** A line that is quoted has a byte that is not `>`, all before it being `>`. */
  lemma {:induction false} FirstOther(line: seq<Byte>) returns (k: nat)
    requires NeedsQuote(line)
    ensures k < |line| && line[k] != GT && forall i :: 0 <= i < k ==> line[i] == GT
  {
    if line[0] == GT {
      var k' := FirstOther(line[1..]);
      k := k' + 1;
    } else {
      k := 0;
    }
  }

  lemma QuotedDiffers(line: seq<Byte>, a: seq<Byte>, b: seq<Byte>)
    requires NeedsQuote(line)
    ensures !(line + a <= Quote(line) + b)
  {
    var k := FirstOther(line);
    assert (line + a)[k] == line[k];
    assert (Quote(line) + b)[k] == GT;
  }

  lemma AfterSame(line: seq<Byte>, a: seq<Byte>, b: seq<Byte>)
    requires line + a <= line + b
    ensures a <= b
  {
    assert (line + a)[|line|..] == a && (line + b)[|line|..] == b;
    assert (line + b)[..|line + a|] == line + a;
    assert b[..|a|] == (line + b)[|line|..|line + a|];
  }

  /** Lines that begin what they are quoted as are lines of which none is quoted. */
  lemma {:induction false} BeginsQuoted(body: seq<Piece>, after: seq<Byte>)
    requires Flatten(body) <= Flatten(QuoteAll(body)) + after
    ensures QuoteAll(body) == body
  {
    if body != [] {
      var line, lines := body[0], body[1..];
      assert QuoteAll(body)[1..] == QuoteAll(lines);
      Reassociate(Quote(line), Flatten(QuoteAll(lines)), after);
      if NeedsQuote(line) {
        QuotedDiffers(line, Flatten(lines), Flatten(QuoteAll(lines)) + after);
      } else {
        AfterSame(line, Flatten(lines), Flatten(QuoteAll(lines)) + after);
        BeginsQuoted(lines, after);
        assert body == [line] + lines && QuoteAll(body) == [line] + QuoteAll(lines);
      }
    }
  }

  // ---------- a length that is accepted

  /** Counting exactly the bytes of the first pieces takes them. */
  lemma {:induction false} TakeAll(pieces: seq<Piece>, more: seq<Piece>)
    requires NoneEmpty(pieces)
    ensures TakeBody(pieces + more, Size(pieces)).body == Flatten(pieces)
    ensures TakeBody(pieces + more, Size(pieces)).rest == more
  {
    if pieces == [] {
      assert pieces + more == more;
    } else {
      var first, others := pieces[0], pieces[1..];
      assert pieces + more == [first] + (others + more);
      TakeAll(others, more);
      TakeFirst(first, others + more, Size(others));
    }
  }

  lemma {:induction false} TakeFirst(first: Piece, others: seq<Piece>, n: nat)
    requires first != []
    ensures var all, taken := TakeBody([first] + others, |first| + n), TakeBody(others, n);
            all.body == first + taken.body && all.rest == taken.rest
  {
    assert ([first] + others)[1..] == others;
  }

  lemma NewlineThenNext(rest: seq<Piece>)
    requires Next(rest)
    ensures AtBoundary([NEWLINE] + rest)
  {
    NewlineIsBlank();
    assert ([NEWLINE] + rest)[1..] == rest;
    if rest != [] { AtEnvelope(rest); }
  }

  /** A length is true: it is the body's, and nothing in the body is quoted. */
  predicate True(lines: seq<Piece>, n: nat) {
    HasBlank(lines) && n == Size(BodyOf(lines)) && QuoteAll(BodyOf(lines)) == BodyOf(lines)
  }

  /** A true length is accepted, and takes the body. */
  lemma {:induction false} TrueFits(body: seq<Piece>, rest: seq<Piece>)
    requires NoneEmpty(body) && Next(rest)
    ensures var pieces := (body + [NEWLINE]) + rest;
            && Fits(pieces, Size(body)) && TakeBody(pieces, Size(body)).body == Flatten(body)
            && TakeBody(pieces, Size(body)).rest == [NEWLINE] + rest
  {
    TakeAll(body, [NEWLINE] + rest);
    NewlineThenNext(rest);
    Reassociate(body, [NEWLINE], rest);
  }

  /** A body taken by a length that is accepted is the body written exactly when the length is true and nothing
      in it was quoted. */
  lemma {:induction false} AcceptedBody(body: seq<Piece>, rest: seq<Piece>, n: nat)
    requires NoneEmpty(body) && NoneEmpty((QuoteAll(body) + [NEWLINE]) + rest) && Next(rest)
    requires Fits((QuoteAll(body) + [NEWLINE]) + rest, n)
    ensures TakeBody((QuoteAll(body) + [NEWLINE]) + rest, n).body == Flatten(body) <==>
              n == Size(body) && QuoteAll(body) == body
  {
    var pieces := (QuoteAll(body) + [NEWLINE]) + rest;
    TakeConserves(pieces, n);
    if TakeBody(pieces, n).body == Flatten(body) {
      Reassociate(QuoteAll(body), [NEWLINE], rest);
      FlattenConcat(QuoteAll(body), [NEWLINE] + rest);
      assert Flatten(body) <= Flatten(pieces);
      BeginsQuoted(body, Flatten([NEWLINE] + rest));
    }
    if n == Size(body) && QuoteAll(body) == body {
      TrueFits(body, rest);
    }
  }

  lemma SameAfter(raw: seq<Byte>, a: seq<Byte>, b: seq<Byte>)
    ensures raw + a == raw + b <==> a == b
  {
    assert (raw + a)[|raw|..] == a && (raw + b)[|raw|..] == b;
  }

  // ---------- a length that is rejected, and cut a line of the body

  /** Unquoting the two parts of a line is unquoting the line. */
  predicate PartsUnquote(head: Piece, tail: Piece) {
    Unquote(head) + Unquote(tail) == Unquote(head + tail)
  }

  lemma SameBefore(a: seq<Byte>, b: seq<Byte>, after: seq<Byte>)
    ensures a + after == b + after <==> a == b
  {
    if a + after == b + after { assert |a| == |b| && (a + after)[..|a|] == a && (b + after)[..|b|] == b; }
  }

  lemma {:induction false} UnquotedFirst(first: Piece, others: seq<Piece>)
    ensures Flatten(UnquoteAll([first] + others)) == Unquote(first) + Flatten(UnquoteAll(others))
  {
    assert UnquoteAll([first] + others) == [Unquote(first)] + UnquoteAll(others);
    FlattenFirst(Unquote(first), UnquoteAll(others));
  }

  lemma {:induction false} FlattenTwo(a: Piece, b: Piece)
    ensures Flatten(UnquoteAll([a, b])) == Unquote(a) + Unquote(b)
  {
    assert UnquoteAll([a, b]) == [Unquote(a)] + [Unquote(b)];
    FlattenConcat([Unquote(a)], [Unquote(b)]);
    FlattenOne(Unquote(a));
    FlattenOne(Unquote(b));
  }

  /** Lines with one in two parts are unquoted to what the lines are exactly when the parts are to what that one is. */
  lemma {:induction false} PartsSame(lines: seq<Piece>, k: nat, head: Piece, tail: Piece)
    requires k < |lines| && lines[k] == head + tail
    ensures Flatten(UnquoteAll(InParts(lines, k, head, tail))) == Flatten(UnquoteAll(lines)) <==> PartsUnquote(head, tail)
  {
    var first, others := lines[0], lines[1..];
    assert lines == [first] + others;
    UnquotedFirst(first, others);
    if k == 0 {
      UnquotedFirst(head, [tail] + others);
      UnquotedFirst(tail, others);
      Reassociate(Unquote(head), Unquote(tail), Flatten(UnquoteAll(others)));
      SameBefore(Unquote(head) + Unquote(tail), Unquote(first), Flatten(UnquoteAll(others)));
    } else {
      var parts := InParts(others, k - 1, head, tail);
      PartsSame(others, k - 1, head, tail);
      UnquotedFirst(first, parts);
      SameAfter(Unquote(first), Flatten(UnquoteAll(parts)), Flatten(UnquoteAll(others)));
    }
  }

  lemma UnquoteEnds(line: Piece)
    requires EndsInLF(line)
    ensures EndsInLF(Unquote(line))
  {
    if Unquote(line) != line {
      var k := FirstOther(line);
      assert line[1..][|line| - 2] == line[|line| - 1];
    }
  }

  lemma {:induction false} EndsUnquoted(lines: seq<Piece>)
    requires lines != [] && EndsInLF(lines[|lines| - 1])
    ensures EndsInLF(Flatten(UnquoteAll(lines)))
  {
    var before, last := lines[..|lines| - 1], lines[|lines| - 1];
    assert lines == before + [last];
    assert UnquoteAll(lines) == UnquoteAll(before) + [Unquote(last)];
    FlattenConcat(UnquoteAll(before), [Unquote(last)]);
    FlattenOne(Unquote(last));
    UnquoteEnds(last);
  }

  lemma PartNotFrom(head: Piece, tail: Piece)
    requires !StartsFrom(head + tail)
    ensures !StartsFrom(head)
  {
    if |head| >= 5 { assert (head + tail)[..5] == head[..5]; }
  }

  /** Of lines that do not begin `From ` and are ended by an LF, one of them in two parts. */
  lemma {:induction false} PartsPlain(lines: seq<Piece>, k: nat, head: Piece, tail: Piece)
    requires forall i :: 0 <= i < |lines| ==> !StartsFrom(lines[i]) && EndsInLF(lines[i])
    requires PartsOf(lines, k, head, tail) && !StartsFrom(tail)
    ensures var parts := InParts(lines, k, head, tail);
            (forall i :: 0 <= i < |parts| ==> !StartsFrom(parts[i])) && parts != [] && EndsInLF(parts[|parts| - 1])
  {
    var first, others := lines[0], lines[1..];
    forall i | 0 <= i < |others| ensures !StartsFrom(others[i]) && EndsInLF(others[i]) { assert others[i] == lines[i + 1]; }
    if k == 0 {
      PartNotFrom(head, tail);
      assert tail[|tail| - 1] == (head + tail)[|head + tail| - 1];
    } else {
      PartsPlain(others, k - 1, head, tail);
    }
  }

  lemma {:induction false} QuotedParts(body: seq<Piece>, k: nat, head: Piece, tail: Piece)
    requires (forall line :: line in body ==> Terminated(line)) && PartsOf(QuoteAll(body), k, head, tail) && !StartsFrom(tail)
    ensures var parts := InParts(QuoteAll(body), k, head, tail);
            (forall i :: 0 <= i < |parts| ==> !StartsFrom(parts[i])) && parts != [] && EndsInLF(parts[|parts| - 1])
            && EndsInLF(Flatten(UnquoteAll(parts)))
  {
    var quoted := QuoteAll(body);
    QuoteAllUndone(body);
    QuotedTerminated(body);
    forall i | 0 <= i < |quoted| ensures EndsInLF(quoted[i]) { assert quoted[i] in quoted; }
    PartsPlain(quoted, k, head, tail);
    EndsUnquoted(InParts(quoted, k, head, tail));
  }

  /** A body written with one line in two parts is scanned to the body exactly when the parts are unquoted to the line. */
  lemma {:induction false} CutInBody(body: seq<Piece>, k: nat, head: Piece, tail: Piece, rest: seq<Piece>, envelope: Envelope,
                                     raw: seq<Byte>)
    requires (forall line :: line in body ==> Terminated(line)) && Next(rest)
    requires PartsOf(QuoteAll(body), k, head, tail) && !StartsFrom(tail)
    ensures var r := Scanned((InParts(QuoteAll(body), k, head, tail) + [NEWLINE]) + rest, envelope, raw, true);
            && r.rest == rest && r.lie && r.item.Message? && r.item.envelope == envelope && raw <= r.item.raw
            && (r.item.raw == raw + Flatten(body) <==> PartsUnquote(head, tail))
  {
    var quoted := QuoteAll(body);
    var parts := InParts(quoted, k, head, tail);
    QuotedParts(body, k, head, tail);
    QuoteAllUndone(body);
    ScannedBack(parts, rest, envelope, raw, true);
    PartsSame(quoted, k, head, tail);
    SameAfter(raw, Flatten(UnquoteAll(parts)), Flatten(body));
  }

  // ---------- one that cut the next envelope line

  lemma {:induction false} StripLeaves(raw: seq<Byte>)
    ensures |StripSeparator(raw)| >= |raw| - 2
  {
  }

  lemma {:induction false} UnquoteLeaves(line: Piece)
    ensures |Unquote(line)| >= |line| - 1
    ensures line != [] && line[0] != GT ==> Unquote(line) == line
  {
  }

  /** A scan that goes past an envelope line in two parts has too much. */
  lemma {:induction false} ScannedPast(front: seq<Piece>, head: Piece, tail: Piece, after: seq<Piece>, envelope: Envelope,
                                       raw: seq<Byte>)
    requires (forall i :: 0 <= i < |front| ==> !IsEnvelope(front[i])) && StartsFrom(head + tail) && head != [] && tail != []
    requires !IsEnvelope(head) && !StartsFrom(tail)
    ensures var r := Scanned(front + ([head] + ([tail] + after)), envelope, raw, true);
            r.item.Message? && r.item.envelope == envelope && |r.item.raw| > |raw| + |Flatten(UnquoteAll(front))|
  {
    var parts := [head, tail];
    assert [head] + ([tail] + after) == parts + after;
    assert (head + tail)[..5][0] == head[0] == 70;
    UnquoteLeaves(head);
    UnquoteLeaves(tail);
    FlattenTwo(head, tail);
    assert UnquoteAll(front + parts) == UnquoteAll(front) + UnquoteAll(parts);
    FlattenConcat(UnquoteAll(front), UnquoteAll(parts));
    Reassociate(front, parts, after);
    forall i | 0 <= i < |front + parts| ensures !IsEnvelope((front + parts)[i]) {
      if i >= |front| { assert (front + parts)[i] == parts[i - |front|]; }
    }
    ScanOver(front + parts, after, true);
    StripLeaves(raw + ScanBody(front + (parts + after), true));
  }

  // ---------- every message that says a length

  /** What a length that is believed does: it is accepted; or it is rejected, and cuts no line, or a line of the message's
      own body, or line `j` of what comes next, in two. */
  datatype Outcome = Accepted | CutsNone | CutsOwn(head: Piece, tail: Piece) | CutsNext(j: nat, head: Piece, tail: Piece)

  function OutcomeOf(lines: seq<Piece>, rest: seq<Piece>, n: nat): Outcome {
    var pieces := Front(lines) + rest;
    var k, front := CutAt(pieces, n), |Front(lines)|;
    if Fits(pieces, n) then Accepted
    else if CutsClean(pieces, n) then CutsNone
    else if k < |BodyOf(lines)| then CutsOwn(CutHead(pieces, n), CutTail(pieces, n))
    else CutsNext(if k >= front then k - front else 0, CutHead(pieces, n), CutTail(pieces, n))
  }

  /** Whether the message comes back. Where its length is accepted, it must be true and nothing quoted. Where it is rejected,
      having cut no line, it does; having cut one of its body, if the parts are unquoted to that line; having cut the next
      envelope line, if the first part is one still; and having cut a later line, always. */
  predicate ComesBackAfter(lines: seq<Piece>, n: nat, outcome: Outcome) {
    match outcome
    case Accepted => True(lines, n)
    case CutsNone => true
    case CutsOwn(head, tail) => PartsUnquote(head, tail)
    case CutsNext(j, head, _) => j == 0 ==> IsEnvelope(head)
  }

  /** Whether a message of these lines, written before others, comes back, saying a length that is believed. */
  predicate ComesBack(lines: seq<Piece>, rest: seq<Piece>, n: nat) {
    ComesBackAfter(lines, n, OutcomeOf(lines, rest, n))
  }

  ghost predicate LinesThenNext(lines: seq<Piece>, rest: seq<Piece>) {
    (forall line :: line in lines ==> Terminated(line)) && Next(rest)
  }

  /** The written lines after a message's headers are lines, and end the ones before. */
  ghost predicate WrittenFirst(lines: seq<Piece>, rest: seq<Piece>) {
    LinesThenNext(lines, rest) && WellSplit(Front(lines) + rest) && NoneEmpty(Front(lines) + rest)
  }

  lemma {:induction false} AcceptedExactly(lines: seq<Piece>, rest: seq<Piece>, n: nat)
    requires WrittenFirst(lines, rest) && lines != [] && Fits(Front(lines) + rest, n)
    ensures Flatten(WrittenHeaders(lines)) + TakeBody(Front(lines) + rest, n).body == ReadBackOf(lines) <==> True(lines, n)
  {
    var raw := Flatten(WrittenHeaders(lines));
    if HasBlank(lines) {
      HeadersAndBody(lines);
      var body := BodyOf(lines);
      forall i | 0 <= i < |body| ensures body[i] != [] { assert body[i] in body; }
      AcceptedBody(body, rest, n);
      SameAfter(raw, TakeBody(Front(lines) + rest, n).body, Flatten(body));
    } else {
      NoBlankIs(lines, rest);
      assert |raw + TakeBody(Front(lines) + rest, n).body| > |ReadBackOf(lines)|;
    }
  }

  /** What is read of a message is what was written of it, or begins with its headers as they were written, or is longer. */
  predicate Explained(raw: seq<Byte>, lines: seq<Piece>) {
    raw == ReadBackOf(lines) || Flatten(WrittenHeaders(lines)) <= raw || |raw| > |ReadBackOf(lines)|
  }

  predicate ReadsOf(r: Reading, lines: seq<Piece>, envelope: Envelope) {
    r.item.Message? && r.item.envelope == envelope && Explained(r.item.raw, lines)
  }

  /** What lines should come back as: as they were, or with those of the header section as they were quoted. */
  function Kept(lines: seq<Piece>, exact: bool): seq<Byte> {
    if exact then Flatten(lines) else Flatten(QuoteAll(HeaderOf(lines))) + Flatten(BodyOf(lines))
  }

  /** And if there are none, as a single newline. */
  function Back(lines: seq<Piece>, exact: bool): seq<Byte> {
    if lines == [] then [LF] else Kept(lines, exact)
  }

  /** To come back as they were is to come back as they were written, no header line being one that is quoted. */
  lemma {:induction false} ExplainedExactly(raw: seq<Byte>, lines: seq<Piece>, exact: bool)
    requires Explained(raw, lines) && NoneEmpty(lines)
    ensures raw == Back(lines, exact) <==> raw == ReadBackOf(lines) && (exact ==> NoneQuoted(HeaderOf(lines)))
  {
    var headers := HeaderOf(lines);
    if exact && lines != [] {
      assert Flatten(lines) == lines[0] + Flatten(lines[1..]);
      ReadBackOfIs(lines, Flatten(lines));
      HeaderThenBody(lines);
      FlattenConcat(headers, BodyOf(lines));
      QuotingLengthens(headers);
      if Flatten(WrittenHeaders(lines)) <= raw && raw == Flatten(lines) { HeadersShow(lines, raw); }
    } else if lines == [] {
      assert headers == [];
    }
  }

  /** Lines that begin with their headers as they were written have none that is quoted. */
  lemma {:induction false} HeadersShow(lines: seq<Piece>, raw: seq<Byte>)
    requires Flatten(WrittenHeaders(lines)) <= raw && raw == Flatten(HeaderOf(lines)) + Flatten(BodyOf(lines))
    ensures NoneQuoted(HeaderOf(lines))
  {
    var headers := HeaderOf(lines);
    FlattenConcat(QuoteAll(headers), if HasBlank(lines) then [] else [NEWLINE]);
    var quoted := Flatten(QuoteAll(headers));
    assert raw == quoted + raw[|quoted|..];
    BeginsQuoted(headers, raw[|quoted|..]);
    QuotingLengthens(headers);
  }

  /** The second part of a cut line does not begin a message: the length would have fit. */
  lemma {:induction false} TailIsNotFrom(pieces: seq<Piece>, k: nat, tail: Piece)
    requires k < |pieces| && !AtBoundary(AfterCut(pieces, k, tail))
    ensures !StartsFrom(tail)
  {
    AfterCutFirst(pieces, k, tail);
    if StartsFrom(tail) { AtEnvelope(AfterCut(pieces, k, tail)); }
  }

  lemma {:induction false} AfterCutFirst(pieces: seq<Piece>, k: nat, tail: Piece)
    requires k < |pieces|
    ensures AfterCut(pieces, k, tail) != [] && AfterCut(pieces, k, tail)[0] == tail
  {
    if k > 0 { AfterCutFirst(pieces[1..], k - 1, tail); }
  }

  /** A line of what comes next is cut, and the length would have fit had what is left of it begun a message. */
  predicate Cuts(rest: seq<Piece>, j: nat, head: Piece, tail: Piece) {
    PartsOf(rest, j, head, tail) && !AtBoundary(AfterCut(rest, j, tail))
  }

  /** What is left after a message that came back: what comes next, with a blank line or a line in two parts. */
  predicate Leaves(left: seq<Piece>, rest: seq<Piece>, outcome: Outcome) {
    match outcome
    case Accepted => left == [NEWLINE] + rest
    case CutsNone => left == rest
    case CutsOwn(_, _) => left == rest
    case CutsNext(j, head, tail) => j < |rest| && left == InParts(rest, j, head, tail)
  }

  /** What a reading of a message comes to that says the length `n`. */
  predicate LengthComes(r: Reading, lines: seq<Piece>, rest: seq<Piece>, envelope: Envelope, n: nat, outcome: Outcome) {
    && ReadsOf(r, lines, envelope) && r.lie == !outcome.Accepted?
    && (r.item.raw == ReadBackOf(lines) <==> ComesBackAfter(lines, n, outcome))
    && (r.item.raw == ReadBackOf(lines) ==> Leaves(r.rest, rest, outcome))
    && (outcome.CutsNext? ==> Cuts(rest, outcome.j, outcome.head, outcome.tail))
  }

  lemma {:induction false} BodyBeforeFront(lines: seq<Piece>)
    ensures BodyOf(lines) != [] ==> HasBlank(lines)
    ensures |Front(lines)| == if HasBlank(lines) then |BodyOf(lines)| + 1 else 0
  {
    HeaderThenBody(lines);
  }

  lemma NewlineIsWhole(lines: seq<Piece>, rest: seq<Piece>, k: nat)
    requires |BodyOf(lines)| <= k < |Front(lines) + rest|
    ensures |(Front(lines) + rest)[k]| == 1 || |Front(lines)| <= k
  {
    if k < |Front(lines)| { assert Front(lines)[k] == NEWLINE; }
  }

  /** A line of the body in two parts. */
  lemma {:induction false} OwnReads(lines: seq<Piece>, rest: seq<Piece>, envelope: Envelope, k: nat, head: Piece, tail: Piece, n: nat)
    requires LinesThenNext(lines, rest) && HasBlank(lines)
    requires PartsOf(QuoteAll(BodyOf(lines)), k, head, tail) && !StartsFrom(tail)
    ensures var parts := InParts(QuoteAll(BodyOf(lines)), k, head, tail);
            LengthComes(Scanned((parts + [NEWLINE]) + rest, envelope, Flatten(WrittenHeaders(lines)), true),
                        lines, rest, envelope, n, CutsOwn(head, tail))
  {
    HeadersAndBody(lines);
    CutInBody(BodyOf(lines), k, head, tail, rest, envelope, Flatten(WrittenHeaders(lines)));
  }

  /** Line `j` of what comes next in two parts. */
  lemma {:induction false} LaterReads(lines: seq<Piece>, rest: seq<Piece>, envelope: Envelope, j: nat, head: Piece, tail: Piece, n: nat)
    requires LinesThenNext(lines, rest) && Cuts(rest, j, head, tail)
    ensures LengthComes(Scanned(Front(lines) + InParts(rest, j, head, tail), envelope, Flatten(WrittenHeaders(lines)), true),
                        lines, rest, envelope, n, CutsNext(j, head, tail))
  {
    TailIsNotFrom(rest, j, tail);
    if j > 0 || IsEnvelope(head) {
      assert InParts(rest, j, head, tail)[0] == if j > 0 then rest[0] else head;
      ScannedFront(lines, InParts(rest, j, head, tail), envelope, true);
    } else {
      FrontIsBody(lines);
      ScannedPast(Front(lines), head, tail, rest[1..], envelope, Flatten(WrittenHeaders(lines)));
    }
  }

  /** No line of a message after its headers is an envelope, and what it is read back as is no more than it and its
      headers. */
  lemma {:induction false} FrontIsBody(lines: seq<Piece>)
    requires forall line :: line in lines ==> Terminated(line)
    ensures forall i :: 0 <= i < |Front(lines)| ==> !IsEnvelope(Front(lines)[i])
    ensures |ReadBackOf(lines)| <= |Flatten(WrittenHeaders(lines))| + |Flatten(UnquoteAll(Front(lines)))|
  {
    if HasBlank(lines) {
      HeadersAndBody(lines);
      QuoteAllUndone(BodyOf(lines));
      NewlineIsBlank();
      UnquoteWithNewline(QuoteAll(BodyOf(lines)));
    } else {
      NoBlankIs(lines, []);
    }
  }

  /** What comes back of a message's body saying a length that is believed, and what is left then. */
  lemma {:induction false} BodyExactly(lines: seq<Piece>, rest: seq<Piece>, envelope: Envelope, length: Option<nat>)
    requires WrittenFirst(lines, rest) && lines != [] && Believed(length, false)
    ensures LengthComes(AfterHeaders(lines, rest, envelope, length), lines, rest, envelope, length.value,
                        OutcomeOf(lines, rest, length.value))
  {
    var pieces, n := Front(lines) + rest, length.value;
    if Fits(pieces, n) {
      AcceptedReads(lines, rest, envelope, length);
    } else if CutsClean(pieces, n) {
      CleanReads(lines, rest, envelope, length);
    } else {
      CutReads(lines, rest, envelope, length);
    }
  }

  /** What is read of a body, with its headers. */
  function AfterHeaders(lines: seq<Piece>, rest: seq<Piece>, envelope: Envelope, length: Option<nat>): Reading {
    ParseBody(Front(lines) + rest, envelope, Flatten(WrittenHeaders(lines)), length, false)
  }

  lemma {:induction false} AcceptedReads(lines: seq<Piece>, rest: seq<Piece>, envelope: Envelope, length: Option<nat>)
    requires WrittenFirst(lines, rest) && lines != [] && Believed(length, false) && Fits(Front(lines) + rest, length.value)
    ensures LengthComes(AfterHeaders(lines, rest, envelope, length), lines, rest, envelope, length.value, Accepted)
  {
    AcceptedExactly(lines, rest, length.value);
    if True(lines, length.value) { TrueLeaves(lines, rest); }
  }

  lemma {:induction false} CleanReads(lines: seq<Piece>, rest: seq<Piece>, envelope: Envelope, length: Option<nat>)
    requires WrittenFirst(lines, rest) && Believed(length, false) && !Fits(Front(lines) + rest, length.value)
    requires CutsClean(Front(lines) + rest, length.value)
    ensures LengthComes(AfterHeaders(lines, rest, envelope, length), lines, rest, envelope, length.value, CutsNone)
  {
    RejectedReadsTheSame(Front(lines) + rest, envelope, Flatten(WrittenHeaders(lines)), length);
    ScannedFront(lines, rest, envelope, true);
  }

  lemma {:induction false} RejectedIs(pieces: seq<Piece>, envelope: Envelope, raw: seq<Byte>, length: Option<nat>)
    requires Believed(length, false) && !Fits(pieces, length.value)
    ensures Alike(ParseBody(pieces, envelope, raw, length, false), Scanned(PutBack(pieces, length.value), envelope, raw, true))
  {
  }

  lemma ComesAlike(a: Reading, b: Reading, lines: seq<Piece>, rest: seq<Piece>, envelope: Envelope, n: nat, outcome: Outcome)
    requires Alike(a, b) && LengthComes(b, lines, rest, envelope, n, outcome)
    ensures LengthComes(a, lines, rest, envelope, n, outcome)
  {
  }

  /** A length that is rejected and cut a line. */
  lemma {:induction false} CutReads(lines: seq<Piece>, rest: seq<Piece>, envelope: Envelope, length: Option<nat>)
    requires WrittenFirst(lines, rest) && Believed(length, false) && !Fits(Front(lines) + rest, length.value)
    requires !CutsClean(Front(lines) + rest, length.value)
    ensures LengthComes(AfterHeaders(lines, rest, envelope, length), lines, rest, envelope, length.value,
                        OutcomeOf(lines, rest, length.value))
  {
    var pieces, n, raw := Front(lines) + rest, length.value, Flatten(WrittenHeaders(lines));
    CutScanned(lines, rest, envelope, n);
    RejectedIs(pieces, envelope, raw, length);
    ComesAlike(ParseBody(pieces, envelope, raw, length, false), Scanned(PutBack(pieces, n), envelope, raw, true),
               lines, rest, envelope, n, OutcomeOf(lines, rest, n));
  }

  lemma {:induction false} CutScanned(lines: seq<Piece>, rest: seq<Piece>, envelope: Envelope, n: nat)
    requires WrittenFirst(lines, rest) && !Fits(Front(lines) + rest, n) && !CutsClean(Front(lines) + rest, n)
    ensures LengthComes(Scanned(PutBack(Front(lines) + rest, n), envelope, Flatten(WrittenHeaders(lines)), true),
                        lines, rest, envelope, n, OutcomeOf(lines, rest, n))
  {
    OutcomeIs(lines, rest, n);
    ReadsAfterCut(lines, rest, envelope, CutAt(Front(lines) + rest, n), n, PutBack(Front(lines) + rest, n), OutcomeOf(lines, rest, n));
  }

  /** What is put back after a length that cuts a line. */
  predicate Puts(put: seq<Piece>, lines: seq<Piece>, rest: seq<Piece>, k: nat, outcome: Outcome) {
    match outcome
    case CutsOwn(head, tail) =>
      var quoted := QuoteAll(BodyOf(lines));
      && HasBlank(lines) && PartsOf(quoted, k, head, tail) && !StartsFrom(tail)
      && put == (InParts(quoted, k, head, tail) + [NEWLINE]) + rest
    case CutsNext(j, head, tail) => Cuts(rest, j, head, tail) && put == Front(lines) + InParts(rest, j, head, tail)
    case _ => false
  }

  lemma {:induction false} ReadsAfterCut(lines: seq<Piece>, rest: seq<Piece>, envelope: Envelope, k: nat, n: nat, put: seq<Piece>,
                                         outcome: Outcome)
    requires LinesThenNext(lines, rest) && Puts(put, lines, rest, k, outcome)
    ensures LengthComes(Scanned(put, envelope, Flatten(WrittenHeaders(lines)), true), lines, rest, envelope, n, outcome)
  {
    match outcome
    case CutsOwn(head, tail) => OwnReads(lines, rest, envelope, k, head, tail, n);
    case CutsNext(j, head, tail) => LaterReads(lines, rest, envelope, j, head, tail, n);
  }

  /** It is one of the body, or one of what comes next. */
  lemma {:induction false} OutcomeIs(lines: seq<Piece>, rest: seq<Piece>, n: nat)
    requires WrittenFirst(lines, rest) && !Fits(Front(lines) + rest, n) && !CutsClean(Front(lines) + rest, n)
    ensures var pieces := Front(lines) + rest;
            Puts(PutBack(pieces, n), lines, rest, CutAt(pieces, n), OutcomeOf(lines, rest, n))
  {
    var pieces := Front(lines) + rest;
    var k, head, tail := CutAt(pieces, n), CutHead(pieces, n), CutTail(pieces, n);
    CutIs(pieces, n);
    if k < |BodyOf(lines)| {
      BodyBeforeFront(lines);
      OwnPlace(BodyOf(lines), rest, k, head, tail);
    } else {
      LaterPlace(lines, rest, k, head, tail);
    }
  }

  /** A cut in the body, */
  lemma {:induction false} OwnPlace(body: seq<Piece>, rest: seq<Piece>, k: nat, head: Piece, tail: Piece)
    requires k < |body| && Cuts((QuoteAll(body) + [NEWLINE]) + rest, k, head, tail)
    ensures var quoted, pieces := QuoteAll(body), (QuoteAll(body) + [NEWLINE]) + rest;
            && PartsOf(quoted, k, head, tail) && !StartsFrom(tail)
            && InParts(pieces, k, head, tail) == (InParts(quoted, k, head, tail) + [NEWLINE]) + rest
  {
    InPartsBefore(QuoteAll(body) + [NEWLINE], rest, k, head, tail);
    InPartsBefore(QuoteAll(body), [NEWLINE], k, head, tail);
    TailIsNotFrom((QuoteAll(body) + [NEWLINE]) + rest, k, tail);
  }

  /** and after it. */
  lemma {:induction false} LaterPlace(lines: seq<Piece>, rest: seq<Piece>, k: nat, head: Piece, tail: Piece)
    requires k >= |BodyOf(lines)| && Cuts(Front(lines) + rest, k, head, tail)
    ensures k >= |Front(lines)| && Cuts(rest, k - |Front(lines)|, head, tail)
    ensures InParts(Front(lines) + rest, k, head, tail) == Front(lines) + InParts(rest, k - |Front(lines)|, head, tail)
  {
    BodyBeforeFront(lines);
    NewlineIsWhole(lines, rest, k);
    InPartsAfter(Front(lines), rest, k, head, tail);
  }

  lemma {:induction false} TrueLeaves(lines: seq<Piece>, rest: seq<Piece>)
    requires WrittenFirst(lines, rest) && True(lines, Size(BodyOf(lines)))
    ensures TakeBody(Front(lines) + rest, Size(BodyOf(lines))).rest == [NEWLINE] + rest
    ensures Fits(Front(lines) + rest, Size(BodyOf(lines)))
  {
    HeadersAndBody(lines);
    var body := BodyOf(lines);
    forall i | 0 <= i < |body| ensures body[i] != [] { assert body[i] in body; }
    TrueFits(body, rest);
  }

  /** What is written of a message and what comes after is lines as they are read. */
  lemma {:induction false} WrittenSplits(mail: Mail, after: seq<Byte>)
    requires Next(Lines(after))
    ensures WrittenFirst(LinesOf(mail), Lines(after))
  {
    var lines := LinesOf(mail);
    AllTerminated(Unix(mail.raw));
    if HasBlank(lines) {
      HeadersAndBody(lines);
      QuotedTerminated(BodyOf(lines));
      NewlineTerminated();
    }
    WellSplitBefore(Front(lines), after);
  }

  lemma {:induction false} WellSplitBefore(lines: seq<Piece>, after: seq<Byte>)
    requires forall line :: line in lines ==> Terminated(line)
    ensures WellSplit(lines + Lines(after)) && NoneEmpty(lines + Lines(after))
  {
    TerminatedBefore(lines, after);
    var pieces := lines + Lines(after);
    WellSplitLines(pieces);
    forall i | 0 <= i < |pieces| ensures pieces[i] != [] { assert pieces[i] in pieces; }
  }

  lemma {:induction false} TerminatedBefore(lines: seq<Piece>, after: seq<Byte>)
    requires forall line :: line in lines ==> Terminated(line)
    ensures WellSplit(lines + Lines(after))
  {
    if lines == [] {
      LinesWellSplit(after);
      assert lines + Lines(after) == Lines(after);
    } else {
      assert lines[0] in lines;
      TerminatedBefore(lines[1..], after);
      assert lines + Lines(after) == [lines[0]] + (lines[1..] + Lines(after));
      WellSplitFirst(lines[0], lines[1..] + Lines(after));
    }
  }

  /** The length a message says, quoted as it is written. */
  function LengthOf(mail: Mail): Option<nat> {
    LengthSaid(WrittenHeaders(LinesOf(mail)), None)
  }

  lemma {:induction false} EmptySaysNothing(mail: Mail)
    requires LengthOf(mail).Some?
    ensures LinesOf(mail) != []
  {
    NothingSaid([]);
  }

  lemma {:induction false} NothingSaid(lines: seq<Piece>)
    requires lines == []
    ensures LengthSaid(WrittenHeaders(lines), None).None?
  {
    NewlineIsBlank();
    WrittenNothing();
    assert [NEWLINE][1..] == [];
  }

  /** Of every message that says a length that is believed, whatever is written after it: it is read back exactly when
      `ComesBack` says so. */
  lemma {:induction false} LengthExactly(mail: Mail, after: seq<Byte>)
    requires IsDate(mail.date) && Next(Lines(after)) && Believed(LengthOf(mail), false)
    ensures Parse(WrittenLines(mail) + Lines(after), false).item == Expected(mail) <==>
              ComesBack(LinesOf(mail), Lines(after), LengthOf(mail).value)
  {
    EmptySaysNothing(mail);
    WrittenSplits(mail, after);
    ReadByBody(mail, Lines(after), false);
    BodyExactly(LinesOf(mail), Lines(after), EnvelopeOf(mail), LengthOf(mail));
  }
}
