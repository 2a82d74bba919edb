/** What the lines of an mbox say, in terms of their text: the length, the end of a line, an envelope, a sender
    (crates/mail-archive/src/mbox.rs). */
module MboxFields {
  import opened Options
  import opened Bytes
  import opened MboxFormat
  import opened MboxSplit
  import opened MboxWritten

  // ---------- UTF-8

  /** The code point that bytes begin with, and how many bytes it takes, by their first (section 3 of RFC 3629). */
  function FirstCode(bytes: seq<Byte>): (int, nat)
    requires bytes != []
  {
    var first: int := bytes[0];
    if first < 0x80 then (first, 1)
    else if first < 0xE0 then ((first - 0xC0) * 64 + More(bytes, 1), 2)
    else if first < 0xF0 then ((first - 0xE0) * 4096 + More(bytes, 1) * 64 + More(bytes, 2), 3)
    else ((first - 0xF0) * 262144 + More(bytes, 1) * 4096 + More(bytes, 2) * 64 + More(bytes, 3), 4)
  }

  /** What a byte after the first adds. */
  function More(bytes: seq<Byte>, i: nat): int {
    if i < |bytes| then bytes[i] as int - 0x80 else 0
  }

  /** A character is read back from what it is encoded as, whatever comes after it. */
  lemma Utf8Decodes(c: char, rest: seq<Byte>)
    ensures FirstCode(Utf8(c) + rest) == (c as int, |Utf8(c)|)
  {
    var n := c as int;
    if n >= 0x10000 {
      FourParts(n);
    } else if n >= 0x800 {
      assert n / 64 == n / 4096 * 64 + n / 64 % 64;
    }
  }

  lemma FourParts(n: int)
    requires 0x10000 <= n < 0x110000
    ensures n == n / 262144 * 262144 + n / 4096 % 64 * 4096 + n / 64 % 64 * 64 + n % 64
  {
    assert n == n / 64 * 64 + n % 64;
    assert n / 64 == n / 4096 * 64 + n / 64 % 64;
    assert n / 4096 == n / 262144 * 64 + n / 4096 % 64;
  }

  /** Different texts are encoded differently. */
  lemma {:induction false} EncodeInjective(a: string, b: string)
    requires Encode(a) == Encode(b)
    ensures a == b
  {
    if a != "" && b != "" {
      Utf8Decodes(a[0], Encode(a[1..]));
      Utf8Decodes(b[0], Encode(b[1..]));
      assert a[0] == b[0];
      assert Encode(a)[|Utf8(a[0])|..] == Encode(a[1..]) && Encode(b)[|Utf8(b[0])|..] == Encode(b[1..]);
      EncodeInjective(a[1..], b[1..]);
      assert a == [a[0]] + a[1..] && b == [b[0]] + b[1..];
    }
  }

  lemma {:induction false} EncodeConcat(a: string, b: string)
    ensures Encode(a + b) == Encode(a) + Encode(b)
  {
    if a == "" {
      assert a + b == b;
    } else {
      assert (a + b)[1..] == a[1..] + b;
      EncodeConcat(a[1..], b);
      Reassociate(Utf8(a[0]), Encode(a[1..]), Encode(b));
    }
  }

  // ---------- white space

  predicate AllWhite(text: string) {
    forall i :: 0 <= i < |text| ==> IsWhitespace(text[i])
  }

  /** The bytes of one white space character. */
  predicate IsWhite(bytes: seq<Byte>) {
    match |bytes|
    case 1 => 9 <= bytes[0] <= 13 || bytes[0] == SPACE
    case 2 => bytes[0] == 0xC2 && (bytes[1] == 0x85 || bytes[1] == 0xA0)
    case 3 => Space3(bytes[0], bytes[1], bytes[2])
    case _ => false
  }

  lemma WhiteEncoded(c: char)
    requires IsWhitespace(c)
    ensures IsWhite(Utf8(c))
  {
    var n := c as int;
    if n >= 0x2000 && n <= 0x200A { assert n / 64 % 64 == 0 && n % 64 == n - 0x2000; }
  }

  lemma WhiteSeen(bytes: seq<Byte>, rest: seq<Byte>)
    requires IsWhite(bytes)
    ensures SpaceAt(bytes + rest) == |bytes|
    ensures SpaceBefore(rest + bytes) == |bytes|
  {
    var after, before := bytes + rest, rest + bytes;
    assert forall i :: 0 <= i < |bytes| ==> after[i] == bytes[i] && before[|rest| + i] == bytes[i];
  }

  lemma WhiteAt(c: char, rest: seq<Byte>)
    requires IsWhitespace(c)
    ensures SpaceAt(Utf8(c) + rest) == |Utf8(c)|
    ensures SpaceBefore(rest + Utf8(c)) == |Utf8(c)|
  {
    WhiteEncoded(c);
    WhiteSeen(Utf8(c), rest);
  }

  /** What is taken for white space is the bytes of a character that is. */
  lemma SpaceIsWhite(bytes: seq<Byte>) returns (c: char)
    requires SpaceAt(bytes) > 0
    ensures IsWhitespace(c) && bytes[..SpaceAt(bytes)] == Utf8(c)
  {
    var n := SpaceAt(bytes);
    if n == 1 {
      c := bytes[0] as char;
    } else if n == 2 {
      c := bytes[1] as char;
    } else {
      assert Space3(bytes[0], bytes[1], bytes[2]);
      c := ((bytes[0] as int - 0xE0) * 4096 + (bytes[1] as int - 0x80) * 64 + (bytes[2] as int - 0x80)) as char;
    }
  }

  lemma SpaceBeforeIsWhite(bytes: seq<Byte>) returns (c: char)
    requires SpaceBefore(bytes) > 0
    ensures IsWhitespace(c) && bytes[|bytes| - SpaceBefore(bytes)..] == Utf8(c)
  {
    var n, k := SpaceBefore(bytes), |bytes|;
    if n == 1 {
      c := bytes[k - 1] as char;
    } else if n == 2 {
      c := bytes[k - 1] as char;
    } else {
      assert Space3(bytes[k - 3], bytes[k - 2], bytes[k - 1]);
      c := ((bytes[k - 3] as int - 0xE0) * 4096 + (bytes[k - 2] as int - 0x80) * 64 + (bytes[k - 1] as int - 0x80)) as char;
    }
  }

  lemma SpaceFirst(bytes: seq<Byte>) returns (c: char, rest: seq<Byte>)
    requires SpaceAt(bytes) > 0
    ensures IsWhitespace(c) && bytes == Utf8(c) + rest && |rest| < |bytes|
  {
    c := SpaceIsWhite(bytes);
    rest := bytes[SpaceAt(bytes)..];
    assert bytes == bytes[..SpaceAt(bytes)] + rest;
  }

  lemma SpaceLast(bytes: seq<Byte>) returns (front: seq<Byte>, c: char)
    requires SpaceBefore(bytes) > 0
    ensures IsWhitespace(c) && bytes == front + Utf8(c) && |front| < |bytes|
  {
    c := SpaceBeforeIsWhite(bytes);
    front := bytes[..|bytes| - SpaceBefore(bytes)];
    assert bytes == front + bytes[|bytes| - SpaceBefore(bytes)..];
  }

  lemma TrimStartStep(c: char, rest: seq<Byte>)
    requires IsWhitespace(c)
    ensures TrimStart(Utf8(c) + rest) == TrimStart(rest)
  {
    WhiteAt(c, rest);
    assert (Utf8(c) + rest)[|Utf8(c)|..] == rest;
    assert |Utf8(c)| <= 3;
  }

  /** Trimming takes white space off the front, all of it and no more. */
  lemma {:induction false} TrimStartIs(bytes: seq<Byte>) returns (white: string)
    ensures AllWhite(white) && bytes == Encode(white) + TrimStart(bytes) && SpaceAt(TrimStart(bytes)) == 0
    decreases |bytes|
  {
    if SpaceAt(bytes) == 0 {
      white := "";
      assert Encode("") + bytes == bytes;
    } else {
      var c, rest := SpaceFirst(bytes);
      var more := TrimStartIs(rest);
      TrimStartStep(c, rest);
      white := [c] + more;
      EncodeFirst(c, more);
      Reassociate(Utf8(c), Encode(more), TrimStart(rest));
    }
  }

  lemma EncodeFirst(c: char, more: string)
    ensures Encode([c] + more) == Utf8(c) + Encode(more)
  {
    assert ([c] + more)[1..] == more;
  }

  lemma {:induction false} TrimStartWhite(white: string, rest: seq<Byte>)
    requires AllWhite(white) && SpaceAt(rest) == 0
    ensures TrimStart(Encode(white) + rest) == rest
  {
    if white == "" {
      assert Encode(white) + rest == rest;
    } else {
      var c, more := white[0], Encode(white[1..]) + rest;
      Reassociate(Utf8(c), Encode(white[1..]), rest);
      TrimStartStep(c, more);
      TrimStartWhite(white[1..], rest);
    }
  }

  lemma EncodeLast(more: string, c: char)
    ensures Encode(more + [c]) == Encode(more) + Utf8(c)
  {
    EncodeConcat(more, [c]);
    EncodeFirst(c, "");
    assert [c] + "" == [c] && Utf8(c) + [] == Utf8(c);
  }

  lemma TrimEndStep(front: seq<Byte>, c: char)
    requires IsWhitespace(c)
    ensures TrimEnd(front + Utf8(c)) == TrimEnd(front)
  {
    WhiteAt(c, front);
    assert (front + Utf8(c))[..|front|] == front;
  }

  /** And off the end. */
  lemma {:induction false} TrimEndIs(bytes: seq<Byte>) returns (white: string)
    ensures AllWhite(white) && bytes == TrimEnd(bytes) + Encode(white) && SpaceBefore(TrimEnd(bytes)) == 0
    decreases |bytes|
  {
    if SpaceBefore(bytes) == 0 {
      white := "";
      assert bytes + Encode("") == bytes;
    } else {
      var front, c := SpaceLast(bytes);
      var more := TrimEndIs(front);
      TrimEndStep(front, c);
      white := more + [c];
      EncodeLast(more, c);
      Reassociate(TrimEnd(front), Encode(more), Utf8(c));
    }
  }

  lemma {:induction false} TrimEndWhite(white: string, rest: seq<Byte>)
    requires AllWhite(white) && SpaceBefore(rest) == 0
    ensures TrimEnd(rest + Encode(white)) == rest
    decreases |white|
  {
    if white == "" {
      assert rest + Encode(white) == rest;
    } else {
      var n := |white| - 1;
      var c, front := white[n], rest + Encode(white[..n]);
      assert white == white[..n] + [c];
      EncodeLast(white[..n], c);
      Reassociate(rest, Encode(white[..n]), Utf8(c));
      TrimEndStep(front, c);
      TrimEndWhite(white[..n], rest);
    }
  }

  // ---------- a number

  function TenTo(k: nat): nat {
    if k == 0 then 1 else 10 * TenTo(k - 1)
  }

  /** What digits are worth by their places. */
  function Worth(digits: seq<Byte>): int {
    if digits == [] then 0 else (digits[0] as int - 48) * TenTo(|digits| - 1) + Worth(digits[1..])
  }

  predicate AllDigits(digits: seq<Byte>) {
    forall i :: 0 <= i < |digits| ==> 48 <= digits[i] <= 57
  }

  lemma {:induction false} WorthMore(digits: seq<Byte>, d: Byte)
    ensures Worth(digits + [d]) == 10 * Worth(digits) + (d as int - 48)
  {
    if digits == [] {
      assert digits + [d] == [d] && [d][1..] == [];
    } else {
      assert (digits + [d])[1..] == digits[1..] + [d];
      WorthMore(digits[1..], d);
    }
  }

  /** Digits are read as what they are worth, and nothing else is read as a number. */
  lemma {:induction false} DigitsAreWorth(bytes: seq<Byte>)
    ensures Digits(bytes).Some? <==> AllDigits(bytes)
    ensures AllDigits(bytes) ==> Digits(bytes) == Some(Worth(bytes))
    decreases |bytes|
  {
    if bytes != [] {
      var k := |bytes| - 1;
      DigitsAreWorth(bytes[..k]);
      WorthMore(bytes[..k], bytes[k]);
      assert bytes == bytes[..k] + [bytes[k]];
      assert AllDigits(bytes) <==> AllDigits(bytes[..k]) && 48 <= bytes[k] <= 57;
    }
  }

  /** A text is a number: digits, perhaps with a `+` before them, worth `n`, which fits in 64 bits. */
  ghost predicate IsNumber(text: seq<Byte>, n: nat) {
    exists digits :: (text == digits || text == [43] + digits)
                     && digits != [] && AllDigits(digits) && Worth(digits) == n && n <= 0xFFFF_FFFF_FFFF_FFFF
  }

  lemma NumberIs(text: seq<Byte>, n: nat)
    ensures ParseSize(text) == Some(n) <==> IsNumber(text, n)
  {
    var digits := if text != [] && text[0] == 43 then text[1..] else text;
    DigitsAreWorth(digits);
    if text != [] && text[0] == 43 { assert text == [43] + digits; }
    if IsNumber(text, n) {
      var d :| (text == d || text == [43] + d) && d != [] && AllDigits(d) && Worth(d) == n && n <= 0xFFFF_FFFF_FFFF_FFFF;
      if text == [43] + d { assert text[1..] == d; }
      assert d == digits;
    }
  }

  // ---------- `Content-Length`

  const LENGTH: string := "content-length"

  /** A letter, or that letter as a capital. */
  predicate EitherCase(b: Byte, c: char) {
    b as int == c as int || ('a' <= c <= 'z' && b as int == c as int - 32)
  }

  predicate IsLengthName(name: seq<Byte>) {
    |name| == |LENGTH| && forall i :: 0 <= i < |name| ==> EitherCase(name[i], LENGTH[i])
  }

  /** A number with white space before and after it. */
  ghost predicate SaysNumber(value: seq<Byte>, n: nat) {
    exists before, text, after ::
      AllWhite(before) && AllWhite(after) && value == Encode(before) + (text + Encode(after)) && IsNumber(text, n)
  }

  lemma NumberHasNoSpace(text: seq<Byte>, n: nat, after: seq<Byte>)
    requires IsNumber(text, n)
    ensures text != [] && SpaceAt(text + after) == 0 && SpaceBefore(text) == 0
  {
    var digits :| (text == digits || text == [43] + digits) && digits != [] && AllDigits(digits) && Worth(digits) == n;
    assert (text + after)[0] == text[0];
    assert text[|text| - 1] == digits[|digits| - 1];
  }

  lemma TrimmedNumber(value: seq<Byte>, n: nat)
    ensures IsNumber(TrimEnd(TrimStart(value)), n) <==> SaysNumber(value, n)
  {
    if IsNumber(TrimEnd(TrimStart(value)), n) {
      var before := TrimStartIs(value);
      var after := TrimEndIs(TrimStart(value));
      assert value == Encode(before) + (TrimEnd(TrimStart(value)) + Encode(after));
    }
    if SaysNumber(value, n) {
      var before, text, after :| AllWhite(before) && AllWhite(after) && value == Encode(before) + (text + Encode(after)) && IsNumber(text, n);
      NumberHasNoSpace(text, n, Encode(after));
      TrimStartWhite(before, text + Encode(after));
      TrimEndWhite(after, text);
    }
  }

  lemma NameIs(name: seq<Byte>)
    ensures IsLengthName(name) <==> |name| == 14 && forall i :: 0 <= i < 14 ==> Lower(name[i]) == CONTENT_LENGTH[i]
  {
    assert |LENGTH| == 14;
    assert LENGTH[0] == 'c' && LENGTH[1] == 'o' && LENGTH[2] == 'n' && LENGTH[3] == 't' && LENGTH[4] == 'e' && LENGTH[5] == 'n'
           && LENGTH[6] == 't' && LENGTH[7] == '-' && LENGTH[8] == 'l' && LENGTH[9] == 'e' && LENGTH[10] == 'n' && LENGTH[11] == 'g'
           && LENGTH[12] == 't' && LENGTH[13] == 'h';
    if |name| == 14 {
      forall i | 0 <= i < 14 ensures EitherCase(name[i], LENGTH[i]) <==> Lower(name[i]) == CONTENT_LENGTH[i] {
        assert CONTENT_LENGTH[i] as int == LENGTH[i] as int;
      }
    }
  }

  /** A header line says a length exactly when its name is `Content-Length`, each letter in either case, and its value is a
      number, with white space around it or not; and then it says that number. */
  lemma ContentLengthExactly(line: seq<Byte>, name: seq<Byte>, value: seq<Byte>, n: nat)
    requires TrimEol(line) == name + ([COLON] + value) && COLON !in name
    ensures ContentLength(line) == Some(n) <==> IsLengthName(name) && SaysNumber(value, n)
  {
    LengthByName(line, name, value);
    NameIs(name);
    NumberIs(TrimEnd(TrimStart(value)), n);
    TrimmedNumber(value, n);
  }

  lemma LengthByName(line: seq<Byte>, name: seq<Byte>, value: seq<Byte>)
    requires TrimEol(line) == name + ([COLON] + value) && COLON !in name
    ensures ContentLength(line) ==
              if |name| == 14 && forall i :: 0 <= i < 14 ==> Lower(name[i]) == CONTENT_LENGTH[i]
              then ParseSize(TrimEnd(TrimStart(value))) else None
  {
    var bare := TrimEol(line);
    assert bare[..|name|] == name && bare[|name| + 1..] == value;
    PositionIs(bare, COLON, |name|);
    assert forall i :: 0 <= i < |name| ==> bare[i] == name[i];
  }

  /** One with no colon says none. */
  lemma NoColonSaysNothing(line: seq<Byte>)
    requires COLON !in TrimEol(line)
    ensures ContentLength(line).None?
  {
  }

  /** What each line says. */
  function Lengths(headers: seq<Piece>): seq<Option<nat>> {
    if headers == [] then [] else [ContentLength(headers[0])] + Lengths(headers[1..])
  }

  /** `last` is the last of these that is something, or `before` if none is. */
  ghost predicate IsLast(values: seq<Option<nat>>, before: Option<nat>, last: Option<nat>) {
    || (last == before && forall k :: 0 <= k < |values| ==> values[k].None?)
    || (exists i :: 0 <= i < |values| && values[i].Some? && last == values[i] && forall k :: i < k < |values| ==> values[k].None?)
  }

  /** The length the last of these lines says that says one, or `before` if none does. */
  ghost predicate IsLastLength(headers: seq<Piece>, before: Option<nat>, said: Option<nat>) {
    IsLast(Lengths(headers), before, said)
  }

  /** Of header lines, the length said is that of the last that says one. */
  lemma {:induction false} LengthSaidIsLast(headers: seq<Piece>, before: Option<nat>)
    ensures IsLastLength(headers, before, LengthSaid(headers, before))
  {
    if headers != [] {
      var first, rest := headers[0], headers[1..];
      assert headers == [first] + rest;
      LengthSaidIsLast(rest, Says(first, before));
      LastOfMore(first, rest, before, LengthSaid(headers, before));
    }
  }

  lemma LastOfMore(first: Piece, rest: seq<Piece>, before: Option<nat>, said: Option<nat>)
    requires IsLastLength(rest, Says(first, before), said)
    ensures IsLastLength([first] + rest, before, said)
  {
    LastIsLast(ContentLength(first), Lengths(rest), before, said);
    LengthsMore(first, rest);
  }

  lemma LengthsMore(first: Piece, rest: seq<Piece>)
    ensures Lengths([first] + rest) == [ContentLength(first)] + Lengths(rest)
  {
    assert ([first] + rest)[1..] == rest;
  }

  lemma LastIsLast(first: Option<nat>, rest: seq<Option<nat>>, before: Option<nat>, last: Option<nat>)
    requires IsLast(rest, if first.Some? then first else before, last)
    ensures IsLast([first] + rest, before, last)
  {
    var all := [first] + rest;
    assert all[0] == first && forall k :: 0 <= k < |rest| ==> rest[k] == all[k + 1];
    assert forall k :: 0 < k < |all| ==> all[k] == rest[k - 1];
  }

  // ---------- the end of a line

  /** A CRLF is no part of what a line says, nor is an LF, nor, of a line that has neither, is anything left off. */
  lemma LineEnds(text: seq<Byte>)
    ensures TrimEol(text + [CR, LF]) == text
    ensures (text == [] || text[|text| - 1] != CR) ==> TrimEol(text + [LF]) == text
    ensures (text == [] || (text[|text| - 1] != CR && text[|text| - 1] != LF)) ==> TrimEol(text) == text
  {
    var wire, unix := text + [CR, LF], text + [LF];
    assert wire[..|wire| - 1] == text + [CR] && (text + [CR])[..|text|] == text;
    assert unix[..|unix| - 1] == text;
  }

  /** So a line says the same, whichever ends it. */
  lemma EitherEnd(text: seq<Byte>)
    requires text == [] || text[|text| - 1] != CR
    ensures var wire, unix := text + [CR, LF], text + [LF];
            && (Blank(wire) <==> Blank(unix)) && ContentLength(wire) == ContentLength(unix)
            && (StartsFrom(wire) <==> StartsFrom(unix)) && (IsEnvelope(wire) <==> IsEnvelope(unix))
            && ParseEnvelope(TrimEol(wire)) == ParseEnvelope(TrimEol(unix))
  {
    LineEnds(text);
    var wire, unix := text + [CR, LF], text + [LF];
    FromBefore(text, [CR, LF]);
    FromBefore(text, [LF]);
  }

  /** A line begins `From ` for what comes before its end. */
  lemma FromBefore(text: seq<Byte>, ending: seq<Byte>)
    requires ending == [LF] || ending == [CR, LF]
    ensures StartsFrom(text + ending) <==> StartsFrom(text)
  {
    var line := text + ending;
    assert |text| >= 5 ==> line[..5] == text[..5];
    assert |text| < 5 && |line| >= 5 ==> line[..5][|text|] == line[|text|] == ending[0] && FROM[|text|] != ending[0];
  }

  // ---------- an envelope line

  /** A time of day stands somewhere in the text. */
  ghost predicate HasTime(text: seq<Byte>) {
    exists i: nat :: TimeAt(text, i)
  }

  predicate AllAsciiSpace(bytes: seq<Byte>) {
    forall i :: 0 <= i < |bytes| ==> AsciiSpace(bytes[i])
  }

  lemma {:induction false} TrimAsciiIs(bytes: seq<Byte>) returns (lead: seq<Byte>)
    ensures AllAsciiSpace(lead) && bytes == lead + TrimAsciiStart(bytes)
    ensures var rest := TrimAsciiStart(bytes); rest == [] || !AsciiSpace(rest[0])
  {
    if bytes != [] && AsciiSpace(bytes[0]) {
      var more := TrimAsciiIs(bytes[1..]);
      lead := [bytes[0]] + more;
      assert bytes == [bytes[0]] + bytes[1..];
      Reassociate([bytes[0]], more, TrimAsciiStart(bytes[1..]));
    } else {
      lead := [];
      assert [] + bytes == bytes;
    }
  }

  lemma {:induction false} TrimAsciiLead(lead: seq<Byte>, rest: seq<Byte>)
    requires AllAsciiSpace(lead) && (rest == [] || !AsciiSpace(rest[0]))
    ensures TrimAsciiStart(lead + rest) == rest
  {
    if lead == [] {
      assert lead + rest == rest;
    } else {
      assert (lead + rest)[1..] == lead[1..] + rest;
      TrimAsciiLead(lead[1..], rest);
    }
  }

  /** Of the text after `From `: white space or none, a sender, a space, and something with a time of day in it. */
  ghost predicate SaysEnvelope(text: seq<Byte>) {
    exists lead, sender, rest ::
      && text == lead + (sender + ([SPACE] + rest)) && AllAsciiSpace(lead)
      && sender != [] && !AsciiSpace(sender[0]) && SPACE !in sender && HasTime(rest)
  }

  lemma LooksExactly(line: seq<Byte>, text: seq<Byte>)
    requires line == FROM + text
    ensures LooksLikeEnvelope(line) <==> SaysEnvelope(text)
  {
    assert line[5..] == text;
    if LooksLikeEnvelope(line) { LooksSays(line, text); }
    if SaysEnvelope(text) {
      var lead, sender, rest :| && text == lead + (sender + ([SPACE] + rest)) && AllAsciiSpace(lead)
                                && sender != [] && !AsciiSpace(sender[0]) && SPACE !in sender && HasTime(rest);
      var tail := sender + ([SPACE] + rest);
      assert tail[0] == sender[0];
      TrimAsciiLead(lead, tail);
      SaidIsSeen(tail, sender, rest);
    }
  }

  lemma SaidIsSeen(tail: seq<Byte>, sender: seq<Byte>, rest: seq<Byte>)
    requires tail == sender + ([SPACE] + rest) && SPACE !in sender && HasTime(rest)
    ensures var space := Position(tail, SPACE); space < |tail| && exists i :: space <= i < |tail| && TimeAt(tail, i)
  {
    SpaceAfter(sender, rest);
    var i: nat :| TimeAt(rest, i);
    TimeLater([SPACE], rest, i);
    TimeLater(sender, [SPACE] + rest, i + 1);
    assert TimeAt(tail, |sender| + (i + 1));
  }

  lemma LooksSays(line: seq<Byte>, text: seq<Byte>)
    requires |line| >= 5 && line[5..] == text && LooksLikeEnvelope(line)
    ensures SaysEnvelope(text)
  {
    var lead := TrimAsciiIs(text);
    var tail := TrimAsciiStart(text);
    var space := Position(tail, SPACE);
    var i :| space <= i < |tail| && TimeAt(tail, i);
    var sender, rest := SenderBeforeTime(tail, space, i);
    assert text == lead + (sender + ([SPACE] + rest));
  }

  lemma SenderBeforeTime(tail: seq<Byte>, space: nat, i: nat) returns (sender: seq<Byte>, rest: seq<Byte>)
    requires space < |tail| && tail[space] == SPACE && SPACE !in tail[..space] && space <= i && TimeAt(tail, i) && !AsciiSpace(tail[0])
    ensures tail == sender + ([SPACE] + rest) && sender != [] && !AsciiSpace(sender[0]) && SPACE !in sender && HasTime(rest)
  {
    sender, rest := tail[..space], tail[space + 1..];
    var upto := tail[..space + 1];
    assert tail == upto + rest;
    assert i != space;
    TimeLater(upto, rest, i - |upto|);
    assert HasTime(rest);
  }

  lemma TimeLater(a: seq<Byte>, b: seq<Byte>, i: nat)
    ensures TimeAt(a + b, |a| + i) <==> TimeAt(b, i)
  {
    assert forall k :: 0 <= k < |b| ==> (a + b)[|a| + k] == b[k];
  }

  lemma TimeBefore(a: seq<Byte>, b: seq<Byte>)
    ensures HasTime(a) ==> HasTime(a + b)
    ensures HasTime(b) ==> HasTime(a + b)
  {
    if i: nat :| TimeAt(a, i) {
      assert TimeAt(a + b, i);
    }
    if i: nat :| TimeAt(b, i) {
      TimeLater(a, b, i);
    }
  }

  /** A line is an envelope exactly when it is `From `, a sender and a space after it, and a time of day after that. */
  lemma EnvelopeExactly(line: seq<Byte>, text: seq<Byte>)
    requires TrimEol(line) == FROM + text
    ensures IsEnvelope(line) <==> SaysEnvelope(text)
  {
    assert line[..5] == TrimEol(line)[..5] == FROM;
    LooksExactly(TrimEol(line), text);
  }

  lemma EnvelopeHasTime(line: seq<Byte>)
    requires IsEnvelope(line)
    ensures HasTime(line)
  {
    var bare := TrimEol(line);
    EnvelopeTextHasTime(bare);
    TrimEolIs(line);
    TimeBefore(bare, line[|bare|..]);
  }

  lemma TrimEolIs(line: seq<Byte>)
    ensures var bare := TrimEol(line); |bare| <= |line| && line == bare + line[|bare|..]
  {
  }

  lemma EnvelopeTextHasTime(bare: seq<Byte>)
    requires LooksLikeEnvelope(bare)
    ensures HasTime(bare)
  {
    LooksSays(bare, bare[5..]);
    SaidHasTime(bare[5..]);
    TimeBefore(bare[..5], bare[5..]);
    assert bare == bare[..5] + bare[5..];
  }

  lemma SaidHasTime(text: seq<Byte>)
    requires SaysEnvelope(text)
    ensures HasTime(text)
  {
    var lead, sender, rest :| && text == lead + (sender + ([SPACE] + rest)) && AllAsciiSpace(lead)
                              && sender != [] && !AsciiSpace(sender[0]) && SPACE !in sender && HasTime(rest);
    TimeBefore([SPACE], rest);
    TimeBefore(sender, [SPACE] + rest);
    TimeBefore(lead, sender + ([SPACE] + rest));
  }

  /** Prose is body: lines of which none that begins `From ` has a time of day in it are all taken, whatever blank lines are
      among them. */
  lemma ProseIsBody(pieces: seq<Piece>, afterBlank: bool)
    requires forall i :: 0 <= i < |pieces| && StartsFrom(pieces[i]) ==> !HasTime(pieces[i])
    ensures ScanBody(pieces, afterBlank) == Flatten(UnquoteAll(pieces)) && ScanRest(pieces, afterBlank) == []
  {
    forall i | 0 <= i < |pieces| ensures !IsEnvelope(pieces[i]) {
      if IsEnvelope(pieces[i]) { EnvelopeHasTime(pieces[i]); }
    }
    ScanOver(pieces, [], afterBlank);
    assert pieces + [] == pieces && Flatten(UnquoteAll(pieces)) + [] == Flatten(UnquoteAll(pieces));
  }

  // ---------- a sender

  lemma {:induction false} NoSpaceConcat(a: string, b: string)
    ensures NoSpace(a + b) == NoSpace(a) + NoSpace(b)
  {
    if a == "" {
      assert a + b == b;
    } else {
      assert (a + b)[1..] == a[1..] + b;
      NoSpaceConcat(a[1..], b);
    }
  }

  lemma {:induction false} NoSpaceIs(text: string)
    ensures NoneWhite(text) ==> NoSpace(text) == text
    ensures AllWhite(text) ==> NoSpace(text) == ""
  {
    if text != "" {
      NoSpaceIs(text[1..]);
      assert text == [text[0]] + text[1..];
    }
  }

  /** White space anywhere in a sender makes no difference to what is written; and one without any is written as it is, in UTF-8, or
      as `MAILER-DAEMON` if it is empty. */
  lemma SenderIs(a: string, white: string, b: string)
    requires AllWhite(white)
    ensures SenderWritten(a + (white + b)) == SenderWritten(a + b)
    ensures NoneWhite(a) ==> SenderWritten(a) == Encode(if a == "" then "MAILER-DAEMON" else a)
  {
    NoSpaceConcat(a, white + b);
    NoSpaceConcat(white, b);
    NoSpaceConcat(a, b);
    NoSpaceIs(white);
    assert "" + NoSpace(b) == NoSpace(b);
    NoSpaceIs(a);
    DaemonIs();
  }

  lemma DaemonIs()
    ensures Encode("MAILER-DAEMON") == MAILER_DAEMON
  {
    EncodeAscii("MAILER-DAEMON", MAILER_DAEMON);
  }

  lemma {:induction false} EncodeAscii(text: string, bytes: seq<Byte>)
    requires |text| == |bytes| && forall i :: 0 <= i < |text| ==> text[i] as int == bytes[i] as int < 0x80
    ensures Encode(text) == bytes
  {
    if text != "" {
      EncodeAscii(text[1..], bytes[1..]);
      assert bytes == [bytes[0]] + bytes[1..];
    }
  }

  /** Whatever is written on one line around a time of day, as every date formatted is, is a date. */
  lemma FormattedIsDate(day: seq<Byte>, time: seq<Byte>, year: seq<Byte>)
    requires LF !in day && CR !in day && LF !in year && CR !in year && |time| == 5 && TimeAt(time, 0)
    ensures IsDate(day + (time + year))
  {
    TimeBefore(time, year);
    TimeBefore(day, time + year);
  }

  // ---------- headers, boundaries and separators

  /** The header section read is `lines`, which say that length; `rest` is left; and only if it ended is its last line blank. */
  ghost predicate IsSection(lines: seq<Piece>, rest: seq<Piece>, before: Option<nat>, head: Head) {
    && head.raw == Flatten(lines) && head.rest == rest && IsLastLength(lines, before, head.length)
    && (forall i :: 0 <= i < |lines| - 1 ==> !Blank(lines[i]))
    && (if head.ended then lines != [] && Blank(lines[|lines| - 1]) else rest == [] && (lines != [] ==> !Blank(lines[|lines| - 1])))
  }

  /** The header section of any pieces is those up to and with the first blank one, all of them if none is; and the length it says
      is that of the last line of it that says one. */
  lemma {:induction false} HeadersAre(pieces: seq<Piece>, before: Option<nat>) returns (lines: seq<Piece>, rest: seq<Piece>)
    ensures pieces == lines + rest && IsSection(lines, rest, before, TakeHeaders(pieces, before))
  {
    if pieces == [] {
      lines, rest := [], [];
    } else if Blank(pieces[0]) {
      lines, rest := [pieces[0]], pieces[1..];
      FlattenOne(pieces[0]);
      OnlyLength(pieces[0], before);
    } else {
      var first := pieces[0];
      var more;
      more, rest := HeadersAre(pieces[1..], Says(first, before));
      lines := [first] + more;
      assert pieces == [first] + pieces[1..];
      Reassociate([first], more, rest);
      SectionMore(first, more, rest, before, TakeHeaders(pieces[1..], Says(first, before)));
    }
  }

  lemma SectionMore(first: Piece, lines: seq<Piece>, rest: seq<Piece>, before: Option<nat>, head: Head)
    requires !Blank(first) && IsSection(lines, rest, Says(first, before), head)
    ensures IsSection([first] + lines, rest, before, head.(raw := first + head.raw))
  {
    FlattenFirst(first, lines);
    LastOfMore(first, lines, before, head.length);
    BlanksMore(first, lines);
  }

  lemma BlanksMore(first: Piece, lines: seq<Piece>)
    requires !Blank(first) && forall i :: 0 <= i < |lines| - 1 ==> !Blank(lines[i])
    ensures var all := [first] + lines;
            && (forall i :: 0 <= i < |all| - 1 ==> !Blank(all[i]))
            && all[|all| - 1] == if lines == [] then first else lines[|lines| - 1]
  {
    var all := [first] + lines;
    assert forall i :: 0 < i < |all| ==> all[i] == lines[i - 1];
  }

  lemma OnlyLength(line: Piece, before: Option<nat>)
    ensures IsLastLength([line], before, Says(line, before))
  {
    LastOfMore(line, [], before, Says(line, before));
    assert [line] + [] == [line];
  }

  /** An envelope line that comes after a blank one; `afterBlank` is whether the first does. */
  predicate EndsBefore(pieces: seq<Piece>, afterBlank: bool, i: nat)
    requires i < |pieces|
  {
    IsEnvelope(pieces[i]) && if i == 0 then afterBlank else Blank(pieces[i - 1])
  }

  /** `lines` come before `rest`, which begins with the first envelope line after a blank one, or is nothing. */
  predicate IsScanned(lines: seq<Piece>, rest: seq<Piece>, afterBlank: bool) {
    && (forall i: nat :: i < |lines| ==> !EndsBefore(lines, afterBlank, i))
    && (rest != [] ==> EndsBefore(lines + rest, afterBlank, |lines|))
  }

  /** A body scanned is every line up to the first envelope line that comes after a blank one, unquoted: an envelope line in the
      midst of others is body. */
  lemma {:induction false} ScanIs(pieces: seq<Piece>, afterBlank: bool) returns (lines: seq<Piece>)
    ensures pieces == lines + ScanRest(pieces, afterBlank) && ScanBody(pieces, afterBlank) == Flatten(UnquoteAll(lines))
    ensures IsScanned(lines, ScanRest(pieces, afterBlank), afterBlank)
  {
    if pieces == [] || EndsBefore(pieces, afterBlank, 0) {
      lines := [];
      assert [] + pieces == pieces;
    } else {
      var first, others := pieces[0], pieces[1..];
      var more := ScanIs(others, Blank(first));
      var rest := ScanRest(others, Blank(first));
      lines := [first] + more;
      assert pieces == [first] + others;
      Reassociate([first], more, rest);
      UnquoteFirst(first, more);
      ScannedMore(first, more, rest, afterBlank);
    }
  }

  lemma UnquoteFirst(first: Piece, others: seq<Piece>)
    ensures Flatten(UnquoteAll([first] + others)) == Unquote(first) + Flatten(UnquoteAll(others))
  {
    assert UnquoteAll([first] + others) == [Unquote(first)] + UnquoteAll(others);
    FlattenFirst(Unquote(first), UnquoteAll(others));
  }

  lemma EndsLater(first: Piece, others: seq<Piece>, afterBlank: bool, i: nat)
    requires i < |others|
    ensures EndsBefore([first] + others, afterBlank, i + 1) <==> EndsBefore(others, Blank(first), i)
  {
    assert ([first] + others)[i + 1] == others[i] && ([first] + others)[i] == if i == 0 then first else others[i - 1];
  }

  lemma ScannedMore(first: Piece, lines: seq<Piece>, rest: seq<Piece>, afterBlank: bool)
    requires IsScanned(lines, rest, Blank(first)) && !(IsEnvelope(first) && afterBlank)
    ensures IsScanned([first] + lines, rest, afterBlank)
  {
    forall i: nat | i < |[first] + lines| ensures !EndsBefore([first] + lines, afterBlank, i) {
      if i > 0 { EndsLater(first, lines, afterBlank, i - 1); }
    }
    if rest != [] {
      Reassociate([first], lines, rest);
      EndsLater(first, lines + rest, afterBlank, |lines|);
    }
  }

  /** There are `k` blank lines, and then the end or a line that begins `From `. */
  predicate BlanksThenFrom(pieces: seq<Piece>, k: nat) {
    k <= |pieces| && (forall i :: 0 <= i < k ==> Blank(pieces[i])) && (k < |pieces| ==> StartsFrom(pieces[k]))
  }

  /** A boundary is blank lines, or none, and then the end or a line that begins `From `. */
  lemma {:induction false} BoundaryIs(pieces: seq<Piece>)
    ensures AtBoundary(pieces) <==> exists k: nat :: BlanksThenFrom(pieces, k)
  {
    if pieces == [] || !Blank(pieces[0]) {
      assert AtBoundary(pieces) ==> BlanksThenFrom(pieces, 0);
      assert forall k: nat :: BlanksThenFrom(pieces, k) ==> k == 0;
    } else {
      BoundaryIs(pieces[1..]);
      FromNotBlank(pieces[0]);
      var rest := pieces[1..];
      assert pieces == [pieces[0]] + rest;
      if k: nat :| BlanksThenFrom(pieces, k) {
        BlankMore(pieces[0], rest, k);
        assert BlanksThenFrom(rest, k - 1);
      }
      if k: nat :| BlanksThenFrom(rest, k) {
        BlankMore(pieces[0], rest, k + 1);
      }
    }
  }

  lemma BlankMore(first: Piece, rest: seq<Piece>, k: nat)
    requires Blank(first) && !StartsFrom(first)
    ensures BlanksThenFrom([first] + rest, k) <==> k > 0 && BlanksThenFrom(rest, k - 1)
  {
    var all := [first] + rest;
    assert all[0] == first && forall i :: 0 <= i < |rest| ==> rest[i] == all[i + 1];
  }

  lemma FromNotBlank(line: Piece)
    ensures StartsFrom(line) ==> !Blank(line)
  {
    if StartsFrom(line) {
      assert line[4] == line[..5][4] == FROM[4];
      assert |TrimEol(line)| >= 5;
    }
  }

  /** The blank line that ends a message's body is left off, an LF or a CRLF, where the line before it ends so too; and otherwise
      nothing is. */
  lemma StripIs(text: seq<Byte>)
    ensures StripSeparator(text + [CR, LF, CR, LF]) == text + [CR, LF]
    ensures StripSeparator(text + [LF, LF]) == text + [LF]
    ensures (forall a: seq<Byte> :: text != a + [LF, LF] && text != a + [CR, LF, CR, LF]) ==> StripSeparator(text) == text
  {
    var wire, unix, n := text + [CR, LF, CR, LF], text + [LF, LF], |text|;
    assert wire[..|wire| - 2] == text + [CR, LF] && unix[..|unix| - 1] == text + [LF];
    if EndsBlank(text) { assert text == text[..n - 2] + [LF, LF]; }
    if EndsBlankCr(text) { assert text == text[..n - 4] + [CR, LF, CR, LF]; }
  }
}
