/** The lines of an mbox: quoting, envelope lines, `Content-Length`, and how a message is written
    (crates/mail-archive/src/mbox.rs). */
module MboxFormat {
  import opened Options
  import opened Bytes

  const GT: Byte := 62
  const SPACE: Byte := 32
  const COLON: Byte := 58
  const PLUS: Byte := 43
  const FROM: seq<Byte> := [70, 114, 111, 109, 32]
  const CONTENT_LENGTH: seq<Byte> := [99, 111, 110, 116, 101, 110, 116, 45, 108, 101, 110, 103, 116, 104]
  const MAILER_DAEMON: seq<Byte> := [77, 65, 73, 76, 69, 82, 45, 68, 65, 69, 77, 79, 78]

  /** No body longer than this is counted. */
  const MAX_COUNTED: nat := 64 * 1024 * 1024
  /** The largest number the length is read as. */
  const MAX_SIZE: nat := 0xFFFF_FFFF_FFFF_FFFF

  predicate StartsFrom(line: seq<Byte>) {
    |line| >= 5 && line[..5] == FROM
  }

  // ---------- quoting

  /** The line is `From ` after any number of `>`. */
  predicate NeedsQuote(line: seq<Byte>) {
    if line != [] && line[0] == GT then NeedsQuote(line[1..]) else StartsFrom(line)
  }

  function Quote(line: seq<Byte>): seq<Byte> {
    if NeedsQuote(line) then [GT] + line else line
  }

  /** The inverse of `Quote` on what it writes, and no change to a line without a `>`. */
  function Unquote(line: seq<Byte>): seq<Byte> {
    if line != [] && line[0] == GT && NeedsQuote(line) then line[1..] else line
  }

  function QuoteAll(lines: seq<seq<Byte>>): (quoted: seq<seq<Byte>>)
    ensures |quoted| == |lines| && forall i :: 0 <= i < |lines| ==> quoted[i] == Quote(lines[i])
  {
    seq(|lines|, i requires 0 <= i < |lines| => Quote(lines[i]))
  }

  function UnquoteAll(lines: seq<seq<Byte>>): (bare: seq<seq<Byte>>)
    ensures |bare| == |lines| && forall i :: 0 <= i < |lines| ==> bare[i] == Unquote(lines[i])
  {
    seq(|lines|, i requires 0 <= i < |lines| => Unquote(lines[i]))
  }

  /** Quoting is undone, and what is written never begins `From `. */
  lemma QuoteUndone(line: seq<Byte>)
    ensures Unquote(Quote(line)) == line
    ensures !StartsFrom(Quote(line))
  {
    assert ([GT] + line)[1..] == line;
    assert FROM[0] != GT;
    if NeedsQuote(line) {
      QuotedFourth(line);
      assert ([GT] + line)[..5][0] == GT;
    }
  }

  /** A line that is terminated stays so, quoted. */
  lemma QuoteTerminated(line: seq<Byte>)
    requires Terminated(line)
    ensures Terminated(Quote(line)) && Blank(Quote(line)) == Blank(line)
  {
    if NeedsQuote(line) {
      assert ([GT] + line)[..|line|] == [GT] + line[..|line| - 1];
      QuotedIsNotBlank(line);
    }
  }

  /** A line that needs quoting has five bytes before its end, and is not blank, quoted or not. */
  lemma {:induction false} QuotedIsNotBlank(line: seq<Byte>)
    requires NeedsQuote(line)
    ensures |line| >= 5 && line[4] != LF && line[4] != CR
    ensures !Blank(line) && !Blank([GT] + line)
  {
    if line[0] == GT {
      QuotedIsNotBlank(line[1..]);
      QuotedFourth(line);
    } else {
      assert line[4] == line[..5][4] == FROM[4];
    }
  }

  /** The first five bytes of a line that needs quoting are of `>` and `From `. */
  lemma {:induction false} QuotedFourth(line: seq<Byte>)
    requires NeedsQuote(line)
    ensures |line| >= 5 && forall i :: 0 <= i < 5 ==> line[i] in {GT, 70, 114, 111, 109, 32}
  {
    if line[0] == GT {
      QuotedFourth(line[1..]);
      forall i | 0 <= i < 5 ensures line[i] in {GT, 70, 114, 111, 109, 32} {
        if i > 0 { assert line[i] == line[1..][i - 1]; }
      }
    } else {
      forall i | 0 <= i < 5 ensures line[i] in {GT, 70, 114, 111, 109, 32} {
        assert line[i] == line[..5][i] == FROM[i];
      }
    }
  }

  /** A newline supplied at the end does not change whether a line needs quoting. */
  lemma {:induction false} QuoteCompleted(line: seq<Byte>)
    ensures NeedsQuote(line + [LF]) == NeedsQuote(line)
  {
    if line != [] && line[0] == GT {
      assert (line + [LF])[1..] == line[1..] + [LF];
      QuoteCompleted(line[1..]);
    } else if |line| < 5 {
      assert |line| == 4 ==> (line + [LF])[..5][4] == LF;
    } else {
      assert (line + [LF])[..5] == line[..5];
    }
  }

  // ---------- text

  /** The characters Unicode calls white space. */
  predicate IsWhitespace(c: char) {
    var n := c as int;
    || 9 <= n <= 13 || n == 0x20 || n == 0x85 || n == 0xA0 || n == 0x1680 || 0x2000 <= n <= 0x200A
    || n == 0x2028 || n == 0x2029 || n == 0x202F || n == 0x205F || n == 0x3000
  }

  function Utf8(c: char): (bytes: seq<Byte>)
    ensures bytes != []
  {
    var n := c as int;
    if n < 0x80 then [n]
    else if n < 0x800 then [0xC0 + n / 64, 0x80 + n % 64]
    else if n < 0x10000 then [0xE0 + n / 4096, 0x80 + n / 64 % 64, 0x80 + n % 64]
    else [0xF0 + n / 262144, 0x80 + n / 4096 % 64, 0x80 + n / 64 % 64, 0x80 + n % 64]
  }

  function Encode(text: string): seq<Byte> {
    if text == "" then [] else Utf8(text[0]) + Encode(text[1..])
  }

  function NoSpace(text: string): string {
    if text == "" then "" else (if IsWhitespace(text[0]) then "" else [text[0]]) + NoSpace(text[1..])
  }

  /** How many bytes the white space character `bytes` begins with is, or zero if it begins with none. */
  function SpaceAt(bytes: seq<Byte>): (n: nat)
    ensures n <= |bytes| && n <= 3
  {
    if |bytes| >= 1 && (9 <= bytes[0] <= 13 || bytes[0] == SPACE) then 1
    else if |bytes| >= 2 && bytes[0] == 0xC2 && (bytes[1] == 0x85 || bytes[1] == 0xA0) then 2
    else if |bytes| >= 3 && Space3(bytes[0], bytes[1], bytes[2]) then 3
    else 0
  }

  predicate Space3(a: Byte, b: Byte, c: Byte) {
    || (a == 0xE1 && b == 0x9A && c == 0x80)
    || (a == 0xE2 && b == 0x80 && (0x80 <= c <= 0x8A || c == 0xA8 || c == 0xA9 || c == 0xAF))
    || (a == 0xE2 && b == 0x81 && c == 0x9F)
    || (a == 0xE3 && b == 0x80 && c == 0x80)
  }

  function TrimStart(bytes: seq<Byte>): seq<Byte> {
    match SpaceAt(bytes)
    case 1 => TrimStart(bytes[1..])
    case 2 => TrimStart(bytes[2..])
    case 3 => TrimStart(bytes[3..])
    case _ => bytes
  }

  /** How many bytes the white space character `bytes` ends with is, or zero if it ends with none. */
  function SpaceBefore(bytes: seq<Byte>): (n: nat)
    ensures n <= |bytes|
  {
    var k := |bytes|;
    if k >= 1 && (9 <= bytes[k - 1] <= 13 || bytes[k - 1] == SPACE) then 1
    else if k >= 2 && bytes[k - 2] == 0xC2 && (bytes[k - 1] == 0x85 || bytes[k - 1] == 0xA0) then 2
    else if k >= 3 && Space3(bytes[k - 3], bytes[k - 2], bytes[k - 1]) then 3
    else 0
  }

  function TrimEnd(bytes: seq<Byte>): seq<Byte> {
    if SpaceBefore(bytes) == 0 then bytes else TrimEnd(bytes[..|bytes| - SpaceBefore(bytes)])
  }

  /** Where `b` first is, or the length. */
  function Position(bytes: seq<Byte>, b: Byte): (i: nat)
    ensures i <= |bytes| && (i < |bytes| ==> bytes[i] == b) && b !in bytes[..i]
  {
    if bytes == [] || bytes[0] == b then 0 else
    var i := Position(bytes[1..], b);
    assert bytes[..i + 1] == [bytes[0]] + bytes[1..][..i];
    i + 1
  }

  // ---------- `Content-Length`

  function Lower(b: Byte): Byte {
    if 65 <= b <= 90 then b + 32 else b
  }

  predicate IsDigit(b: Byte) {
    48 <= b <= 57
  }

  /** The number digits say, `None` where one is not a digit. */
  function Digits(bytes: seq<Byte>): Option<nat> {
    if bytes == [] then Some(0) else
    var k := |bytes| - 1;
    match Digits(bytes[..k])
    case None => None
    case Some(n) => if IsDigit(bytes[k]) then Some(10 * n + bytes[k] - 48) else None
  }

  function ParseSize(text: seq<Byte>): Option<nat> {
    var digits := if text != [] && text[0] == PLUS then text[1..] else text;
    if digits == [] then None else
    match Digits(digits)
    case None => None
    case Some(n) => if n <= MAX_SIZE then Some(n) else None
  }

  /** The number a line gives, if its name is `Content-Length` in any case and what follows is a number. */
  function ContentLength(line: seq<Byte>): Option<nat> {
    var bare := TrimEol(line);
    var colon := Position(bare, COLON);
    if colon < |bare| && colon == |CONTENT_LENGTH|
       && (forall i :: 0 <= i < colon ==> Lower(bare[i]) == CONTENT_LENGTH[i])
    then ParseSize(TrimEnd(TrimStart(bare[colon + 1..]))) else None
  }

  // ---------- envelope lines

  predicate AsciiSpace(b: Byte) {
    b == 9 || b == LF || b == 12 || b == CR || b == SPACE
  }

  function TrimAsciiStart(bytes: seq<Byte>): seq<Byte> {
    if bytes != [] && AsciiSpace(bytes[0]) then TrimAsciiStart(bytes[1..]) else bytes
  }

  /** `hh:mm` at `i`. */
  predicate TimeAt(bytes: seq<Byte>, i: nat) {
    && i + 5 <= |bytes|
    && IsDigit(bytes[i]) && IsDigit(bytes[i + 1]) && bytes[i + 2] == COLON
    && IsDigit(bytes[i + 3]) && IsDigit(bytes[i + 4])
  }

  /** Of a `From ` line, without its end: a time of day stands somewhere after the sender. */
  predicate LooksLikeEnvelope(line: seq<Byte>) {
    && |line| >= 5
    && var rest := TrimAsciiStart(line[5..]);
       var space := Position(rest, SPACE);
       && space < |rest|
       && exists i :: space <= i < |rest| && TimeAt(rest, i)
  }

  predicate IsEnvelope(line: seq<Byte>) {
    StartsFrom(line) && LooksLikeEnvelope(TrimEol(line))
  }

  /** An envelope line's two facts, as their bytes. */
  datatype Envelope = Envelope(sender: seq<Byte>, date: seq<Byte>)

  /** The sender is what comes before the first space, and the date all that comes after. */
  function ParseEnvelope(line: seq<Byte>): Envelope {
    var rest := TrimStart(if StartsFrom(line) then line[5..] else line);
    var space := Position(rest, SPACE);
    if space < |rest| then Envelope(rest[..space], rest[space + 1..]) else Envelope(rest, [])
  }

  // ---------- writing

  /** The sender written: the one given without its white space, or `MAILER-DAEMON` if nothing is left. */
  function SenderWritten(sender: string): seq<Byte> {
    var bare := NoSpace(sender);
    if bare == "" then MAILER_DAEMON else Encode(bare)
  }

  function EnvelopeLine(sender: string, date: seq<Byte>): seq<Byte> {
    FROM + (SenderWritten(sender) + ([SPACE] + date)) + [LF]
  }

  /** A date as it is formatted: on one line, and with a time of day. */
  ghost predicate IsDate(date: seq<Byte>) {
    LF !in date && CR !in date && exists i: nat :: TimeAt(date, i)
  }

  /** One message as it is appended to an mbox. */
  function Written(sender: string, date: seq<Byte>, raw: seq<Byte>): seq<Byte> {
    var unix := Lf(raw);
    EnvelopeLine(sender, date) + Flatten(QuoteAll(Lines(unix)))
      + (if unix != [] && !EndsInLF(unix) then [LF] else []) + [LF]
  }

  lemma {:induction false} QuoteFirst(lines: seq<seq<Byte>>)
    requires lines != []
    ensures Flatten(QuoteAll(lines)) == Quote(lines[0]) + Flatten(QuoteAll(lines[1..]))
  {
    assert QuoteAll(lines)[1..] == QuoteAll(lines[1..]);
  }

  /** Append lines, each quoted if it must be. */
  method WriteLines(out: seq<Byte>, lines: seq<seq<Byte>>) returns (out': seq<Byte>)
    ensures out' == out + Flatten(QuoteAll(lines))
  {
    out' := out;
    var left := lines;
    while left != []
      invariant out' + Flatten(QuoteAll(left)) == out + Flatten(QuoteAll(lines))
    {
      QuoteFirst(left);
      Reassociate(out', Quote(left[0]), Flatten(QuoteAll(left[1..])));
      if NeedsQuote(left[0]) {
        Reassociate(out', [GT], left[0]);
        out' := out' + [GT];
      }
      out' := out' + left[0];
      left := left[1..];
    }
    assert out' + [] == out';
  }

  /** What is in the file grows by the message as `Written` says. */
  method Write(out: seq<Byte>, sender: string, date: seq<Byte>, raw: seq<Byte>) returns (out': seq<Byte>)
    ensures out' == out + Written(sender, date, raw)
  {
    var bare := NoSpace(sender);
    var name := if bare == "" then MAILER_DAEMON else Encode(bare);
    var text := FROM + (name + ([SPACE] + date)) + [LF];
    var unix := ToLf(raw);
    text := WriteLines(text, Lines(unix));
    if unix != [] && !EndsInLF(unix) {
      text := text + [LF];
    }
    text := text + [LF];
    out' := out + text;
  }
}
