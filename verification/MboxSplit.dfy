/** What reading an mbox comes to, as a function of the lines still to be read.

    The reader hands out pieces: the lines of its source, or what it has put back, which may be a part of a
    line. `Parse` is one message's worth of reading, with what is left, and which bytes were handed out.

    A byte is named by how many come after it in the source. What is pending is always the source's last bytes, so that is
    the byte's name however often it is put back and wherever lines are cut. */
module MboxSplit {
  import opened Options
  import opened Bytes
  import opened MboxFormat

  type Piece = seq<Byte>

  function Size(pieces: seq<Piece>): nat {
    |Flatten(pieces)|
  }

  /** The bytes handed out, each as often as it was. */
  type Handed = multiset<nat>

  /** The bytes that have at least `low` after them and fewer than `high`, once each. */
  function Span(low: nat, high: nat): Handed {
    if low >= high then multiset{} else Span(low, high - 1) + multiset{high - 1}
  }

  lemma {:induction false} SpanAt(low: nat, high: nat, q: nat)
    ensures Span(low, high)[q] == if low <= q < high then 1 else 0
  {
    if low < high {
      SpanAt(low, high - 1, q);
      assert multiset{high - 1}[q] == if q == high - 1 then 1 else 0;
    }
  }

  lemma {:induction false} SpanSize(low: nat, high: nat)
    requires low <= high
    ensures |Span(low, high)| == high - low
  {
    if low < high { SpanSize(low, high - 1); }
  }

  lemma AddMore(a: Handed, b: Handed, c: Handed)
    ensures (a + b) + c == a + (b + c)
  {
  }

  lemma AddNothing(a: Handed)
    ensures a + multiset{} == a
  {
  }

  /** The bytes of the first piece. */
  function First(pieces: seq<Piece>): Handed
    requires pieces != []
  {
    Span(Size(pieces[1..]), Size(pieces))
  }

  /** What is left after the blank pieces that come first, and their bytes. */
  datatype Skipped = Skipped(rest: seq<Piece>, handed: Handed)

  function SkipBlanks(pieces: seq<Piece>): Skipped {
    if pieces == [] || !Blank(pieces[0]) then Skipped(pieces, multiset{})
    else
      var more := SkipBlanks(pieces[1..]);
      Skipped(more.rest, First(pieces) + more.handed)
  }

  // ---------- the headers

  /** A header section: its bytes, the last length it says, whether a blank piece ended it, what is left, and what was
      handed out. */
  datatype Head = Head(raw: seq<Byte>, length: Option<nat>, ended: bool, rest: seq<Piece>, handed: Handed)

  /** The length said once a line is read, `length` having been said before it. */
  function Says(line: Piece, length: Option<nat>): Option<nat> {
    if ContentLength(line).Some? then ContentLength(line) else length
  }

  /** Up to and with the first blank piece. */
  function TakeHeaders(pieces: seq<Piece>, length: Option<nat>): (head: Head)
    ensures !head.ended ==> head.rest == []
  {
    if pieces == [] then Head([], length, false, [], multiset{})
    else if Blank(pieces[0]) then Head(pieces[0], Says(pieces[0], length), true, pieces[1..], First(pieces))
    else
      var more := TakeHeaders(pieces[1..], Says(pieces[0], length));
      Head(pieces[0] + more.raw, more.length, more.ended, more.rest, First(pieces) + more.handed)
  }

  predicate Believed(length: Option<nat>, lie: bool) {
    length.Some? && !lie && length.value <= MAX_COUNTED
  }

  // ---------- a counted body

  datatype Taken = Taken(body: seq<Byte>, rest: seq<Piece>, handed: Handed)

  /** The first `n` bytes, or all there are, a piece they end inside of cut in two. */
  function TakeBody(pieces: seq<Piece>, n: nat): Taken
    decreases |pieces|
  {
    if n == 0 || pieces == [] then Taken([], pieces, multiset{})
    else if |pieces[0]| > n then Taken(pieces[0][..n], [pieces[0][n..]] + pieces[1..], First(pieces))
    else
      var more := TakeBody(pieces[1..], n - |pieces[0]|);
      Taken(pieces[0] + more.body, more.rest, First(pieces) + more.handed)
  }

  /** Blank lines and then a `From ` line come next, or blank lines and nothing. */
  predicate AtBoundary(pieces: seq<Piece>) {
    var rest := SkipBlanks(pieces).rest;
    rest == [] || StartsFrom(rest[0])
  }

  /** The bytes it takes to see: those of the blank lines and of the next one. */
  function Looked(pieces: seq<Piece>): Handed {
    var skipped := SkipBlanks(pieces);
    skipped.handed + if skipped.rest == [] then multiset{} else First(skipped.rest)
  }

  predicate Fits(pieces: seq<Piece>, n: nat) {
    var taken := TakeBody(pieces, n);
    |taken.body| == n && AtBoundary(taken.rest)
  }

  // ---------- a scanned body

  /** A scan ends at the end, or at an envelope line after a blank one. */
  predicate ScanEnds(pieces: seq<Piece>, afterBlank: bool) {
    pieces == [] || (afterBlank && IsEnvelope(pieces[0]))
  }

  /** The body a scan takes, unquoted, */
  function ScanBody(pieces: seq<Piece>, afterBlank: bool): seq<Byte> {
    if ScanEnds(pieces, afterBlank) then [] else Unquote(pieces[0]) + ScanBody(pieces[1..], Blank(pieces[0]))
  }

  /** what it leaves, */
  function ScanRest(pieces: seq<Piece>, afterBlank: bool): seq<Piece> {
    if ScanEnds(pieces, afterBlank) then pieces else ScanRest(pieces[1..], Blank(pieces[0]))
  }

  /** and what it is handed: the line it ends at too. */
  function ScanHanded(pieces: seq<Piece>, afterBlank: bool): Handed {
    if pieces == [] then multiset{}
    else if ScanEnds(pieces, afterBlank) then First(pieces)
    else First(pieces) + ScanHanded(pieces[1..], Blank(pieces[0]))
  }

  /** The last bytes are `\n\n`. */
  predicate EndsBlank(raw: seq<Byte>) {
    |raw| >= 2 && raw[|raw| - 1] == LF && raw[|raw| - 2] == LF
  }

  /** The last bytes are `\r\n\r\n`. */
  predicate EndsBlankCr(raw: seq<Byte>) {
    |raw| >= 4 && raw[|raw| - 1] == LF && raw[|raw| - 2] == CR && raw[|raw| - 3] == LF && raw[|raw| - 4] == CR
  }

  /** One line break fewer, where the text ends in an empty line. */
  function StripSeparator(raw: seq<Byte>): seq<Byte> {
    if EndsBlankCr(raw) then raw[..|raw| - 2]
    else if EndsBlank(raw) then raw[..|raw| - 1]
    else raw
  }

  // ---------- a message

  datatype Item = Message(envelope: Envelope, raw: seq<Byte>) | NotMbox | EndOfFile

  datatype Reading = Reading(item: Item, rest: seq<Piece>, lie: bool, handed: Handed)

  /** The body, scanned: what is left, and the whole message so far. */
  function Scanned(pieces: seq<Piece>, envelope: Envelope, raw: seq<Byte>, lie: bool): Reading {
    Reading(Message(envelope, StripSeparator(raw + ScanBody(pieces, true))), ScanRest(pieces, true), lie, ScanHanded(pieces, true))
  }

  /** What is put back when a length is not believed after all. */
  function PutBack(pieces: seq<Piece>, n: nat): seq<Piece> {
    var taken := TakeBody(pieces, n);
    Lines(taken.body) + taken.rest
  }

  /** What is handed out to try a length. */
  function Counted(pieces: seq<Piece>, n: nat): Handed {
    var taken := TakeBody(pieces, n);
    taken.handed + Looked(taken.rest)
  }

  /** The body: counted, where the length is believed and fits, else scanned. */
  function ParseBody(pieces: seq<Piece>, envelope: Envelope, raw: seq<Byte>, length: Option<nat>, lie: bool): Reading {
    if !Believed(length, lie) then Scanned(pieces, envelope, raw, lie)
    else
      var n := length.value;
      if Fits(pieces, n) then
        Reading(Message(envelope, raw + TakeBody(pieces, n).body), TakeBody(pieces, n).rest, lie, Counted(pieces, n))
      else More(Scanned(PutBack(pieces, n), envelope, raw, true), Counted(pieces, n))
  }

  /** The reading, after `handed` was handed out. */
  function More(r: Reading, handed: Handed): Reading {
    r.(handed := handed + r.handed)
  }

  /** After the envelope line: the headers, and then the body. */
  function ParseHeaders(pieces: seq<Piece>, envelope: Envelope, lie: bool): Reading {
    var head := TakeHeaders(pieces, None);
    if head.ended then More(ParseBody(head.rest, envelope, head.raw, head.length, lie), head.handed)
    else Reading(Message(envelope, head.raw), [], lie, head.handed)
  }

  /** The message the first piece begins. */
  function ParseFirst(pieces: seq<Piece>, lie: bool): Reading {
    if pieces == [] then Reading(EndOfFile, [], lie, multiset{})
    else if !StartsFrom(pieces[0]) then Reading(NotMbox, pieces[1..], lie, First(pieces))
    else More(ParseHeaders(pieces[1..], ParseEnvelope(TrimEol(pieces[0])), lie), First(pieces))
  }

  /** The next message, and what is left. */
  function Parse(pieces: seq<Piece>, lie: bool): Reading {
    var skipped := SkipBlanks(pieces);
    More(ParseFirst(skipped.rest, lie), skipped.handed)
  }
}
