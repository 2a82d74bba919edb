/** The reader itself: a source, what was put back, and one message read at a time
    (crates/mail-archive/src/mbox.rs). Each method is proved to do what `MboxSplit` says. */
module MboxReader {
  import opened Options
  import opened Bytes
  import opened MboxFormat
  import opened MboxSplit

  function Reversed(pieces: seq<Piece>): seq<Piece> {
    if pieces == [] then [] else Reversed(pieces[1..]) + [pieces[0]]
  }

  lemma {:induction false} ReversedPush(pieces: seq<Piece>, piece: Piece)
    ensures Reversed(pieces + [piece]) == [piece] + Reversed(pieces)
  {
    if pieces == [] {
      assert [piece][1..] == [];
      assert pieces + [piece] == [piece];
    } else {
      assert (pieces + [piece])[1..] == pieces[1..] + [piece];
      ReversedPush(pieces[1..], piece);
    }
  }

  class Reader {
    /** What is left of the source. */
    var inner: seq<Byte>
    /** Pieces to be read before the source is again, the last one next. */
    var pushback: seq<Piece>
    var done: bool
    /** A length was found false, and none is believed from then on. */
    var lengthsLie: bool
    /** The bytes `Line` has handed out, each as often as it was. */
    ghost var handed: Handed

    /** The pieces still to be read, in order. */
    ghost function Pending(): seq<Piece>
      reads this
    {
      Reversed(pushback) + Lines(inner)
    }

    constructor (source: seq<Byte>)
      ensures Pending() == Lines(source) && !done && !lengthsLie && handed == multiset{}
    {
      inner, pushback, done, lengthsLie, handed := source, [], false, false, multiset{};
    }

    /** Read the source up to and including its next LF, or to its end. */
    method ReadUntil() returns (line: Piece)
      requires inner != []
      modifies `inner
      ensures Lines(old(inner)) == [line] + Lines(inner)
    {
      line := [];
      while inner != [] && !EndsInLF(line)
        invariant line + inner == old(inner) && (line == [] ==> inner != [])
        invariant line != [] ==> LF !in line[..|line| - 1]
        decreases |inner|
      {
        ghost var before := line;
        line := line + [inner[0]];
        inner := inner[1..];
        assert before != [] ==> before == before[..|before| - 1] + [before[|before| - 1]];
        assert line[..|line| - 1] == before;
      }
      FirstIs(old(inner), line, inner);
    }

    /** Bytes with no LF but their last, ended by it or by the end, are the first line. */
    static lemma FirstIs(was: seq<Byte>, line: seq<Byte>, rest: seq<Byte>)
      requires was == line + rest && line != [] && LF !in line[..|line| - 1] && (EndsInLF(line) || rest == [])
      ensures Lines(was) == [line] + Lines(rest)
    {
      if EndsInLF(line) {
        LinesFirst(line, rest);
      } else {
        assert line + rest == line;
        OneLine(line);
      }
    }

    method Line() returns (line: Option<Piece>)
      modifies `inner, `pushback, `handed
      ensures old(Pending()) == [] ==> line.None? && Pending() == [] && handed == old(handed)
      ensures old(Pending()) != [] ==>
                && line == Some(old(Pending())[0]) && Pending() == old(Pending())[1..]
                && handed == old(handed) + First(old(Pending()))
    {
      ghost var was := Pending();
      var piece;
      if pushback != [] {
        var keep := pushback[..|pushback| - 1];
        piece := pushback[|pushback| - 1];
        ReversedPush(keep, piece);
        assert pushback == keep + [piece];
        Reassociate([piece], Reversed(keep), Lines(inner));
        pushback := keep;
      } else if inner == [] {
        return None;
      } else {
        piece := ReadUntil();
      }
      assert was == [piece] + Pending() && was[1..] == Pending();
      handed := handed + Span(Size(Pending()), Size(was));
      return Some(piece);
    }

    method Unread(line: Piece)
      modifies `pushback
      ensures Pending() == [line] + old(Pending())
    {
      ReversedPush(pushback, line);
      pushback := pushback + [line];
    }

    /** Pieces go back in front of what is pending, in their order. */
    method UnreadAll(pieces: seq<Piece>)
      modifies `pushback
      ensures Pending() == pieces + old(Pending())
    {
      var left := pieces;
      ghost var back: seq<Piece> := [];
      assert [] + Pending() == Pending() && left + [] == pieces;
      while left != []
        invariant left + back == pieces && Pending() == back + old(Pending())
      {
        var last := left[|left| - 1];
        Unread(last);
        MoveBack(left, back);
        Reassociate([last], back, old(Pending()));
        back := [last] + back;
        left := left[..|left| - 1];
      }
      assert [] + back == back;
    }

    /** Bytes go back in front of what is pending, split into lines afresh. */
    method UnreadBytes(bytes: seq<Byte>)
      modifies `pushback
      ensures Pending() == Lines(bytes) + old(Pending())
    {
      UnreadAll(Lines(bytes));
    }

    /** Passes over blank lines. The line after them, if there is one. */
    method EnvelopeLine() returns (line: Option<Piece>)
      modifies `inner, `pushback, `handed
      ensures var skipped := SkipBlanks(old(Pending()));
              if skipped.rest == [] then line.None? && Pending() == [] && handed == old(handed) + skipped.handed
              else
                && line == Some(skipped.rest[0]) && Pending() == skipped.rest[1..]
                && handed == old(handed) + skipped.handed + First(skipped.rest)
    {
      ghost var skipped := SkipBlanks(Pending());
      while true
        invariant SkipBlanks(Pending()).rest == skipped.rest
        invariant old(handed) + skipped.handed == handed + SkipBlanks(Pending()).handed
        decreases |Pending()|
      {
        ghost var before, was := Pending(), handed;
        line := Line();
        if line.None? || !Blank(line.value) {
          AddNothing(was);
          return;
        }
        AddMore(was, First(before), SkipBlanks(Pending()).handed);
      }
    }

    /** The header section, with the blank line at its end, and the last length a line of it gives. */
    method Headers() returns (raw: seq<Byte>, length: Option<nat>, ended: bool)
      modifies `inner, `pushback, `handed
      ensures var head := TakeHeaders(old(Pending()), None);
              && raw == head.raw && length == head.length && ended == head.ended
              && Pending() == head.rest && handed == old(handed) + head.handed
    {
      ghost var head := TakeHeaders(Pending(), None);
      raw, length, ended := [], None, false;
      while true
        invariant !ended
        invariant var more := TakeHeaders(Pending(), length);
                  && head.raw == raw + more.raw && head.length == more.length && head.ended == more.ended
                  && head.rest == more.rest && old(handed) + head.handed == handed + more.handed
        decreases |Pending()|
      {
        ghost var before, was := Pending(), handed;
        var line := Line();
        if line.None? {
          assert raw + [] == raw;
          AddNothing(was);
          return;
        }
        var n := ContentLength(line.value);
        if n.Some? {
          length := n;
        }
        if Blank(line.value) {
          raw := raw + line.value;
          ended := true;
          return;
        }
        Reassociate(raw, line.value, TakeHeaders(Pending(), length).raw);
        AddMore(was, First(before), TakeHeaders(Pending(), length).handed);
        raw := raw + line.value;
      }
    }

    /** Of the next piece up to `room` bytes, the rest of it handed back: the next part of what is taken in all. */
    method TakePart(room: nat, ghost all: Taken, ghost first: Handed, ghost body: seq<Byte>) returns (part: Option<seq<Byte>>)
      requires room > 0 && TakesOn(all, first, body, handed, TakeBody(Pending(), room))
      modifies `inner, `pushback, `handed
      ensures part.None? ==> TakesOn(all, first, body, handed, TakeBody(Pending(), 0))
      ensures part.Some? ==>
                && |part.value| <= room
                && TakesOn(all, first, body + part.value, handed, TakeBody(Pending(), room - |part.value|))
                && (|Pending()| < |old(Pending())| || (part.value != [] && |Pending()| == |old(Pending())|))
    {
      ghost var before, was := Pending(), handed;
      var line := Line();
      if line.None? {
        return None;
      }
      if |line.value| > room {
        Unread(line.value[room..]);
        TakeFurther(all, first, body, was, before, room, line.value[..room], Pending());
        return Some(line.value[..room]);
      }
      TakeFurther(all, first, body, was, before, room, line.value, Pending());
      return line;
    }

    /** The first piece, or its first `room` bytes, and what is left. */
    static predicate Parts(pieces: seq<Piece>, room: nat, part: seq<Byte>, left: seq<Piece>)
      requires pieces != []
    {
      if |pieces[0]| > room then part == pieces[0][..room] && left == [pieces[0][room..]] + pieces[1..]
      else part == pieces[0] && left == pieces[1..]
    }

    /** Up to `n` bytes of body. */
    method TakeBytes(n: nat) returns (body: seq<Byte>)
      modifies `inner, `pushback, `handed
      ensures var taken := TakeBody(old(Pending()), n);
              body == taken.body && Pending() == taken.rest && handed == old(handed) + taken.handed
    {
      ghost var all := TakeBody(Pending(), n);
      body := [];
      var room: nat := n;
      while room > 0
        invariant room == n - |body|
        invariant TakesOn(all, old(handed), body, handed, TakeBody(Pending(), room))
        decreases |Pending()|, room
      {
        var part := TakePart(room, all, old(handed), body);
        if part.None? {
          break;
        }
        body, room := body + part.value, room - |part.value|;
      }
      assert body + [] == body;
      AddNothing(handed);
    }

    /** What is taken in all, from when `first` had been handed out, is `body`, for which `handed` had by then, and `more`. */
    static predicate TakesOn(all: Taken, first: Handed, body: seq<Byte>, handed: Handed, more: Taken) {
      all.body == body + more.body && all.rest == more.rest && first + all.handed == handed + more.handed
    }

    static lemma {:induction false} TakeFurther(all: Taken, first: Handed, body: seq<Byte>, handed: Handed, pieces: seq<Piece>,
                                                room: nat, part: seq<Byte>, left: seq<Piece>)
      requires pieces != [] && room > 0 && Parts(pieces, room, part, left)
      requires TakesOn(all, first, body, handed, TakeBody(pieces, room))
      ensures |part| <= room && TakesOn(all, first, body + part, handed + First(pieces), TakeBody(left, room - |part|))
    {
      var more := TakeBody(left, room - |part|);
      assert |pieces[0]| > room ==> part + [] == part;
      Reassociate(body, part, more.body);
      AddMore(handed, First(pieces), more.handed);
      AddNothing(First(pieces));
    }

    /** Blank lines and then the next line. Whether they are a boundary. */
    method ReadAfter() returns (after: seq<Piece>, boundary: bool)
      modifies `inner, `pushback, `handed
      ensures after + Pending() == old(Pending()) && boundary == AtBoundary(old(Pending()))
      ensures handed == old(handed) + Looked(old(Pending()))
    {
      ghost var p := Pending();
      after := [];
      assert [] + p == p;
      while true
        invariant after + Pending() == p && SkipBlanks(p).rest == SkipBlanks(Pending()).rest
        invariant old(handed) + SkipBlanks(p).handed == handed + SkipBlanks(Pending()).handed
        decreases |Pending()|
      {
        ghost var before, was := Pending(), handed;
        var line := Line();
        if line.None? {
          AddNothing(was);
          AddNothing(SkipBlanks(p).handed);
          return after, true;
        }
        MoveForward(after, before);
        after := after + [line.value];
        if !Blank(line.value) {
          AddNothing(was);
          AddMore(old(handed), SkipBlanks(p).handed, First(before));
          return after, StartsFrom(line.value);
        }
        AddMore(was, First(before), SkipBlanks(Pending()).handed);
      }
    }

    /** What follows a body, read and all handed back. */
    method LookAfter() returns (boundary: bool)
      modifies `inner, `pushback, `handed
      ensures Pending() == old(Pending()) && boundary == AtBoundary(Pending())
      ensures handed == old(handed) + Looked(Pending())
    {
      var after;
      after, boundary := ReadAfter();
      UnreadAll(after);
    }

    /** Try a length: it is kept if a boundary comes after that many bytes, and if not nothing has changed but, it may be,
        where one line of what is pending is cut. */
    method CountedBody(n: nat, raw: seq<Byte>) returns (fits: bool, raw': seq<Byte>)
      modifies `inner, `pushback, `handed
      ensures fits == Fits(old(Pending()), n)
      ensures fits ==> raw' == raw + TakeBody(old(Pending()), n).body && Pending() == TakeBody(old(Pending()), n).rest
      ensures !fits ==> raw' == raw && Pending() == PutBack(old(Pending()), n)
      ensures handed == old(handed) + Counted(old(Pending()), n)
    {
      var body := TakeBytes(n);
      ghost var rest := Pending();
      var boundary := LookAfter();
      AddMore(old(handed), TakeBody(old(Pending()), n).handed, Looked(rest));
      fits, raw' := boundary && |body| == n, raw;
      if fits {
        raw' := raw + body;
      } else {
        UnreadBytes(body);
      }
    }

    /** The next line of a body, or nothing where it ends: an envelope line is handed back. */
    method BodyLine(afterBlank: bool) returns (line: Option<Piece>)
      modifies `inner, `pushback, `handed
      ensures var p := old(Pending());
              if p == [] then line == None && Pending() == p && handed == old(handed)
              else if afterBlank && IsEnvelope(p[0])
              then line == None && Pending() == p && handed == old(handed) + First(p)
              else line == Some(p[0]) && Pending() == p[1..] && handed == old(handed) + First(p)
    {
      line := Line();
      if line.Some? && afterBlank && IsEnvelope(line.value) {
        Unread(line.value);
        line := None;
      }
    }

    /** The body a scan takes of what is pending. */
    method ScanLines() returns (body: seq<Byte>)
      modifies `inner, `pushback, `handed
      ensures var p := old(Pending());
              && body == ScanBody(p, true) && Pending() == ScanRest(p, true)
              && handed == old(handed) + ScanHanded(p, true)
    {
      ghost var p := Pending();
      var afterBlank := true;
      body := [];
      while true
        invariant ScanBody(p, true) == body + ScanBody(Pending(), afterBlank)
        invariant ScanRest(p, true) == ScanRest(Pending(), afterBlank)
        invariant old(handed) + ScanHanded(p, true) == handed + ScanHanded(Pending(), afterBlank)
        decreases |Pending()|
      {
        ghost var before, was := Pending(), handed;
        var line := BodyLine(afterBlank);
        if line.None? {
          assert body + [] == body;
          AddNothing(was);
          return;
        }
        AddMore(was, First(before), ScanHanded(before[1..], Blank(line.value)));
        Reassociate(body, Unquote(line.value), ScanBody(before[1..], Blank(line.value)));
        afterBlank := Blank(line.value);
        body := body + Unquote(line.value);
      }
    }

    /** The body by scanning: the lines it takes, joined to the headers, less the separator. */
    method ScannedBody(raw: seq<Byte>, ghost envelope: Envelope) returns (raw': seq<Byte>)
      modifies `inner, `pushback, `handed
      ensures var scanned := Scanned(old(Pending()), envelope, raw, lengthsLie);
              && Message(envelope, raw') == scanned.item && Pending() == scanned.rest
              && handed == old(handed) + scanned.handed
    {
      var body := ScanLines();
      raw' := StripSeparator(raw + body);
    }

    /** One message. */
    method ReadMessage() returns (item: Item)
      modifies `inner, `pushback, `handed, `lengthsLie
      ensures var reading := Parse(old(Pending()), old(lengthsLie));
              && item == reading.item && Pending() == reading.rest && lengthsLie == reading.lie
              && handed == old(handed) + reading.handed
    {
      ghost var skipped := SkipBlanks(Pending());
      var fromLine := EnvelopeLine();
      if fromLine.None? {
        AddNothing(skipped.handed);
        return EndOfFile;
      }
      AddMore(old(handed), skipped.handed, First(skipped.rest));
      if !StartsFrom(fromLine.value) {
        return NotMbox;
      }
      ghost var rest := ParseHeaders(Pending(), ParseEnvelope(TrimEol(fromLine.value)), lengthsLie);
      item := ReadRest(ParseEnvelope(TrimEol(fromLine.value)));
      AddMore(old(handed), skipped.handed + First(skipped.rest), rest.handed);
      AddMore(skipped.handed, First(skipped.rest), rest.handed);
    }

    /** The headers and the body of the message whose envelope line was read. */
    method ReadRest(envelope: Envelope) returns (item: Item)
      modifies `inner, `pushback, `handed, `lengthsLie
      ensures var reading := ParseHeaders(old(Pending()), envelope, old(lengthsLie));
              && item == reading.item && Pending() == reading.rest && lengthsLie == reading.lie
              && handed == old(handed) + reading.handed
    {
      var raw, length, ended := Headers();
      ghost var head := TakeHeaders(old(Pending()), None);
      if !ended {
        return Message(envelope, raw);
      }
      item := ReadBody(envelope, raw, length);
      AddMore(old(handed), head.handed, ParseBody(head.rest, envelope, raw, length, old(lengthsLie)).handed);
    }

    /** The body of the message whose headers were read. */
    method ReadBody(envelope: Envelope, headers: seq<Byte>, length: Option<nat>) returns (item: Item)
      modifies `inner, `pushback, `handed, `lengthsLie
      ensures var reading := ParseBody(old(Pending()), envelope, headers, length, old(lengthsLie));
              && item == reading.item && Pending() == reading.rest && lengthsLie == reading.lie
              && handed == old(handed) + reading.handed
    {
      var raw := headers;
      if length.Some? && !lengthsLie && length.value <= MAX_COUNTED {
        var fits;
        fits, raw := CountedBody(length.value, raw);
        if fits {
          return Message(envelope, raw);
        }
        lengthsLie := true;
        AddMore(old(handed), Counted(old(Pending()), length.value), Scanned(Pending(), envelope, raw, true).handed);
      }
      raw := ScannedBody(raw, envelope);
      return Message(envelope, raw);
    }

    /** The iterator's step. After anything but a message it says nothing more. */
    method Next() returns (item: Option<Item>)
      modifies this
      ensures item.Some? ==> item.value.Message? || item.value.NotMbox?
      ensures old(done) ==> item.None? && Pending() == old(Pending()) && handed == old(handed)
      ensures !old(done) ==>
                var reading := Parse(old(Pending()), old(lengthsLie));
                && item == (if reading.item.EndOfFile? then None else Some(reading.item))
                && Pending() == reading.rest && lengthsLie == reading.lie
                && handed == old(handed) + reading.handed
      ensures done <==> old(done) || item.None? || !item.value.Message?
    {
      if done {
        return None;
      }
      var read := ReadMessage();
      match read {
        case Message(_, _) => return Some(read);
        case EndOfFile =>
          done := true;
          return None;
        case NotMbox =>
          done := true;
          return Some(read);
      }
    }
  }
}
