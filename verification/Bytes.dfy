/** Bytes, and bytes as lines (crates/mail-archive/src/lib.rs). */
module Bytes {
  type Byte = b: int | 0 <= b < 256 witness 0

  const CR: Byte := 13
  const LF: Byte := 10

  /** The bytes of several pieces, one after another. */
  function Flatten(pieces: seq<seq<Byte>>): seq<Byte> {
    if pieces == [] then [] else pieces[0] + Flatten(pieces[1..])
  }

  /** The lines of a text: each ends with its LF, but for the last, which may have none. */
  function Lines(raw: seq<Byte>): (lines: seq<seq<Byte>>)
    ensures raw != [] ==> lines != []
  {
    if raw == [] then []
    else if raw[0] == LF || |raw| == 1 then [[raw[0]]] + Lines(raw[1..])
    else
      var more := Lines(raw[1..]);
      [[raw[0]] + more[0]] + more[1..]
  }

  /** Some bytes, with no LF but perhaps the last. */
  predicate IsLine(line: seq<Byte>) {
    line != [] && LF !in line[..|line| - 1]
  }

  /** A line that ends in LF. */
  predicate Terminated(line: seq<Byte>) {
    IsLine(line) && line[|line| - 1] == LF
  }

  predicate EndsInLF(raw: seq<Byte>) {
    raw != [] && raw[|raw| - 1] == LF
  }

  /** What a line says, the LF or CRLF that ends it left off. */
  function TrimEol(line: seq<Byte>): seq<Byte> {
    var bare := if EndsInLF(line) then line[..|line| - 1] else line;
    if bare != [] && bare[|bare| - 1] == CR then bare[..|bare| - 1] else bare
  }

  predicate Blank(line: seq<Byte>) {
    TrimEol(line) == []
  }

  lemma {:induction false} FlattenConcat(a: seq<seq<Byte>>, b: seq<seq<Byte>>)
    ensures Flatten(a + b) == Flatten(a) + Flatten(b)
  {
    if a == [] {
      assert a + b == b;
    } else {
      assert (a + b)[1..] == a[1..] + b;
      FlattenConcat(a[1..], b);
    }
  }

  lemma FlattenOne(piece: seq<Byte>)
    ensures Flatten([piece]) == piece
  {
    assert [piece][1..] == [];
  }

  lemma {:induction false} FlattenFirst(first: seq<Byte>, others: seq<seq<Byte>>)
    ensures Flatten([first] + others) == first + Flatten(others)
  {
    assert ([first] + others)[1..] == others;
  }

  /** Splitting into lines loses nothing. */
  lemma {:induction false} LinesFlatten(raw: seq<Byte>)
    ensures Flatten(Lines(raw)) == raw
  {
    if raw != [] {
      var first, tail := [raw[0]], raw[1..];
      var more := Lines(tail);
      LinesFlatten(tail);
      assert raw == first + tail;
      if raw[0] == LF || |raw| == 1 {
        FlattenFirst(first, more);
      } else {
        FlattenFirst(first + more[0], more[1..]);
        Reassociate(first, more[0], Flatten(more[1..]));
      }
    }
  }

  lemma LongerLine(b: Byte, line: seq<Byte>)
    requires b != LF && IsLine(line)
    ensures IsLine([b] + line) && (Terminated(line) <==> Terminated([b] + line))
  {
    assert ([b] + line)[..|line|] == [b] + line[..|line| - 1];
  }

  /** Each piece is a line, and each but the last is ended by an LF. */
  predicate WellSplit(pieces: seq<seq<Byte>>) {
    pieces != [] ==>
      IsLine(pieces[0]) && (|pieces| > 1 ==> Terminated(pieces[0])) && WellSplit(pieces[1..])
  }

  lemma {:induction false} LinesWellSplit(raw: seq<Byte>)
    ensures WellSplit(Lines(raw))
  {
    if raw != [] {
      var more := Lines(raw[1..]);
      LinesWellSplit(raw[1..]);
      if raw[0] == LF || |raw| == 1 {
        WellSplitFirst([raw[0]], more);
      } else {
        LongerLine(raw[0], more[0]);
        WellSplitFirst([raw[0]] + more[0], more[1..]);
      }
    }
  }

  lemma {:induction false} WellSplitFirst(first: seq<Byte>, others: seq<seq<Byte>>)
    requires IsLine(first) && (others != [] ==> Terminated(first)) && WellSplit(others)
    ensures WellSplit([first] + others)
  {
    assert ([first] + others)[1..] == others;
  }

  /** What is split are lines, and none is empty. */
  lemma {:induction false} WellSplitLines(pieces: seq<seq<Byte>>)
    requires WellSplit(pieces)
    ensures forall line :: line in pieces ==> IsLine(line)
  {
    if pieces != [] { WellSplitLines(pieces[1..]); }
  }

  /** A terminated line is the first of what it begins. */
  lemma {:induction false} LinesFirst(line: seq<Byte>, rest: seq<Byte>)
    requires Terminated(line)
    ensures Lines(line + rest) == [line] + Lines(rest)
  {
    var first, tail := line[0], line[1..];
    assert line == [first] + tail;
    assert line + rest == [first] + (tail + rest);
    if tail == [] {
      assert tail + rest == rest;
      LinesOne(first, rest);
    } else {
      assert first == line[..|line| - 1][0];
      assert tail[..|tail| - 1] == line[..|line| - 1][1..];
      LinesFirst(tail, rest);
      LinesMore(first, tail + rest, tail, Lines(rest));
    }
  }

  lemma {:induction false} LinesOne(b: Byte, rest: seq<Byte>)
    requires b == LF || rest == []
    ensures Lines([b] + rest) == [[b]] + Lines(rest)
  {
    assert ([b] + rest)[1..] == rest;
  }

  lemma {:induction false} LinesMore(b: Byte, tail: seq<Byte>, line: seq<Byte>, others: seq<seq<Byte>>)
    requires b != LF && tail != [] && Lines(tail) == [line] + others
    ensures Lines([b] + tail) == [[b] + line] + others
  {
    assert ([b] + tail)[1..] == tail;
    assert ([line] + others)[1..] == others;
  }

  /** One line is split into itself. */
  lemma {:induction false} OneLine(line: seq<Byte>)
    requires IsLine(line)
    ensures Lines(line) == [line]
  {
    var first, tail := line[0], line[1..];
    assert line == [first] + tail;
    if tail == [] {
      LinesOne(first, tail);
      assert line == [first] && Lines(tail) == [];
      assert Lines(line) == [[first]] + [];
    } else {
      assert first == line[..|line| - 1][0];
      assert tail[..|tail| - 1] == line[..|line| - 1][1..];
      OneLine(tail);
      LinesMore(first, tail, tail, []);
    }
  }

  /** Well split pieces are what their bytes split into. */
  lemma {:induction false} WellSplitIs(pieces: seq<seq<Byte>>)
    ensures WellSplit(pieces) <==> Lines(Flatten(pieces)) == pieces
  {
    LinesWellSplit(Flatten(pieces));
    if WellSplit(pieces) { WellSplitStays(pieces); }
  }

  lemma {:induction false} WellSplitStays(pieces: seq<seq<Byte>>)
    requires WellSplit(pieces)
    ensures Lines(Flatten(pieces)) == pieces
  {
    if pieces != [] {
      var first, others := pieces[0], pieces[1..];
      WellSplitStays(others);
      assert pieces == [first] + others;
      if others == [] {
        OneLine(first);
        assert first + [] == first;
      } else {
        LinesFirst(first, Flatten(others));
      }
    }
  }

  lemma Reassociate<T>(a: seq<T>, b: seq<T>, c: seq<T>)
    ensures (a + b) + c == a + (b + c)
  {
  }

  lemma MoveForward<T>(a: seq<T>, b: seq<T>)
    requires b != []
    ensures (a + [b[0]]) + b[1..] == a + b
  {
    Reassociate(a, [b[0]], b[1..]);
    assert [b[0]] + b[1..] == b;
  }

  lemma MoveBack<T>(a: seq<T>, b: seq<T>)
    requires a != []
    ensures a[..|a| - 1] + ([a[|a| - 1]] + b) == a + b
  {
    Reassociate(a[..|a| - 1], [a[|a| - 1]], b);
    assert a[..|a| - 1] + [a[|a| - 1]] == a;
  }

  lemma SameTail<T>(first: T, a: seq<T>, b: seq<T>)
    ensures [first] + a == [first] + b <==> a == b
  {
    assert ([first] + a)[1..] == a && ([first] + b)[1..] == b;
  }

  /** Terminated lines, put together and split again, are the lines they were. */
  lemma {:induction false} LinesOfFlatten(lines: seq<seq<Byte>>, rest: seq<Byte>)
    requires forall line :: line in lines ==> Terminated(line)
    ensures Lines(Flatten(lines) + rest) == lines + Lines(rest)
  {
    if lines == [] {
      assert Flatten(lines) + rest == rest;
    } else {
      var tail := Flatten(lines[1..]);
      LinesOfFlatten(lines[1..], rest);
      Reassociate(lines[0], tail, rest);
      LinesFirst(lines[0], tail + rest);
      Reassociate([lines[0]], lines[1..], Lines(rest));
      assert [lines[0]] + lines[1..] == lines;
    }
  }

  /** Where the bytes before end in LF, lines split the same. */
  lemma {:induction false} LinesConcat(before: seq<Byte>, after: seq<Byte>)
    requires before == [] || EndsInLF(before)
    ensures Lines(before + after) == Lines(before) + Lines(after)
  {
    AllTerminated(before);
    LinesFlatten(before);
    LinesOfFlatten(Lines(before), after);
  }

  /** Bytes that end in LF are terminated lines. */
  lemma {:induction false} AllTerminated(raw: seq<Byte>)
    requires raw == [] || EndsInLF(raw)
    ensures forall line :: line in Lines(raw) ==> Terminated(line)
  {
    if raw != [] {
      var tail := raw[1..];
      AllTerminated(tail);
      LinesWellSplit(tail);
      if raw[0] != LF {
        assert Lines(tail)[0] in Lines(tail);
        LongerLine(raw[0], Lines(tail)[0]);
      }
    }
  }

  // ---------- line endings

  /** Every CRLF becomes LF. */
  function Lf(raw: seq<Byte>): seq<Byte> {
    if raw == [] then []
    else if raw[0] == CR && |raw| > 1 && raw[1] == LF then Lf(raw[1..])
    else [raw[0]] + Lf(raw[1..])
  }

  /** Every LF with no CR before it becomes CRLF. `previous` is the byte before. */
  function Crlf(raw: seq<Byte>, previous: Byte): seq<Byte> {
    if raw == [] then [] else
    (if raw[0] == LF && previous != CR then [CR] else []) + ([raw[0]] + Crlf(raw[1..], raw[0]))
  }

  /** Some positions, in order. */
  predicate Positions(at: seq<nat>, n: nat) {
    (forall i, k :: 0 <= i < k < |at| ==> at[i] < at[k]) && forall i :: 0 <= i < |at| ==> at[i] < n
  }

  /** What is at these positions. */
  predicate PickedFrom(picked: seq<Byte>, raw: seq<Byte>, at: seq<nat>) {
    Positions(at, |raw|) && |picked| == |at| && forall i :: 0 <= i < |at| ==> picked[i] == raw[at[i]]
  }

  /** A CR with an LF right after it. */
  predicate CrOfPair(raw: seq<Byte>, k: nat) {
    k + 1 < |raw| && raw[k] == CR && raw[k + 1] == LF
  }

  function Shifted(at: seq<nat>, width: nat): (shifted: seq<nat>)
    ensures |shifted| == |at| && forall i :: 0 <= i < |at| ==> shifted[i] == at[i] + width
  {
    seq(|at|, i requires 0 <= i < |at| => at[i] + width)
  }

  lemma ShiftedHas(at: seq<nat>, width: nat)
    ensures forall k: nat :: k in Shifted(at, width) <==> k >= width && k - width in at
  {
    forall k: nat ensures k in Shifted(at, width) <==> k >= width && k - width in at {
      if k >= width && k - width in at {
        var i :| 0 <= i < |at| && at[i] == k - width;
        assert Shifted(at, width)[i] == k;
      }
    }
  }

  /** `less` is `raw` at the positions `kept`, which are all but those of the CR of a CRLF. */
  predicate OnlyDrops(raw: seq<Byte>, less: seq<Byte>, kept: seq<nat>) {
    PickedFrom(less, raw, kept) && forall k: nat :: k < |raw| ==> (k in kept <==> !CrOfPair(raw, k))
  }

  /** The Unix form is the text without the CR of every CRLF, and with everything else. */
  lemma {:induction false} LfDrops(raw: seq<Byte>) returns (kept: seq<nat>)
    ensures OnlyDrops(raw, Lf(raw), kept)
  {
    if raw == [] {
      kept := [];
    } else {
      var more := LfDrops(raw[1..]);
      ShiftedHas(more, 1);
      kept := (if CrOfPair(raw, 0) then [] else [0]) + Shifted(more, 1);
      forall k: nat | k < |raw| ensures k in kept <==> !CrOfPair(raw, k) {
        if k > 0 { assert CrOfPair(raw, k) <==> CrOfPair(raw[1..], k - 1); }
      }
    }
  }

  /** Every LF has a CR right before it, the first byte's being `previous`. */
  predicate Wired(raw: seq<Byte>, previous: Byte) {
    forall i :: 0 <= i < |raw| && raw[i] == LF ==> Before(raw, previous, i) == CR
  }

  function Before(raw: seq<Byte>, previous: Byte, i: nat): Byte
    requires i < |raw|
  {
    if i == 0 then previous else raw[i - 1]
  }

  lemma {:induction false} CrlfIsWired(raw: seq<Byte>, previous: Byte)
    ensures Wired(Crlf(raw, previous), previous)
  {
    if raw != [] {
      CrlfIsWired(raw[1..], raw[0]);
      var more, added := Crlf(raw[1..], raw[0]), if raw[0] == LF && previous != CR then [CR] else [];
      var all := added + ([raw[0]] + more);
      forall i | 0 <= i < |all| && all[i] == LF ensures Before(all, previous, i) == CR {
        if i > |added| { assert all[i] == more[i - |added| - 1] && Before(more, raw[0], i - |added| - 1) == CR; }
      }
    }
  }

  /** A text of which that is so already is its own wire form, */
  lemma {:induction false} WiredStays(raw: seq<Byte>, previous: Byte)
    requires Wired(raw, previous)
    ensures Crlf(raw, previous) == raw
  {
    if raw != [] {
      forall i | 0 <= i < |raw[1..]| && raw[1..][i] == LF ensures Before(raw[1..], raw[0], i) == CR {
        assert raw[i + 1] == LF && Before(raw, previous, i + 1) == CR;
      }
      WiredStays(raw[1..], raw[0]);
      assert Before(raw, previous, 0) == previous;
      assert [raw[0]] + raw[1..] == raw && [] + raw == raw;
    }
  }

  /** `all` is `raw`, at the positions `kept`, with CRs put in, each right before an LF that had none. */
  predicate OnlyAdds(raw: seq<Byte>, all: seq<Byte>, kept: seq<nat>, previous: Byte) {
    && PickedFrom(raw, all, kept)
    && forall k: nat :: k < |all| && k !in kept ==> CrOfPair(all, k) && Before(all, previous, k) != CR
  }

  lemma KeepsByte(first: Byte, raw: seq<Byte>, all: seq<Byte>, kept: seq<nat>, previous: Byte)
    requires OnlyAdds(raw, all, kept, first)
    ensures OnlyAdds([first] + raw, [first] + all, [0] + Shifted(kept, 1), previous)
  {
    ShiftedHas(kept, 1);
    var more, at := [first] + all, [0] + Shifted(kept, 1);
    forall k: nat | k < |more| && k !in at ensures CrOfPair(more, k) && Before(more, previous, k) != CR {
      assert at[0] == 0 && k - 1 !in kept && CrOfPair(all, k - 1);
    }
  }

  lemma AddsCr(raw: seq<Byte>, all: seq<Byte>, kept: seq<nat>, previous: Byte)
    requires OnlyAdds(raw, all, kept, CR) && previous != CR && all != [] && all[0] == LF && 0 in kept
    ensures OnlyAdds(raw, [CR] + all, Shifted(kept, 1), previous)
  {
    ShiftedHas(kept, 1);
    var more, at := [CR] + all, Shifted(kept, 1);
    forall k: nat | k < |more| && k !in at ensures CrOfPair(more, k) && Before(more, previous, k) != CR {
      if k > 0 { assert k - 1 !in kept && k - 1 > 0 && CrOfPair(all, k - 1); }
    }
  }

  /** and of any text it is the text with CRs put in, each before an LF that had none. */
  lemma {:induction false} CrlfAdds(raw: seq<Byte>, previous: Byte) returns (kept: seq<nat>)
    ensures OnlyAdds(raw, Crlf(raw, previous), kept, previous)
  {
    if raw == [] {
      kept := [];
    } else {
      var first, rest := raw[0], raw[1..];
      assert raw == [first] + rest;
      var more := CrlfAdds(rest, first);
      kept := [0] + Shifted(more, 1);
      var all := [first] + Crlf(rest, first);
      if first == LF && previous != CR {
        KeepsByte(first, rest, Crlf(rest, first), more, CR);
        assert kept[0] == 0;
        AddsCr(raw, all, kept, previous);
        kept := Shifted(kept, 1);
      } else {
        KeepsByte(first, rest, Crlf(rest, first), more, previous);
        assert [] + all == all;
      }
    }
  }

  method ToLf(raw: seq<Byte>) returns (out: seq<Byte>)
    ensures out == Lf(raw)
    ensures exists kept :: OnlyDrops(raw, out, kept)
  {
    ghost var kept := LfDrops(raw);
    out := [];
    var i := 0;
    while i < |raw|
      invariant i <= |raw|
      invariant out + Lf(raw[i..]) == Lf(raw)
    {
      assert raw[i..][1..] == raw[i + 1..];
      if raw[i] == CR && i + 1 < |raw| && raw[i + 1] == LF {
        i := i + 1;
        continue;
      }
      out := out + [raw[i]];
      i := i + 1;
    }
  }

  method ToCrlf(raw: seq<Byte>) returns (out: seq<Byte>)
    ensures out == Crlf(raw, 0)
    ensures Wired(out, 0) && (Wired(raw, 0) ==> out == raw) && exists kept :: OnlyAdds(raw, out, kept, 0)
  {
    out := [];
    var previous: Byte := 0;
    for i := 0 to |raw|
      invariant out + Crlf(raw[i..], previous) == Crlf(raw, 0)
    {
      assert raw[i..][1..] == raw[i + 1..];
      if raw[i] == LF && previous != CR {
        out := out + [CR];
      }
      out := out + [raw[i]];
      previous := raw[i];
    }
    assert raw[|raw|..] == [];
    CrlfIsWired(raw, 0);
    ghost var kept := CrlfAdds(raw, 0);
    if Wired(raw, 0) { WiredStays(raw, 0); }
  }

  lemma LfStep(first: Byte, tail: seq<Byte>)
    ensures Lf([first] + tail) == if first == CR && tail != [] && tail[0] == LF then Lf(tail) else [first] + Lf(tail)
  {
    assert ([first] + tail)[1..] == tail;
  }

  /** After a CR the wire form begins as the text does, and so whether the CR goes is the same of both. */
  lemma CrlfHead(raw: seq<Byte>)
    ensures raw == [] <==> Crlf(raw, CR) == []
    ensures raw != [] ==> Crlf(raw, CR)[0] == raw[0]
  {
  }

  lemma LfOfPair(tail: seq<Byte>)
    ensures Lf([CR] + ([LF] + tail)) == [LF] + Lf(tail)
  {
    LfStep(CR, [LF] + tail);
    LfStep(LF, tail);
  }

  /** One byte before: what is added before it is taken away again. */
  lemma LfOfCrlfStep(first: Byte, rest: seq<Byte>, tail: seq<Byte>, added: bool)
    requires Lf(tail) == Lf(rest) && (added ==> first == LF)
    requires first == CR ==> (tail == [] <==> rest == []) && (rest != [] ==> tail[0] == rest[0])
    ensures Lf((if added then [CR] else []) + ([first] + tail)) == Lf([first] + rest)
  {
    LfStep(first, tail);
    LfStep(first, rest);
    if added {
      LfOfPair(tail);
    } else {
      assert [] + ([first] + tail) == [first] + tail;
    }
  }

  /** The Unix form of the wire form is the Unix form: `crlf` adds nothing `lf` does not take away. */
  lemma {:induction false} LfOfCrlf(raw: seq<Byte>, previous: Byte)
    ensures Lf(Crlf(raw, previous)) == Lf(raw)
  {
    if raw != [] {
      var first, rest := raw[0], raw[1..];
      LfOfCrlf(rest, first);
      CrlfHead(rest);
      LfOfCrlfStep(first, rest, Crlf(rest, first), first == LF && previous != CR);
      assert raw == [first] + rest;
    }
  }
}
