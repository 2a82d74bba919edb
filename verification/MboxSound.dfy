/** What holds of a length said of any file at all: counting loses no byte, a length not believed after all is undone, and
    when the lines it puts back are the ones there were. */
module MboxSound {
  import opened Options
  import opened Bytes
  import opened MboxFormat
  import opened MboxSplit

  predicate NoneEmpty(pieces: seq<Piece>) {
    forall i :: 0 <= i < |pieces| ==> pieces[i] != []
  }

  // ---------- a counted body

  /** Counting takes bytes off the front and leaves the rest, in order. It takes too few only where there
      are no more. */
  lemma {:induction false} TakeConserves(pieces: seq<Piece>, n: nat)
    requires NoneEmpty(pieces)
    ensures var taken := TakeBody(pieces, n);
            && taken.body + Flatten(taken.rest) == Flatten(pieces)
            && |taken.body| <= n && (|taken.body| < n ==> taken.rest == [])
            && NoneEmpty(taken.rest)
    decreases |pieces|
  {
    if n > 0 && pieces != [] {
      if |pieces[0]| > n {
        var cut := [pieces[0][n..]] + pieces[1..];
        assert cut[1..] == pieces[1..];
        assert pieces[0] == pieces[0][..n] + pieces[0][n..];
        Reassociate(pieces[0][..n], pieces[0][n..], Flatten(pieces[1..]));
      } else {
        TakeConserves(pieces[1..], n - |pieces[0]|);
        var more := TakeBody(pieces[1..], n - |pieces[0]|);
        Reassociate(pieces[0], more.body, Flatten(more.rest));
      }
    }
  }

  /** A length rejected is undone: the bytes still to be read are the ones there were. */
  lemma RejectedLengthUndone(pieces: seq<Piece>, n: nat)
    requires NoneEmpty(pieces)
    ensures Flatten(PutBack(pieces, n)) == Flatten(pieces)
    ensures NoneEmpty(PutBack(pieces, n))
  {
    TakeConserves(pieces, n);
    var taken := TakeBody(pieces, n);
    LinesFlatten(taken.body);
    LinesWellSplit(taken.body);
    WellSplitLines(Lines(taken.body));
    FlattenConcat(Lines(taken.body), taken.rest);
    forall i | 0 <= i < |PutBack(pieces, n)| ensures PutBack(pieces, n)[i] != [] {
      if i < |Lines(taken.body)| { assert Lines(taken.body)[i] in Lines(taken.body); }
    }
  }

  /** The cut falls at the end of a line, or past the end. */
  predicate CutsClean(pieces: seq<Piece>, n: nat)
    decreases |pieces|
  {
    n == 0 || pieces == [] || (|pieces[0]| <= n && CutsClean(pieces[1..], n - |pieces[0]|))
  }

  lemma CutsCleanMeans(pieces: seq<Piece>, n: nat)
    ensures CutsClean(pieces, n) <==> n >= Size(pieces) || exists i :: 0 <= i <= |pieces| && Size(pieces[..i]) == n
    decreases |pieces|
  {
    if n > 0 && pieces != [] {
      assert Flatten(pieces) == pieces[0] + Flatten(pieces[1..]);
      if |pieces[0]| <= n {
        CutsCleanMeans(pieces[1..], n - |pieces[0]|);
        forall i | 0 <= i < |pieces| ensures Size(pieces[..i + 1]) == |pieces[0]| + Size(pieces[1..][..i]) {
          assert pieces[..i + 1][1..] == pieces[1..][..i];
        }
        if i :| 0 <= i <= |pieces| && Size(pieces[..i]) == n {
          assert i > 0;
          assert Size(pieces[1..][..i - 1]) == n - |pieces[0]|;
        }
        if i :| 0 <= i <= |pieces[1..]| && Size(pieces[1..][..i]) == n - |pieces[0]| {
          assert Size(pieces[..i + 1]) == n;
        }
      } else {
        forall i | 0 < i <= |pieces| ensures Size(pieces[..i]) >= |pieces[0]| {
          assert pieces[..i][1..] == pieces[1..i];
        }
      }
    } else if n == 0 {
      assert Size(pieces[..0]) == 0;
    }
  }

  /** A cut inside the first line makes it two. */
  lemma PutBackCut(pieces: seq<Piece>, n: nat)
    requires pieces != [] && IsLine(pieces[0]) && 0 < n < |pieces[0]|
    ensures PutBack(pieces, n) == [pieces[0][..n], pieces[0][n..]] + pieces[1..]
  {
    var body := pieces[0][..n];
    assert IsLine(body) by { assert body == pieces[0][..|pieces[0]| - 1][..n]; }
    OneLine(body);
    Reassociate([body], [pieces[0][n..]], pieces[1..]);
  }

  /** A cut past the first line leaves it. */
  lemma PutBackPast(pieces: seq<Piece>, n: nat)
    requires pieces != [] && IsLine(pieces[0]) && 0 < n && |pieces[0]| <= n
    requires Terminated(pieces[0]) || pieces[1..] == []
    ensures PutBack(pieces, n) == [pieces[0]] + PutBack(pieces[1..], n - |pieces[0]|)
  {
    var more := TakeBody(pieces[1..], n - |pieces[0]|);
    if Terminated(pieces[0]) {
      LinesFirst(pieces[0], more.body);
      Reassociate([pieces[0]], Lines(more.body), more.rest);
    } else {
      assert more.body == [] && more.rest == [];
      assert pieces[0] + [] == pieces[0];
      OneLine(pieces[0]);
    }
  }

  /** The lines are as they were after a rejection exactly when the cut fell at the end of one. Otherwise one
      line has become two. */
  lemma {:induction false} SegmentationKept(pieces: seq<Piece>, n: nat)
    requires WellSplit(pieces)
    ensures PutBack(pieces, n) == pieces <==> CutsClean(pieces, n)
    ensures !CutsClean(pieces, n) ==> |PutBack(pieces, n)| == |pieces| + 1
    decreases |pieces|
  {
    if n > 0 && pieces != [] {
      if |pieces[0]| > n {
        PutBackCut(pieces, n);
      } else {
        var others, m := pieces[1..], n - |pieces[0]|;
        SegmentationKept(others, m);
        PutBackPast(pieces, n);
        KeptPast(pieces, PutBack(others, m), PutBack(pieces, n));
      }
    } else {
      NothingPutBack(pieces, n);
    }
  }

  lemma {:induction false} KeptPast(pieces: seq<Piece>, put: seq<Piece>, all: seq<Piece>)
    requires pieces != [] && all == [pieces[0]] + put
    ensures (all == pieces <==> put == pieces[1..]) && |all| == |put| + 1
  {
    assert pieces == [pieces[0]] + pieces[1..];
    SameTail(pieces[0], put, pieces[1..]);
  }

  lemma NothingPutBack(pieces: seq<Piece>, n: nat)
    requires n == 0 || pieces == []
    ensures PutBack(pieces, n) == pieces
  {
    assert [] + pieces == pieces;
  }

  /** Where the cut was clean, the message read is the one that would have been read had the length not been
      believed, and so is everything after it. */
  lemma RejectedReadsTheSame(pieces: seq<Piece>, envelope: Envelope, raw: seq<Byte>, length: Option<nat>)
    requires WellSplit(pieces) && Believed(length, false) && !Fits(pieces, length.value) && CutsClean(pieces, length.value)
    ensures var rejected := ParseBody(pieces, envelope, raw, length, false);
            var scanned := ParseBody(pieces, envelope, raw, length, true);
            rejected.item == scanned.item && rejected.rest == scanned.rest && rejected.lie == scanned.lie
  {
    SegmentationKept(pieces, length.value);
  }

  // ---------- a cut

  /** Which line a length cuts, where it cuts one, */
  function CutAt(pieces: seq<Piece>, n: nat): nat
    decreases |pieces|
  {
    if n == 0 || pieces == [] || |pieces[0]| > n then 0 else 1 + CutAt(pieces[1..], n - |pieces[0]|)
  }

  /** and what it cuts it into. */
  function CutHead(pieces: seq<Piece>, n: nat): Piece
    decreases |pieces|
  {
    if n == 0 || pieces == [] then []
    else if |pieces[0]| > n then pieces[0][..n]
    else CutHead(pieces[1..], n - |pieces[0]|)
  }

  function CutTail(pieces: seq<Piece>, n: nat): Piece
    decreases |pieces|
  {
    if n == 0 || pieces == [] then []
    else if |pieces[0]| > n then pieces[0][n..]
    else CutTail(pieces[1..], n - |pieces[0]|)
  }

  /** Pieces, one of them in two parts, */
  function InParts(pieces: seq<Piece>, k: nat, head: Piece, tail: Piece): seq<Piece>
    requires k < |pieces|
  {
    if k == 0 then [head] + ([tail] + pieces[1..]) else [pieces[0]] + InParts(pieces[1..], k - 1, head, tail)
  }

  /** and what is left after the first part. */
  function AfterCut(pieces: seq<Piece>, k: nat, tail: Piece): seq<Piece>
    requires k < |pieces|
  {
    if k == 0 then [tail] + pieces[1..] else AfterCut(pieces[1..], k - 1, tail)
  }

  /** Two parts of a piece. */
  predicate PartsOf(pieces: seq<Piece>, k: nat, head: Piece, tail: Piece) {
    k < |pieces| && head != [] && tail != [] && pieces[k] == head + tail
  }

  /** The cut is inside that line, whose two parts are put back in its place; and the second is what is left to read after
      the bytes counted. */
  lemma {:induction false} CutIs(pieces: seq<Piece>, n: nat)
    requires WellSplit(pieces) && !CutsClean(pieces, n)
    ensures CutSays(pieces, n, CutAt(pieces, n), CutHead(pieces, n), CutTail(pieces, n))
    decreases |pieces|
  {
    if |pieces[0]| > n {
      CutHere(pieces, n);
    } else {
      var others, m := pieces[1..], n - |pieces[0]|;
      CutIs(others, m);
      CutPast(pieces, n, CutAt(others, m), CutHead(others, m), CutTail(others, m));
    }
  }

  predicate CutSays(pieces: seq<Piece>, n: nat, k: nat, head: Piece, tail: Piece) {
    && PartsOf(pieces, k, head, tail) && PutBack(pieces, n) == InParts(pieces, k, head, tail)
    && |TakeBody(pieces, n).body| == n && TakeBody(pieces, n).rest == AfterCut(pieces, k, tail)
  }

  lemma {:induction false} CutHere(pieces: seq<Piece>, n: nat)
    requires pieces != [] && IsLine(pieces[0]) && 0 < n < |pieces[0]|
    ensures CutSays(pieces, n, 0, pieces[0][..n], pieces[0][n..])
  {
    var head, tail := pieces[0][..n], pieces[0][n..];
    PutBackCut(pieces, n);
    assert head + tail == pieces[0];
    assert [head, tail] + pieces[1..] == [head] + ([tail] + pieces[1..]);
  }

  lemma {:induction false} CutPast(pieces: seq<Piece>, n: nat, k: nat, head: Piece, tail: Piece)
    requires pieces != [] && IsLine(pieces[0]) && Terminated(pieces[0]) && 0 < n && |pieces[0]| <= n
    requires CutSays(pieces[1..], n - |pieces[0]|, k, head, tail)
    ensures CutSays(pieces, n, k + 1, head, tail)
  {
    PutBackPast(pieces, n);
  }

  lemma InPartsFirst(first: Piece, others: seq<Piece>, head: Piece, tail: Piece)
    ensures InParts([first] + others, 0, head, tail) == [head] + ([tail] + others)
    ensures AfterCut([first] + others, 0, tail) == [tail] + others
  {
    assert ([first] + others)[1..] == others;
  }

  lemma InPartsNext(first: Piece, others: seq<Piece>, k: nat, head: Piece, tail: Piece)
    requires k < |others|
    ensures ([first] + others)[k + 1] == others[k]
    ensures InParts([first] + others, k + 1, head, tail) == [first] + InParts(others, k, head, tail)
    ensures AfterCut([first] + others, k + 1, tail) == AfterCut(others, k, tail)
  {
    assert ([first] + others)[1..] == others;
  }

  /** A cut past the first pieces. */
  lemma {:induction false} InPartsAfter(front: seq<Piece>, rest: seq<Piece>, k: nat, head: Piece, tail: Piece)
    requires |front| <= k < |front| + |rest|
    ensures (front + rest)[k] == rest[k - |front|]
    ensures InParts(front + rest, k, head, tail) == front + InParts(rest, k - |front|, head, tail)
    ensures AfterCut(front + rest, k, tail) == AfterCut(rest, k - |front|, tail)
  {
    if front == [] {
      assert front + rest == rest && front + InParts(rest, k, head, tail) == InParts(rest, k, head, tail);
    } else {
      var first, others := front[0], front[1..];
      assert front == [first] + others;
      InPartsAfter(others, rest, k - 1, head, tail);
      InPartsNext(first, others + rest, k - 1, head, tail);
      Reassociate([first], others, rest);
      Reassociate([first], others, InParts(rest, k - |front|, head, tail));
    }
  }

  /** A cut in the first pieces. */
  lemma {:induction false} InPartsBefore(front: seq<Piece>, rest: seq<Piece>, k: nat, head: Piece, tail: Piece)
    requires k < |front|
    ensures (front + rest)[k] == front[k]
    ensures InParts(front + rest, k, head, tail) == InParts(front, k, head, tail) + rest
    ensures AfterCut(front + rest, k, tail) == AfterCut(front, k, tail) + rest
  {
    var first, others := front[0], front[1..];
    assert front == [first] + others;
    Reassociate([first], others, rest);
    if k == 0 {
      InPartsFirst(first, others + rest, head, tail);
      Reassociate([tail], others, rest);
      Reassociate([head], [tail] + others, rest);
    } else {
      InPartsBefore(others, rest, k - 1, head, tail);
      InPartsNext(first, others + rest, k - 1, head, tail);
      Reassociate([first], InParts(others, k - 1, head, tail), rest);
    }
  }
}
