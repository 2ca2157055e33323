/**
 Incremental framing of the app-server's output. Chunks of text arrive cut anywhere; complete
 lines are taken out of the buffer, trimmed and handled, and blank ones are dropped. A buffer
 over the byte limit kills the process and is kept as it is.
 */
module LineFraming {
  import opened Text
  import opened Common

  const BUFFER_LIMIT: nat := 2 * 1024 * 1024

  // ---- Lengths in UTF-8 ----

  /** A surrogate pair takes four bytes; a lone surrogate is replaced by a three-byte character. */
  function Utf8Length(t: Text): nat {
    if t == [] then 0
    else if |t| >= 2 && IsLead(t[0]) && IsTrail(t[1]) then 4 + Utf8Length(t[2..])
    else (if t[0] < 0x80 then 1 else if t[0] < 0x800 then 2 else 3) + Utf8Length(t[1..])
  }

  lemma {:induction false} Utf8LengthGrows(a: Text, b: Text)
    ensures Utf8Length(a) <= Utf8Length(a + b)
    decreases |a|
  {
    if |a| >= 2 && IsLead(a[0]) && IsTrail(a[1]) {
      assert (a + b)[2..] == a[2..] + b;
      Utf8LengthGrows(a[2..], b);
    } else if |a| >= 2 {
      assert (a + b)[1..] == a[1..] + b;
      Utf8LengthGrows(a[1..], b);
    } else if |a| == 1 {
      assert Utf8Length(a) <= 3 && (a + b)[0] == a[0];
      assert IsLead(a[0]) ==> a[0] >= 0x800;
    }
  }

  // ---- Splitting a whole text ----

  function OnFirst(u: Unit, pieces: seq<Text>): seq<Text>
    requires pieces != []
  {
    [[u] + pieces[0]] + pieces[1..]
  }

  /** Each unit takes one to three bytes, and one only where it is ASCII. */
  lemma {:induction false} Utf8Bounds(t: Text)
    ensures |t| <= Utf8Length(t) <= 3 * |t|
    ensures Utf8Length(t) == |t| <==> forall i :: 0 <= i < |t| ==> t[i] < 0x80
  {
    if |t| >= 2 && IsLead(t[0]) && IsTrail(t[1]) {
      Utf8Bounds(t[2..]);
    } else if t != [] {
      Utf8Bounds(t[1..]);
      assert t == [t[0]] + t[1..];
    }
  }

  /** The text cut at every newline: one piece more than there are newlines. */
  function Pieces(t: Text): (pieces: seq<Text>)
    ensures pieces != []
  {
    if t == [] then [[]]
    else
      if t[0] == NEWLINE then [[]] + Pieces(t[1..]) else OnFirst(t[0], Pieces(t[1..]))
  }

  function Joined(pieces: seq<Text>): Text
    requires pieces != []
  {
    if |pieces| == 1 then pieces[0] else pieces[0] + [NEWLINE] + Joined(pieces[1..])
  }

  predicate NoNewline(t: Text) {
    forall i :: 0 <= i < |t| ==> t[i] != NEWLINE
  }

  /** `Pieces` undoes the joining of newline-free lines, and every text is such a joining. */
  lemma {:induction false} PiecesOfJoined(pieces: seq<Text>)
    requires pieces != [] && forall i :: 0 <= i < |pieces| ==> NoNewline(pieces[i])
    ensures Pieces(Joined(pieces)) == pieces
  {
    if |pieces| == 1 {
      PiecesOfLine(pieces[0], []);
      assert pieces[0] + [] == pieces[0];
      assert [pieces[0]] + [[]][1..] == pieces;
    } else {
      PiecesOfJoined(pieces[1..]);
      var rest := [NEWLINE] + Joined(pieces[1..]);
      assert rest[1..] == Joined(pieces[1..]);
      PiecesOfLine(pieces[0], rest);
      assert pieces[0] + [NEWLINE] + Joined(pieces[1..]) == pieces[0] + rest;
      assert Pieces(rest) == [[]] + pieces[1..] && pieces[0] + [] == pieces[0];
      assert [pieces[0]] + Pieces(rest)[1..] == pieces;
    }
  }

  lemma {:induction false} PiecesOfLine(line: Text, rest: Text)
    requires NoNewline(line)
    ensures Pieces(line + rest) == [line + Pieces(rest)[0]] + Pieces(rest)[1..]
  {
    if line == [] {
      assert line + rest == rest && line + Pieces(rest)[0] == Pieces(rest)[0];
    } else {
      assert (line + rest)[1..] == line[1..] + rest;
      PiecesOfLine(line[1..], rest);
      assert [line[0]] + (line[1..] + Pieces(rest)[0]) == line + Pieces(rest)[0];
    }
  }

  lemma {:induction false} JoinedPieces(t: Text)
    ensures Joined(Pieces(t)) == t
    ensures forall i :: 0 <= i < |Pieces(t)| ==> NoNewline(Pieces(t)[i])
  {
    if t != [] {
      JoinedPieces(t[1..]);
      assert [t[0]] + t[1..] == t;
      if t[0] == NEWLINE {
        JoinedAfterNewline(Pieces(t[1..]));
      } else {
        JoinedOnFirst(t[0], Pieces(t[1..]));
      }
    }
  }

  lemma JoinedAfterNewline(pieces: seq<Text>)
    requires pieces != []
    ensures Joined([[]] + pieces) == [NEWLINE] + Joined(pieces)
  {
    assert ([[]] + pieces)[1..] == pieces;
    assert [] + [NEWLINE] + Joined(pieces) == [NEWLINE] + Joined(pieces);
  }

  lemma JoinedOnFirst(u: Unit, pieces: seq<Text>)
    requires pieces != []
    ensures Joined(OnFirst(u, pieces)) == [u] + Joined(pieces)
  {
    var all := OnFirst(u, pieces);
    assert all[1..] == pieces[1..];
    if |pieces| > 1 {
      assert [u] + pieces[0] + [NEWLINE] + Joined(pieces[1..]) == [u] + (pieces[0] + [NEWLINE] + Joined(pieces[1..]));
    }
  }

  function TrimStart(t: Text): Text {
    if t != [] && IsSpace(t[0]) then TrimStart(t[1..]) else t
  }

  function TrimEnd(t: Text): Text {
    if t != [] && IsSpace(t[|t| - 1]) then TrimEnd(t[..|t| - 1]) else t
  }

  function Trim(t: Text): Text {
    TrimEnd(TrimStart(t))
  }

  lemma {:induction false} TrimStartSplits(t: Text)
    ensures var s := TrimStart(t);
            |s| <= |t| && s == t[|t| - |s|..] && AllSpace(t[..|t| - |s|]) && (s != [] ==> !IsSpace(s[0]))
  {
    if t != [] && IsSpace(t[0]) {
      TrimStartSplits(t[1..]);
      var s := TrimStart(t);
      assert t[..|t| - |s|] == [t[0]] + t[1..][..|t| - 1 - |s|];
    }
  }

  lemma {:induction false} TrimEndSplits(t: Text)
    ensures var s := TrimEnd(t);
            |s| <= |t| && s == t[..|s|] && AllSpace(t[|s|..]) && (s != [] ==> !IsSpace(s[|s| - 1]))
  {
    if t != [] && IsSpace(t[|t| - 1]) {
      TrimEndSplits(t[..|t| - 1]);
      var s := TrimEnd(t);
      assert t[|s|..] == t[..|t| - 1][|s|..] + [t[|t| - 1]];
    }
  }

  /** Trimming takes white space off both ends, and all of it. */
  lemma TrimSplits(t: Text) returns (lead: Text, trail: Text)
    ensures t == lead + Trim(t) + trail && AllSpace(lead) && AllSpace(trail)
    ensures Trim(t) != [] ==> !IsSpace(Trim(t)[0]) && !IsSpace(Trim(t)[|Trim(t)| - 1])
  {
    var s := TrimStart(t);
    TrimStartSplits(t);
    TrimEndSplits(s);
    lead, trail := t[..|t| - |s|], s[|Trim(t)|..];
    assert s == Trim(t) + trail && t == lead + s;
  }

  /** Trimmed lines without the blank ones. */
  function Handled(lines: seq<Text>): seq<Text> {
    if lines == [] then []
    else (if Trim(lines[0]) == [] then [] else [Trim(lines[0])]) + Handled(lines[1..])
  }

  function Last(pieces: seq<Text>): Text
    requires pieces != []
  {
    pieces[|pieces| - 1]
  }

  function ButLast(pieces: seq<Text>): seq<Text>
    requires pieces != []
  {
    pieces[..|pieces| - 1]
  }

  /** The messages in a whole text, and what is left after its last newline. */
  function Frames(t: Text): seq<Text> {
    Handled(ButLast(Pieces(t)))
  }

  function Rest(t: Text): Text {
    Last(Pieces(t))
  }

  // ---- Incremental framing agrees with splitting the whole ----

  lemma OnFirstAppend(u: Unit, pieces: seq<Text>, more: seq<Text>)
    requires |pieces| > 1
    ensures OnFirst(u, ButLast(pieces) + more) == ButLast(OnFirst(u, pieces)) + more
    ensures Last(OnFirst(u, pieces)) == Last(pieces)
  {
  }

  lemma {:induction false} PiecesAppend(a: Text, b: Text)
    ensures Pieces(a + b) == ButLast(Pieces(a)) + Pieces(Rest(a) + b)
  {
    if a == [] {
      assert a + b == b && [] + b == b;
    } else {
      var u, rest := a[0], Pieces(a[1..]);
      assert (a + b)[1..] == a[1..] + b;
      PiecesAppend(a[1..], b);
      if u == NEWLINE {
        assert ButLast([[]] + rest) == [[]] + ButLast(rest) && Last([[]] + rest) == Last(rest);
        assert [[]] + (ButLast(rest) + Pieces(Last(rest) + b)) == [[]] + ButLast(rest) + Pieces(Last(rest) + b);
      } else if |rest| > 1 {
        OnFirstAppend(u, rest, Pieces(Last(rest) + b));
      } else {
        assert ([u] + rest[0] + b)[1..] == rest[0] + b;
        assert [] + Pieces(rest[0] + b) == Pieces(rest[0] + b);
        assert Rest(a) == [u] + rest[0];
        assert [] + Pieces(Rest(a) + b) == Pieces(Rest(a) + b);
      }
    }
  }

  lemma {:induction false} HandledAppend(a: seq<Text>, b: seq<Text>)
    ensures Handled(a + b) == Handled(a) + Handled(b)
  {
    if a == [] {
      assert a + b == b;
    } else {
      assert (a + b)[1..] == a[1..] + b;
      HandledAppend(a[1..], b);
    }
  }

  lemma FramesAppend(a: Text, b: Text)
    ensures Frames(a + b) == Frames(a) + Frames(Rest(a) + b)
    ensures Rest(a + b) == Rest(Rest(a) + b)
  {
    PiecesAppend(a, b);
    var tail := Pieces(Rest(a) + b);
    assert ButLast(Pieces(a + b)) == ButLast(Pieces(a)) + ButLast(tail);
    HandledAppend(ButLast(Pieces(a)), ButLast(tail));
  }

  /** Taking one line off the front of the buffer. */
  lemma FrameAtNewline(t: Text, n: nat)
    requires n < |t| && t[n] == NEWLINE && NoNewline(t[..n])
    ensures Frames(t) == Handled([t[..n]]) + Frames(t[n + 1..]) && Rest(t) == Rest(t[n + 1..])
  {
    var more := Pieces(t[n + 1..]);
    assert t == t[..n] + t[n..] && t[n..][1..] == t[n + 1..];
    PiecesOfLine(t[..n], t[n..]);
    assert Pieces(t[n..]) == [[]] + more && t[..n] + [] == t[..n];
    assert Pieces(t) == [t[..n]] + more;
    assert ButLast(Pieces(t)) == [t[..n]] + ButLast(more);
    HandledAppend([t[..n]], ButLast(more));
  }

  lemma NoMoreFrames(t: Text)
    requires NoNewline(t)
    ensures Frames(t) == [] && Rest(t) == t
  {
    PiecesOfLine(t, []);
    assert t + [] == t && [t] + [[]][1..] == [t];
  }

  datatype Framer = Framer(buffer: Text, handled: seq<Text>, crossings: nat)

  function Feed(f: Framer, chunk: Text): Framer {
    var buffer := f.buffer + chunk;
    if Utf8Length(buffer) > BUFFER_LIMIT then Framer(buffer, f.handled, f.crossings + 1)
    else Framer(Rest(buffer), f.handled + Frames(buffer), f.crossings)
  }

  function FeedAll(f: Framer, chunks: seq<Text>): Framer {
    if chunks == [] then f else Feed(FeedAll(f, chunks[..|chunks| - 1]), chunks[|chunks| - 1])
  }

  function Concatenated(chunks: seq<Text>): Text {
    if chunks == [] then [] else Concatenated(chunks[..|chunks| - 1]) + chunks[|chunks| - 1]
  }

  const START := Framer([], [], 0)

  /** The number of leading chunks that arrive before the limit is first crossed. */
  function Admitted(chunks: seq<Text>): (n: nat)
    ensures n <= |chunks|
  {
    if chunks == [] then 0
    else
      var last := |chunks| - 1;
      var n := Admitted(chunks[..last]);
      if n == last && Utf8Length(Rest(Concatenated(chunks[..last])) + chunks[last]) <= BUFFER_LIMIT then |chunks| else n
  }

  /** What `Admitted` promises of the framer. */
  predicate Agrees(f: Framer, chunks: seq<Text>, n: nat)
    requires n <= |chunks|
  {
    && f.handled == Frames(Concatenated(chunks[..n]))
    && f.crossings == |chunks| - n
    && (n == |chunks| ==> f.buffer == Rest(Concatenated(chunks)))
    && (n < |chunks| ==> Utf8Length(f.buffer) > BUFFER_LIMIT)
  }

  lemma OneMoreChunk(f: Framer, chunks: seq<Text>, n: nat, chunk: Text)
    requires n <= |chunks| && Agrees(f, chunks, n)
    ensures var all := chunks + [chunk];
            if n == |chunks| && Utf8Length(Rest(Concatenated(chunks)) + chunk) <= BUFFER_LIMIT then Agrees(Feed(f, chunk), all, |all|)
            else Agrees(Feed(f, chunk), all, n)
  {
    var all := chunks + [chunk];
    assert all[..|chunks|] == chunks && all[..|all|] == all && chunks[..|chunks|] == chunks;
    assert all[..n] == chunks[..n];
    Utf8LengthGrows(f.buffer, chunk);
    FramesAppend(Concatenated(chunks), chunk);
    assert Concatenated(all) == Concatenated(chunks) + chunk;
  }

  /**
   What has been handled is exactly what splitting the whole text received before the first
   crossing gives, and after that crossing nothing is handled any more.
   */
  lemma {:induction false} FramingIsSplitting(chunks: seq<Text>)
    ensures Agrees(FeedAll(START, chunks), chunks, Admitted(chunks))
  {
    if chunks == [] {
      assert Pieces([]) == [[]] && ButLast([[]]) == [];
      assert chunks[..0] == [];
    } else {
      var last := |chunks| - 1;
      FramingIsSplitting(chunks[..last]);
      assert chunks == chunks[..last] + [chunks[last]];
      OneMoreChunk(FeedAll(START, chunks[..last]), chunks[..last], Admitted(chunks[..last]), chunks[last]);
    }
  }

  /** Where the chunks are cut does not matter as long as the limit is not crossed. */
  lemma ChunksDoNotMatter(a: seq<Text>, b: seq<Text>)
    requires Concatenated(a) == Concatenated(b)
    requires FeedAll(START, a).crossings == 0 && FeedAll(START, b).crossings == 0
    ensures FeedAll(START, a) == FeedAll(START, b)
  {
    FramingIsSplitting(a);
    FramingIsSplitting(b);
    assert a[..|a|] == a && b[..|b|] == b;
  }
}
