/**
 Splitting a text into pieces that stand next to each other with white space around them, given
 how one piece is cut off. Nothing here depends on what a piece is.
 */
module AdjacentSplit {
  import opened Text
  import opened Common
  import Json

  datatype Piece = Piece(slice: Text, value: Json.Json)

  /** A piece cut off the front of a text, and the text after it. */
  datatype Cut = Cut(piece: Piece, rest: Text)

  type Cutter = Text -> Option<Cut>

  /** What is cut off is a piece, with its value, from the front of the text. */
  ghost predicate CutsPieces(cut: Cutter, isPiece: Text -> bool, valueOf: Text -> Json.Json) {
    forall t :: cut(t).Some? ==>
      var c := cut(t).value;
      isPiece(c.piece.slice) && c.piece.value == valueOf(c.piece.slice) && t == c.piece.slice + c.rest
  }

  /** Cuts off exactly the texts that `isPiece` accepts, whatever follows them. */
  ghost predicate Exact(cut: Cutter, isPiece: Text -> bool, valueOf: Text -> Json.Json) {
    && CutsPieces(cut, isPiece, valueOf)
    && (forall slice, rest :: isPiece(slice) ==> cut(slice + rest) == Some(Cut(Piece(slice, valueOf(slice)), rest)))
    && (forall slice :: isPiece(slice) ==> slice != [] && !IsSpace(slice[0]))
  }

  function SkipWhite(s: Text): (r: Text)
    ensures |r| <= |s|
  {
    if s != [] && IsSpace(s[0]) then SkipWhite(s[1..]) else s
  }

  function Prefixed(piece: Piece, rest: Option<seq<Piece>>): Option<seq<Piece>> {
    match rest
    case None => None
    case Some(pieces) => Some([piece] + pieces)
  }

  ghost predicate Shrinks(cut: Cutter) {
    forall t :: cut(t).Some? ==> |cut(t).value.rest| < |t|
  }

  /** The pieces from here on, of which at most `room` may come. */
  function SplitFrom(cut: Cutter, s: Text, room: nat): Option<seq<Piece>>
    requires Shrinks(cut)
    decreases |s|
  {
    var t := SkipWhite(s);
    if t == [] then Some([])
    else if room == 0 then None
    else
      match cut(t)
      case None => None
      case Some(c) => Prefixed(c.piece, SplitFrom(cut, c.rest, room - 1))
  }

  function Interleave(gaps: seq<Text>, slices: seq<Text>): Text
    requires |gaps| == |slices| + 1
  {
    if slices == [] then gaps[0] else gaps[0] + slices[0] + Interleave(gaps[1..], slices[1..])
  }

  predicate AllGaps(gaps: seq<Text>) {
    forall i :: 0 <= i < |gaps| ==> AllSpace(gaps[i])
  }

  predicate AllPieces(isPiece: Text -> bool, slices: seq<Text>) {
    forall i :: 0 <= i < |slices| ==> isPiece(slices[i])
  }

  function Pieces(valueOf: Text -> Json.Json, slices: seq<Text>): (pieces: seq<Piece>)
    ensures |pieces| == |slices|
  {
    if slices == [] then [] else [Piece(slices[0], valueOf(slices[0]))] + Pieces(valueOf, slices[1..])
  }

  function Slices(pieces: seq<Piece>): seq<Text> {
    if pieces == [] then [] else [pieces[0].slice] + Slices(pieces[1..])
  }

  function Values(pieces: seq<Piece>): seq<Json.Json> {
    if pieces == [] then [] else [pieces[0].value] + Values(pieces[1..])
  }

  lemma ExactShrinks(cut: Cutter, isPiece: Text -> bool, valueOf: Text -> Json.Json)
    requires Exact(cut, isPiece, valueOf)
    ensures Shrinks(cut)
  {
    forall t | cut(t).Some? ensures |cut(t).value.rest| < |t| {
      assert isPiece(cut(t).value.piece.slice);
    }
  }

  // ---------------------------------------------------------------- completeness

  lemma {:induction false} SkipGap(gap: Text, rest: Text)
    requires AllSpace(gap) && (rest == [] || !IsSpace(rest[0]))
    ensures SkipWhite(gap + rest) == rest
  {
    if gap == [] {
      assert gap + rest == rest;
    } else {
      assert (gap + rest)[1..] == gap[1..] + rest;
      SkipGap(gap[1..], rest);
    }
  }

  lemma SplitOne(cut: Cutter, isPiece: Text -> bool, valueOf: Text -> Json.Json, gap: Text, slice: Text, rest: Text, room: nat)
    requires Exact(cut, isPiece, valueOf) && Shrinks(cut) && AllSpace(gap) && isPiece(slice)
    ensures SplitFrom(cut, gap + slice + rest, room)
         == if room == 0 then None else Prefixed(Piece(slice, valueOf(slice)), SplitFrom(cut, rest, room - 1))
  {
    assert gap + slice + rest == gap + (slice + rest);
    SkipGap(gap, slice + rest);
    assert cut(slice + rest) == Some(Cut(Piece(slice, valueOf(slice)), rest));
  }

  /** Any pieces separated by any white space are split into exactly those pieces, or refused when too many. */
  lemma {:induction false} SplitComplete(cut: Cutter, isPiece: Text -> bool, valueOf: Text -> Json.Json,
                                         gaps: seq<Text>, slices: seq<Text>, room: nat)
    requires Exact(cut, isPiece, valueOf) && Shrinks(cut)
    requires |gaps| == |slices| + 1 && AllGaps(gaps) && AllPieces(isPiece, slices)
    ensures SplitFrom(cut, Interleave(gaps, slices), room)
         == if |slices| <= room then Some(Pieces(valueOf, slices)) else None
    decreases |slices|
  {
    if slices == [] {
      SkipGap(gaps[0], []);
      assert gaps[0] + [] == gaps[0];
    } else {
      SplitOne(cut, isPiece, valueOf, gaps[0], slices[0], Interleave(gaps[1..], slices[1..]), room);
      if room > 0 {
        SplitComplete(cut, isPiece, valueOf, gaps[1..], slices[1..], room - 1);
      }
    }
  }

  // ---------------------------------------------------------------- soundness

  lemma {:induction false} SkipWhiteSplits(s: Text)
    ensures var r := SkipWhite(s);
            AllSpace(s[..|s| - |r|]) && s == s[..|s| - |r|] + r && (r != [] ==> !IsSpace(r[0]))
  {
    if s != [] && IsSpace(s[0]) {
      SkipWhiteSplits(s[1..]);
      var r := SkipWhite(s);
      assert s[..|s| - |r|] == [s[0]] + s[1..][..|s| - 1 - |r|];
    }
  }

  lemma JoinTurn(isPiece: Text -> bool, gap: Text, gaps: seq<Text>, slice: Text, slices: seq<Text>)
    requires |gaps| == |slices| + 1 && AllGaps(gaps) && AllPieces(isPiece, slices) && AllSpace(gap) && isPiece(slice)
    ensures AllGaps([gap] + gaps) && AllPieces(isPiece, [slice] + slices)
    ensures Interleave([gap] + gaps, [slice] + slices) == gap + slice + Interleave(gaps, slices)
  {
    assert ([gap] + gaps)[1..] == gaps && ([slice] + slices)[1..] == slices;
  }

  /** `s` was split into `slices`, with `gaps` around them. */
  ghost predicate SplitAs(cut: Cutter, isPiece: Text -> bool, valueOf: Text -> Json.Json, s: Text, room: nat,
                          gaps: seq<Text>, slices: seq<Text>)
    requires Shrinks(cut)
  {
    && SplitFrom(cut, s, room) == Some(Pieces(valueOf, slices)) && |slices| <= room
    && |gaps| == |slices| + 1 && AllGaps(gaps) && AllPieces(isPiece, slices) && s == Interleave(gaps, slices)
  }

  lemma SplitAsTurn(cut: Cutter, isPiece: Text -> bool, valueOf: Text -> Json.Json, s: Text, room: nat,
                    gap: Text, slice: Text, rest: Text, gaps: seq<Text>, slices: seq<Text>)
    requires Shrinks(cut) && room > 0 && SplitAs(cut, isPiece, valueOf, rest, room - 1, gaps, slices)
    requires s == gap + slice + rest && AllSpace(gap) && isPiece(slice)
    requires SplitFrom(cut, s, room) == Prefixed(Piece(slice, valueOf(slice)), SplitFrom(cut, rest, room - 1))
    ensures SplitAs(cut, isPiece, valueOf, s, room, [gap] + gaps, [slice] + slices)
  {
    PiecesCons(valueOf, slice, slices);
    JoinTurn(isPiece, gap, gaps, slice, slices);
  }

  lemma SplitAsBlank(cut: Cutter, isPiece: Text -> bool, valueOf: Text -> Json.Json, s: Text, room: nat)
    requires Shrinks(cut) && SkipWhite(s) == []
    ensures SplitAs(cut, isPiece, valueOf, s, room, [s], [])
  {
    SkipWhiteSplits(s);
    assert s[..|s|] == s;
  }

  lemma SplitTurn(cut: Cutter, isPiece: Text -> bool, valueOf: Text -> Json.Json, s: Text, room: nat)
    returns (gap: Text, slice: Text, rest: Text)
    requires CutsPieces(cut, isPiece, valueOf) && Shrinks(cut) && SplitFrom(cut, s, room).Some? && SkipWhite(s) != []
    ensures room > 0 && |rest| < |s| && s == gap + slice + rest && AllSpace(gap) && isPiece(slice)
    ensures SplitFrom(cut, rest, room - 1).Some?
    ensures SplitFrom(cut, s, room) == Prefixed(Piece(slice, valueOf(slice)), SplitFrom(cut, rest, room - 1))
  {
    var t := SkipWhite(s);
    var c := cut(t).value;
    gap, slice, rest := s[..|s| - |t|], c.piece.slice, c.rest;
    SkipWhiteSplits(s);
  }

  /** Whatever is split was white space and pieces in turn. */
  lemma {:induction false} SplitSound(cut: Cutter, isPiece: Text -> bool, valueOf: Text -> Json.Json, s: Text, room: nat)
    returns (gaps: seq<Text>, slices: seq<Text>)
    requires CutsPieces(cut, isPiece, valueOf) && Shrinks(cut) && SplitFrom(cut, s, room).Some?
    ensures SplitAs(cut, isPiece, valueOf, s, room, gaps, slices)
    decreases |s|
  {
    if SkipWhite(s) == [] {
      SplitAsBlank(cut, isPiece, valueOf, s, room);
      gaps, slices := [s], [];
    } else {
      var gap, slice, rest := SplitTurn(cut, isPiece, valueOf, s, room);
      var moreGaps, more := SplitSound(cut, isPiece, valueOf, rest, room - 1);
      SplitAsTurn(cut, isPiece, valueOf, s, room, gap, slice, rest, moreGaps, more);
      gaps, slices := [gap] + moreGaps, [slice] + more;
    }
  }

  lemma PiecesCons(valueOf: Text -> Json.Json, slice: Text, slices: seq<Text>)
    ensures Pieces(valueOf, [slice] + slices) == [Piece(slice, valueOf(slice))] + Pieces(valueOf, slices)
  {
    assert ([slice] + slices)[1..] == slices;
  }

  lemma {:induction false} SlicesOfPieces(valueOf: Text -> Json.Json, slices: seq<Text>)
    ensures Slices(Pieces(valueOf, slices)) == slices
    ensures slices != [] ==> var last := slices[|slices| - 1];
                             Pieces(valueOf, slices)[|slices| - 1] == Piece(last, valueOf(last))
  {
    if slices != [] {
      SlicesOfPieces(valueOf, slices[1..]);
    }
  }

  /** A text that alternates white space and pieces. */
  ghost predicate Alternates(isPiece: Text -> bool, s: Text, slices: seq<Text>) {
    exists gaps :: |gaps| == |slices| + 1 && AllGaps(gaps) && s == Interleave(gaps, slices) && AllPieces(isPiece, slices)
  }

  lemma LastOfPieces(valueOf: Text -> Json.Json, slices: seq<Text>)
    requires slices != []
    ensures Pieces(valueOf, slices)[|slices| - 1] == Piece(slices[|slices| - 1], valueOf(slices[|slices| - 1]))
  {
  }

  lemma SurroundedAlternates(isPiece: Text -> bool, lead: Text, slice: Text, trail: Text)
    requires AllSpace(lead) && AllSpace(trail) && isPiece(slice)
    ensures Alternates(isPiece, lead + slice + trail, [slice])
  {
    var gaps := [lead, trail];
    assert gaps[1..] == [trail] && [slice][1..] == [];
    assert Interleave(gaps, [slice]) == lead + slice + trail;
  }

  /** Splitting accepts exactly the texts that alternate white space and at most `room` pieces; the pieces are unique. */
  lemma SplitIff(cut: Cutter, isPiece: Text -> bool, valueOf: Text -> Json.Json, s: Text, slices: seq<Text>, room: nat)
    requires Exact(cut, isPiece, valueOf) && Shrinks(cut)
    ensures Alternates(isPiece, s, slices) && |slices| <= room
       <==> SplitFrom(cut, s, room) == Some(Pieces(valueOf, slices)) && AllPieces(isPiece, slices)
  {
    if Alternates(isPiece, s, slices) {
      var gaps :| |gaps| == |slices| + 1 && AllGaps(gaps) && s == Interleave(gaps, slices) && AllPieces(isPiece, slices);
      SplitComplete(cut, isPiece, valueOf, gaps, slices, room);
    }
    if SplitFrom(cut, s, room) == Some(Pieces(valueOf, slices)) {
      var gaps, found := SplitSound(cut, isPiece, valueOf, s, room);
      SlicesOfPieces(valueOf, found);
      SlicesOfPieces(valueOf, slices);
    }
  }

  // ---------------------------------------------------------------- the loop's invariant

  lemma {:induction false} SkipWhiteTwice(s: Text)
    ensures SkipWhite(SkipWhite(s)) == SkipWhite(s)
  {
    if s != [] && IsSpace(s[0]) {
      SkipWhiteTwice(s[1..]);
    }
  }

  function Appended(pieces: seq<Piece>, rest: Option<seq<Piece>>): Option<seq<Piece>> {
    match rest
    case None => None
    case Some(more) => Some(pieces + more)
  }

  /** Of a text, `pieces` have been split off and `t` remains. */
  ghost predicate Remaining(cut: Cutter, input: Text, maxValues: nat, pieces: seq<Piece>, t: Text)
    requires Shrinks(cut)
  {
    && |pieces| <= maxValues
    && t == SkipWhite(t)
    && SplitFrom(cut, input, maxValues) == Appended(pieces, SplitFrom(cut, t, maxValues - |pieces|))
  }

  lemma RemainingAtStart(cut: Cutter, input: Text, maxValues: nat)
    requires Shrinks(cut)
    ensures Remaining(cut, input, maxValues, [], SkipWhite(input))
  {
    SkipWhiteTwice(input);
    var rest := SplitFrom(cut, input, maxValues);
    if rest.Some? {
      assert [] + rest.value == rest.value;
    }
  }

  lemma RemainingAfter(cut: Cutter, input: Text, maxValues: nat, pieces: seq<Piece>, t: Text, c: Cut)
    requires Shrinks(cut) && Remaining(cut, input, maxValues, pieces, t) && |pieces| < maxValues && t != []
    requires cut(t) == Some(c)
    ensures Remaining(cut, input, maxValues, pieces + [c.piece], SkipWhite(c.rest))
  {
    SkipWhiteTwice(c.rest);
    var rest := SplitFrom(cut, c.rest, maxValues - |pieces| - 1);
    if rest.Some? {
      assert pieces + ([c.piece] + rest.value) == (pieces + [c.piece]) + rest.value;
    }
  }

  /** The loop's variables: what has been split off so far, as slices and as values. */
  ghost predicate LoopState(cut: Cutter, input: Text, maxValues: nat, pieces: seq<Piece>, t: Text,
                            values: seq<Json.Json>, slices: seq<Text>)
    requires Shrinks(cut)
  {
    && Remaining(cut, input, maxValues, pieces, t)
    && slices == Slices(pieces) && values == Values(pieces) && |values| == |pieces|
  }

  lemma LoopTurn(cut: Cutter, input: Text, maxValues: nat, pieces: seq<Piece>, t: Text,
                 values: seq<Json.Json>, slices: seq<Text>, piece: Piece, rest: Text)
    requires Shrinks(cut) && LoopState(cut, input, maxValues, pieces, t, values, slices) && |pieces| < maxValues && t != []
    requires cut(t) == Some(Cut(piece, rest))
    ensures LoopState(cut, input, maxValues, pieces + [piece], SkipWhite(rest), values + [piece.value], slices + [piece.slice])
  {
    RemainingAfter(cut, input, maxValues, pieces, t, Cut(piece, rest));
    AppendPiece(pieces, piece);
  }

  /** Where the loop gives up, the split does too. */
  lemma RemainingRefused(cut: Cutter, input: Text, maxValues: nat, pieces: seq<Piece>, t: Text)
    requires Shrinks(cut) && Remaining(cut, input, maxValues, pieces, t) && t != []
    requires |pieces| == maxValues || cut(t).None?
    ensures SplitFrom(cut, input, maxValues).None?
  {
  }

  lemma RemainingAtEnd(cut: Cutter, input: Text, maxValues: nat, pieces: seq<Piece>)
    requires Shrinks(cut) && Remaining(cut, input, maxValues, pieces, [])
    ensures SplitFrom(cut, input, maxValues) == Some(pieces)
  {
    assert pieces + [] == pieces;
  }

  lemma {:induction false} AppendPiece(pieces: seq<Piece>, piece: Piece)
    ensures Slices(pieces + [piece]) == Slices(pieces) + [piece.slice]
    ensures Values(pieces + [piece]) == Values(pieces) + [piece.value]
  {
    if pieces == [] {
      assert pieces + [piece] == [piece];
    } else {
      assert (pieces + [piece])[1..] == pieces[1..] + [piece];
      AppendPiece(pieces[1..], piece);
    }
  }

  method SkipWhitespace(input: Text, cursor: nat) returns (next: nat)
    requires cursor <= |input|
    ensures cursor <= next <= |input| && input[next..] == SkipWhite(input[cursor..])
  {
    next := cursor;
    while next < |input| && IsSpace(input[next])
      invariant cursor <= next <= |input| && SkipWhite(input[next..]) == SkipWhite(input[cursor..])
    {
      assert input[next..][0] == input[next] && input[next..][1..] == input[next + 1..];
      next := next + 1;
    }
    assert next < |input| ==> input[next..][0] == input[next];
  }
}
