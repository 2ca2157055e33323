/**
 Continuation results: one message may hold several JSON objects next to each other. A scanner
 that counts braces outside strings cuts the message into slices, and each slice is parsed.

 The main results: splitting succeeds on exactly the messages made of one to eight objects
 separated by white space, and returns those objects; and selection agrees with strict reading.
 */
module ContinuationResult {
  import opened Text
  import opened Json
  import opened Common
  import opened ObjectScanner
  import opened AdjacentSplit
  import JsonLocality

  const MAX_VALUES: nat := 8

  /** Cuts off one object: the slice the scanner finds, if it parses as an object. */
  function CutObject(t: Text): Option<Cut> {
    if t == [] || t[0] != OPEN_BRACE then None
    else
      match Scan(t, 0, false, false)
      case None => None
      case Some(rest) =>
        var slice := t[..|t| - |rest|];
        match Parse(slice)
        case Missing => None
        case Found(value) => if value.Obj? then Some(Cut(Piece(slice, value), rest)) else None
  }

  lemma CutIsObject(t: Text)
    requires CutObject(t).Some?
    ensures var c := CutObject(t).value;
            IsObjectText(c.piece.slice) && c.piece.value == ObjectValue(c.piece.slice) && t == c.piece.slice + c.rest
  {
    var c := CutObject(t).value;
    assert t == c.piece.slice + c.rest by { ScanSuffix(t, 0, false, false); }
    assert IsObjectText(c.piece.slice) by { CutObjectIsText(t); }
    ParseOfObjectText(c.piece.slice);
  }

  lemma ObjectIsCut(slice: Text, rest: Text)
    requires IsObjectText(slice)
    ensures CutObject(slice + rest) == Some(Cut(Piece(slice, ObjectValue(slice)), rest))
  {
    ParseOfObjectText(slice);
    ScanCutsObject(slice, rest);
    assert (slice + rest)[..|slice + rest| - |rest|] == slice;
  }

  /** The scanner and the parser together cut off exactly the texts of single objects. */
  lemma CutObjectExact()
    ensures Exact(CutObject, IsObjectText, ObjectValue) && Shrinks(CutObject)
  {
    forall t | CutObject(t).Some?
      ensures var c := CutObject(t).value;
              IsObjectText(c.piece.slice) && c.piece.value == ObjectValue(c.piece.slice) && t == c.piece.slice + c.rest
    {
      CutIsObject(t);
    }
    forall slice, rest | IsObjectText(slice)
      ensures CutObject(slice + rest) == Some(Cut(Piece(slice, ObjectValue(slice)), rest))
    {
      ObjectIsCut(slice, rest);
    }
    forall slice | IsObjectText(slice) ensures slice != [] && !IsSpace(slice[0]) {
      ParseOfObjectText(slice);
    }
    ExactShrinks(CutObject, IsObjectText, ObjectValue);
  }

  /** The objects of a message; nothing when it is anything but at most `room` objects and white space. */
  ghost function Split(message: Text, room: nat): Option<seq<Piece>> {
    CutObjectExact();
    SplitFrom(CutObject, message, room)
  }

  /**
   Splitting reads exactly the messages that are white space and object texts in turn, at most
   `room` of them, and each such message in only one way.
   */
  lemma SplitReadsObjects(message: Text, slices: seq<Text>, room: nat)
    ensures Alternates(IsObjectText, message, slices) && |slices| <= room
       <==> Split(message, room) == Some(Pieces(ObjectValue, slices)) && AllPieces(IsObjectText, slices)
  {
    CutObjectExact();
    SplitIff(CutObject, IsObjectText, ObjectValue, message, slices, room);
  }

  /** Objects joined by any white space are split at their true ends, and refused when there are too many. */
  lemma JoinedObjectsSplit(gaps: seq<Text>, slices: seq<Text>, room: nat)
    requires |gaps| == |slices| + 1 && AllGaps(gaps) && AllPieces(IsObjectText, slices)
    ensures Split(Interleave(gaps, slices), room)
         == if |slices| <= room then Some(Pieces(ObjectValue, slices)) else None
  {
    CutObjectExact();
    SplitComplete(CutObject, IsObjectText, ObjectValue, gaps, slices, room);
  }

  /** In particular the objects may be any that `JSON.stringify` prints. */
  lemma PrintedObjectIsText(v: Json)
    requires WellFormed(v) && v.Obj?
    ensures IsObjectText(Stringify(v)) && ObjectValue(Stringify(v)) == v
  {
    ValueRead(v, []);
    assert Stringify(v) + [] == Stringify(v);
  }

  // ---------------------------------------------------------------- the splitting loop

  /** The brace-counting loop: the position after the object that starts at `start`, if it ends. */
  method ScanObject(input: Text, start: nat) returns (end: Option<nat>)
    requires start < |input|
    ensures end.None? <==> Scan(input[start..], 0, false, false).None?
    ensures end.Some? ==> start < end.value <= |input|
                          && Scan(input[start..], 0, false, false) == Some(input[end.value..])
  {
    var cursor, depth, inString, escaped := start, 0, false, false;
    while cursor < |input|
      invariant start <= cursor <= |input|
      invariant Scan(input[cursor..], depth, inString, escaped) == Scan(input[start..], 0, false, false)
      invariant escaped ==> inString
    {
      var c := input[cursor];
      ghost var here := input[cursor..];
      assert here[0] == c && here[1..] == input[cursor + 1..];
      if inString {
        if escaped {
          escaped := false;
        } else if c == BACKSLASH {
          escaped := true;
        } else if c == QUOTE {
          inString := false;
        }
      } else if c == QUOTE {
        inString := true;
      } else if c == OPEN_BRACE {
        depth := depth + 1;
      } else if c == CLOSE_BRACE {
        depth := depth - 1;
        if depth == 0 {
          return Some(cursor + 1);
        }
        if depth < 0 {
          return None;
        }
      }
      cursor := cursor + 1;
    }
    end := None;
  }

  /** One turn of the loop's body: the end and the value of the object that starts at `start`. */
  method CutAt(input: Text, start: nat) returns (end: nat, value: Option<Json>)
    requires start < |input|
    ensures start <= end <= |input|
    ensures CutObject(input[start..])
         == match value
            case None => None
            case Some(v) => Some(Cut(Piece(input[start..end], v), input[end..]))
  {
    ghost var t := input[start..];
    assert t[0] == input[start];
    if input[start] != OPEN_BRACE {
      return start, None;
    }
    var found := ScanObject(input, start);
    if found.None? {
      return start, None;
    }
    end := found.value;
    var slice := input[start..end];
    assert slice == t[..|t| - |input[end..]|];
    var parsed := Parse(slice);
    value := if parsed.Found? && parsed.value.Obj? then Some(parsed.value) else None;
  }

  /** The loop over a whole message computes exactly the split. */
  method ParseAdjacent(input: Text, maxValues: nat) returns (parsed: bool, values: seq<Json>, slices: seq<Text>)
    ensures var split := Split(input, maxValues);
            && (parsed <==> split.Some? && split.value != [])
            && (parsed ==> slices == Slices(split.value) && values == Values(split.value))
            && (!parsed ==> slices == [] && values == [])
  {
    CutObjectExact();
    ghost var pieces;
    parsed, values, slices, pieces := SplitLoop(CutObject, input, maxValues);
  }

  /** The same loop, with the meaning of one cut kept abstract. */
  method SplitLoop(ghost cut: Cutter, input: Text, maxValues: nat)
    returns (parsed: bool, values: seq<Json>, slices: seq<Text>, ghost pieces: seq<Piece>)
    requires cut == CutObject && Shrinks(cut)
    ensures var split := SplitFrom(cut, input, maxValues);
            && (parsed <==> split.Some? && split.value != [])
            && (parsed ==> slices == Slices(split.value) && values == Values(split.value))
            && (!parsed ==> slices == [] && values == [])
  {
    values, slices, pieces := [], [], [];
    RemainingAtStart(cut, input, maxValues);
    assert input[0..] == input;
    var cursor := SkipWhitespace(input, 0);
    while cursor < |input|
      invariant cursor <= |input|
      invariant LoopState(cut, input, maxValues, pieces, input[cursor..], values, slices)
    {
      ghost var t := input[cursor..];
      if |values| >= maxValues {
        RemainingRefused(cut, input, maxValues, pieces, t);
        return false, [], [], pieces;
      }
      var end, value := CutAt(input, cursor);
      if value.None? {
        RemainingRefused(cut, input, maxValues, pieces, t);
        return false, [], [], pieces;
      }
      var slice := input[cursor..end];
      LoopTurn(cut, input, maxValues, pieces, t, values, slices, Piece(slice, value.value), input[end..]);
      values, slices, pieces := values + [value.value], slices + [slice], pieces + [Piece(slice, value.value)];
      cursor := SkipWhitespace(input, end);
    }
    assert input[cursor..] == [];
    RemainingAtEnd(cut, input, maxValues, pieces);
    parsed := |values| > 0;
  }

  // ---------------------------------------------------------------- results

  const TOP_LEVEL_KEYS: seq<Text> := [SUMMARY, CAPABILITY]
  const SUMMARY: Text := Ascii("previous_task_summary")
  const CAPABILITY: Text := Ascii("capability_result")
  const CAPABILITY_KEYS: seq<Text> := [OK, EFFECT_ID, DISPATCH_STATE, OUTCOME_CERTAINTY, RUN_ID]
  const OK: Text := Ascii("ok")
  const EFFECT_ID: Text := Ascii("effectId")
  const DISPATCH_STATE: Text := Ascii("dispatchState")
  const OUTCOME_CERTAINTY: Text := Ascii("outcomeCertainty")
  const RUN_ID: Text := Ascii("browserAutomationRunId")
  const COMPLETED: Text := Ascii("COMPLETED")
  const ACKNOWLEDGED: Text := Ascii("ACKNOWLEDGED")
  const MAX_SUMMARY: nat := 2000

  datatype Capability = Capability(ok: bool, effectId: Text, dispatchState: Text, outcomeCertainty: Text, runId: Text)

  datatype Normalized = Normalized(summary: Text, capability: Capability)

  datatype Code = JsonInvalid | SequenceInvalid | TopLevelShapeInvalid | SummaryInvalid | CapabilityShapeInvalid
                | CapabilityNotSuccessful

  predicate ExactKeys(v: Json, expected: seq<Text>) {
    v.Obj? && SortKeys(Keys(v.members)) == SortKeys(expected)
  }

  /** A member that is a string with something other than white space in it. */
  function StringMember(v: Json, key: Text): Option<Text> {
    if !v.Obj? then None
    else
      match Get(v.members, key)
      case Found(Str(text)) => if AllSpace(text) then None else Some(text)
      case _ => None
  }

  function Validate(v: Json, requireSuccess: bool): Result<Normalized, Code> {
    if !ExactKeys(v, TOP_LEVEL_KEYS) then Failure(TopLevelShapeInvalid)
    else
      var summary := StringMember(v, SUMMARY);
      if summary.None? || |summary.value| > MAX_SUMMARY then Failure(SummaryInvalid)
      else
        match Get(v.members, CAPABILITY)
        case Missing => Failure(CapabilityShapeInvalid)
        case Found(c) =>
          match CapabilityOf(c)
          case None => Failure(CapabilityShapeInvalid)
          case Some(capability) =>
            if requireSuccess && (!capability.ok || capability.dispatchState != COMPLETED || capability.outcomeCertainty != ACKNOWLEDGED)
            then Failure(CapabilityNotSuccessful)
            else Success(Normalized(summary.value, capability))
  }

  function CapabilityOf(c: Json): Option<Capability> {
    if !ExactKeys(c, CAPABILITY_KEYS) then None
    else
      match (Get(c.members, OK), StringMember(c, EFFECT_ID), StringMember(c, DISPATCH_STATE),
             StringMember(c, OUTCOME_CERTAINTY), StringMember(c, RUN_ID))
      case (Found(Bool(ok)), Some(effectId), Some(state), Some(certainty), Some(runId)) =>
        Some(Capability(ok, effectId, state, certainty, runId))
      case _ => None
  }

  // ---------------------------------------------------------------- what a result says

  /** The member named by `key` is this text, and not blank. */
  predicate Says(v: Json, key: string, text: Text) {
    v.Obj? && Get(v.members, Ascii(key)) == Found(Str(text)) && !AllSpace(text)
  }

  /** An object with exactly these members. */
  predicate HasExactly(v: Json, keys: set<Text>) {
    v.Obj? && KeySet(Keys(v.members)) == keys && |Keys(v.members)| == |keys|
  }

  /** The result object, read member by member. */
  predicate Describes(v: Json, n: Normalized) {
    && HasExactly(v, {Ascii("previous_task_summary"), Ascii("capability_result")})
    && Says(v, "previous_task_summary", n.summary) && |n.summary| <= 2000
    && Get(v.members, Ascii("capability_result")).Found?
    && DescribesCapability(Get(v.members, Ascii("capability_result")).value, n.capability)
  }

  predicate DescribesCapability(c: Json, n: Capability) {
    && HasExactly(c, {Ascii("ok"), Ascii("effectId"), Ascii("dispatchState"), Ascii("outcomeCertainty"), Ascii("browserAutomationRunId")})
    && Get(c.members, Ascii("ok")) == Found(Bool(n.ok))
    && Says(c, "effectId", n.effectId) && Says(c, "dispatchState", n.dispatchState)
    && Says(c, "outcomeCertainty", n.outcomeCertainty) && Says(c, "browserAutomationRunId", n.runId)
  }

  /** The result reports a completed and acknowledged success. */
  predicate ReportsSuccess(n: Normalized) {
    n.capability.ok && n.capability.dispatchState == Ascii("COMPLETED") && n.capability.outcomeCertainty == Ascii("ACKNOWLEDGED")
  }

  lemma TopLevelKeys()
    ensures KeySet(TOP_LEVEL_KEYS) == {Ascii("previous_task_summary"), Ascii("capability_result")}
    ensures |KeySet(TOP_LEVEL_KEYS)| == |TOP_LEVEL_KEYS|
  {
    assert TOP_LEVEL_KEYS[0] == SUMMARY && TOP_LEVEL_KEYS[1] == CAPABILITY && |SUMMARY| != |CAPABILITY|;
    assert KeySet(TOP_LEVEL_KEYS) == {SUMMARY, CAPABILITY};
  }

  lemma CapabilityKeys()
    ensures KeySet(CAPABILITY_KEYS)
         == {Ascii("ok"), Ascii("effectId"), Ascii("dispatchState"), Ascii("outcomeCertainty"), Ascii("browserAutomationRunId")}
    ensures |KeySet(CAPABILITY_KEYS)| == |CAPABILITY_KEYS|
  {
    assert CAPABILITY_KEYS[0] == OK && CAPABILITY_KEYS[1] == EFFECT_ID && CAPABILITY_KEYS[2] == DISPATCH_STATE
        && CAPABILITY_KEYS[3] == OUTCOME_CERTAINTY && CAPABILITY_KEYS[4] == RUN_ID;
    assert |OK| == 2 && |EFFECT_ID| == 8 && |DISPATCH_STATE| == 13 && |OUTCOME_CERTAINTY| == 16 && |RUN_ID| == 22;
    assert KeySet(CAPABILITY_KEYS) == {OK, EFFECT_ID, DISPATCH_STATE, OUTCOME_CERTAINTY, RUN_ID};
  }

  lemma ExactKeysIff(v: Json, expected: seq<Text>)
    requires |KeySet(expected)| == |expected|
    ensures ExactKeys(v, expected) <==> HasExactly(v, KeySet(expected))
  {
    if v.Obj? {
      SortedAlikeIff(Keys(v.members), expected);
    }
  }

  /**
   Validation succeeds with a result if and only if the document describes that result, each field under
   its own name, and, where success is required, it reports one.
   */
  lemma {:induction false} ValidateIff(v: Json, requireSuccess: bool, n: Normalized)
    ensures Validate(v, requireSuccess) == Success(n) <==> Describes(v, n) && (requireSuccess ==> ReportsSuccess(n))
  {
    TopLevelKeys();
    ExactKeysIff(v, TOP_LEVEL_KEYS);
    if v.Obj? && Get(v.members, CAPABILITY).Found? {
      CapabilityIff(Get(v.members, CAPABILITY).value, n.capability);
    }
  }

  lemma {:induction false} CapabilityIff(c: Json, n: Capability)
    ensures CapabilityOf(c) == Some(n) <==> DescribesCapability(c, n)
  {
    CapabilityKeys();
    ExactKeysIff(c, CAPABILITY_KEYS);
  }

  function ParseSingle(message: Text, requireSuccess: bool): Result<Normalized, Code> {
    match Parse(message)
    case Missing => Failure(JsonInvalid)
    case Found(v) => Validate(v, requireSuccess)
  }

  datatype Selection =
    | Rejected(code: Code, valueCount: nat)
    | Selected(normalized: Normalized, valueCount: nat, slice: Text, priorValues: seq<Json>)

  function Judged(verdict: Result<Normalized, Code>, valueCount: nat, slice: Text, priorValues: seq<Json>): Selection {
    match verdict
    case Failure(code) => Rejected(code, valueCount)
    case Success(normalized) => Selected(normalized, valueCount, slice, priorValues)
  }

  ghost function SelectFinal(message: Text): Selection {
    Chosen(Split(message, MAX_VALUES))
  }

  /** The last of the objects that a message was split into, judged by the strict rules. */
  function Chosen(split: Option<seq<Piece>>): Selection {
    match split
    case None => Rejected(SequenceInvalid, 0)
    case Some(pieces) =>
      if pieces == [] then Rejected(SequenceInvalid, 0)
      else
        var last := pieces[|pieces| - 1];
        Judged(Validate(last.value, true), |pieces|, last.slice, Values(pieces[..|pieces| - 1]))
  }

  lemma {:induction false} JsonSpaceSplits(s: Text)
    ensures var r := SkipSpace(s); |r| <= |s| && AllSpace(s[..|s| - |r|]) && s == s[..|s| - |r|] + r
  {
    if s != [] && IsJsonSpace(s[0]) {
      JsonSpaceSplits(s[1..]);
      var r := SkipSpace(s);
      assert s[..|s| - |r|] == [s[0]] + s[1..][..|s| - 1 - |r|];
    }
  }

  lemma JsonSpaceOnly(s: Text)
    requires SkipSpace(s) == []
    ensures AllSpace(s)
  {
    JsonSpaceSplits(s);
    assert s[..|s|] == s;
  }

  /** An object read from the front of a text, as text and remainder. */
  lemma ObjectTextSplits(t: Text) returns (slice: Text)
    requires ParseValue(t).Done? && ParseValue(t).value.Obj?
    ensures IsObjectText(slice) && ObjectValue(slice) == ParseValue(t).value && t == slice + ParseValue(t).rest
  {
    var rest := ParseValue(t).rest;
    slice := t[..|t| - |rest|];
    assert t == slice + rest by {
      ObjectStart(t);
      ScanValue(t, 0);
      ScanSuffix(t, 0, false, false);
    }
    JsonLocality.ObjectTextReads(t);
  }

  /** A message that is one JSON value, an object, is that object's text with white space around it. */
  lemma SingleObjectAlternates(message: Text) returns (slice: Text)
    requires Parse(message).Found? && Parse(message).value.Obj?
    ensures IsObjectText(slice) && ObjectValue(slice) == Parse(message).value
    ensures Alternates(IsObjectText, message, [slice])
  {
    var t := SkipSpace(message);
    slice := ObjectTextSplits(t);
    var rest := ParseValue(t).rest;
    var lead := message[..|message| - |t|];
    assert AllSpace(lead) && message == lead + slice + rest by { JsonSpaceSplits(message); }
    assert AllSpace(rest) by { JsonSpaceOnly(rest); }
    SurroundedAlternates(IsObjectText, lead, slice, rest);
  }

  /** What strict reading accepts, selection accepts too, with the same normalised value. */
  lemma SingleResultIsSelected(message: Text)
    requires ParseSingle(message, true).Success?
    ensures var s := SelectFinal(message);
            s.Selected? && s.normalized == ParseSingle(message, true).value && s.valueCount == 1 && s.priorValues == []
  {
    var slice := SingleObjectAlternates(message);
    SplitReadsObjects(message, [slice], MAX_VALUES);
    SlicesOfPieces(ObjectValue, [slice]);
    assert Values([]) == [];
  }

  /** Of several adjacent objects, selection judges the last by the strict rules, however they are spaced. */
  lemma LastObjectIsSelected(gaps: seq<Text>, slices: seq<Text>)
    requires |gaps| == |slices| + 1 && AllGaps(gaps) && AllPieces(IsObjectText, slices) && 1 <= |slices| <= MAX_VALUES
    ensures var last := slices[|slices| - 1];
            var prior := Values(Pieces(ObjectValue, slices)[..|slices| - 1]);
            SelectFinal(Interleave(gaps, slices)) == Judged(Validate(ObjectValue(last), true), |slices|, last, prior)
  {
    JoinedObjectsSplit(gaps, slices, MAX_VALUES);
    SlicesOfPieces(ObjectValue, slices);
  }

  lemma {:induction false} ChosenIff(split: Option<seq<Piece>>, n: Normalized)
    ensures (Chosen(split).Selected? && Chosen(split).normalized == n) <==>
              && split.Some? && split.value != []
              && Describes(split.value[|split.value| - 1].value, n) && ReportsSuccess(n)
  {
    if split.Some? && split.value != [] {
      ValidateIff(split.value[|split.value| - 1].value, true, n);
    }
  }

  /** These slices make up the message, and the last of them describes this success. */
  ghost predicate EndsWith(message: Text, slices: seq<Text>, n: Normalized) {
    && Alternates(IsObjectText, message, slices) && 1 <= |slices| <= 8
    && Describes(ObjectValue(slices[|slices| - 1]), n) && ReportsSuccess(n)
  }

  lemma {:induction false} SelectedEnds(message: Text, n: Normalized) returns (slices: seq<Text>)
    requires SelectFinal(message).Selected? && SelectFinal(message).normalized == n
    ensures EndsWith(message, slices, n)
  {
    ChosenIff(Split(message, MAX_VALUES), n);
    slices := SplitSlices(message, MAX_VALUES);
    LastOfPieces(ObjectValue, slices);
  }

  lemma {:induction false} EndsSelected(message: Text, slices: seq<Text>, n: Normalized)
    requires EndsWith(message, slices, n)
    ensures SelectFinal(message).Selected? && SelectFinal(message).normalized == n
  {
    SplitReadsObjects(message, slices, MAX_VALUES);
    ChosenOfPieces(ObjectValue, slices, Split(message, MAX_VALUES), n);
  }

  lemma {:induction false} ChosenOfPieces(valueOf: Text -> Json, slices: seq<Text>, split: Option<seq<Piece>>, n: Normalized)
    requires split == Some(Pieces(valueOf, slices)) && slices != []
    requires Describes(valueOf(slices[|slices| - 1]), n) && ReportsSuccess(n)
    ensures Chosen(split).Selected? && Chosen(split).normalized == n
  {
    LastOfPieces(valueOf, slices);
    ChosenIff(split, n);
  }

  /**
   Selection succeeds if and only if the message is white space and one to eight object texts in turn, and
   the last of them describes a successful result, which is then the one selected.
   */
  lemma {:induction false} SelectionIff(message: Text, n: Normalized)
    ensures (SelectFinal(message).Selected? && SelectFinal(message).normalized == n) <==>
              exists slices :: EndsWith(message, slices, n)
  {
    if SelectFinal(message).Selected? && SelectFinal(message).normalized == n {
      var slices := SelectedEnds(message, n);
    }
    forall slices | EndsWith(message, slices, n)
      ensures SelectFinal(message).Selected? && SelectFinal(message).normalized == n
    {
      EndsSelected(message, slices, n);
    }
  }

  lemma SplitSlices(message: Text, room: nat) returns (slices: seq<Text>)
    requires Split(message, room).Some?
    ensures Split(message, room) == Some(Pieces(ObjectValue, slices)) && Alternates(IsObjectText, message, slices) && |slices| <= room
  {
    CutObjectExact();
    var gaps;
    gaps, slices := SplitSound(CutObject, IsObjectText, ObjectValue, message, room);
    assert AllGaps(gaps) && message == Interleave(gaps, slices);
  }
}
