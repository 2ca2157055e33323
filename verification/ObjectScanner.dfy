/**
 The brace-counting scanner that finds where a JSON object ends: it tracks strings, escapes and
 nesting depth, and knows nothing else of JSON. It is proved to stop exactly at the object's end.
 */
module ObjectScanner {
  import opened Text
  import opened Json
  import opened Common
  import L = JsonLocality

  // ---------------------------------------------------------------- scanning

  /** The text after the brace that brings the depth back to zero, or nothing. */
  function Scan(s: Text, depth: int, inString: bool, escaped: bool): (r: Option<Text>)
    ensures r.Some? ==> |r.value| < |s|
  {
    if s == [] then None
    else if inString then
      (if escaped then Scan(s[1..], depth, true, false)
       else if s[0] == BACKSLASH then Scan(s[1..], depth, true, true)
       else Scan(s[1..], depth, s[0] != QUOTE, false))
    else if s[0] == QUOTE then Scan(s[1..], depth, true, escaped)
    else if s[0] == OPEN_BRACE then Scan(s[1..], depth + 1, false, escaped)
    else if s[0] == CLOSE_BRACE then
      (if depth - 1 == 0 then Some(s[1..])
       else if depth - 1 < 0 then None
       else Scan(s[1..], depth - 1, false, escaped))
    else Scan(s[1..], depth, false, escaped)
  }

  /** Where scanning stands after a closing brace has left `depth` braces open. */
  function Resume(s: Text, depth: nat): Option<Text> {
    if depth == 0 then Some(s) else Scan(s, depth, false, false)
  }

  lemma {:induction false} ScanSpace(s: Text, depth: int)
    ensures Scan(SkipSpace(s), depth, false, false) == Scan(s, depth, false, false)
  {
    if s != [] && IsJsonSpace(s[0]) {
      ScanSpace(s[1..], depth);
    }
  }

  predicate Plain(s: Text) {
    forall i :: 0 <= i < |s| ==> s[i] != QUOTE && s[i] != OPEN_BRACE && s[i] != CLOSE_BRACE
  }

  lemma {:induction false} ScanPlain(s: Text, n: nat, depth: int)
    requires n <= |s| && Plain(s[..n])
    ensures Scan(s, depth, false, false) == Scan(s[n..], depth, false, false)
  {
    if n > 0 {
      assert s[..n][0] == s[0];
      assert s[1..][..n - 1] == s[..n][1..];
      assert s[1..][n - 1..] == s[n..];
      ScanPlain(s[1..], n - 1, depth);
    } else {
      assert s[0..] == s;
    }
  }

  lemma ScanHex(s: Text, depth: int)
    requires |s| >= 4 && Hex4(s) >= 0
    ensures Scan(s, depth, true, false) == Scan(s[4..], depth, true, false)
  {
    ScanInString(s, depth);
    ScanInString(s[1..], depth);
    ScanInString(s[1..][1..], depth);
    ScanInString(s[1..][1..][1..], depth);
    assert s[1..][1..][1..][1..] == s[4..];
  }

  lemma ScanInString(s: Text, depth: int)
    requires s != [] && s[0] != QUOTE && s[0] != BACKSLASH
    ensures Scan(s, depth, true, false) == Scan(s[1..], depth, true, false)
  {
  }

  /** Scanning leaves a string where parsing it ends. */
  lemma {:induction false} ScanChars(s: Text, depth: int)
    requires ParseChars(s).Done?
    ensures Scan(s, depth, true, false) == Scan(ParseChars(s).rest, depth, false, false)
    decreases |s|
  {
    if s[0] == QUOTE {
    } else if s[0] == BACKSLASH {
      assert s[1..][1..] == s[2..];
      if s[1] == LOWER_U {
        ScanHex(s[2..], depth);
        assert s[2..][4..] == s[6..];
        ScanChars(s[6..], depth);
      } else {
        ScanChars(s[2..], depth);
      }
    } else {
      ScanChars(s[1..], depth);
    }
  }

  lemma {:induction false} DigitsPlain(s: Text)
    ensures forall i :: 0 <= i < Digits(s) ==> IsDigit(s[i])
  {
    if s != [] && IsDigit(s[0]) {
      DigitsPlain(s[1..]);
    }
  }

  lemma FractionPlain(s: Text)
    ensures forall i :: 0 <= i < FractionLength(s).0 ==> IsNumberUnit(s[i])
  {
    if s != [] { DigitsPlain(s[1..]); }
  }

  lemma ExponentPlain(s: Text)
    ensures forall i :: 0 <= i < ExponentLength(s).0 ==> IsNumberUnit(s[i])
  {
    if s != [] {
      DigitsPlain(s[1..]);
      if |s| > 1 { DigitsPlain(s[2..]); }
    }
  }

  lemma NumberPlain(s: Text)
    ensures forall i :: 0 <= i < NumberLength(s) ==> IsNumberUnit(s[i])
  {
    var sign := if s != [] && s[0] == MINUS then 1 else 0;
    if sign < |s| { DigitsPlain(s[sign..]); }
    var whole := WholeLength(s);
    FractionPlain(s[whole..]);
    ExponentPlain(s[whole + FractionLength(s[whole..]).0..]);
  }

  lemma LiteralPlain(s: Text)
    requires ParseLiteral(s).Done?
    ensures var n := |s| - |ParseLiteral(s).rest|;
            s[n..] == ParseLiteral(s).rest && Plain(s[..n])
  {
    var n := |s| - |ParseLiteral(s).rest|;
    if NULL_TEXT <= s { assert s[..n] == NULL_TEXT; }
    else if TRUE_TEXT <= s { assert s[..n] == TRUE_TEXT; }
    else if FALSE_TEXT <= s { assert s[..n] == FALSE_TEXT; }
    else { NumberPlain(s); }
  }

  lemma ScanLiteral(s: Text, depth: int)
    requires ParseLiteral(s).Done?
    ensures Scan(s, depth, false, false) == Scan(ParseLiteral(s).rest, depth, false, false)
  {
    var n := |s| - |ParseLiteral(s).rest|;
    LiteralPlain(s);
    ScanPlain(s, n, depth);
  }

  /** Scanning passes over a value without a trace; at depth zero it ends at an object's end. */
  lemma {:induction false} ScanValue(s: Text, depth: nat)
    requires ParseValue(s).Done? && (depth > 0 || s[0] == OPEN_BRACE)
    ensures Scan(s, depth, false, false) == Resume(ParseValue(s).rest, depth)
    decreases |s|, 1
  {
    if s[0] == QUOTE {
      ScanChars(s[1..], depth);
    } else if s[0] == OPEN_BRACKET {
      var inner := SkipSpace(s[1..]);
      ScanSpace(s[1..], depth);
      if inner[0] != CLOSE_BRACKET {
        ScanItems(inner, depth);
      }
    } else if s[0] == OPEN_BRACE {
      var inner := SkipSpace(s[1..]);
      ScanSpace(s[1..], depth + 1);
      if inner[0] != CLOSE_BRACE {
        ScanMembers(inner, End, depth + 1);
      }
    } else {
      ScanLiteral(s, depth);
    }
  }

  lemma {:induction false} ScanItems(s: Text, depth: nat)
    requires ParseItems(s).Done? && depth > 0
    ensures Scan(s, depth, false, false) == Scan(ParseItems(s).rest, depth, false, false)
    decreases |s|, 2
  {
    var rest := ParseValue(s).rest;
    var next := SkipSpace(rest);
    ScanValue(s, depth);
    ScanSpace(rest, depth);
    if next[0] == COMMA {
      ScanSpace(next[1..], depth);
      ScanItems(SkipSpace(next[1..]), depth);
    }
  }

  lemma ScanKey(s: Text, depth: int)
    requires ParseKey(s).Done?
    ensures Scan(s, depth, false, false) == Scan(ParseKey(s).rest, depth, false, false)
  {
    var rest := ParseChars(s[1..]).rest;
    var colon := SkipSpace(rest);
    ScanChars(s[1..], depth);
    ScanSpace(rest, depth);
    ScanSpace(colon[1..], depth);
  }

  lemma {:induction false} ScanMembers(s: Text, acc: Members, depth: nat)
    requires ParseMembers(s, acc).Done? && depth > 0
    ensures Scan(s, depth, false, false) == Resume(ParseMembers(s, acc).rest, depth - 1)
    decreases |s|, 2
  {
    var key := ParseKey(s);
    var p := ParseValue(key.rest);
    var next := SkipSpace(p.rest);
    ScanKey(s, depth);
    ScanValue(key.rest, depth);
    ScanSpace(p.rest, depth);
    if next[0] == COMMA {
      ScanSpace(next[1..], depth);
      ScanMembers(SkipSpace(next[1..]), DefineOwn(acc, key.value, p.value), depth);
    }
  }

  /** Where scanning stops does not depend on what follows. */
  lemma {:induction false} ScanLocal(s: Text, depth: int, inString: bool, escaped: bool, n: nat, q: Text)
    requires Scan(s, depth, inString, escaped).Some? && n <= |Scan(s, depth, inString, escaped).value|
    ensures Scan(L.Swap(s, n, q), depth, inString, escaped)
         == Some(L.Swap(Scan(s, depth, inString, escaped).value, n, q))
  {
    L.SwapHead(s, n, q);
    if inString {
      if escaped { ScanLocal(s[1..], depth, true, false, n, q); }
      else if s[0] == BACKSLASH { ScanLocal(s[1..], depth, true, true, n, q); }
      else { ScanLocal(s[1..], depth, s[0] != QUOTE, false, n, q); }
    } else if s[0] == QUOTE {
      ScanLocal(s[1..], depth, true, escaped, n, q);
    } else if s[0] == OPEN_BRACE {
      ScanLocal(s[1..], depth + 1, false, escaped, n, q);
    } else if s[0] == CLOSE_BRACE {
      if depth - 1 != 0 { ScanLocal(s[1..], depth - 1, false, escaped, n, q); }
    } else {
      ScanLocal(s[1..], depth, false, escaped, n, q);
    }
  }

  lemma {:induction false} ScanSuffix(s: Text, depth: int, inString: bool, escaped: bool)
    requires Scan(s, depth, inString, escaped).Some?
    ensures var r := Scan(s, depth, inString, escaped).value; s[|s| - |r|..] == r
  {
    if inString {
      if escaped { ScanSuffix(s[1..], depth, true, false); }
      else if s[0] == BACKSLASH { ScanSuffix(s[1..], depth, true, true); }
      else { ScanSuffix(s[1..], depth, s[0] != QUOTE, false); }
    } else if s[0] == QUOTE {
      ScanSuffix(s[1..], depth, true, escaped);
    } else if s[0] == OPEN_BRACE {
      ScanSuffix(s[1..], depth + 1, false, escaped);
    } else if s[0] == CLOSE_BRACE {
      if depth - 1 != 0 { ScanSuffix(s[1..], depth - 1, false, escaped); }
    } else {
      ScanSuffix(s[1..], depth, false, escaped);
    }
  }

  // ---------------------------------------------------------------- cutting

  /** The text of one JSON object without surrounding white space. */
  predicate IsObjectText(t: Text) {
    var p := ParseValue(t);
    p.Done? && p.value.Obj? && p.rest == []
  }

  /** The value of an object's text. */
  function ObjectValue(t: Text): Json {
    var p := ParseValue(t);
    if p.Done? then p.value else Null
  }

  lemma ObjectStart(s: Text)
    requires ParseValue(s).Done?
    ensures ParseValue(s).value.Obj? <==> s[0] == OPEN_BRACE
  {
  }

  lemma ParseOfObjectText(t: Text)
    requires IsObjectText(t)
    ensures t != [] && t[0] == OPEN_BRACE && Parse(t) == Found(ObjectValue(t)) && ObjectValue(t).Obj?
  {
    ObjectStart(t);
  }

  /** The scanner cuts an object off exactly at its end, whatever follows. */
  lemma ScanCutsObject(t: Text, rest: Text)
    requires IsObjectText(t)
    ensures Scan(t + rest, 0, false, false) == Some(rest)
  {
    assert Scan(t, 0, false, false) == Some([]) by {
      ObjectStart(t);
      ScanValue(t, 0);
    }
    ScanLocal(t, 0, false, false, 0, rest);
    L.SwapAll([], rest);
    assert L.Swap(t, 0, rest) == t + rest;
  }

  /** A slice that the scanner cuts and that parses as an object is the text of one object. */
  lemma CutObjectIsText(t: Text)
    requires t != [] && t[0] == OPEN_BRACE && Scan(t, 0, false, false).Some?
    ensures var slice := t[..|t| - |Scan(t, 0, false, false).value|];
            Parse(slice).Found? && Parse(slice).value.Obj? ==> IsObjectText(slice)
  {
    var rest := Scan(t, 0, false, false).value;
    var slice := t[..|t| - |rest|];
    if Parse(slice).Found? {
      assert slice[0] == OPEN_BRACE;
      ScanLocal(t, 0, false, false, |rest|, []);
      L.SwapAll(rest, []);
      assert L.Swap(t, |rest|, []) == slice;
      ScanValue(slice, 0);
    }
  }

}
