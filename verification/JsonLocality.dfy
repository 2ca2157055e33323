/**
 Reading a JSON value depends only on the text it consumes: replacing what follows changes
 nothing but the remainder. Values read are values that JavaScript can hold.
 */
module JsonLocality {
  import opened Text
  import opened Json

  /** `s` with its last `n` units replaced by `q`. */
  function Swap(s: Text, n: nat, q: Text): Text
    requires n <= |s|
  {
    s[..|s| - n] + q
  }

  lemma SwapDrop(s: Text, n: nat, q: Text, k: nat)
    requires k + n <= |s|
    ensures Swap(s, n, q)[k..] == Swap(s[k..], n, q)
  {
  }

  lemma SwapHead(s: Text, n: nat, q: Text)
    requires n < |s|
    ensures Swap(s, n, q) != [] && Swap(s, n, q)[0] == s[0] && Swap(s, n, q)[1..] == Swap(s[1..], n, q)
  {
  }

  lemma SwapAll(s: Text, q: Text)
    ensures Swap(s, |s|, q) == q
  {
  }

  lemma {:induction false} SkipSpaceLocal(s: Text, n: nat, q: Text)
    requires n < |SkipSpace(s)|
    ensures SkipSpace(Swap(s, n, q)) == Swap(SkipSpace(s), n, q)
  {
    SwapHead(s, n, q);
    if IsJsonSpace(s[0]) {
      SkipSpaceLocal(s[1..], n, q);
    }
  }

  lemma Hex4Local(s: Text, n: nat, q: Text)
    requires |s| >= 6 && n + 6 <= |s|
    ensures Hex4(Swap(s, n, q)[2..]) == Hex4(s[2..]) && Swap(s, n, q)[6..] == Swap(s[6..], n, q)
    ensures Swap(s, n, q)[0] == s[0] && Swap(s, n, q)[1] == s[1]
  {
  }

  lemma {:induction false} ParseCharsLocal(s: Text, n: nat, q: Text)
    requires ParseChars(s).Done? && n <= |ParseChars(s).rest|
    ensures ParseChars(Swap(s, n, q)) == Done(ParseChars(s).value, Swap(ParseChars(s).rest, n, q))
    decreases |s|
  {
    SwapHead(s, n, q);
    if s[0] == QUOTE {
    } else if s[0] == BACKSLASH {
      if s[1] == LOWER_U {
        Hex4Local(s, n, q);
        ParseCharsLocal(s[6..], n, q);
      } else {
        SwapDrop(s, n, q, 2);
        ParseCharsLocal(s[2..], n, q);
      }
    } else {
      ParseCharsLocal(s[1..], n, q);
    }
  }

  lemma NumberLocal(s: Text, n: nat, q: Text)
    requires NumberLength(s) > 0 && n + NumberLength(s) <= |s|
    requires EndsNumber(s[NumberLength(s)..]) && EndsNumber(Swap(s[NumberLength(s)..], n, q))
    ensures NumberLength(Swap(s, n, q)) == NumberLength(s)
    ensures IsNumber(s[..NumberLength(s)])
  {
    var m := NumberLength(s);
    var lexeme, rest := s[..m], s[m..];
    assert s == lexeme + rest;
    NumberFollowed(lexeme, rest);
    assert Swap(s, n, q) == lexeme + Swap(rest, n, q);
    NumberFollowed(lexeme, Swap(rest, n, q));
  }

  lemma PrefixLocal(word: Text, s: Text, n: nat, q: Text)
    requires |word| > 0 && n < |s| && word[0] != s[0]
    ensures !(word <= Swap(s, n, q)) && !(word <= s)
  {
    SwapHead(s, n, q);
  }

  lemma WordLocal(word: Text, s: Text, n: nat, q: Text)
    requires word <= s && |word| + n <= |s|
    ensures word <= Swap(s, n, q) && Swap(s, n, q)[|word|..] == Swap(s[|word|..], n, q)
  {
  }

  lemma LiteralLocal(s: Text, n: nat, q: Text)
    requires ParseLiteral(s).Done? && n <= |ParseLiteral(s).rest|
    requires var p := ParseLiteral(s); p.value.Num? ==> EndsNumber(p.rest) && EndsNumber(Swap(p.rest, n, q))
    ensures ParseLiteral(Swap(s, n, q)) == Done(ParseLiteral(s).value, Swap(ParseLiteral(s).rest, n, q))
    ensures WellFormed(ParseLiteral(s).value)
  {
    if NULL_TEXT <= s {
      WordLocal(NULL_TEXT, s, n, q);
    } else if TRUE_TEXT <= s {
      WordLocal(TRUE_TEXT, s, n, q);
      PrefixLocal(NULL_TEXT, s, n, q);
    } else if FALSE_TEXT <= s {
      WordLocal(FALSE_TEXT, s, n, q);
      PrefixLocal(NULL_TEXT, s, n, q);
      PrefixLocal(TRUE_TEXT, s, n, q);
    } else {
      NumeralLocal(s, n, q);
    }
  }

  lemma NumeralLocal(s: Text, n: nat, q: Text)
    requires NumberLength(s) > 0 && n + NumberLength(s) <= |s|
    requires EndsNumber(s[NumberLength(s)..]) && EndsNumber(Swap(s[NumberLength(s)..], n, q))
    ensures ParseLiteral(Swap(s, n, q)) == Done(Num(s[..NumberLength(s)]), Swap(s[NumberLength(s)..], n, q))
    ensures IsNumber(s[..NumberLength(s)])
  {
    var m := NumberLength(s);
    NumberLocal(s, n, q);
    NumberStart(s);
    PrefixLocal(NULL_TEXT, s, n, q);
    PrefixLocal(TRUE_TEXT, s, n, q);
    PrefixLocal(FALSE_TEXT, s, n, q);
    SwapDrop(s, n, q, m);
    assert Swap(s, n, q)[..m] == s[..m];
  }

  /** The character that must follow a value inside an array or object is none of a number's. */
  lemma DelimiterEndsNumber(rest: Text, n: nat, q: Text)
    requires n < |SkipSpace(rest)| && !IsNumberUnit(SkipSpace(rest)[0])
    ensures EndsNumber(rest) && n <= |rest| && EndsNumber(Swap(rest, n, q))
  {
    SwapHead(rest, n, q);
  }

  lemma {:induction false} ParseValueLocal(s: Text, n: nat, q: Text)
    requires ParseValue(s).Done? && n <= |ParseValue(s).rest|
    requires var p := ParseValue(s); p.value.Num? ==> EndsNumber(p.rest) && EndsNumber(Swap(p.rest, n, q))
    ensures ParseValue(Swap(s, n, q)) == Done(ParseValue(s).value, Swap(ParseValue(s).rest, n, q))
    ensures WellFormed(ParseValue(s).value)
    decreases |s|, 1
  {
    SwapHead(s, n, q);
    if s[0] == QUOTE {
      ParseCharsLocal(s[1..], n, q);
    } else if s[0] == OPEN_BRACKET {
      var inner := SkipSpace(s[1..]);
      SkipSpaceLocal(s[1..], n, q);
      SwapHead(inner, n, q);
      if inner[0] != CLOSE_BRACKET {
        ParseItemsLocal(inner, n, q);
      }
    } else if s[0] == OPEN_BRACE {
      var inner := SkipSpace(s[1..]);
      SkipSpaceLocal(s[1..], n, q);
      SwapHead(inner, n, q);
      if inner[0] != CLOSE_BRACE {
        ParseMembersLocal(inner, End, n, q);
      }
    } else {
      LiteralLocal(s, n, q);
    }
  }

  lemma {:induction false} ParseItemsLocal(s: Text, n: nat, q: Text)
    requires ParseItems(s).Done? && n <= |ParseItems(s).rest|
    ensures ParseItems(Swap(s, n, q)) == Done(ParseItems(s).value, Swap(ParseItems(s).rest, n, q))
    ensures WellFormedItems(ParseItems(s).value)
    decreases |s|, 2
  {
    var rest := ParseValue(s).rest;
    var next := SkipSpace(rest);
    DelimiterEndsNumber(rest, n, q);
    ParseValueLocal(s, n, q);
    SkipSpaceLocal(rest, n, q);
    SwapHead(next, n, q);
    if next[0] == COMMA {
      SkipSpaceLocal(next[1..], n, q);
      ParseItemsLocal(SkipSpace(next[1..]), n, q);
    }
  }

  lemma ParseKeyLocal(s: Text, n: nat, q: Text)
    requires ParseKey(s).Done? && n < |ParseKey(s).rest|
    ensures n < |s| && ParseKey(Swap(s, n, q)) == Done(ParseKey(s).value, Swap(ParseKey(s).rest, n, q))
  {
    SwapHead(s, n, q);
    ParseCharsLocal(s[1..], n, q);
    var rest := ParseChars(s[1..]).rest;
    var colon := SkipSpace(rest);
    SkipSpaceLocal(rest, n, q);
    SwapHead(colon, n, q);
    SkipSpaceLocal(colon[1..], n, q);
  }

  lemma {:induction false} DefineKeepsLeads(k: Text, ms: Members, key: Text, value: Json)
    requires LeadsAll(k, ms) && k != key && (IsArrayIndex(key) ==> IsArrayIndex(k) && IndexLess(k, key))
    ensures LeadsAll(k, DefineOwn(ms, key, value))
  {
    if ms.Field? {
      DefineKeepsLeads(k, ms.rest, key, value);
    }
  }

  lemma {:induction false} LeadsTransitive(a: Text, b: Text, ms: Members)
    requires IsArrayIndex(a) && LeadsAll(b, ms) && (IsArrayIndex(b) ==> IndexLess(a, b))
    requires Get(ms, a).Missing?
    ensures LeadsAll(a, ms)
  {
    if ms.Field? {
      LeadsTransitive(a, b, ms.rest);
      if IsArrayIndex(ms.key) {
        KeyBeforeTransitive(a, b, ms.key);
      }
    }
  }

  lemma {:induction false} ReplaceKeepsLeads(k: Text, ms: Members, key: Text, value: Json)
    requires LeadsAll(k, ms) && Get(ms, key).Found?
    ensures LeadsAll(k, DefineOwn(ms, key, value))
  {
    if ms.Field? && ms.key != key {
      ReplaceKeepsLeads(k, ms.rest, key, value);
    }
  }

  /** Defining a property keeps an object in enumeration order. */
  lemma {:induction false} DefineKeepsEnumerated(ms: Members, key: Text, value: Json)
    requires Enumerated(ms) && WellFormedMembers(ms) && WellFormed(value)
    ensures Enumerated(DefineOwn(ms, key, value)) && WellFormedMembers(DefineOwn(ms, key, value))
  {
    if ms.Field? && ms.key != key {
      DefineKeepsEnumerated(ms.rest, key, value);
      if Get(ms, key).Found? {
        ReplaceKeepsLeads(ms.key, ms.rest, key, value);
      } else if IsArrayIndex(key) && (!IsArrayIndex(ms.key) || IndexLess(key, ms.key)) {
        LeadsTransitive(key, ms.key, ms.rest);
      } else {
        KeyBeforeTotal(ms.key, key);
        DefineKeepsLeads(ms.key, ms.rest, key, value);
      }
    }
  }

  lemma {:induction false} ParseMembersLocal(s: Text, acc: Members, n: nat, q: Text)
    requires ParseMembers(s, acc).Done? && n <= |ParseMembers(s, acc).rest|
    requires Enumerated(acc) && WellFormedMembers(acc)
    ensures n <= |s|
    ensures ParseMembers(Swap(s, n, q), acc)
         == Done(ParseMembers(s, acc).value, Swap(ParseMembers(s, acc).rest, n, q))
    ensures Enumerated(ParseMembers(s, acc).value) && WellFormedMembers(ParseMembers(s, acc).value)
    decreases |s|, 2
  {
    var key := ParseKey(s);
    var p := ParseValue(key.rest);
    var next := SkipSpace(p.rest);
    DelimiterEndsNumber(p.rest, n, q);
    ParseKeyLocal(s, n, q);
    ParseValueLocal(key.rest, n, q);
    SkipSpaceLocal(p.rest, n, q);
    SwapHead(next, n, q);
    DefineKeepsEnumerated(acc, key.value, p.value);
    if next[0] == COMMA {
      SkipSpaceLocal(next[1..], n, q);
      ParseMembersLocal(SkipSpace(next[1..]), DefineOwn(acc, key.value, p.value), n, q);
    }
  }

  /** The text an object was read from, cut off where reading stopped, reads as that object. */
  lemma ObjectTextReads(s: Text)
    requires ParseValue(s).Done? && ParseValue(s).value.Obj?
    ensures ParseValue(s[..|s| - |ParseValue(s).rest|]) == Done(ParseValue(s).value, [])
  {
    var rest := ParseValue(s).rest;
    ParseValueLocal(s, |rest|, []);
    SwapAll(rest, []);
    assert Swap(s, |rest|, []) == s[..|s| - |rest|];
  }

  /** Whatever `JSON.parse` returns is well formed. */
  lemma ParseWellFormed(s: Text)
    ensures Parse(s).Found? ==> WellFormed(Parse(s).value)
  {
    if Parse(s).Found? {
      var p := ParseValue(SkipSpace(s));
      SpaceEndsNumber(p.rest);
      ParseValueLocal(SkipSpace(s), |p.rest|, []);
    }
  }

  lemma SpaceEndsNumber(rest: Text)
    requires SkipSpace(rest) == []
    ensures EndsNumber(rest) && EndsNumber(Swap(rest, |rest|, []))
  {
    SwapAll(rest, []);
  }
}
