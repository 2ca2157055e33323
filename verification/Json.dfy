/**
 JSON values as JavaScript holds them, their printing by `JSON.stringify`, and their reading by
 `JSON.parse` (sections 2 to 7 of RFC 8259). A number is carried as its decimal text.

 The main result is the round trip: reading a printed value gives that value back.
 */
module Json {
  import opened Text

  datatype Json =
    | Null
    | Bool(b: bool)
    | Num(lexeme: Text)
    | Str(text: Text)
    | Arr(items: Items)
    | Obj(members: Members)

  datatype Items = Nil | Item(head: Json, tail: Items)

  /** The own properties of an object, in the order in which it enumerates them. */
  datatype Members = End | Field(key: Text, value: Json, rest: Members)

  datatype Lookup = Missing | Found(value: Json)

  // ---------------------------------------------------------------- objects

  function Keys(ms: Members): seq<Text> {
    match ms
    case End => []
    case Field(k, _, rest) => [k] + Keys(rest)
  }

  function Get(ms: Members, key: Text): Lookup {
    match ms
    case End => Missing
    case Field(k, v, rest) => if k == key then Found(v) else Get(rest, key)
  }

  /** Defines an own property: in place when the key exists, otherwise where enumeration will list it. */
  function DefineOwn(ms: Members, key: Text, value: Json): Members {
    match ms
    case End => Field(key, value, End)
    case Field(k, v, rest) =>
      if k == key then Field(k, value, rest)
      else if Get(ms, key).Missing? && IsArrayIndex(key) && (!IsArrayIndex(k) || IndexLess(key, k)) then Field(key, value, ms)
      else Field(k, v, DefineOwn(rest, key, value))
  }

  /** `k` may stand before every key of `ms`: keys are distinct, array indices come first and ascend. */
  predicate LeadsAll(k: Text, ms: Members) {
    match ms
    case End => true
    case Field(k', _, rest) =>
      k != k' && (IsArrayIndex(k') ==> IsArrayIndex(k) && IndexLess(k, k')) && LeadsAll(k, rest)
  }

  predicate Enumerated(ms: Members) {
    match ms
    case End => true
    case Field(k, _, rest) => LeadsAll(k, rest) && Enumerated(rest)
  }

  /** A value JavaScript can hold: numerals are numbers, and objects are in enumeration order. */
  predicate WellFormed(v: Json) {
    match v
    case Num(lexeme) => IsNumber(lexeme)
    case Arr(items) => WellFormedItems(items)
    case Obj(members) => Enumerated(members) && WellFormedMembers(members)
    case _ => true
  }

  predicate WellFormedItems(items: Items) {
    match items
    case Nil => true
    case Item(head, tail) => WellFormed(head) && WellFormedItems(tail)
  }

  predicate WellFormedMembers(ms: Members) {
    match ms
    case End => true
    case Field(_, value, rest) => WellFormed(value) && WellFormedMembers(rest)
  }

  // ---------------------------------------------------------------- numbers

  function Digits(s: Text): (n: nat)
    ensures n <= |s|
  {
    if s == [] || !IsDigit(s[0]) then 0 else 1 + Digits(s[1..])
  }

  /** The length of the sign and whole part that start `s`, or 0 when there is no digit. */
  function WholeLength(s: Text): (n: nat)
    ensures n <= |s|
  {
    var sign := if s != [] && s[0] == MINUS then 1 else 0;
    if sign >= |s| || !IsDigit(s[sign]) then 0
    else if s[sign] == ZERO then sign + 1
    else sign + Digits(s[sign..])
  }

  /** The length of the number that starts `s`, or 0 when none does. */
  function NumberLength(s: Text): (n: nat)
    ensures n <= |s|
  {
    var whole := WholeLength(s);
    if whole == 0 then 0
    else
      var (fraction, fractionOk) := FractionLength(s[whole..]);
      var (exponent, exponentOk) := ExponentLength(s[whole + fraction..]);
      if fractionOk && exponentOk then whole + fraction + exponent else 0
  }

  function FractionLength(s: Text): (r: (nat, bool))
    ensures r.0 <= |s|
  {
    if s == [] || s[0] != DOT then (0, true)
    else if Digits(s[1..]) == 0 then (0, false)
    else (1 + Digits(s[1..]), true)
  }

  function ExponentLength(s: Text): (r: (nat, bool))
    ensures r.0 <= |s|
  {
    if s == [] || (s[0] != LOWER_E && s[0] != UPPER_E) then (0, true)
    else
      var signed := if |s| > 1 && (s[1] == PLUS || s[1] == MINUS) then 2 else 1;
      if Digits(s[signed..]) == 0 then (0, false) else (signed + Digits(s[signed..]), true)
  }

  predicate IsNumber(lexeme: Text) {
    lexeme != [] && NumberLength(lexeme) == |lexeme|
  }

  predicate IsNumberUnit(u: Unit) {
    IsDigit(u) || u == DOT || u == MINUS || u == PLUS || u == LOWER_E || u == UPPER_E
  }

  /** What follows cannot be taken for more of a number. */
  predicate EndsNumber(rest: Text) {
    rest == [] || !IsNumberUnit(rest[0])
  }

  // ---------------------------------------------------------------- strings

  function HexDigit(n: int): Unit
    requires 0 <= n < 16
  {
    if n < 10 then 48 + n else 87 + n
  }

  function HexValue(u: Unit): int {
    if IsDigit(u) then u - 48
    else if 97 <= u <= 102 then u - 87
    else if 65 <= u <= 70 then u - 55
    else -1
  }

  function UnicodeEscape(u: Unit): Text {
    [BACKSLASH, LOWER_U, HexDigit(u / 4096), HexDigit(u / 256 % 16), HexDigit(u / 16 % 16), HexDigit(u % 16)]
  }

  /** The letter of a two-character escape sequence, or 0. */
  function EscapeLetter(u: Unit): Unit {
    if u == 8 then 98 else if u == 9 then 116 else if u == 10 then 110 else if u == 12 then 102 else if u == 13 then 114
    else if u == QUOTE then QUOTE else if u == BACKSLASH then BACKSLASH else 0
  }

  /** The character that a two-character escape sequence stands for, or -1. */
  function Unescaped(letter: Unit): int {
    if letter == 98 then 8 else if letter == 116 then 9 else if letter == 110 then 10 else if letter == 102 then 12
    else if letter == 114 then 13 else if letter == QUOTE || letter == BACKSLASH || letter == SLASH then letter else -1
  }

  function EscapeUnit(u: Unit): Text {
    if EscapeLetter(u) != 0 then [BACKSLASH, EscapeLetter(u)]
    else if u < 32 || IsLead(u) || IsTrail(u) then UnicodeEscape(u)
    else [u]
  }

  function Escape(t: Text): Text {
    if t == [] then []
    else if |t| >= 2 && IsLead(t[0]) && IsTrail(t[1]) then [t[0], t[1]] + Escape(t[2..])
    else EscapeUnit(t[0]) + Escape(t[1..])
  }

  // ---------------------------------------------------------------- printing

  const NULL_TEXT: Text := [110, 117, 108, 108]
  const TRUE_TEXT: Text := [116, 114, 117, 101]
  const FALSE_TEXT: Text := [102, 97, 108, 115, 101]

  function PrintString(t: Text): Text {
    [QUOTE] + Escape(t) + [QUOTE]
  }

  function Stringify(v: Json): Text {
    match v
    case Null => NULL_TEXT
    case Bool(b) => if b then TRUE_TEXT else FALSE_TEXT
    case Num(lexeme) => lexeme
    case Str(text) => PrintString(text)
    case Arr(items) => [OPEN_BRACKET] + PrintItems(items) + [CLOSE_BRACKET]
    case Obj(members) => [OPEN_BRACE] + PrintMembers(members) + [CLOSE_BRACE]
  }

  function PrintItems(items: Items): Text {
    match items
    case Nil => []
    case Item(head, Nil) => Stringify(head)
    case Item(head, tail) => Stringify(head) + [COMMA] + PrintItems(tail)
  }

  function PrintKey(key: Text): Text {
    PrintString(key) + [COLON]
  }

  function PrintMembers(ms: Members): Text {
    match ms
    case End => []
    case Field(key, value, End) => PrintKey(key) + Stringify(value)
    case Field(key, value, rest) => PrintKey(key) + Stringify(value) + [COMMA] + PrintMembers(rest)
  }

  // ---------------------------------------------------------------- reading

  /** A reading from the start of a text: the value, and the text after it. */
  datatype Parsed<+T> = Fail | Done(value: T, rest: Text)

  function SkipSpace(s: Text): (r: Text)
    ensures |r| <= |s|
  {
    if s != [] && IsJsonSpace(s[0]) then SkipSpace(s[1..]) else s
  }

  function Hex4(s: Text): int {
    if |s| < 4 || HexValue(s[0]) < 0 || HexValue(s[1]) < 0 || HexValue(s[2]) < 0 || HexValue(s[3]) < 0 then -1
    else HexValue(s[0]) * 4096 + HexValue(s[1]) * 256 + HexValue(s[2]) * 16 + HexValue(s[3])
  }

  /** Reads string contents up to and including the closing quote. */
  function ParseChars(s: Text): (p: Parsed<Text>)
    ensures p.Done? ==> |p.rest| < |s|
  {
    if s == [] then Fail
    else if s[0] == QUOTE then Done([], s[1..])
    else if s[0] == BACKSLASH then
      if |s| < 2 then Fail
      else if s[1] == LOWER_U then (if Hex4(s[2..]) < 0 then Fail else Prepend(Hex4(s[2..]), ParseChars(s[6..])))
      else if Unescaped(s[1]) < 0 then Fail
      else Prepend(Unescaped(s[1]), ParseChars(s[2..]))
    else if s[0] < 32 then Fail
    else Prepend(s[0], ParseChars(s[1..]))
  }

  function Prepend(u: Unit, p: Parsed<Text>): (r: Parsed<Text>)
    ensures r.Done? <==> p.Done?
    ensures r.Done? ==> r.rest == p.rest
  {
    match p
    case Fail => Fail
    case Done(t, rest) => Done([u] + t, rest)
  }

  function ParseLiteral(s: Text): (p: Parsed<Json>)
    ensures p.Done? ==> |p.rest| < |s|
  {
    if NULL_TEXT <= s then Done(Null, s[4..])
    else if TRUE_TEXT <= s then Done(Bool(true), s[4..])
    else if FALSE_TEXT <= s then Done(Bool(false), s[5..])
    else if NumberLength(s) > 0 then Done(Num(s[..NumberLength(s)]), s[NumberLength(s)..])
    else Fail
  }

  function ParseValue(s: Text): (p: Parsed<Json>)
    ensures p.Done? ==> |p.rest| < |s|
    decreases |s|, 1
  {
    if s == [] then Fail
    else if s[0] == QUOTE then
      (match ParseChars(s[1..])
       case Fail => Fail
       case Done(t, rest) => Done(Str(t), rest))
    else if s[0] == OPEN_BRACKET then
      var inner := SkipSpace(s[1..]);
      if inner != [] && inner[0] == CLOSE_BRACKET then Done(Arr(Nil), inner[1..])
      else
        (match ParseItems(inner)
         case Fail => Fail
         case Done(items, rest) => Done(Arr(items), rest))
    else if s[0] == OPEN_BRACE then
      var inner := SkipSpace(s[1..]);
      if inner != [] && inner[0] == CLOSE_BRACE then Done(Obj(End), inner[1..])
      else
        (match ParseMembers(inner, End)
         case Fail => Fail
         case Done(members, rest) => Done(Obj(members), rest))
    else ParseLiteral(s)
  }

  /** Reads one or more items and the closing bracket. */
  function ParseItems(s: Text): (p: Parsed<Items>)
    ensures p.Done? ==> |p.rest| < |s|
    decreases |s|, 2
  {
    match ParseValue(s)
    case Fail => Fail
    case Done(head, rest) =>
      var next := SkipSpace(rest);
      if next == [] then Fail
      else if next[0] == CLOSE_BRACKET then Done(Item(head, Nil), next[1..])
      else if next[0] == COMMA then
        (match ParseItems(SkipSpace(next[1..]))
         case Fail => Fail
         case Done(tail, last) => Done(Item(head, tail), last))
      else Fail
  }

  /** Reads a key, a colon and the space around them. */
  function ParseKey(s: Text): (p: Parsed<Text>)
    ensures p.Done? ==> |p.rest| < |s|
  {
    if s == [] || s[0] != QUOTE then Fail
    else
      match ParseChars(s[1..])
      case Fail => Fail
      case Done(key, rest) =>
        var colon := SkipSpace(rest);
        if colon == [] || colon[0] != COLON then Fail else Done(key, SkipSpace(colon[1..]))
  }

  /** Reads one or more members and the closing brace, defining them on `acc` as they come. */
  function ParseMembers(s: Text, acc: Members): (p: Parsed<Members>)
    ensures p.Done? ==> |p.rest| < |s|
    decreases |s|, 2
  {
    match ParseKey(s)
    case Fail => Fail
    case Done(key, afterKey) =>
      match ParseValue(afterKey)
      case Fail => Fail
      case Done(value, rest) =>
        var next := SkipSpace(rest);
        if next == [] then Fail
        else if next[0] == CLOSE_BRACE then Done(DefineOwn(acc, key, value), next[1..])
        else if next[0] == COMMA then ParseMembers(SkipSpace(next[1..]), DefineOwn(acc, key, value))
        else Fail
  }

  function Parse(s: Text): Lookup {
    match ParseValue(SkipSpace(s))
    case Fail => Missing
    case Done(v, rest) => if SkipSpace(rest) == [] then Found(v) else Missing
  }

  // ---------------------------------------------------------------- round trip

  lemma {:induction false} DigitsFollowed(s: Text, rest: Text)
    requires Digits(s) == |s| || !IsDigit(s[Digits(s)])
    requires rest == [] || !IsDigit(rest[0])
    ensures Digits(s + rest) == Digits(s)
  {
    if s == [] {
      assert s + rest == rest;
    } else {
      assert (s + rest)[1..] == s[1..] + rest;
      if IsDigit(s[0]) { DigitsFollowed(s[1..], rest); }
    }
  }

  lemma FractionFollowed(s: Text, rest: Text)
    requires EndsNumber(rest)
    ensures FractionLength(s + rest) == FractionLength(s)
  {
    if s == [] {
      assert s + rest == rest;
    } else {
      assert (s + rest)[1..] == s[1..] + rest;
      DigitsMaximal(s[1..]);
      DigitsFollowed(s[1..], rest);
    }
  }

  lemma ExponentFollowed(s: Text, rest: Text)
    requires EndsNumber(rest)
    ensures ExponentLength(s + rest) == ExponentLength(s)
  {
    if s == [] {
      assert s + rest == rest;
    } else {
      var signed := if |s| > 1 && (s[1] == PLUS || s[1] == MINUS) then 2 else 1;
      assert (s + rest)[signed..] == s[signed..] + rest;
      DigitsMaximal(s[signed..]);
      DigitsFollowed(s[signed..], rest);
    }
  }

  lemma {:induction false} DigitsMaximal(s: Text)
    ensures Digits(s) == |s| || !IsDigit(s[Digits(s)])
  {
    if s != [] && IsDigit(s[0]) {
      DigitsMaximal(s[1..]);
    }
  }

  lemma WholeFollowed(s: Text, rest: Text)
    requires EndsNumber(rest)
    ensures s != [] ==> WholeLength(s + rest) == WholeLength(s)
  {
    var sign := if s != [] && s[0] == MINUS then 1 else 0;
    if sign < |s| {
      assert (s + rest)[sign..] == s[sign..] + rest;
      DigitsMaximal(s[sign..]);
      DigitsFollowed(s[sign..], rest);
    }
  }

  lemma DropAppend(s: Text, rest: Text, n: nat)
    requires n <= |s|
    ensures (s + rest)[n..] == s[n..] + rest
  {
  }

  /** A number is read the same whatever follows it, as long as that does not continue it. */
  lemma NumberFollowed(s: Text, rest: Text)
    requires EndsNumber(rest) && s != []
    ensures NumberLength(s + rest) == NumberLength(s)
  {
    WholeFollowed(s, rest);
    var whole := WholeLength(s);
    DropAppend(s, rest, whole);
    FractionFollowed(s[whole..], rest);
    var fraction := FractionLength(s[whole..]).0;
    DropAppend(s, rest, whole + fraction);
    ExponentFollowed(s[whole + fraction..], rest);
  }

  lemma HexDigitsOf(u: int)
    requires 0 <= u < 0x10000
    ensures u == u / 4096 * 4096 + u / 256 % 16 * 256 + u / 16 % 16 * 16 + u % 16
    ensures u / 4096 < 16
  {
    var a, b := u / 16, u / 256;
    assert u == a * 16 + u % 16;
    assert a / 16 == b && b / 16 == u / 4096;
    assert a == b * 16 + a % 16;
    assert b == b / 16 * 16 + b % 16;
  }

  lemma HexValueOfDigit(n: int)
    requires 0 <= n < 16
    ensures HexValue(HexDigit(n)) == n
  {
  }

  lemma HexRoundTrip(u: Unit, rest: Text)
    ensures Hex4(UnicodeEscape(u)[2..] + rest) == u
  {
    HexDigitsOf(u);
    var s := [HexDigit(u / 4096), HexDigit(u / 256 % 16), HexDigit(u / 16 % 16), HexDigit(u % 16)] + rest;
    assert UnicodeEscape(u)[2..] + rest == s;
    HexValueOfDigit(u / 4096);
    HexValueOfDigit(u / 256 % 16);
    HexValueOfDigit(u / 16 % 16);
    HexValueOfDigit(u % 16);
  }

  lemma LetterRead(letter: Unit, rest: Text)
    requires letter != LOWER_U && Unescaped(letter) >= 0
    ensures ParseChars([BACKSLASH, letter] + rest) == Prepend(Unescaped(letter), ParseChars(rest))
  {
    assert ([BACKSLASH, letter] + rest)[2..] == rest;
  }

  lemma UnicodeRead(u: Unit, rest: Text)
    ensures ParseChars(UnicodeEscape(u) + rest) == Prepend(u, ParseChars(rest))
  {
    var s := UnicodeEscape(u) + rest;
    assert s[2..] == UnicodeEscape(u)[2..] + rest;
    HexRoundTrip(u, rest);
    assert s[6..] == rest;
  }

  lemma PlainRead(u: Unit, rest: Text)
    requires u >= 32 && u != QUOTE && u != BACKSLASH
    ensures ParseChars([u] + rest) == Prepend(u, ParseChars(rest))
  {
    assert ([u] + rest)[1..] == rest;
  }

  lemma EscapeUnitRead(u: Unit, rest: Text)
    ensures ParseChars(EscapeUnit(u) + rest) == Prepend(u, ParseChars(rest))
  {
    if EscapeLetter(u) != 0 {
      LetterRead(EscapeLetter(u), rest);
    } else if u < 32 || IsLead(u) || IsTrail(u) {
      UnicodeRead(u, rest);
    } else {
      PlainRead(u, rest);
    }
  }

  lemma PlainPairRead(a: Unit, b: Unit, rest: Text)
    requires IsLead(a) && IsTrail(b)
    ensures ParseChars([a, b] + rest) == Prepend(a, Prepend(b, ParseChars(rest)))
  {
    assert ([a, b] + rest)[1..] == [b] + rest;
    assert ([b] + rest)[1..] == rest;
  }

  lemma Associative(a: Text, b: Text, c: Text)
    ensures (a + b) + c == a + (b + c)
  {
  }

  predicate ReadsAs(s: Text, t: Text, rest: Text) {
    ParseChars(s) == Done(t, rest)
  }

  lemma PairStep(t: Text, tail: Text, rest: Text)
    requires |t| >= 2 && IsLead(t[0]) && IsTrail(t[1]) && ReadsAs(tail, t[2..], rest)
    ensures ReadsAs([t[0], t[1]] + tail, t, rest)
  {
    PlainPairRead(t[0], t[1], tail);
    assert [t[0]] + ([t[1]] + t[2..]) == t;
  }

  lemma UnitStep(t: Text, tail: Text, rest: Text)
    requires t != [] && ReadsAs(tail, t[1..], rest)
    ensures ReadsAs(EscapeUnit(t[0]) + tail, t, rest)
  {
    EscapeUnitRead(t[0], tail);
    assert [t[0]] + t[1..] == t;
  }

  lemma CloseStep(rest: Text)
    ensures ReadsAs([QUOTE] + rest, [], rest)
  {
    assert ([QUOTE] + rest)[1..] == rest;
  }

  /** Reading an escaped string gives the string back. */
  lemma {:induction false} EscapeRead(t: Text, rest: Text)
    ensures ReadsAs(Escape(t) + ([QUOTE] + rest), t, rest)
    decreases |t|
  {
    if t == [] {
      CloseStep(rest);
      assert [] + ([QUOTE] + rest) == [QUOTE] + rest;
    } else if |t| >= 2 && IsLead(t[0]) && IsTrail(t[1]) {
      EscapeRead(t[2..], rest);
      PairStep(t, Escape(t[2..]) + ([QUOTE] + rest), rest);
      Associative([t[0], t[1]], Escape(t[2..]), [QUOTE] + rest);
    } else {
      EscapeRead(t[1..], rest);
      UnitStep(t, Escape(t[1..]) + ([QUOTE] + rest), rest);
      Associative(EscapeUnit(t[0]), Escape(t[1..]), [QUOTE] + rest);
    }
  }

  lemma StringRead(t: Text, rest: Text)
    ensures PrintString(t) + rest != [] && (PrintString(t) + rest)[0] == QUOTE
    ensures ParseChars((PrintString(t) + rest)[1..]) == Done(t, rest)
  {
    EscapeRead(t, rest);
    assert (PrintString(t) + rest)[1..] == Escape(t) + ([QUOTE] + rest);
  }

  function Append(a: Members, b: Members): Members {
    match a
    case End => b
    case Field(k, v, rest) => Field(k, v, Append(rest, b))
  }

  lemma {:induction false} AppendAssociative(a: Members, b: Members, c: Members)
    ensures Append(Append(a, b), c) == Append(a, Append(b, c))
  {
    if a.Field? {
      AppendAssociative(a.rest, b, c);
    }
  }

  lemma {:induction false} LeadsAllOfAppend(k: Text, a: Members, b: Members)
    ensures LeadsAll(k, Append(a, b)) <==> LeadsAll(k, a) && LeadsAll(k, b)
  {
    if a.Field? {
      LeadsAllOfAppend(k, a.rest, b);
    }
  }

  lemma {:induction false} EnumeratedPrefix(a: Members, b: Members)
    requires Enumerated(Append(a, b))
    ensures Enumerated(a) && Enumerated(b)
  {
    if a.Field? {
      EnumeratedPrefix(a.rest, b);
      LeadsAllOfAppend(a.key, a.rest, b);
    }
  }

  /** Defining a key that belongs after all others appends it. */
  lemma {:induction false} DefineLast(acc: Members, key: Text, value: Json)
    requires Enumerated(Append(acc, Field(key, value, End)))
    ensures DefineOwn(acc, key, value) == Append(acc, Field(key, value, End))
  {
    if acc.Field? {
      LeadsAllOfAppend(acc.key, acc.rest, Field(key, value, End));
      DefineLast(acc.rest, key, value);
      if IsArrayIndex(key) && IndexLess(key, acc.key) {
        KeyBeforeTransitive(key, acc.key, key);
        KeyBeforeIrreflexive(key);
        assert false;
      }
    }
  }

  lemma PrintedStart(v: Json, rest: Text)
    requires WellFormed(v)
    ensures Stringify(v) != [] && SkipSpace(Stringify(v) + rest) == Stringify(v) + rest
    ensures v.Num? ==> Stringify(v)[0] == MINUS || IsDigit(Stringify(v)[0])
    ensures (Stringify(v) + rest)[0] != CLOSE_BRACKET
  {
  }

  lemma SkipNothing(u: Unit, rest: Text)
    requires !IsJsonSpace(u)
    ensures SkipSpace([u] + rest) == [u] + rest && ([u] + rest)[1..] == rest
  {
  }

  lemma KeyRead(key: Text, rest: Text)
    requires SkipSpace(rest) == rest
    ensures ParseKey(PrintKey(key) + rest) == Done(key, rest)
    ensures SkipSpace(PrintKey(key) + rest) == PrintKey(key) + rest
    ensures (PrintKey(key) + rest)[0] == QUOTE
  {
    Associative(PrintString(key), [COLON], rest);
    StringRead(key, [COLON] + rest);
    SkipNothing(COLON, rest);
  }

  lemma ParseIsLiteral(s: Text)
    requires s != [] && s[0] != QUOTE && s[0] != OPEN_BRACKET && s[0] != OPEN_BRACE
    ensures ParseValue(s) == ParseLiteral(s)
  {
  }

  lemma WordRead(v: Json, rest: Text)
    requires v.Null? || v.Bool?
    ensures ParseLiteral(Stringify(v) + rest) == Done(v, rest)
  {
    var word := Stringify(v);
    assert (word + rest)[..|word|] == word && (word + rest)[|word|..] == rest;
    assert word[0] == (word + rest)[0];
  }

  lemma LiteralIsNumber(s: Text, n: nat)
    requires s != [] && (s[0] == MINUS || IsDigit(s[0])) && NumberLength(s) == n && 0 < n <= |s|
    ensures ParseLiteral(s) == Done(Num(s[..n]), s[n..])
  {
  }

  lemma NumberSplits(lexeme: Text, rest: Text)
    requires lexeme != []
    ensures (lexeme + rest)[0] == lexeme[0]
    ensures (lexeme + rest)[..|lexeme|] == lexeme && (lexeme + rest)[|lexeme|..] == rest
  {
  }

  lemma NumberRead(lexeme: Text, rest: Text)
    requires WellFormed(Num(lexeme)) && EndsNumber(rest)
    ensures ParseLiteral(lexeme + rest) == Done(Num(lexeme), rest)
    ensures lexeme[0] == MINUS || IsDigit(lexeme[0])
  {
    NumberStart(lexeme);
    NumberFollowed(lexeme, rest);
    NumberSplits(lexeme, rest);
    LiteralIsNumber(lexeme + rest, |lexeme|);
  }

  lemma LiteralRead(v: Json, rest: Text)
    requires WellFormed(v) && (v.Null? || v.Bool? || v.Num?)
    requires v.Num? ==> EndsNumber(rest)
    ensures ParseValue(Stringify(v) + rest) == Done(v, rest)
  {
    var s := Stringify(v) + rest;
    if v.Num? {
      NumberRead(v.lexeme, rest);
    } else {
      WordRead(v, rest);
    }
    assert s[0] == Stringify(v)[0];
    ParseIsLiteral(s);
  }

  lemma NumberStart(lexeme: Text)
    requires lexeme != [] && NumberLength(lexeme) > 0
    ensures lexeme[0] == MINUS || IsDigit(lexeme[0])
  {
  }

  /** Reading what `JSON.stringify` prints, followed by anything that does not extend a number. */
  lemma {:induction false} ValueRead(v: Json, rest: Text)
    requires WellFormed(v) && (v.Num? ==> EndsNumber(rest))
    ensures ParseValue(Stringify(v) + rest) == Done(v, rest)
    decreases v, 1
  {
    match v
    case Str(text) => StringRead(text, rest);
    case Arr(items) => ArrayRead(items, rest);
    case Obj(members) => ObjectRead(members, rest);
    case _ => LiteralRead(v, rest);
  }

  lemma {:induction false} ArrayRead(items: Items, rest: Text)
    requires WellFormedItems(items)
    ensures ParseValue(Stringify(Arr(items)) + rest) == Done(Arr(items), rest)
    decreases items, 2
  {
    Enclosed(OPEN_BRACKET, PrintItems(items), CLOSE_BRACKET, rest);
    if items.Nil? {
      assert [] + ([CLOSE_BRACKET] + rest) == [CLOSE_BRACKET] + rest;
      SkipNothing(CLOSE_BRACKET, rest);
    } else {
      ItemsRead(items, rest);
      ItemsStart(items, [CLOSE_BRACKET] + rest);
    }
  }

  function ItemTail(items: Items, tail: Text): Text
    requires items.Item?
  {
    if items.tail.Nil? then tail else [COMMA] + (PrintItems(items.tail) + tail)
  }

  lemma ItemsSplit(items: Items, tail: Text)
    requires items.Item?
    ensures PrintItems(items) + tail == Stringify(items.head) + ItemTail(items, tail)
  {
  }

  lemma ItemsStart(items: Items, tail: Text)
    requires items.Item? && WellFormedItems(items)
    ensures var inner := PrintItems(items) + tail; SkipSpace(inner) == inner && inner != [] && inner[0] != CLOSE_BRACKET
  {
    ItemsSplit(items, tail);
    PrintedStart(items.head, ItemTail(items, tail));
  }

  lemma {:induction false} ItemsRead(items: Items, rest: Text)
    requires items.Item? && WellFormedItems(items)
    ensures ParseItems(PrintItems(items) + ([CLOSE_BRACKET] + rest)) == Done(items, rest)
    decreases items, 1
  {
    var tail := [CLOSE_BRACKET] + rest;
    ItemsSplit(items, tail);
    ValueRead(items.head, ItemTail(items, tail));
    if items.tail.Nil? {
      SkipNothing(CLOSE_BRACKET, rest);
    } else {
      ItemsRead(items.tail, rest);
      ItemsStart(items.tail, tail);
      SkipNothing(COMMA, PrintItems(items.tail) + tail);
    }
  }

  lemma Enclosed(open: Unit, inner: Text, close: Unit, rest: Text)
    ensures [open] + inner + [close] + rest == [open] + (inner + ([close] + rest))
    ensures ([open] + (inner + ([close] + rest)))[1..] == inner + ([close] + rest)
  {
  }

  /** Reading an object, its first space skipped. */
  lemma ObjectOpened(inner: Text)
    requires SkipSpace(inner) == inner && inner != []
    ensures ParseValue([OPEN_BRACE] + inner) ==
            if inner[0] == CLOSE_BRACE then Done(Obj(End), inner[1..])
            else match ParseMembers(inner, End) case Fail => Fail case Done(members, rest) => Done(Obj(members), rest)
  {
    assert ([OPEN_BRACE] + inner)[1..] == inner;
  }

  lemma {:induction false} ObjectRead(members: Members, rest: Text)
    requires Enumerated(members) && WellFormedMembers(members)
    ensures ParseValue(Stringify(Obj(members)) + rest) == Done(Obj(members), rest)
    decreases members, 2
  {
    Enclosed(OPEN_BRACE, PrintMembers(members), CLOSE_BRACE, rest);
    var inner := PrintMembers(members) + ([CLOSE_BRACE] + rest);
    if members.End? {
      SkipNothing(CLOSE_BRACE, rest);
      assert inner == [CLOSE_BRACE] + rest;
    } else {
      MembersRead(members, End, rest);
      MembersStart(members, [CLOSE_BRACE] + rest);
    }
    ObjectOpened(inner);
  }

  function MemberTail(ms: Members, tail: Text): Text
    requires ms.Field?
  {
    if ms.rest.End? then tail else [COMMA] + (PrintMembers(ms.rest) + tail)
  }

  lemma MembersSplit(ms: Members, tail: Text)
    requires ms.Field?
    ensures PrintMembers(ms) + tail == PrintKey(ms.key) + (Stringify(ms.value) + MemberTail(ms, tail))
  {
  }

  lemma MembersStart(ms: Members, tail: Text)
    requires ms.Field? && WellFormedMembers(ms)
    ensures var inner := PrintMembers(ms) + tail; SkipSpace(inner) == inner && inner != [] && inner[0] == QUOTE
  {
    MembersSplit(ms, tail);
    var value := Stringify(ms.value) + MemberTail(ms, tail);
    PrintedStart(ms.value, MemberTail(ms, tail));
    KeyRead(ms.key, value);
  }

  lemma {:induction false} MembersRead(ms: Members, acc: Members, rest: Text)
    requires ms.Field? && WellFormedMembers(ms) && Enumerated(Append(acc, ms))
    ensures ParseMembers(PrintMembers(ms) + ([CLOSE_BRACE] + rest), acc) == Done(Append(acc, ms), rest)
    decreases ms, 1
  {
    var tail := [CLOSE_BRACE] + rest;
    var one := Field(ms.key, ms.value, End);
    AppendAssociative(acc, one, ms.rest);
    EnumeratedPrefix(Append(acc, one), ms.rest);
    DefineLast(acc, ms.key, ms.value);
    MembersSplit(ms, tail);
    PrintedStart(ms.value, MemberTail(ms, tail));
    KeyRead(ms.key, Stringify(ms.value) + MemberTail(ms, tail));
    ValueRead(ms.value, MemberTail(ms, tail));
    if ms.rest.End? {
      SkipNothing(CLOSE_BRACE, rest);
    } else {
      var more := PrintMembers(ms.rest) + tail;
      MembersRead(ms.rest, Append(acc, one), rest);
      MembersStart(ms.rest, tail);
      SkipNothing(COMMA, more);
    }
  }

  /** `JSON.parse(JSON.stringify(v))` is `v`. */
  lemma RoundTrip(v: Json)
    requires WellFormed(v)
    ensures Parse(Stringify(v)) == Found(v)
  {
    ValueRead(v, []);
    PrintedStart(v, []);
    assert Stringify(v) + [] == Stringify(v);
  }

  /** Hence values that print alike are the same value, with the same key order. */
  lemma StringifyInjective(v: Json, w: Json)
    requires WellFormed(v) && WellFormed(w) && Stringify(v) == Stringify(w)
    ensures v == w
  {
    RoundTrip(v);
    RoundTrip(w);
  }
}
