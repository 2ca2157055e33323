/**
 JavaScript strings as sequences of UTF-16 code units, their code-unit order, the characters
 that JSON and regular expressions treat specially, and the order in which an object lists its keys.
 */
module Text {

  type Unit = u: int | 0 <= u < 0x10000
  type Text = seq<Unit>

  const QUOTE: Unit := 34
  const BACKSLASH: Unit := 92
  const SLASH: Unit := 47
  const TILDE: Unit := 126
  const OPEN_BRACE: Unit := 123
  const CLOSE_BRACE: Unit := 125
  const OPEN_BRACKET: Unit := 91
  const CLOSE_BRACKET: Unit := 93
  const COMMA: Unit := 44
  const COLON: Unit := 58
  const DOT: Unit := 46
  const MINUS: Unit := 45
  const PLUS: Unit := 43
  const ZERO: Unit := 48
  const ONE: Unit := 49
  const NINE: Unit := 57
  const LOWER_E: Unit := 101
  const UPPER_E: Unit := 69
  const LOWER_U: Unit := 117
  const NEWLINE: Unit := 10

  /** `__proto__` */
  const PROTO: Text := [95, 95, 112, 114, 111, 116, 111, 95, 95]

  /** The code units of a literal written in this project. */
  function Ascii(s: string): Text {
    seq(|s|, i requires 0 <= i < |s| => if s[i] as int < 0x10000 then s[i] as int else 0xFFFD)
  }

  predicate IsDigit(u: Unit) {
    ZERO <= u <= NINE
  }

  /** The two halves of a surrogate pair. */
  predicate IsLead(u: Unit) { 0xD800 <= u < 0xDC00 }

  predicate IsTrail(u: Unit) { 0xDC00 <= u < 0xE000 }

  /** White space of JSON texts (section 2 of RFC 8259). */
  predicate IsJsonSpace(u: Unit) {
    u == 32 || u == 9 || u == 10 || u == 13
  }

  /** White space matched by the regular expression `\s` and removed by `trim`. */
  predicate IsSpace(u: Unit) {
    || 9 <= u <= 13 || u == 32 || u == 0xA0 || u == 0x1680 || 0x2000 <= u <= 0x200A
    || u == 0x2028 || u == 0x2029 || u == 0x202F || u == 0x205F || u == 0x3000 || u == 0xFEFF
  }

  predicate AllSpace(t: Text) {
    forall i :: 0 <= i < |t| ==> IsSpace(t[i])
  }

  // ---------------------------------------------------------------- printed numbers

  /** `String(n)` of a natural number. */
  function Decimal(n: nat): Text {
    if n < 10 then [ZERO + n] else Decimal(n / 10) + [ZERO + n % 10]
  }

  lemma {:induction false} DecimalInjective(a: nat, b: nat)
    requires Decimal(a) == Decimal(b)
    ensures a == b
  {
    assert forall n: nat :: n >= 10 ==> |Decimal(n)| > 1 by {
      forall n: nat | n >= 10 ensures |Decimal(n)| > 1 { assert |Decimal(n / 10)| > 0; }
    }
    if a >= 10 && b >= 10 {
      var x, y := Decimal(a), Decimal(b);
      assert x[..|x| - 1] == Decimal(a / 10) && y[..|y| - 1] == Decimal(b / 10);
      assert x[|x| - 1] == ZERO + a % 10 && y[|y| - 1] == ZERO + b % 10;
      DecimalInjective(a / 10, b / 10);
    }
  }

  // ---------------------------------------------------------------- the order of texts

  /** Code-unit order, the order of `<` and of the default `sort`. */
  predicate Less(a: Text, b: Text) {
    if b == [] then false
    else if a == [] then true
    else a[0] < b[0] || (a[0] == b[0] && Less(a[1..], b[1..]))
  }

  lemma {:induction false} LessIrreflexive(a: Text)
    ensures !Less(a, a)
  {
    if a != [] {
      LessIrreflexive(a[1..]);
    }
  }

  lemma {:induction false} LessTransitive(a: Text, b: Text, c: Text)
    requires Less(a, b) && Less(b, c)
    ensures Less(a, c)
  {
    if a != [] && a[0] == b[0] && b[0] == c[0] {
      LessTransitive(a[1..], b[1..], c[1..]);
    }
  }

  lemma {:induction false} LessTotal(a: Text, b: Text)
    ensures Less(a, b) || a == b || Less(b, a)
  {
    if a != [] && b != [] && a[0] == b[0] {
      LessTotal(a[1..], b[1..]);
      assert a == [a[0]] + a[1..] && b == [b[0]] + b[1..];
    }
  }

  lemma LessAsymmetric(a: Text, b: Text)
    requires Less(a, b)
    ensures !Less(b, a)
  {
    if Less(b, a) {
      LessTransitive(a, b, a);
      LessIrreflexive(a);
    }
  }

  // ---------------------------------------------------------------- key order of objects

  /** 4294967295, the first integer that is not an array index. */
  const INDEX_LIMIT: Text := [52, 50, 57, 52, 57, 54, 55, 50, 57, 53]

  /** A key that objects enumerate before all others: a numeral without leading zeros, below the limit. */
  predicate IsArrayIndex(k: Text) {
    && 1 <= |k| <= 10
    && (forall i :: 0 <= i < |k| ==> IsDigit(k[i]))
    && (|k| > 1 ==> k[0] != ZERO)
    && (|k| == 10 ==> Less(k, INDEX_LIMIT))
  }

  /** Numeric order of array indices: a shorter numeral is smaller, equally long ones compare by digits. */
  predicate IndexLess(a: Text, b: Text) {
    |a| < |b| || (|a| == |b| && Less(a, b))
  }

  /** The order in which an object built from sorted keys lists them. */
  predicate KeyBefore(a: Text, b: Text) {
    if IsArrayIndex(a) then !IsArrayIndex(b) || IndexLess(a, b)
    else !IsArrayIndex(b) && Less(a, b)
  }

  lemma KeyBeforeIrreflexive(a: Text)
    ensures !KeyBefore(a, a)
  {
    LessIrreflexive(a);
  }

  lemma KeyBeforeTransitive(a: Text, b: Text, c: Text)
    requires KeyBefore(a, b) && KeyBefore(b, c)
    ensures KeyBefore(a, c)
  {
    if Less(a, b) && Less(b, c) {
      LessTransitive(a, b, c);
    }
  }

  lemma KeyBeforeTotal(a: Text, b: Text)
    ensures KeyBefore(a, b) || a == b || KeyBefore(b, a)
  {
    LessTotal(a, b);
  }

  // ---------------------------------------------------------------- sorting distinct keys

  predicate Sorted(keys: seq<Text>) {
    forall i, j :: 0 <= i < j < |keys| ==> Less(keys[i], keys[j])
  }

  function KeySet(keys: seq<Text>): set<Text> {
    set k | k in keys
  }

  function InsertKey(key: Text, keys: seq<Text>): seq<Text> {
    if keys == [] || Less(key, keys[0]) then [key] + keys
    else [keys[0]] + InsertKey(key, keys[1..])
  }

  function SortKeys(keys: seq<Text>): seq<Text> {
    if keys == [] then [] else InsertKey(keys[0], SortKeys(keys[1..]))
  }

  lemma {:induction false} InsertKeySorts(key: Text, keys: seq<Text>)
    requires Sorted(keys) && key !in keys
    ensures Sorted(InsertKey(key, keys))
    ensures KeySet(InsertKey(key, keys)) == KeySet(keys) + {key}
    ensures |InsertKey(key, keys)| == |keys| + 1
  {
    if keys == [] {
    } else if Less(key, keys[0]) {
      forall i | 0 <= i < |keys| ensures Less(key, keys[i]) {
        if i > 0 { LessTransitive(key, keys[0], keys[i]); }
      }
    } else {
      InsertKeySorts(key, keys[1..]);
      LessTotal(key, keys[0]);
      var tail := InsertKey(key, keys[1..]);
      assert keys == [keys[0]] + keys[1..];
      forall i | 0 <= i < |tail| ensures Less(keys[0], tail[i]) {
        assert tail[i] in KeySet(tail);
      }
    }
  }

  lemma {:induction false} SortKeysSorts(keys: seq<Text>)
    requires forall i, j :: 0 <= i < j < |keys| ==> keys[i] != keys[j]
    ensures Sorted(SortKeys(keys))
    ensures KeySet(SortKeys(keys)) == KeySet(keys)
    ensures |SortKeys(keys)| == |keys|
  {
    if keys != [] {
      SortKeysSorts(keys[1..]);
      assert keys == [keys[0]] + keys[1..];
      assert keys[0] !in KeySet(keys[1..]);
      assert keys[0] !in SortKeys(keys[1..]) by {
        assert forall k :: k in SortKeys(keys[1..]) <==> k in KeySet(SortKeys(keys[1..]));
      }
      InsertKeySorts(keys[0], SortKeys(keys[1..]));
    }
  }

  lemma {:induction false} InsertKeyHolds(key: Text, keys: seq<Text>)
    ensures KeySet(InsertKey(key, keys)) == KeySet(keys) + {key} && |InsertKey(key, keys)| == |keys| + 1
  {
    if keys != [] && !Less(key, keys[0]) {
      InsertKeyHolds(key, keys[1..]);
      assert keys == [keys[0]] + keys[1..];
      assert forall k :: k in InsertKey(key, keys) <==> k == keys[0] || k in InsertKey(key, keys[1..]);
      assert forall k :: k in InsertKey(key, keys[1..]) <==> k in KeySet(InsertKey(key, keys[1..]));
    }
  }

  /** Sorting keeps which keys there are, and how many. */
  lemma {:induction false} SortKeysHolds(keys: seq<Text>)
    ensures KeySet(SortKeys(keys)) == KeySet(keys) && |SortKeys(keys)| == |keys|
  {
    if keys != [] {
      SortKeysHolds(keys[1..]);
      InsertKeyHolds(keys[0], SortKeys(keys[1..]));
      assert keys == [keys[0]] + keys[1..];
    }
  }

  lemma {:induction false} KeySetSize(keys: seq<Text>)
    ensures |KeySet(keys)| <= |keys|
    ensures |KeySet(keys)| == |keys| ==> forall i, j :: 0 <= i < j < |keys| ==> keys[i] != keys[j]
  {
    if keys != [] {
      KeySetSize(keys[1..]);
      assert keys == [keys[0]] + keys[1..];
      assert KeySet(keys) == {keys[0]} + KeySet(keys[1..]);
      if keys[0] in KeySet(keys[1..]) {
        assert KeySet(keys) == KeySet(keys[1..]);
      }
    }
  }

  /** Two lists, one of them without repetition, sort alike exactly when they hold the same keys as often. */
  lemma SortedAlikeIff(a: seq<Text>, b: seq<Text>)
    requires |KeySet(b)| == |b|
    ensures SortKeys(a) == SortKeys(b) <==> KeySet(a) == KeySet(b) && |a| == |b|
  {
    SortKeysHolds(a);
    SortKeysHolds(b);
    if KeySet(a) == KeySet(b) && |a| == |b| {
      KeySetSize(a);
      KeySetSize(b);
      SortKeysSorts(a);
      SortKeysSorts(b);
      SortedUnique(SortKeys(a), SortKeys(b));
    }
  }

  lemma HeadIsLeast(a: seq<Text>, k: Text)
    requires Sorted(a) && k in KeySet(a)
    ensures a != [] && !Less(k, a[0])
  {
    var i :| 0 <= i < |a| && a[i] == k;
    if i == 0 {
      LessIrreflexive(k);
    } else {
      LessAsymmetric(a[0], k);
    }
  }

  /** A sorted list of keys is determined by which keys it holds. */
  lemma {:induction false} SortedUnique(a: seq<Text>, b: seq<Text>)
    requires Sorted(a) && Sorted(b) && KeySet(a) == KeySet(b)
    ensures a == b
  {
    if a == [] {
      if b != [] { HeadIsLeast(a, b[0]); }
    } else {
      assert a[0] in KeySet(a);
      HeadIsLeast(b, a[0]);
      assert b[0] in KeySet(b);
      HeadIsLeast(a, b[0]);
      LessTotal(a[0], b[0]);
      Remainder(a);
      Remainder(b);
      SortedUnique(a[1..], b[1..]);
      assert a == [a[0]] + a[1..] && b == [b[0]] + b[1..];
    }
  }

  lemma Remainder(a: seq<Text>)
    requires Sorted(a) && a != []
    ensures KeySet(a[1..]) == KeySet(a) - {a[0]}
  {
    assert a == [a[0]] + a[1..];
    LessIrreflexive(a[0]);
  }
}
