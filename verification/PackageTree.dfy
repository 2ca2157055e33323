/**
 The byte stream that identifies an installed package: a walk over a directory tree feeds a hash
 with one length-prefixed header per entry and the raw contents of files. Directories carry neither
 a child count nor an end marker, and names may contain the separator of the header's fields.

 The main result: the stream determines the tree. The walk exists twice, with differently
 written sorts; both are proved to feed the same stream.
 */
module PackageTree {
  import opened Text
  import opened Common

  type Byte = b: int | 0 <= b < 256
  type Bytes = seq<Byte>

  /** How a string becomes bytes (UTF-8). */
  type Encoder = Text -> Bytes

  datatype Node =
    | File(mode: nat, content: Bytes)
    | Directory(mode: nat, entries: Entries)
    | SymbolicLink
    | Special

  /** A directory listing, in whatever order the file system gives it. */
  datatype Entries = Empty | Entry(name: Text, node: Node, rest: Entries)

  // ---------------------------------------------------------------- trees

  function Names(es: Entries): seq<Text> {
    match es
    case Empty => []
    case Entry(name, _, rest) => [name] + Names(rest)
  }

  function Find(es: Entries, name: Text): Option<Node> {
    match es
    case Empty => None
    case Entry(n, node, rest) => if n == name then Some(node) else Find(rest, name)
  }

  /** A name that a directory can hold. */
  predicate ValidName(name: Text) {
    && name != [] && name != [DOT] && name != [DOT, DOT]
    && forall i :: 0 <= i < |name| ==> name[i] != SLASH && name[i] != 0
  }

  predicate Valid(node: Node) {
    match node
    case File(mode, _) => mode < 4096
    case Directory(mode, entries) => mode < 4096 && ValidEntries(entries)
    case _ => true
  }

  predicate ValidEntries(es: Entries) {
    match es
    case Empty => true
    case Entry(name, node, rest) => ValidName(name) && name !in Names(rest) && Valid(node) && ValidEntries(rest)
  }

  /** Nothing in the tree but directories and regular files. */
  predicate Hashable(node: Node) {
    match node
    case File(_, _) => true
    case Directory(_, entries) => HashableEntries(entries)
    case _ => false
  }

  predicate HashableEntries(es: Entries) {
    match es
    case Empty => true
    case Entry(_, node, rest) => Hashable(node) && HashableEntries(rest)
  }

  function InsertEntry(name: Text, node: Node, es: Entries): Entries {
    match es
    case Empty => Entry(name, node, Empty)
    case Entry(n, x, rest) => if Less(name, n) then Entry(name, node, es) else Entry(n, x, InsertEntry(name, node, rest))
  }

  /** The same tree with every directory listed in name order: trees are the same when these are equal. */
  function Normal(node: Node): Node {
    match node
    case Directory(mode, entries) => Directory(mode, NormalEntries(entries))
    case _ => node
  }

  function NormalEntries(es: Entries): Entries {
    match es
    case Empty => Empty
    case Entry(name, node, rest) => InsertEntry(name, Normal(node), NormalEntries(rest))
  }

  // ---------------------------------------------------------------- the stream

  /** `directory:` and `file:` */
  const DIRECTORY: Text := [100, 105, 114, 101, 99, 116, 111, 114, 121, 58]
  const FILE: Text := [102, 105, 108, 101, 58]

  function DirectoryHeader(path: Text, mode: nat): Text {
    DIRECTORY + path + [COLON] + Decimal(mode)
  }

  function FileHeader(path: Text, mode: nat, size: nat): Text {
    FILE + path + [COLON] + Decimal(mode) + [COLON] + Decimal(size)
  }

  function BigEndian(n: nat, width: nat): (bytes: Bytes)
    ensures |bytes| == width
  {
    if width == 0 then [] else BigEndian(n / 256, width - 1) + [n % 256]
  }

  function Field(encode: Encoder, text: Text): Bytes {
    BigEndian(|encode(text)|, 8) + encode(text)
  }

  function Join(path: Text, name: Text): Text {
    path + [SLASH] + name
  }

  function Header(path: Text, node: Node): Text
    requires node.File? || node.Directory?
  {
    match node
    case File(mode, content) => FileHeader(path, mode, |content|)
    case Directory(mode, _) => DirectoryHeader(path, mode)
  }

  /** What the walk feeds for a tree whose listings are in order. */
  function Encode(encode: Encoder, path: Text, node: Node): Bytes
    requires Hashable(node)
    decreases node
  {
    match node
    case File(_, content) => Field(encode, Header(path, node)) + content
    case Directory(_, entries) => Field(encode, Header(path, node)) + EncodeEntries(encode, path, entries)
  }

  function EncodeEntries(encode: Encoder, path: Text, es: Entries): Bytes
    requires HashableEntries(es)
    decreases es
  {
    match es
    case Empty => []
    case Entry(name, node, rest) => Encode(encode, Join(path, name), node) + EncodeEntries(encode, path, rest)
  }

  // ---------------------------------------------------------------- numbers and fields

  function Power256(width: nat): nat {
    if width == 0 then 1 else 256 * Power256(width - 1)
  }

  lemma {:induction false} BigEndianInjective(m: nat, n: nat, width: nat)
    requires m < Power256(width) && n < Power256(width) && BigEndian(m, width) == BigEndian(n, width)
    ensures m == n
  {
    if width > 0 {
      var a, b := BigEndian(m, width), BigEndian(n, width);
      assert a[..width - 1] == BigEndian(m / 256, width - 1) && b[..width - 1] == BigEndian(n / 256, width - 1);
      assert a[width - 1] == m % 256 && b[width - 1] == n % 256;
      BigEndianInjective(m / 256, n / 256, width - 1);
    }
  }

  predicate AllDigits(t: Text) {
    forall i :: 0 <= i < |t| ==> IsDigit(t[i])
  }

  function DecimalValue(t: Text): nat
    requires AllDigits(t)
  {
    if t == [] then 0 else DecimalValue(t[..|t| - 1]) * 10 + (t[|t| - 1] - ZERO)
  }

  lemma {:induction false} DecimalReads(n: nat)
    ensures AllDigits(Decimal(n)) && Decimal(n) != [] && DecimalValue(Decimal(n)) == n
  {
    if n >= 10 {
      DecimalReads(n / 10);
      var t := Decimal(n);
      assert t[..|t| - 1] == Decimal(n / 10);
    } else {
      assert Decimal(n)[..0] == [];
    }
  }

  /** A text that ends in a colon and digits does so in one way. */
  lemma {:induction false} LastColon(a: Text, d: Text, b: Text, e: Text)
    requires AllDigits(d) && AllDigits(e) && a + [COLON] + d == b + [COLON] + e
    ensures a == b && d == e
    decreases |d|
  {
    var x, y := a + [COLON] + d, b + [COLON] + e;
    assert d == [] ==> x[|x| - 1] == COLON;
    assert e == [] ==> y[|y| - 1] == COLON;
    assert d != [] ==> x[|x| - 1] == d[|d| - 1];
    assert e != [] ==> y[|y| - 1] == e[|e| - 1];
    if d == [] {
      assert x[..|x| - 1] == a && y[..|y| - 1] == b;
    } else {
      var d', e' := d[..|d| - 1], e[..|e| - 1];
      assert x[..|x| - 1] == a + [COLON] + d' && y[..|y| - 1] == b + [COLON] + e';
      LastColon(a, d', b, e');
      assert d == d' + [d[|d| - 1]] && e == e' + [e[|e| - 1]];
    }
  }

  lemma DropSame(prefix: Text, a: Text, b: Text)
    requires prefix + a == prefix + b
    ensures a == b
  {
    assert a == (prefix + a)[|prefix|..] && b == (prefix + b)[|prefix|..];
  }

  lemma DirectoryHeaderInjective(p: Text, m: nat, q: Text, n: nat)
    requires DirectoryHeader(p, m) == DirectoryHeader(q, n)
    ensures p == q && m == n
  {
    DecimalReads(m);
    DecimalReads(n);
    LastColon(DIRECTORY + p, Decimal(m), DIRECTORY + q, Decimal(n));
    DropSame(DIRECTORY, p, q);
  }

  lemma FileHeaderInjective(p: Text, m: nat, k: nat, q: Text, n: nat, l: nat)
    requires FileHeader(p, m, k) == FileHeader(q, n, l)
    ensures p == q && m == n && k == l
  {
    DecimalReads(m);
    DecimalReads(n);
    DecimalReads(k);
    DecimalReads(l);
    LastColon(FILE + p + [COLON] + Decimal(m), Decimal(k), FILE + q + [COLON] + Decimal(n), Decimal(l));
    LastColon(FILE + p, Decimal(m), FILE + q, Decimal(n));
    DropSame(FILE, p, q);
  }

  /** A header tells the kind, path, mode and size of its entry. */
  lemma HeaderInjective(p: Text, a: Node, q: Text, b: Node)
    requires Hashable(a) && Hashable(b) && Header(p, a) == Header(q, b)
    ensures p == q && (a.File? <==> b.File?) && a.mode == b.mode
    ensures a.File? ==> |a.content| == |b.content|
  {
    assert a.Directory? ==> Header(p, a)[0] == 100;
    assert a.File? ==> Header(p, a)[0] == 102;
    assert b.Directory? ==> Header(q, b)[0] == 100;
    assert b.File? ==> Header(q, b)[0] == 102;
    if a.File? && b.File? {
      FileHeaderInjective(p, a.mode, |a.content|, q, b.mode, |b.content|);
    } else if a.Directory? && b.Directory? {
      DirectoryHeaderInjective(p, a.mode, q, b.mode);
    }
  }

  /** No surrogate code unit stands alone, as in every string decoded from UTF-8. */
  predicate WellPaired(t: Text) {
    if t == [] then true
    else if IsLead(t[0]) then |t| > 1 && IsTrail(t[1]) && WellPaired(t[2..])
    else !IsTrail(t[0]) && WellPaired(t[1..])
  }

  ghost predicate Injective(encode: Encoder) {
    forall x, y :: WellPaired(x) && WellPaired(y) && encode(x) == encode(y) ==> x == y
  }

  /** A header that is encoded faithfully and whose length eight bytes can hold. */
  predicate Fits(encode: Encoder, text: Text) {
    WellPaired(text) && |encode(text)| < Power256(8)
  }

  lemma SplitEqual(a: Bytes, r: Bytes, b: Bytes, s: Bytes)
    requires |a| == |b| && a + r == b + s
    ensures a == b && r == s
  {
    assert a == (a + r)[..|a|] && b == (b + s)[..|b|];
    assert r == (a + r)[|a|..] && s == (b + s)[|b|..];
  }

  /** A length-prefixed field at the front of a stream is read in one way. */
  lemma FieldInjective(encode: Encoder, x: Text, r: Bytes, y: Text, s: Bytes)
    requires Injective(encode) && Fits(encode, x) && Fits(encode, y)
    requires Field(encode, x) + r == Field(encode, y) + s
    ensures x == y && r == s
  {
    var m, n := |encode(x)|, |encode(y)|;
    assert BigEndian(m, 8) + (encode(x) + r) == Field(encode, x) + r;
    assert BigEndian(n, 8) + (encode(y) + s) == Field(encode, y) + s;
    SplitEqual(BigEndian(m, 8), encode(x) + r, BigEndian(n, 8), encode(y) + s);
    BigEndianInjective(m, n, 8);
    SplitEqual(encode(x), r, encode(y), s);
  }

  // ---------------------------------------------------------------- the stream determines the tree

  /** Every header of the tree fits its length field. */
  predicate AllFit(encode: Encoder, path: Text, node: Node)
    requires Hashable(node)
    decreases node
  {
    && Fits(encode, Header(path, node))
    && (node.Directory? ==> AllEntriesFit(encode, path, node.entries))
  }

  predicate AllEntriesFit(encode: Encoder, path: Text, es: Entries)
    requires HashableEntries(es)
    decreases es
  {
    match es
    case Empty => true
    case Entry(name, node, rest) => AllFit(encode, Join(path, name), node) && AllEntriesFit(encode, path, rest)
  }

  predicate Below(path: Text, q: Text) {
    path + [SLASH] <= q
  }

  /** A stream that is over, or goes on with an entry that is not inside `path`. */
  ghost predicate Outside(encode: Encoder, path: Text, r: Bytes) {
    r == [] || exists q, node: Node, s :: Hashable(node) && r == Field(encode, Header(q, node)) + s
                                          && Fits(encode, Header(q, node)) && !Below(path, q)
  }

  lemma JoinInjective(path: Text, a: Text, b: Text)
    requires Join(path, a) == Join(path, b)
    ensures a == b
  {
    DropSame(path + [SLASH], a, b);
  }

  lemma BelowSibling(path: Text, a: Text, b: Text)
    requires Below(Join(path, a), Join(path, b))
    ensures |a| < |b| && b[|a|] == SLASH
  {
    var x, y := Join(path, a) + [SLASH], Join(path, b);
    assert x[|path| + 1 + |a|] == SLASH;
    assert y[|path| + 1 + |a|] == b[|a|];
  }

  lemma SiblingNotBelow(path: Text, a: Text, b: Text)
    requires ValidName(b)
    ensures !Below(Join(path, a), Join(path, b))
  {
    if Below(Join(path, a), Join(path, b)) {
      BelowSibling(path, a, b);
    }
  }

  lemma BelowParent(path: Text, name: Text, q: Text)
    requires Below(Join(path, name), q)
    ensures Below(path, q)
  {
    assert q[..|path| + 1] == (Join(path, name) + [SLASH])[..|path| + 1] == path + [SLASH];
  }

  lemma EncodeStarts(encode: Encoder, path: Text, node: Node, r: Bytes) returns (s: Bytes)
    requires Hashable(node)
    ensures Encode(encode, path, node) + r == Field(encode, Header(path, node)) + s
    ensures node.File? ==> s == node.content + r
    ensures node.Directory? ==> s == EncodeEntries(encode, path, node.entries) + r
  {
    s := (if node.File? then node.content else EncodeEntries(encode, path, node.entries)) + r;
  }

  lemma OutsideInner(encode: Encoder, path: Text, name: Text, r: Bytes)
    requires Outside(encode, path, r)
    ensures Outside(encode, Join(path, name), r)
  {
    if r != [] {
      var q, node: Node, s :| Hashable(node) && r == Field(encode, Header(q, node)) + s
                              && Fits(encode, Header(q, node)) && !Below(path, q);
      if Below(Join(path, name), q) { BelowParent(path, name, q); }
    }
  }

  lemma EntriesSplit(encode: Encoder, path: Text, es: Entries, r: Bytes)
    requires es.Entry? && HashableEntries(es)
    ensures EncodeEntries(encode, path, es) + r
         == Encode(encode, Join(path, es.name), es.node) + (EncodeEntries(encode, path, es.rest) + r)
  {
  }

  /** After one entry of a directory, the stream goes on outside that entry. */
  lemma RestIsOutside(encode: Encoder, path: Text, name: Text, rest: Entries, r: Bytes)
    requires ValidEntries(rest) && HashableEntries(rest) && AllEntriesFit(encode, path, rest)
    requires Outside(encode, path, r)
    ensures Outside(encode, Join(path, name), EncodeEntries(encode, path, rest) + r)
  {
    if rest.Empty? {
      OutsideInner(encode, path, name, r);
      assert EncodeEntries(encode, path, rest) + r == r;
    } else {
      SiblingNotBelow(path, name, rest.name);
      EntriesSplit(encode, path, rest, r);
      var s := EncodeStarts(encode, Join(path, rest.name), rest.node, EncodeEntries(encode, path, rest.rest) + r);
    }
  }

  lemma OutsideIsNotInside(encode: Encoder, path: Text, name: Text, node: Node, s: Bytes)
    requires Injective(encode) && Hashable(node) && Fits(encode, Header(Join(path, name), node))
    ensures !Outside(encode, path, Field(encode, Header(Join(path, name), node)) + s)
  {
    var r := Field(encode, Header(Join(path, name), node)) + s;
    assert |r| >= 8;
    forall q, other: Node, t | Hashable(other) && r == Field(encode, Header(q, other)) + t && Fits(encode, Header(q, other))
      ensures Below(path, q)
    {
      FieldInjective(encode, Header(Join(path, name), node), s, Header(q, other), t);
      HeaderInjective(Join(path, name), node, q, other);
    }
  }

  lemma {:induction false} NodeInjective(encode: Encoder, path: Text, a: Node, r: Bytes, b: Node, s: Bytes)
    requires Injective(encode) && Valid(a) && Valid(b) && Hashable(a) && Hashable(b)
    requires AllFit(encode, path, a) && AllFit(encode, path, b)
    requires Outside(encode, path, r) && Outside(encode, path, s)
    requires Encode(encode, path, a) + r == Encode(encode, path, b) + s
    ensures a == b && r == s
    decreases a, 1
  {
    var x := EncodeStarts(encode, path, a, r);
    var y := EncodeStarts(encode, path, b, s);
    FieldInjective(encode, Header(path, a), x, Header(path, b), y);
    HeaderInjective(path, a, path, b);
    if a.File? {
      SplitEqual(a.content, r, b.content, s);
    } else {
      EntriesInjective(encode, path, a.entries, r, b.entries, s);
    }
  }

  /** Two streams of entries that agree begin with entries of the same name. */
  lemma FirstNamesAgree(encode: Encoder, path: Text, a: Entries, r: Bytes, b: Entries, s: Bytes)
    requires Injective(encode) && a.Entry? && b.Entry? && HashableEntries(a) && HashableEntries(b)
    requires AllEntriesFit(encode, path, a) && AllEntriesFit(encode, path, b)
    requires EncodeEntries(encode, path, a) + r == EncodeEntries(encode, path, b) + s
    ensures a.name == b.name
  {
    var pathA, pathB := Join(path, a.name), Join(path, b.name);
    EntriesSplit(encode, path, a, r);
    EntriesSplit(encode, path, b, s);
    var x := EncodeStarts(encode, pathA, a.node, EncodeEntries(encode, path, a.rest) + r);
    var y := EncodeStarts(encode, pathB, b.node, EncodeEntries(encode, path, b.rest) + s);
    FieldInjective(encode, Header(pathA, a.node), x, Header(pathB, b.node), y);
    HeaderInjective(pathA, a.node, pathB, b.node);
    JoinInjective(path, a.name, b.name);
  }

  lemma {:induction false} EntriesInjective(encode: Encoder, path: Text, a: Entries, r: Bytes, b: Entries, s: Bytes)
    requires Injective(encode) && ValidEntries(a) && ValidEntries(b) && HashableEntries(a) && HashableEntries(b)
    requires AllEntriesFit(encode, path, a) && AllEntriesFit(encode, path, b)
    requires Outside(encode, path, r) && Outside(encode, path, s)
    requires EncodeEntries(encode, path, a) + r == EncodeEntries(encode, path, b) + s
    ensures a == b && r == s
    decreases a, 0
  {
    if a.Entry? && b.Entry? {
      FirstNamesAgree(encode, path, a, r, b, s);
      EntriesSplit(encode, path, a, r);
      EntriesSplit(encode, path, b, s);
      RestIsOutside(encode, path, a.name, a.rest, r);
      RestIsOutside(encode, path, a.name, b.rest, s);
      NodeInjective(encode, Join(path, a.name), a.node, EncodeEntries(encode, path, a.rest) + r,
                    b.node, EncodeEntries(encode, path, b.rest) + s);
      EntriesInjective(encode, path, a.rest, r, b.rest, s);
    } else {
      assert a.Empty? ==> EncodeEntries(encode, path, a) + r == r;
      assert b.Empty? ==> EncodeEntries(encode, path, b) + s == s;
      if a.Entry? { FirstIsInside(encode, path, a, r); }
      if b.Entry? { FirstIsInside(encode, path, b, s); }
    }
  }

  lemma FirstIsInside(encode: Encoder, path: Text, es: Entries, r: Bytes)
    requires Injective(encode) && es.Entry? && HashableEntries(es) && AllEntriesFit(encode, path, es)
    ensures !Outside(encode, path, EncodeEntries(encode, path, es) + r)
  {
    var more := EncodeEntries(encode, path, es.rest) + r;
    var s := EncodeStarts(encode, Join(path, es.name), es.node, more);
    assert EncodeEntries(encode, path, es) + r == Encode(encode, Join(path, es.name), es.node) + more;
    OutsideIsNotInside(encode, path, es.name, es.node, s);
  }

  // ---------------------------------------------------------------- the installed packages

  /** `node_modules/@openai/codex` */
  const WRAPPER_PATH: Text := Ascii("node_modules/@openai/codex")

  /** `node_modules/@openai/codex-linux-x64` */
  const PLATFORM_PATH: Text := WRAPPER_PATH + Ascii("-linux-x64")

  function EncodePackages(encode: Encoder, wrapper: Node, platform: Node): Bytes
    requires Hashable(wrapper) && Hashable(platform)
  {
    Encode(encode, WRAPPER_PATH, wrapper) + Encode(encode, PLATFORM_PATH, platform)
  }

  lemma PlatformIsOutsideWrapper()
    ensures !Below(WRAPPER_PATH, PLATFORM_PATH)
  {
    var suffix := Ascii("-linux-x64");
    assert suffix[0] == MINUS;
    assert PLATFORM_PATH[|WRAPPER_PATH|] == suffix[0];
    assert (WRAPPER_PATH + [SLASH])[|WRAPPER_PATH|] == SLASH;
  }

  predicate Admissible(encode: Encoder, path: Text, node: Node) {
    Valid(node) && Hashable(node) && AllFit(encode, path, node)
  }

  /** The stream fed to the artifact hash determines both package trees: names, modes and file bytes. */
  lemma PackageStreamInjective(encode: Encoder, wrapper: Node, platform: Node, wrapper': Node, platform': Node)
    requires Injective(encode)
    requires Admissible(encode, WRAPPER_PATH, wrapper) && Admissible(encode, PLATFORM_PATH, platform)
    requires Admissible(encode, WRAPPER_PATH, wrapper') && Admissible(encode, PLATFORM_PATH, platform')
    requires EncodePackages(encode, wrapper, platform) == EncodePackages(encode, wrapper', platform')
    ensures wrapper == wrapper' && platform == platform'
  {
    PlatformIsOutsideWrapper();
    var p, p' := Encode(encode, PLATFORM_PATH, platform), Encode(encode, PLATFORM_PATH, platform');
    assert p + [] == p && p' + [] == p';
    var s := EncodeStarts(encode, PLATFORM_PATH, platform, []);
    var s' := EncodeStarts(encode, PLATFORM_PATH, platform', []);
    NodeInjective(encode, WRAPPER_PATH, wrapper, p, wrapper', p');
    NodeInjective(encode, PLATFORM_PATH, platform, [], platform', []);
  }

  lemma {:induction false} NormalValid(node: Node)
    requires Valid(node)
    ensures Valid(Normal(node))
    decreases node, 1
  {
    if node.Directory? {
      NormalEntriesValid(node.entries);
    }
  }

  lemma {:induction false} InsertValid(name: Text, node: Node, es: Entries)
    requires ValidEntries(es) && ValidName(name) && Valid(node) && name !in Names(es)
    ensures ValidEntries(InsertEntry(name, node, es))
    ensures forall n :: n in Names(InsertEntry(name, node, es)) <==> n == name || n in Names(es)
  {
    if es.Entry? {
      InsertValid(name, node, es.rest);
    }
  }

  lemma {:induction false} NormalEntriesValid(es: Entries)
    requires ValidEntries(es)
    ensures ValidEntries(NormalEntries(es))
    ensures forall n :: n in Names(NormalEntries(es)) <==> n in Names(es)
    decreases es, 0
  {
    if es.Entry? {
      NormalValid(es.node);
      NormalEntriesValid(es.rest);
      InsertValid(es.name, Normal(es.node), NormalEntries(es.rest));
    }
  }

  /** What the walk feeds is equal exactly when the trees are the same, in whatever order their directories are listed. */
  lemma SameStreamIffSameTrees(encode: Encoder, wrapper: Node, platform: Node, wrapper': Node, platform': Node)
    requires Injective(encode)
    requires Valid(wrapper) && Valid(platform) && Valid(wrapper') && Valid(platform')
    requires Hashable(Normal(wrapper)) && AllFit(encode, WRAPPER_PATH, Normal(wrapper))
    requires Hashable(Normal(platform)) && AllFit(encode, PLATFORM_PATH, Normal(platform))
    requires Hashable(Normal(wrapper')) && AllFit(encode, WRAPPER_PATH, Normal(wrapper'))
    requires Hashable(Normal(platform')) && AllFit(encode, PLATFORM_PATH, Normal(platform'))
    ensures EncodePackages(encode, Normal(wrapper), Normal(platform)) == EncodePackages(encode, Normal(wrapper'), Normal(platform'))
       <==> Normal(wrapper) == Normal(wrapper') && Normal(platform) == Normal(platform')
  {
    NormalValid(wrapper);
    NormalValid(platform);
    NormalValid(wrapper');
    NormalValid(platform');
    if EncodePackages(encode, Normal(wrapper), Normal(platform)) == EncodePackages(encode, Normal(wrapper'), Normal(platform')) {
      PackageStreamInjective(encode, Normal(wrapper), Normal(platform), Normal(wrapper'), Normal(platform'));
    }
  }

  // ---------------------------------------------------------------- the walk

  /** Sorts of names as the two walks write them. */
  type Sorter = seq<Text> -> seq<Text>

  ghost predicate Sorts(sort: Sorter) {
    forall names :: (forall i, j :: 0 <= i < j < |names| ==> names[i] != names[j]) ==>
      Sorted(sort(names)) && KeySet(sort(names)) == KeySet(names)
  }

  function Compare(left: Text, right: Text): int {
    if Less(left, right) then -1 else if Less(right, left) then 1 else 0
  }

  /** Sorting by an explicit comparator, stably. */
  function InsertByComparator(name: Text, names: seq<Text>): seq<Text> {
    if names == [] || Compare(name, names[0]) <= 0 then [name] + names
    else [names[0]] + InsertByComparator(name, names[1..])
  }

  function SortByComparator(names: seq<Text>): seq<Text> {
    if names == [] then [] else InsertByComparator(names[0], SortByComparator(names[1..]))
  }

  lemma {:induction false} InsertsAgree(name: Text, names: seq<Text>)
    requires name !in names
    ensures InsertByComparator(name, names) == InsertKey(name, names)
  {
    if names != [] {
      LessTotal(name, names[0]);
      if Less(name, names[0]) { LessAsymmetric(name, names[0]); }
      InsertsAgree(name, names[1..]);
    }
  }

  /** The default sort and the explicit comparator order distinct names alike. */
  lemma {:induction false} SortersAgree(names: seq<Text>)
    requires forall i, j :: 0 <= i < j < |names| ==> names[i] != names[j]
    ensures SortByComparator(names) == SortKeys(names)
  {
    if names != [] {
      SortersAgree(names[1..]);
      SortKeysSorts(names[1..]);
      var sorted := SortKeys(names[1..]);
      assert names[0] !in names[1..] by {
        assert forall i :: 0 <= i < |names[1..]| ==> names[1..][i] == names[i + 1];
      }
      assert forall k :: k in sorted <==> k in KeySet(sorted);
      assert forall k :: k in names[1..] <==> k in KeySet(names[1..]);
      InsertsAgree(names[0], sorted);
    }
  }

  lemma BothSort()
    ensures Sorts(SortKeys) && Sorts(SortByComparator)
  {
    forall names: seq<Text> | forall i, j :: 0 <= i < j < |names| ==> names[i] != names[j]
      ensures Sorted(SortKeys(names)) && KeySet(SortKeys(names)) == KeySet(names)
      ensures SortByComparator(names) == SortKeys(names)
    {
      SortKeysSorts(names);
      SortersAgree(names);
    }
  }

  /** What the walk feeds for the entries named by `names`, in that order. */
  function EncodeNames(encode: Encoder, path: Text, names: seq<Text>, es: Entries): Bytes
    requires HashableEntries(es)
  {
    if names == [] then []
    else
      (match Find(es, names[0])
       case None => []
       case Some(node) => FindHashable(es, names[0]); Encode(encode, Join(path, names[0]), Normal(node)))
      + EncodeNames(encode, path, names[1..], es)
  }

  lemma {:induction false} FindHashable(es: Entries, name: Text)
    requires HashableEntries(es)
    ensures Find(es, name).Some? ==> Hashable(Find(es, name).value) && Hashable(Normal(Find(es, name).value))
  {
    if es.Entry? {
      if es.name == name { NormalHashable(es.node); } else { FindHashable(es.rest, name); }
    }
  }

  lemma {:induction false} NormalHashable(node: Node)
    ensures Hashable(Normal(node)) <==> Hashable(node)
    decreases node, 1
  {
    if node.Directory? {
      NormalEntriesHashable(node.entries);
    }
  }

  lemma {:induction false} InsertHashable(name: Text, node: Node, es: Entries)
    ensures HashableEntries(InsertEntry(name, node, es)) <==> Hashable(node) && HashableEntries(es)
  {
    if es.Entry? {
      InsertHashable(name, node, es.rest);
    }
  }

  lemma {:induction false} NormalEntriesHashable(es: Entries)
    ensures HashableEntries(NormalEntries(es)) <==> HashableEntries(es)
    decreases es, 0
  {
    if es.Entry? {
      NormalHashable(es.node);
      NormalEntriesHashable(es.rest);
      InsertHashable(es.name, Normal(es.node), NormalEntries(es.rest));
    }
  }

  lemma {:induction false} InsertNames(name: Text, node: Node, es: Entries)
    ensures Names(InsertEntry(name, node, es)) == InsertKey(name, Names(es))
  {
    if es.Entry? {
      InsertNames(name, node, es.rest);
    }
  }

  lemma {:induction false} NormalNames(es: Entries)
    ensures Names(NormalEntries(es)) == SortKeys(Names(es))
  {
    if es.Entry? {
      NormalNames(es.rest);
      InsertNames(es.name, Normal(es.node), NormalEntries(es.rest));
    }
  }

  /** Every listed entry is the normal form of the one found under its name. */
  predicate FoundNormal(listed: Entries, es: Entries) {
    match listed
    case Empty => true
    case Entry(name, node, rest) =>
      Find(es, name).Some? && node == Normal(Find(es, name).value) && FoundNormal(rest, es)
  }

  lemma {:induction false} InsertFound(name: Text, node: Node, listed: Entries, es: Entries)
    requires FoundNormal(listed, es) && Find(es, name).Some? && node == Normal(Find(es, name).value)
    ensures FoundNormal(InsertEntry(name, node, listed), es)
  {
    if listed.Entry? {
      InsertFound(name, node, listed.rest, es);
    }
  }

  lemma {:induction false} FoundInLonger(listed: Entries, es: Entries, name: Text, node: Node)
    requires FoundNormal(listed, es) && name !in Names(listed)
    ensures FoundNormal(listed, Entry(name, node, es))
  {
    if listed.Entry? {
      FoundInLonger(listed.rest, es, name, node);
    }
  }

  lemma {:induction false} NormalFound(es: Entries)
    requires ValidEntries(es)
    ensures FoundNormal(NormalEntries(es), es)
  {
    if es.Entry? {
      NormalFound(es.rest);
      NormalNames(es.rest);
      NamesDistinct(es.rest);
      SortKeysSorts(Names(es.rest));
      var listed := NormalEntries(es.rest);
      assert forall k :: k in Names(listed) <==> k in KeySet(Names(listed));
      assert forall k :: k in Names(es.rest) <==> k in KeySet(Names(es.rest));
      FoundInLonger(listed, es.rest, es.name, es.node);
      InsertFound(es.name, Normal(es.node), listed, es);
    }
  }

  lemma {:induction false} NamesDistinct(es: Entries)
    requires ValidEntries(es)
    ensures forall i, j :: 0 <= i < j < |Names(es)| ==> Names(es)[i] != Names(es)[j]
  {
    if es.Entry? {
      NamesDistinct(es.rest);
    }
  }

  lemma {:induction false} EncodeNamesIs(encode: Encoder, path: Text, listed: Entries, es: Entries)
    requires HashableEntries(listed) && HashableEntries(es) && FoundNormal(listed, es)
    ensures EncodeNames(encode, path, Names(listed), es) == EncodeEntries(encode, path, listed)
    decreases listed
  {
    if listed.Entry? {
      EncodeNamesIs(encode, path, listed.rest, es);
      assert Names(listed)[1..] == Names(listed.rest);
    }
  }

  /** Whatever sort the walk uses, its entries come in the order of the normal form. */
  lemma SortedWalk(encode: Encoder, path: Text, sort: Sorter, es: Entries)
    requires Sorts(sort) && ValidEntries(es) && HashableEntries(es)
    ensures HashableEntries(NormalEntries(es))
    ensures EncodeNames(encode, path, sort(Names(es)), es) == EncodeEntries(encode, path, NormalEntries(es))
  {
    NormalEntriesHashable(es);
    NormalNames(es);
    NormalFound(es);
    NamesDistinct(es);
    SortKeysSorts(Names(es));
    SortedUnique(sort(Names(es)), SortKeys(Names(es)));
    EncodeNamesIs(encode, path, NormalEntries(es), es);
  }

  /** A hash object, as the bytes it has been fed. */
  class Hash {
    var fed: Bytes
    constructor ()
      ensures fed == []
    {
      fed := [];
    }
    method Update(bytes: Bytes)
      modifies this
      ensures fed == old(fed) + bytes
    {
      fed := fed + bytes;
    }
  }

  // ---------------------------------------------------------------- the stream, read from its front

  /** The number that some bytes are, the first byte being the most significant. */
  function PlaceValue(bytes: Bytes): nat {
    if bytes == [] then 0 else bytes[0] * Power256(|bytes| - 1) + PlaceValue(bytes[1..])
  }

  lemma {:induction false} PlaceValueLast(bytes: Bytes, b: Byte)
    ensures PlaceValue(bytes + [b]) == PlaceValue(bytes) * 256 + b
  {
    if bytes == [] {
      assert [b][1..] == [] && Power256(0) == 1;
    } else {
      assert (bytes + [b])[1..] == bytes[1..] + [b];
      PlaceValueLast(bytes[1..], b);
      var n := |bytes|;
      assert Power256(n) == 256 * Power256(n - 1);
      TimesTwice(bytes[0], Power256(n - 1));
    }
  }

  lemma TimesTwice(a: nat, b: nat)
    ensures a * (256 * b) == (a * b) * 256
  {
  }

  /** A length prefix reads as the length, most significant byte first. */
  lemma {:induction false} BigEndianReads(n: nat, width: nat)
    requires n < Power256(width)
    ensures PlaceValue(BigEndian(n, width)) == n
  {
    if width > 0 {
      BigEndianReads(n / 256, width - 1);
      PlaceValueLast(BigEndian(n / 256, width - 1), n % 256);
    }
  }

  /** What the header of an entry spells. */
  lemma HeaderSpells(path: Text, node: Node)
    requires node.File? || node.Directory?
    ensures node.File? ==>
              Header(path, node) == Ascii("file:") + path + Ascii(":") + Decimal(node.mode) + Ascii(":") + Decimal(|node.content|)
    ensures node.Directory? ==> Header(path, node) == Ascii("directory:") + path + Ascii(":") + Decimal(node.mode)
  {
    assert DIRECTORY == Ascii("directory:") && FILE == Ascii("file:") && [COLON] == Ascii(":");
  }

  /** A stream of bytes that starts with a text: eight bytes of length, most significant first, and its bytes. */
  predicate StartsWith(stream: Bytes, encode: Encoder, text: Text) {
    && 8 + |encode(text)| <= |stream|
    && PlaceValue(stream[..8]) == |encode(text)| && stream[8..8 + |encode(text)|] == encode(text)
  }

  lemma FieldStarts(encode: Encoder, text: Text, rest: Bytes)
    requires Fits(encode, text)
    ensures StartsWith(Field(encode, text) + rest, encode, text)
    ensures (Field(encode, text) + rest)[8 + |encode(text)|..] == rest
  {
    BigEndianReads(|encode(text)|, 8);
    var stream := Field(encode, text) + rest;
    assert stream[..8] == BigEndian(|encode(text)|, 8);
    assert stream[8..8 + |encode(text)|] == encode(text);
  }

  /**
   An entry in the stream, field by field: the length and the text of its header, and then the bytes of a
   file, or the entries of a directory.
   */
  lemma EntryInStream(encode: Encoder, path: Text, node: Node)
    requires Hashable(node) && Fits(encode, Header(path, node))
    ensures var stream, end := Encode(encode, path, node), 8 + |encode(Header(path, node))|;
            && StartsWith(stream, encode, Header(path, node))
            && (node.File? ==> stream[end..] == node.content)
            && (node.Directory? ==> stream[end..] == EncodeEntries(encode, path, node.entries))
  {
    match node
    case File(_, content) => FieldStarts(encode, Header(path, node), content);
    case Directory(_, entries) => FieldStarts(encode, Header(path, node), EncodeEntries(encode, path, entries));
  }

  /** The entries of a directory follow one another, each under the joined path. */
  lemma EntriesInStream(encode: Encoder, path: Text, es: Entries)
    requires HashableEntries(es) && es.Entry?
    ensures EncodeEntries(encode, path, es)
         == Encode(encode, path + Ascii("/") + es.name, es.node) + EncodeEntries(encode, path, es.rest)
  {
    assert Ascii("/") == [SLASH];
  }

  /** The wrapper package comes first, under its path, and then the platform package. */
  lemma PackagesInStream(encode: Encoder, wrapper: Node, platform: Node)
    requires Hashable(wrapper) && Hashable(platform)
    ensures EncodePackages(encode, wrapper, platform)
         == Encode(encode, Ascii("node_modules/@openai/codex"), wrapper)
            + Encode(encode, Ascii("node_modules/@openai/codex-linux-x64"), platform)
  {
    assert PLATFORM_PATH == Ascii("node_modules/@openai/codex-linux-x64");
    assert WRAPPER_PATH == Ascii("node_modules/@openai/codex");
  }

  function Concat(chunks: seq<Bytes>): Bytes {
    if chunks == [] then [] else chunks[0] + Concat(chunks[1..])
  }

  /** How the file system streams contents: in some chunks that make them up. */
  type Chunker = Bytes -> seq<Bytes>

  ghost predicate Streams(chunk: Chunker) {
    forall content :: Concat(chunk(content)) == content
  }

  method UpdateField(hash: Hash, encode: Encoder, text: Text)
    modifies hash
    ensures hash.fed == old(hash.fed) + Field(encode, text)
    ensures Fits(encode, text) ==> StartsWith(hash.fed[|old(hash.fed)|..], encode, text)
  {
    if Fits(encode, text) {
      FieldStarts(encode, text, []);
      assert Field(encode, text) + [] == Field(encode, text);
    }
    var bytes := encode(text);
    hash.Update(BigEndian(|bytes|, 8));
    hash.Update(bytes);
    assert old(hash.fed) + BigEndian(|bytes|, 8) + bytes == old(hash.fed) + (BigEndian(|bytes|, 8) + bytes);
  }

  method UpdateContent(hash: Hash, chunks: seq<Bytes>)
    modifies hash
    ensures hash.fed == old(hash.fed) + Concat(chunks)
  {
    var i := 0;
    assert chunks[0..] == chunks;
    while i < |chunks|
      invariant 0 <= i <= |chunks| && hash.fed + Concat(chunks[i..]) == old(hash.fed) + Concat(chunks)
    {
      assert chunks[i..][0] == chunks[i] && chunks[i..][1..] == chunks[i + 1..];
      ghost var before := hash.fed;
      hash.Update(chunks[i]);
      assert before + (chunks[i] + Concat(chunks[i + 1..])) == before + chunks[i] + Concat(chunks[i + 1..]);
      i := i + 1;
    }
    assert chunks[i..] == [];
    assert hash.fed + Concat([]) == hash.fed;
  }

  function Size(node: Node): nat {
    match node
    case Directory(_, entries) => 1 + SizeOf(entries)
    case _ => 1
  }

  function SizeOf(es: Entries): nat {
    match es
    case Empty => 0
    case Entry(_, node, rest) => 1 + Size(node) + SizeOf(rest)
  }

  lemma {:induction false} FindIsEntry(es: Entries, name: Text)
    requires ValidEntries(es)
    ensures Find(es, name).Some? <==> name in Names(es)
    ensures Find(es, name).Some? ==> Valid(Find(es, name).value) && Size(Find(es, name).value) < SizeOf(es)
  {
    if es.Entry? {
      FindIsEntry(es.rest, name);
    }
  }

  lemma {:induction false} AllFoundHashable(es: Entries, names: seq<Text>)
    requires ValidEntries(es) && forall n :: n in Names(es) ==> n in names
    requires forall n :: n in names && Find(es, n).Some? ==> Hashable(Find(es, n).value)
    ensures HashableEntries(es)
  {
    if es.Entry? {
      assert es.name in Names(es) && Find(es, es.name) == Some(es.node);
      forall n | n in Names(es.rest) ensures Find(es, n) == Find(es.rest, n) && n in names {
        assert n in Names(es);
      }
      forall n | n in Names(es.rest) && Find(es.rest, n).Some? ensures Hashable(Find(es.rest, n).value) {
      }
      AllFoundHashable(es.rest, Names(es.rest));
    }
  }

  /** The walk of one entry: fails on a symbolic link or a special file, otherwise feeds the encoding of the tree. */
  method HashPackageEntry(hash: Hash, encode: Encoder, sort: Sorter, chunk: Chunker, path: Text, node: Node)
    returns (ok: bool)
    requires Sorts(sort) && Streams(chunk) && Valid(node)
    modifies hash
    ensures ok <==> Hashable(node)
    ensures Hashable(Normal(node)) <==> Hashable(node)
    ensures ok ==> hash.fed == old(hash.fed) + Encode(encode, path, Normal(node))
    decreases Size(node), 1
  {
    NormalHashable(node);
    match node {
      case SymbolicLink => return false;
      case Special => return false;
      case File(mode, content) =>
        UpdateField(hash, encode, FileHeader(path, mode, |content|));
        UpdateContent(hash, chunk(content));
        AppendTwice(old(hash.fed), Field(encode, FileHeader(path, mode, |content|)), content);
        return true;
      case Directory(mode, entries) =>
        UpdateField(hash, encode, DirectoryHeader(path, mode));
        ok := HashEntries(hash, encode, sort, chunk, path, entries);
        if ok {
          AppendTwice(old(hash.fed), Field(encode, DirectoryHeader(path, mode)),
                      EncodeEntries(encode, path, NormalEntries(entries)));
        }
    }
  }

  lemma AppendTwice(a: Bytes, b: Bytes, c: Bytes)
    ensures a + b + c == a + (b + c)
  {
  }

  method HashEntries(hash: Hash, encode: Encoder, sort: Sorter, chunk: Chunker, path: Text, entries: Entries)
    returns (ok: bool)
    requires Sorts(sort) && Streams(chunk) && ValidEntries(entries)
    modifies hash
    ensures ok <==> HashableEntries(entries)
    ensures HashableEntries(NormalEntries(entries)) <==> HashableEntries(entries)
    ensures ok ==> hash.fed == old(hash.fed) + EncodeEntries(encode, path, NormalEntries(entries))
    decreases SizeOf(entries), 2
  {
    NormalEntriesHashable(entries);
    NamesDistinct(entries);
    var names := sort(Names(entries));
    var i := 0;
    assert names[0..] == names;
    assert forall n :: n in names <==> n in KeySet(names);
    assert forall n :: n in Names(entries) <==> n in KeySet(Names(entries));
    while i < |names|
      invariant 0 <= i <= |names|
      invariant forall k :: 0 <= k < i ==> Find(entries, names[k]).Some? && Hashable(Find(entries, names[k]).value)
      invariant HashableEntries(entries) ==>
                  (hash.fed + EncodeNames(encode, path, names[i..], entries)
                   == old(hash.fed) + EncodeNames(encode, path, names, entries))
    {
      FindIsEntry(entries, names[i]);
      ghost var before := hash.fed;
      ok := HashPackageEntry(hash, encode, sort, chunk, Join(path, names[i]), Find(entries, names[i]).value);
      if !ok {
        if HashableEntries(entries) { FindHashable(entries, names[i]); }
        return;
      }
      if HashableEntries(entries) {
        NamesStep(encode, path, names, i, entries, before);
      }
      i := i + 1;
    }
    AllFoundHashable(entries, names);
    assert names[i..] == [];
    assert hash.fed + [] == hash.fed;
    SortedWalk(encode, path, sort, entries);
    ok := true;
  }

  lemma NamesStep(encode: Encoder, path: Text, names: seq<Text>, i: nat, es: Entries, before: Bytes)
    requires i < |names| && HashableEntries(es) && Find(es, names[i]).Some?
    ensures Hashable(Normal(Find(es, names[i]).value))
    ensures before + EncodeNames(encode, path, names[i..], es)
         == before + Encode(encode, Join(path, names[i]), Normal(Find(es, names[i]).value))
            + EncodeNames(encode, path, names[i + 1..], es)
  {
    FindHashable(es, names[i]);
    assert names[i..][0] == names[i] && names[i..][1..] == names[i + 1..];
    AppendTwice(before, Encode(encode, Join(path, names[i]), Normal(Find(es, names[i]).value)),
                EncodeNames(encode, path, names[i + 1..], es));
  }

  /** The whole walk over both packages. */
  method HashPackages(hash: Hash, encode: Encoder, sort: Sorter, chunk: Chunker, wrapper: Node, platform: Node)
    returns (ok: bool)
    requires Sorts(sort) && Streams(chunk) && Valid(wrapper) && Valid(platform)
    modifies hash
    ensures ok <==> Hashable(wrapper) && Hashable(platform)
    ensures ok ==> Hashable(Normal(wrapper)) && Hashable(Normal(platform))
                   && hash.fed == old(hash.fed) + EncodePackages(encode, Normal(wrapper), Normal(platform))
  {
    ok := HashPackageEntry(hash, encode, sort, chunk, WRAPPER_PATH, wrapper);
    if ok {
      ok := HashPackageEntry(hash, encode, sort, chunk, PLATFORM_PATH, platform);
      if ok {
        AppendTwice(old(hash.fed), Encode(encode, WRAPPER_PATH, Normal(wrapper)),
                    Encode(encode, PLATFORM_PATH, Normal(platform)));
      }
    }
  }
}
