/**
 The comparison of two JSON documents of a schema bundle: a recursive walk over both that records
 where they differ, up to a maximum number of differences.

 `Diff` is the unbounded list of differences of two documents, with paths as lists of keys. The
 main results: every entry is a real difference, no path contains another, and replacing the
 baseline's values at the listed paths by the candidate's gives the candidate, key order aside.
 The methods are proved to record the first differences of that list, up to their bound.
 */
module SchemaDiff {
  import opened Text
  import opened Json
  import opened C = CanonicalJson
  import Common

  datatype Kind = Added | Removed | Changed | FileAdded | FileRemoved

  datatype Entry = Entry(path: seq<Text>, kind: Kind)

  datatype Change = Change(file: Text, path: Text, kind: Kind)

  // ---------------------------------------------------------------- sizes, for termination

  function Size(v: Json): nat {
    match v
    case Arr(items) => 1
    case Obj(members) => 1 + SizeOf(members)
    case _ => 1
  }

  function SizeOf(ms: Members): nat {
    match ms
    case End => 0
    case Field(_, value, rest) => 1 + Size(value) + SizeOf(rest)
  }

  lemma {:induction false} GetSmaller(ms: Members, key: Text)
    ensures Get(ms, key).Found? ==> Size(Get(ms, key).value) < SizeOf(ms)
  {
    if ms.Field? {
      GetSmaller(ms.rest, key);
    }
  }

  // ---------------------------------------------------------------- the unbounded difference

  function MissingFrom(keys: seq<Text>, ms: Members): seq<Text> {
    if keys == [] then []
    else (if Get(ms, keys[0]).Missing? then [keys[0]] else []) + MissingFrom(keys[1..], ms)
  }

  /** The keys of either object, sorted. */
  function UnionKeys(before: Members, after: Members): seq<Text> {
    SortKeys(Keys(before) + MissingFrom(Keys(after), before))
  }

  /** Entries of a member, seen from the object that holds it. */
  function Under(key: Text, entries: seq<Entry>): (r: seq<Entry>)
    ensures |r| == |entries|
    ensures forall i :: 0 <= i < |r| ==> r[i] == Entry([key] + entries[i].path, entries[i].kind)
  {
    seq(|entries|, i requires 0 <= i < |entries| => Entry([key] + entries[i].path, entries[i].kind))
  }

  function Diff(before: Json, after: Json): seq<Entry>
    decreases Size(before), 1, 0
  {
    if StableText(before) == StableText(after) then []
    else if before.Obj? && after.Obj? then
      DiffKeys(UnionKeys(before.members, after.members), before.members, after.members)
    else [Entry([], Changed)]
  }

  function DiffKeys(keys: seq<Text>, before: Members, after: Members): seq<Entry>
    decreases SizeOf(before) + 1, 0, |keys|
  {
    if keys == [] then [] else DiffKey(keys[0], before, after) + DiffKeys(keys[1..], before, after)
  }

  function DiffKey(key: Text, before: Members, after: Members): seq<Entry>
    decreases SizeOf(before), 2, 0
  {
    GetSmaller(before, key);
    match (Get(before, key), Get(after, key))
    case (Missing, _) => [Entry([key], Added)]
    case (Found(_), Missing) => [Entry([key], Removed)]
    case (Found(b), Found(a)) => Under(key, Diff(b, a))
  }

  // ---------------------------------------------------------------- pointers

  function Replace(t: Text, u: Unit, with: Text): Text {
    if t == [] then [] else (if t[0] == u then with else [t[0]]) + Replace(t[1..], u, with)
  }

  /** A reference token (section 3 of RFC 6901): `~` becomes `~0`, then `/` becomes `~1`. */
  function EscapeToken(key: Text): Text {
    Replace(Replace(key, TILDE, [TILDE, ZERO]), SLASH, [TILDE, ONE])
  }

  function Pointer(path: seq<Text>): Text {
    if path == [] then [] else [SLASH] + EscapeToken(path[0]) + Pointer(path[1..])
  }

  /** The change recorded for an entry found below `pointer`. */
  function Named(file: Text, pointer: Text, entry: Entry): Change {
    var path := pointer + Pointer(entry.path);
    Change(file, if path == [] then [SLASH] else path, entry.kind)
  }

  function NamedAll(file: Text, pointer: Text, entries: seq<Entry>): (r: seq<Change>)
    ensures |r| == |entries|
    ensures forall i :: 0 <= i < |r| ==> r[i] == Named(file, pointer, entries[i])
  {
    seq(|entries|, i requires 0 <= i < |entries| => Named(file, pointer, entries[i]))
  }

  predicate NoSlash(t: Text) {
    forall i :: 0 <= i < |t| ==> t[i] != SLASH
  }

  /** The two replacements in one pass. */
  function EscapeOnce(key: Text): Text {
    if key == [] then []
    else (if key[0] == TILDE then [TILDE, ZERO] else if key[0] == SLASH then [TILDE, ONE] else [key[0]]) + EscapeOnce(key[1..])
  }

  lemma {:induction false} ReplaceAppend(a: Text, b: Text, u: Unit, with: Text)
    ensures Replace(a + b, u, with) == Replace(a, u, with) + Replace(b, u, with)
  {
    if a == [] {
      assert a + b == b;
    } else {
      assert (a + b)[1..] == a[1..] + b;
      ReplaceAppend(a[1..], b, u, with);
    }
  }

  lemma {:induction false} EscapeIsOnePass(key: Text)
    ensures EscapeToken(key) == EscapeOnce(key)
  {
    if key != [] {
      EscapeIsOnePass(key[1..]);
      var first: Text := if key[0] == TILDE then [TILDE, ZERO] else [key[0]];
      ReplaceAppend(first, Replace(key[1..], TILDE, [TILDE, ZERO]), SLASH, [TILDE, ONE]);
      assert Replace(first, SLASH, [TILDE, ONE])
          == if key[0] == TILDE then [TILDE, ZERO] else if key[0] == SLASH then [TILDE, ONE] else [key[0]] by {
        assert first[1..] == if key[0] == TILDE then [ZERO] else [];
        assert [ZERO][1..] == [];
      }
    }
  }

  /** What the escape of a key spells: `~0` for a tilde, `~1` for a slash, anything else as it is. */
  lemma EscapeSpells(a: Text, u: Unit, b: Text)
    ensures EscapeToken([]) == []
    ensures EscapeToken(a + [u] + b)
         == EscapeToken(a) + (if [u] == Ascii("~") then Ascii("~0") else if [u] == Ascii("/") then Ascii("~1") else [u]) + EscapeToken(b)
  {
    EscapeIsOnePass(a);
    EscapeIsOnePass(b);
    EscapeIsOnePass(a + [u] + b);
    assert a + [u] + b == a + ([u] + b);
    EscapeAppends(a, [u] + b);
    EscapeFirst(u, b);
  }

  lemma EscapeFirst(u: Unit, b: Text)
    ensures EscapeOnce([u] + b)
         == (if [u] == Ascii("~") then Ascii("~0") else if [u] == Ascii("/") then Ascii("~1") else [u]) + EscapeOnce(b)
  {
    assert ([u] + b)[1..] == b;
    assert Ascii("~") == [TILDE] && Ascii("/") == [SLASH] && Ascii("~0") == [TILDE, ZERO] && Ascii("~1") == [TILDE, ONE];
  }

  lemma {:induction false} EscapeAppends(a: Text, b: Text)
    ensures EscapeOnce(a + b) == EscapeOnce(a) + EscapeOnce(b)
  {
    if a == [] {
      assert a + b == b;
    } else {
      assert (a + b)[1..] == a[1..] + b;
      EscapeAppends(a[1..], b);
    }
  }

  /** A pointer is the escaped keys, each after a slash. */
  lemma PointerSpells(key: Text, path: seq<Text>)
    ensures Pointer([]) == [] && Pointer([key] + path) == Ascii("/") + EscapeToken(key) + Pointer(path)
  {
    PointerCons(key, path);
    assert Ascii("/") == [SLASH];
  }

  lemma {:induction false} EscapeHasNoSlash(key: Text)
    ensures NoSlash(EscapeOnce(key))
  {
    if key != [] {
      EscapeHasNoSlash(key[1..]);
    }
  }

  function Unescape(t: Text): Text {
    if t == [] then []
    else if t[0] == TILDE && |t| > 1 then [if t[1] == ONE then SLASH else TILDE] + Unescape(t[2..])
    else [t[0]] + Unescape(t[1..])
  }

  /** Reading a token gives the key back (section 4 of RFC 6901). */
  lemma {:induction false} UnescapeEscape(key: Text)
    ensures Unescape(EscapeOnce(key)) == key
  {
    if key != [] {
      UnescapeEscape(key[1..]);
      var rest := EscapeOnce(key[1..]);
      if key[0] == TILDE {
        assert ([TILDE, ZERO] + rest)[2..] == rest;
      } else if key[0] == SLASH {
        assert ([TILDE, ONE] + rest)[2..] == rest;
      } else {
        assert ([key[0]] + rest)[1..] == rest;
      }
      assert [key[0]] + key[1..] == key;
    }
  }

  lemma {:induction false} SplitAtSlash(x: Text, r: Text, y: Text, s: Text)
    requires NoSlash(x) && NoSlash(y) && x + r == y + s
    requires (r == [] || r[0] == SLASH) && (s == [] || s[0] == SLASH)
    ensures x == y && r == s
  {
    assert x != [] ==> (x + r)[0] == x[0] && (x + r)[1..] == x[1..] + r;
    assert y != [] ==> (y + s)[0] == y[0] && (y + s)[1..] == y[1..] + s;
    assert x == [] ==> x + r == r;
    assert y == [] ==> y + s == s;
    if x != [] && y != [] {
      SplitAtSlash(x[1..], r, y[1..], s);
      assert x == [x[0]] + x[1..] && y == [y[0]] + y[1..];
    }
  }

  lemma EscapeReads(a: Text, b: Text)
    ensures NoSlash(EscapeToken(a))
    ensures EscapeToken(a) == EscapeToken(b) ==> a == b
  {
    EscapeIsOnePass(a);
    EscapeIsOnePass(b);
    EscapeHasNoSlash(a);
    UnescapeEscape(a);
    UnescapeEscape(b);
  }

  /** Different lists of keys print as different pointers. */
  lemma {:induction false} PointerInjective(a: seq<Text>, b: seq<Text>)
    requires Pointer(a) == Pointer(b)
    ensures a == b
  {
    if a != [] && b != [] {
      EscapeReads(a[0], b[0]);
      EscapeReads(b[0], a[0]);
      var x, r, y, s := EscapeToken(a[0]), Pointer(a[1..]), EscapeToken(b[0]), Pointer(b[1..]);
      assert Pointer(a)[1..] == x + r && Pointer(b)[1..] == y + s;
      SplitAtSlash(x, r, y, s);
      PointerInjective(a[1..], b[1..]);
      assert a == [a[0]] + a[1..] && b == [b[0]] + b[1..];
    }
  }

  lemma PointerCons(key: Text, path: seq<Text>)
    ensures Pointer([key] + path) == [SLASH] + EscapeToken(key) + Pointer(path)
  {
    assert ([key] + path)[1..] == path;
  }

  lemma NamedBelow(file: Text, pointer: Text, key: Text, entry: Entry)
    ensures Named(file, pointer, Entry([key] + entry.path, entry.kind))
         == Named(file, pointer + [SLASH] + EscapeToken(key), entry)
  {
    PointerCons(key, entry.path);
    var token, rest := EscapeToken(key), Pointer(entry.path);
    assert pointer + ([SLASH] + token + rest) == pointer + [SLASH] + token + rest;
  }

  lemma NamedUnder(file: Text, pointer: Text, key: Text, entries: seq<Entry>)
    ensures NamedAll(file, pointer, Under(key, entries)) == NamedAll(file, pointer + [SLASH] + EscapeToken(key), entries)
  {
    forall i | 0 <= i < |entries|
      ensures NamedAll(file, pointer, Under(key, entries))[i] == NamedAll(file, pointer + [SLASH] + EscapeToken(key), entries)[i]
    {
      NamedBelow(file, pointer, key, entries[i]);
    }
  }

  // ---------------------------------------------------------------- the recording walk

  class Output {
    var changes: seq<Change>
    constructor ()
      ensures changes == []
    {
      changes := [];
    }
  }

  /** What a list becomes when `more` is recorded on it one by one under a bound. */
  function Extended(list: seq<Change>, more: seq<Change>, max: int): seq<Change> {
    if |list| >= max then list
    else if |list| + |more| <= max then list + more
    else (list + more)[..max]
  }

  lemma ExtendedTwice(list: seq<Change>, a: seq<Change>, b: seq<Change>, max: int)
    ensures Extended(Extended(list, a, max), b, max) == Extended(list, a + b, max)
  {
    assert list + (a + b) == (list + a) + b;
    if |list| < max && |list| + |a| >= max {
      assert ((list + a) + b)[..max] == (list + a)[..max];
      if |list| + |a| == max {
        assert (list + a)[..max] == list + a;
      }
    }
  }

  lemma NamedAppend(file: Text, pointer: Text, a: seq<Entry>, b: seq<Entry>)
    ensures NamedAll(file, pointer, a + b) == NamedAll(file, pointer, a) + NamedAll(file, pointer, b)
  {
  }

  lemma {:induction false} DiffKeysSnoc(keys: seq<Text>, key: Text, before: Members, after: Members)
    ensures DiffKeys(keys + [key], before, after) == DiffKeys(keys, before, after) + DiffKey(key, before, after)
    decreases |keys|
  {
    if keys == [] {
      assert [key][1..] == [];
      assert DiffKeys([key], before, after) == DiffKey(key, before, after) + DiffKeys([], before, after);
    } else {
      assert (keys + [key])[1..] == keys[1..] + [key];
      DiffKeysSnoc(keys[1..], key, before, after);
    }
  }

  method DiffValue(before: Json, after: Json, file: Text, pointer: Text, output: Output, max: int)
    modifies output
    ensures output.changes == Extended(old(output.changes), NamedAll(file, pointer, Diff(before, after)), max)
    decreases Size(before)
  {
    if |output.changes| >= max {
      return;
    }
    if StableText(before) == StableText(after) {
      return;
    }
    if before.Obj? && after.Obj? {
      var keys := UnionKeys(before.members, after.members);
      var i := 0;
      ghost var start := output.changes;
      while i < |keys|
        invariant 0 <= i <= |keys|
        invariant output.changes
               == Extended(start, NamedAll(file, pointer, DiffKeys(keys[..i], before.members, after.members)), max)
      {
        if |output.changes| >= max {
          ExtendedKeys(start, file, pointer, keys, i, before.members, after.members, max);
          return;
        }
        DiffMember(keys[i], before.members, after.members, file, pointer, output, max);
        KeysStep(start, file, pointer, keys, i, before.members, after.members, max);
        i := i + 1;
      }
      assert keys[..i] == keys;
      return;
    }
    output.changes := output.changes + [Change(file, if pointer == [] then [SLASH] else pointer, Changed)];
    assert pointer + Pointer([]) == pointer;
    assert NamedAll(file, pointer, Diff(before, after)) == [Named(file, pointer, Entry([], Changed))];
  }

  /** The body of the loop over keys. */
  method DiffMember(key: Text, before: Members, after: Members, file: Text, pointer: Text, output: Output, max: int)
    requires |output.changes| < max
    modifies output
    ensures output.changes == Extended(old(output.changes), NamedAll(file, pointer, DiffKey(key, before, after)), max)
    decreases SizeOf(before)
  {
    var childPath := pointer + [SLASH] + EscapeToken(key);
    assert Pointer([key]) == [SLASH] + EscapeToken(key) by { PointerCons(key, []); assert [key] + [] == [key]; }
    assert pointer + Pointer([key]) == childPath;
    if Get(before, key).Missing? {
      output.changes := output.changes + [Change(file, childPath, Added)];
      assert NamedAll(file, pointer, DiffKey(key, before, after)) == [Change(file, childPath, Added)];
    } else if Get(after, key).Missing? {
      output.changes := output.changes + [Change(file, childPath, Removed)];
      assert NamedAll(file, pointer, DiffKey(key, before, after)) == [Change(file, childPath, Removed)];
    } else {
      GetSmaller(before, key);
      NamedUnder(file, pointer, key, Diff(Get(before, key).value, Get(after, key).value));
      DiffValue(Get(before, key).value, Get(after, key).value, file, childPath, output, max);
    }
  }

  lemma KeysStep(start: seq<Change>, file: Text, pointer: Text, keys: seq<Text>, i: nat,
                 before: Members, after: Members, max: int)
    requires i < |keys|
    ensures Extended(Extended(start, NamedAll(file, pointer, DiffKeys(keys[..i], before, after)), max),
                     NamedAll(file, pointer, DiffKey(keys[i], before, after)), max)
         == Extended(start, NamedAll(file, pointer, DiffKeys(keys[..i + 1], before, after)), max)
  {
    assert keys[..i + 1] == keys[..i] + [keys[i]];
    DiffKeysSnoc(keys[..i], keys[i], before, after);
    NamedAppend(file, pointer, DiffKeys(keys[..i], before, after), DiffKey(keys[i], before, after));
    ExtendedTwice(start, NamedAll(file, pointer, DiffKeys(keys[..i], before, after)),
                  NamedAll(file, pointer, DiffKey(keys[i], before, after)), max);
  }

  /** Once the bound is reached, the remaining keys add nothing. */
  lemma {:induction false} ExtendedKeys(start: seq<Change>, file: Text, pointer: Text, keys: seq<Text>, i: nat,
                                        before: Members, after: Members, max: int)
    requires i <= |keys|
    requires |Extended(start, NamedAll(file, pointer, DiffKeys(keys[..i], before, after)), max)| >= max
    ensures Extended(start, NamedAll(file, pointer, DiffKeys(keys[..i], before, after)), max)
         == Extended(start, NamedAll(file, pointer, DiffKeys(keys, before, after)), max)
    decreases |keys| - i
  {
    if i < |keys| {
      KeysStep(start, file, pointer, keys, i, before, after, max);
      ExtendedKeys(start, file, pointer, keys, i + 1, before, after, max);
    } else {
      assert keys[..i] == keys;
    }
  }

  // ---------------------------------------------------------------- no path contains another

  predicate Apart(e: Entry, f: Entry) {
    !(e.path <= f.path) && !(f.path <= e.path)
  }

  predicate AllApart(entries: seq<Entry>) {
    forall i, j :: 0 <= i < j < |entries| ==> Apart(entries[i], entries[j])
  }

  predicate AllBelow(key: Text, entries: seq<Entry>) {
    forall i :: 0 <= i < |entries| ==> entries[i].path != [] && entries[i].path[0] == key
  }

  predicate AllBelowSome(keys: seq<Text>, entries: seq<Entry>) {
    forall i :: 0 <= i < |entries| ==> entries[i].path != [] && entries[i].path[0] in keys
  }

  predicate DistinctKeys(keys: seq<Text>) {
    forall i, j :: 0 <= i < j < |keys| ==> keys[i] != keys[j]
  }

  lemma ConsPrefix(key: Text, a: seq<Text>, b: seq<Text>)
    ensures [key] + a <= [key] + b <==> a <= b
  {
    assert ([key] + a)[1..] == a && ([key] + b)[1..] == b;
    if a <= b {
      assert b == a + b[|a|..];
      assert [key] + b == ([key] + a) + b[|a|..];
    }
  }

  lemma UnderApart(key: Text, entries: seq<Entry>)
    requires AllApart(entries)
    ensures AllApart(Under(key, entries)) && AllBelow(key, Under(key, entries))
  {
    var r := Under(key, entries);
    forall i, j | 0 <= i < j < |r| ensures Apart(r[i], r[j]) {
      assert Apart(entries[i], entries[j]);
      ConsPrefix(key, entries[i].path, entries[j].path);
      ConsPrefix(key, entries[j].path, entries[i].path);
    }
  }

  lemma ApartJoin(key: Text, a: seq<Entry>, keys: seq<Text>, b: seq<Entry>)
    requires AllApart(a) && AllBelow(key, a) && AllApart(b) && AllBelowSome(keys, b) && key !in keys
    ensures AllApart(a + b)
  {
    forall i, j | 0 <= i < j < |a + b| ensures Apart((a + b)[i], (a + b)[j]) {
      if i < |a| <= j {
        assert a[i].path[0] == key && b[j - |a|].path[0] in keys;
      }
    }
  }

  // ---------------------------------------------------------------- the keys of both objects

  lemma {:induction false} GetWellFormed(ms: Members, key: Text)
    requires WellFormedMembers(ms)
    ensures Get(ms, key).Found? ==> WellFormed(Get(ms, key).value)
  {
    if ms.Field? {
      GetWellFormed(ms.rest, key);
    }
  }

  lemma {:induction false} MissingFromKeys(keys: seq<Text>, ms: Members)
    requires DistinctKeys(keys)
    ensures DistinctKeys(MissingFrom(keys, ms))
    ensures forall k :: k in MissingFrom(keys, ms) <==> k in keys && Get(ms, k).Missing?
  {
    if keys != [] {
      MissingFromKeys(keys[1..], ms);
      assert keys == [keys[0]] + keys[1..];
    }
  }

  lemma KeysOfMeaning(ms: Members)
    ensures forall k :: k in Keys(ms) <==> k in MeaningOfMembers(ms)
    ensures forall k :: k in MeaningOfMembers(ms) <==> Get(ms, k).Found?
    ensures forall k :: k in MeaningOfMembers(ms) ==> MeaningOfMembers(ms)[k] == Meaning(Get(ms, k).value)
  {
    KeysMeaning(ms);
    forall k ensures k in MeaningOfMembers(ms) <==> Get(ms, k).Found? {
      GetMeaning(ms, k);
    }
    forall k | k in MeaningOfMembers(ms) ensures MeaningOfMembers(ms)[k] == Meaning(Get(ms, k).value) {
      GetMeaning(ms, k);
    }
    assert forall k :: k in Keys(ms) <==> k in KeySet(Keys(ms));
  }

  lemma UnionListIs(before: Members, after: Members)
    requires Enumerated(before) && Enumerated(after)
    ensures var all := Keys(before) + MissingFrom(Keys(after), before);
            DistinctKeys(all) && KeySet(all) == MeaningOfMembers(before).Keys + MeaningOfMembers(after).Keys
  {
    EnumeratedKeysDistinct(before);
    EnumeratedKeysDistinct(after);
    MissingFromKeys(Keys(after), before);
    KeysOfMeaning(before);
    KeysOfMeaning(after);
    JoinedKeys(Keys(before), MissingFrom(Keys(after), before));
  }

  lemma JoinedKeys(a: seq<Text>, b: seq<Text>)
    requires DistinctKeys(a) && DistinctKeys(b) && forall k :: k in b ==> k !in a
    ensures DistinctKeys(a + b) && KeySet(a + b) == KeySet(a) + KeySet(b)
  {
    forall i, j | 0 <= i < j < |a + b| ensures (a + b)[i] != (a + b)[j] {
      if i < |a| <= j {
        assert b[j - |a|] in b;
      }
    }
  }

  lemma UnionKeysAre(before: Members, after: Members)
    requires Enumerated(before) && Enumerated(after)
    ensures Sorted(UnionKeys(before, after)) && DistinctKeys(UnionKeys(before, after))
    ensures KeySet(UnionKeys(before, after)) == MeaningOfMembers(before).Keys + MeaningOfMembers(after).Keys
  {
    UnionListIs(before, after);
    SortKeysSorts(Keys(before) + MissingFrom(Keys(after), before));
    SortedIsDistinct(UnionKeys(before, after));
  }

  lemma SortedIsDistinct(keys: seq<Text>)
    requires Sorted(keys)
    ensures DistinctKeys(keys)
  {
    forall i, j | 0 <= i < j < |keys| ensures keys[i] != keys[j] {
      LessIrreflexive(keys[i]);
    }
  }

  // ---------------------------------------------------------------- no path contains another

  /** No reported path is another one or a part of it: each difference is reported once, where it is deepest. */
  lemma {:induction false} DiffApart(before: Json, after: Json)
    requires WellFormed(before) && WellFormed(after)
    ensures AllApart(Diff(before, after))
    decreases Size(before), 1, 0
  {
    if before.Obj? && after.Obj? {
      UnionKeysAre(before.members, after.members);
      DiffKeysApart(UnionKeys(before.members, after.members), before.members, after.members);
    }
  }

  lemma {:induction false} DiffKeysApart(keys: seq<Text>, before: Members, after: Members)
    requires WellFormedMembers(before) && WellFormedMembers(after) && DistinctKeys(keys)
    ensures AllApart(DiffKeys(keys, before, after)) && AllBelowSome(keys, DiffKeys(keys, before, after))
    decreases SizeOf(before) + 1, 0, |keys|
  {
    if keys != [] {
      DiffKeyApart(keys[0], before, after);
      DiffKeysApart(keys[1..], before, after);
      assert keys == [keys[0]] + keys[1..];
      ApartJoin(keys[0], DiffKey(keys[0], before, after), keys[1..], DiffKeys(keys[1..], before, after));
    }
  }

  lemma {:induction false} DiffKeyApart(key: Text, before: Members, after: Members)
    requires WellFormedMembers(before) && WellFormedMembers(after)
    ensures AllApart(DiffKey(key, before, after)) && AllBelow(key, DiffKey(key, before, after))
    decreases SizeOf(before), 2, 0
  {
    GetSmaller(before, key);
    GetWellFormed(before, key);
    GetWellFormed(after, key);
    if Get(before, key).Found? && Get(after, key).Found? {
      DiffApart(Get(before, key).value, Get(after, key).value);
      UnderApart(key, Diff(Get(before, key).value, Get(after, key).value));
    }
  }

  /** So within one file all recorded paths are different texts. */
  lemma RecordedPathsDiffer(before: Json, after: Json, file: Text)
    requires WellFormed(before) && WellFormed(after)
    ensures var changes := NamedAll(file, [], Diff(before, after));
            forall i, j :: 0 <= i < j < |changes| ==> changes[i].path != changes[j].path
  {
    var entries := Diff(before, after);
    var changes := NamedAll(file, [], entries);
    DiffApart(before, after);
    forall i, j | 0 <= i < j < |changes| ensures changes[i].path != changes[j].path {
      assert Apart(entries[i], entries[j]);
      assert [] + Pointer(entries[i].path) == Pointer(entries[i].path) && [] + Pointer(entries[j].path) == Pointer(entries[j].path);
      if Pointer(entries[i].path) == Pointer(entries[j].path) {
        PointerInjective(entries[i].path, entries[j].path);
      }
    }
  }

  // ---------------------------------------------------------------- every difference is real

  function Resolve(v: Value, path: seq<Text>): Common.Option<Value>
    decreases |path|
  {
    if path == [] then Common.Some(v)
    else if v.VObj? && path[0] in v.members then Resolve(v.members[path[0]], path[1..])
    else Common.None
  }

  function Parent(v: Value, path: seq<Text>): Common.Option<Value>
    requires path != []
  {
    Resolve(v, path[..|path| - 1])
  }

  predicate IsObject(v: Common.Option<Value>) {
    v.Some? && v.value.VObj?
  }

  /** What an entry claims about two documents. */
  predicate Real(e: Entry, before: Value, after: Value) {
    match e.kind
    case Added =>
      && e.path != [] && IsObject(Parent(before, e.path)) && IsObject(Parent(after, e.path))
      && Resolve(before, e.path).None? && Resolve(after, e.path).Some?
    case Removed =>
      && e.path != [] && IsObject(Parent(before, e.path)) && IsObject(Parent(after, e.path))
      && Resolve(before, e.path).Some? && Resolve(after, e.path).None?
    case Changed =>
      var b, a := Resolve(before, e.path), Resolve(after, e.path);
      b.Some? && a.Some? && b.value != a.value && !(b.value.VObj? && a.value.VObj?)
    case _ => false
  }

  predicate AllReal(entries: seq<Entry>, before: Value, after: Value) {
    forall i :: 0 <= i < |entries| ==> Real(entries[i], before, after)
  }

  lemma ResolveCons(v: Value, key: Text, path: seq<Text>)
    requires v.VObj? && key in v.members
    ensures Resolve(v, [key] + path) == Resolve(v.members[key], path)
    ensures path != [] ==> Parent(v, [key] + path) == Parent(v.members[key], path)
  {
    assert ([key] + path)[1..] == path;
    if path != [] {
      var whole := [key] + path;
      assert whole[..|whole| - 1] == [key] + path[..|path| - 1];
      assert ([key] + path[..|path| - 1])[1..] == path[..|path| - 1];
    }
  }

  lemma UnderReal(key: Text, entries: seq<Entry>, before: Value, after: Value)
    requires before.VObj? && after.VObj? && key in before.members && key in after.members
    requires AllReal(entries, before.members[key], after.members[key])
    ensures AllReal(Under(key, entries), before, after)
  {
    forall i | 0 <= i < |entries| ensures Real(Under(key, entries)[i], before, after) {
      assert Real(entries[i], before.members[key], after.members[key]);
      ResolveCons(before, key, entries[i].path);
      ResolveCons(after, key, entries[i].path);
    }
  }

  lemma SingleReal(key: Text, before: Value, after: Value)
    requires before.VObj? && after.VObj?
    ensures key !in before.members && key in after.members ==> Real(Entry([key], Added), before, after)
    ensures key in before.members && key !in after.members ==> Real(Entry([key], Removed), before, after)
  {
    assert [key][..0] == [] && [key][1..] == [];
  }

  /** Soundness: an addition, removal or change is reported only where there is one. */
  lemma {:induction false} DiffReal(before: Json, after: Json)
    requires WellFormed(before) && WellFormed(after)
    ensures AllReal(Diff(before, after), Meaning(before), Meaning(after))
    decreases Size(before), 1, 0
  {
    StableTextIff(before, after);
    if before.Obj? && after.Obj? {
      UnionKeysAre(before.members, after.members);
      DiffKeysReal(UnionKeys(before.members, after.members), before.members, after.members);
    }
  }

  lemma {:induction false} DiffKeysReal(keys: seq<Text>, before: Members, after: Members)
    requires WellFormedMembers(before) && WellFormedMembers(after)
    requires KeySet(keys) <= MeaningOfMembers(before).Keys + MeaningOfMembers(after).Keys
    ensures AllReal(DiffKeys(keys, before, after), VObj(MeaningOfMembers(before)), VObj(MeaningOfMembers(after)))
    decreases SizeOf(before) + 1, 0, |keys|
  {
    if keys != [] {
      assert keys[0] in KeySet(keys);
      assert KeySet(keys[1..]) <= KeySet(keys);
      DiffKeyReal(keys[0], before, after);
      DiffKeysReal(keys[1..], before, after);
    }
  }

  lemma {:induction false} DiffKeyReal(key: Text, before: Members, after: Members)
    requires WellFormedMembers(before) && WellFormedMembers(after)
    requires key in MeaningOfMembers(before) || key in MeaningOfMembers(after)
    ensures AllReal(DiffKey(key, before, after), VObj(MeaningOfMembers(before)), VObj(MeaningOfMembers(after)))
    decreases SizeOf(before), 2, 0
  {
    var b, a := VObj(MeaningOfMembers(before)), VObj(MeaningOfMembers(after));
    GetSmaller(before, key);
    GetWellFormed(before, key);
    GetWellFormed(after, key);
    GetMeaning(before, key);
    GetMeaning(after, key);
    SingleReal(key, b, a);
    if Get(before, key).Found? && Get(after, key).Found? {
      DiffReal(Get(before, key).value, Get(after, key).value);
      UnderReal(key, Diff(Get(before, key).value, Get(after, key).value), b, a);
    }
  }

  // ---------------------------------------------------------------- applying the differences

  /** The value with the member at `path` set, or removed. */
  function SetAt(v: Value, path: seq<Text>, found: Common.Option<Value>): Value
    decreases |path|
  {
    if path == [] then found.GetOr(v)
    else if !v.VObj? then v
    else if |path| == 1 && found.None? then VObj(v.members - {path[0]})
    else if |path| == 1 then VObj(v.members[path[0] := found.value])
    else if path[0] in v.members then VObj(v.members[path[0] := SetAt(v.members[path[0]], path[1..], found)])
    else v
  }

  /** Takes over from `target` whatever it has at the reported paths. */
  function Patch(v: Value, target: Value, entries: seq<Entry>): Value
    decreases |entries|
  {
    if entries == [] then v
    else Patch(SetAt(v, entries[0].path, Resolve(target, entries[0].path)), target, entries[1..])
  }

  lemma {:induction false} PatchAppend(v: Value, target: Value, a: seq<Entry>, b: seq<Entry>)
    ensures Patch(v, target, a + b) == Patch(Patch(v, target, a), target, b)
    decreases |a|
  {
    if a == [] {
      assert a + b == b;
    } else {
      assert (a + b)[1..] == a[1..] + b;
      PatchAppend(SetAt(v, a[0].path, Resolve(target, a[0].path)), target, a[1..], b);
    }
  }

  lemma {:induction false} SetAtCons(m: map<Text, Value>, key: Text, path: seq<Text>, found: Common.Option<Value>)
    requires key in m && (path == [] ==> found.Some?)
    ensures SetAt(VObj(m), [key] + path, found) == VObj(m[key := SetAt(m[key], path, found)])
  {
    assert ([key] + path)[1..] == path;
  }

  /** Entries below one member change only that member. */
  lemma {:induction false} PatchUnder(m: map<Text, Value>, target: map<Text, Value>, key: Text, entries: seq<Entry>)
    requires key in m && key in target
    ensures Patch(VObj(m), VObj(target), Under(key, entries))
         == VObj(m[key := Patch(m[key], target[key], entries)])
    decreases |entries|
  {
    if entries == [] {
      assert m[key := m[key]] == m;
    } else {
      var path := entries[0].path;
      ResolveCons(VObj(target), key, path);
      SetAtCons(m, key, path, Resolve(target[key], path));
      var m' := m[key := SetAt(m[key], path, Resolve(target[key], path))];
      assert Under(key, entries)[1..] == Under(key, entries[1..]);
      PatchUnder(m', target, key, entries[1..]);
    }
  }

  /** `m` with the members named by `keys` taken from `target`. */
  function Merged(m: map<Text, Value>, target: map<Text, Value>, keys: set<Text>): map<Text, Value> {
    map k | k in m.Keys + target.Keys && (if k in keys then k in target else k in m) :: if k in keys then target[k] else m[k]
  }

  lemma MergedTwice(m: map<Text, Value>, target: map<Text, Value>, a: set<Text>, b: set<Text>)
    ensures Merged(Merged(m, target, a), target, b) == Merged(m, target, a + b)
  {
  }

  lemma {:induction false} DiffKeyPatches(key: Text, before: Members, after: Members, m: map<Text, Value>)
    requires WellFormedMembers(before) && WellFormedMembers(after)
    requires key in MeaningOfMembers(before) || key in MeaningOfMembers(after)
    requires key in m <==> key in MeaningOfMembers(before)
    requires key in m ==> m[key] == MeaningOfMembers(before)[key]
    ensures Patch(VObj(m), VObj(MeaningOfMembers(after)), DiffKey(key, before, after))
         == VObj(Merged(m, MeaningOfMembers(after), {key}))
    decreases SizeOf(before), 2, 0
  {
    var target := MeaningOfMembers(after);
    GetSmaller(before, key);
    GetWellFormed(before, key);
    GetWellFormed(after, key);
    GetMeaning(before, key);
    GetMeaning(after, key);
    assert [key][1..] == [];
    if Get(before, key).Missing? {
      assert Merged(m, target, {key}) == m[key := target[key]];
      PatchOne(VObj(m), VObj(target), Entry([key], Added));
    } else if Get(after, key).Missing? {
      assert Merged(m, target, {key}) == m - {key};
      PatchOne(VObj(m), VObj(target), Entry([key], Removed));
    } else {
      var b, a := Get(before, key).value, Get(after, key).value;
      DiffPatches(b, a);
      PatchUnder(m, target, key, Diff(b, a));
      assert Merged(m, target, {key}) == m[key := target[key]];
    }
  }

  lemma PatchOne(v: Value, target: Value, e: Entry)
    ensures Patch(v, target, [e]) == SetAt(v, e.path, Resolve(target, e.path))
  {
    assert [e][1..] == [];
  }

  lemma {:induction false} DiffKeysPatches(keys: seq<Text>, before: Members, after: Members, m: map<Text, Value>)
    requires WellFormedMembers(before) && WellFormedMembers(after) && DistinctKeys(keys)
    requires KeySet(keys) <= MeaningOfMembers(before).Keys + MeaningOfMembers(after).Keys
    requires forall k :: k in keys ==> (k in m <==> k in MeaningOfMembers(before))
    requires forall k :: k in keys && k in m ==> m[k] == MeaningOfMembers(before)[k]
    ensures Patch(VObj(m), VObj(MeaningOfMembers(after)), DiffKeys(keys, before, after))
         == VObj(Merged(m, MeaningOfMembers(after), KeySet(keys)))
    decreases SizeOf(before) + 1, 0, |keys|
  {
    var target := MeaningOfMembers(after);
    if keys == [] {
      assert Merged(m, target, KeySet(keys)) == m;
    } else {
      assert keys[0] in KeySet(keys);
      assert keys == [keys[0]] + keys[1..];
      assert KeySet(keys) == {keys[0]} + KeySet(keys[1..]);
      var m' := Merged(m, target, {keys[0]});
      assert Patch(VObj(m), VObj(target), DiffKey(keys[0], before, after)) == VObj(m') by {
        DiffKeyPatches(keys[0], before, after, m);
      }
      assert Patch(VObj(m'), VObj(target), DiffKeys(keys[1..], before, after))
          == VObj(Merged(m', target, KeySet(keys[1..]))) by {
        DiffKeysPatches(keys[1..], before, after, m');
      }
      PatchAppend(VObj(m), VObj(target), DiffKey(keys[0], before, after), DiffKeys(keys[1..], before, after));
      MergedTwice(m, target, {keys[0]}, KeySet(keys[1..]));
    }
  }

  /** Completeness: taking over the candidate's values at the reported paths gives the candidate. */
  lemma {:induction false} DiffPatches(before: Json, after: Json)
    requires WellFormed(before) && WellFormed(after)
    ensures Patch(Meaning(before), Meaning(after), Diff(before, after)) == Meaning(after)
    decreases Size(before), 1, 0
  {
    StableTextIff(before, after);
    if StableText(before) != StableText(after) {
      if before.Obj? && after.Obj? {
        var m, target := MeaningOfMembers(before.members), MeaningOfMembers(after.members);
        var keys := UnionKeys(before.members, after.members);
        UnionKeysAre(before.members, after.members);
        DiffKeysPatches(keys, before.members, after.members, m);
        assert Merged(m, target, KeySet(keys)) == target;
      } else {
        PatchOne(Meaning(before), Meaning(after), Entry([], Changed));
      }
    }
  }

  /** Nothing is reported exactly when the documents are equal up to key order. */
  lemma DiffEmptyIff(before: Json, after: Json)
    requires WellFormed(before) && WellFormed(after)
    ensures Diff(before, after) == [] <==> Meaning(before) == Meaning(after)
  {
    StableTextIff(before, after);
    DiffPatches(before, after);
  }

  // ---------------------------------------------------------------- what is recorded

  lemma EmptyKeyPointer()
    ensures Pointer([[]]) == [SLASH]
  {
    var empty: Text, none: seq<Text> := [], [];
    assert EscapeToken(empty) == [];
    PointerCons(empty, none);
    assert [empty] + none == [empty];
  }

  /**
   A recorded change determines its entry, with one exception: the whole document and its member
   with the empty key are both recorded as `/`.
   */
  lemma NamedCollideIff(file: Text, e: Entry, f: Entry)
    ensures Named(file, [], e) == Named(file, [], f) <==> e == f || (e.kind == f.kind && {e.path, f.path} == {[], [[]]})
  {
    EmptyKeyPointer();
    assert [] + Pointer(e.path) == Pointer(e.path) && [] + Pointer(f.path) == Pointer(f.path);
    var empty: seq<Text> := [];
    var root: seq<Text> := [[]];
    assert empty != root;
    if e.path == [] && Pointer(f.path) == [SLASH] {
      PointerInjective(f.path, [[]]);
    } else if f.path == [] && Pointer(e.path) == [SLASH] {
      PointerInjective(e.path, [[]]);
    } else if Pointer(e.path) == Pointer(f.path) {
      PointerInjective(e.path, f.path);
    }
    if e.path != f.path && (e.path == [] || e.path == [[]]) && (f.path == [] || f.path == [[]]) {
      assert {e.path, f.path} == {[], [[]]};
    }
    if {e.path, f.path} == {[], [[]]} {
      assert e.path in {empty, root} && f.path in {empty, root};
      assert empty in {e.path, f.path} && root in {e.path, f.path};
    }
  }

  /** The document with one member, whose key is empty. */
  function Wrapped(v: Json): Json {
    Obj(Field([], v, End))
  }

  lemma WrappedKeys(before: Json, after: Json)
    requires WellFormed(before) && WellFormed(after)
    ensures WellFormed(Wrapped(before)) && WellFormed(Wrapped(after))
    ensures UnionKeys(Wrapped(before).members, Wrapped(after).members) == [[]]
    ensures Meaning(Wrapped(before)) == Meaning(Wrapped(after)) <==> Meaning(before) == Meaning(after)
  {
    var empty: Text := [];
    var b, a := Wrapped(before).members, Wrapped(after).members;
    GetMeaning(b, empty);
    GetMeaning(a, empty);
    assert Keys(b) == [empty] && Keys(a) == [empty];
    assert [empty][1..] == [];
    assert MissingFrom(Keys(a), b) == [];
    assert Keys(b) + [] == [empty];
    assert SortKeys([empty]) == [empty];
  }

  /**
   The failing inputs: change any document that is not an object, and the record is the one of the
   same change to a member with the empty key.
   */
  lemma DocumentsRecordedAlike(file: Text, before: Json, after: Json)
    requires WellFormed(before) && WellFormed(after) && !before.Obj? && !after.Obj? && Meaning(before) != Meaning(after)
    ensures Diff(before, after) == [Entry([], Changed)]
    ensures Diff(Wrapped(before), Wrapped(after)) == [Entry([[]], Changed)]
    ensures NamedAll(file, [], Diff(before, after)) == [Change(file, [SLASH], Changed)]
    ensures NamedAll(file, [], Diff(Wrapped(before), Wrapped(after))) == [Change(file, [SLASH], Changed)]
  {
    var empty: Text, none: seq<Text> := [], [];
    StableTextIff(before, after);
    WrappedKeys(before, after);
    StableTextIff(Wrapped(before), Wrapped(after));
    var b, a := Wrapped(before).members, Wrapped(after).members;
    assert [empty][1..] == [];
    assert DiffKeys([empty], b, a) == DiffKey(empty, b, a) + DiffKeys([], b, a);
    assert [empty] + none == [empty];
    assert Diff(Wrapped(before), Wrapped(after)) == [Entry([empty], Changed)];
    EmptyKeyPointer();
    assert [] + Pointer([empty]) == [SLASH];
  }
}
