/**
 Canonical JSON, which two parts of the system define: one rebuilds an object by assigning its
 sorted members to a fresh object, the other by defining them as own properties. Assigning
 `__proto__` sets a prototype instead of storing a member, which is the only difference.
 */
module CanonicalJson {
  import opened Text
  import opened Json

  /** What a JSON value means apart from the order of object keys. */
  datatype Value =
    | VNull
    | VBool(b: bool)
    | VNum(lexeme: Text)
    | VStr(text: Text)
    | VArr(items: seq<Value>)
    | VObj(members: map<Text, Value>)

  function Meaning(v: Json): Value {
    match v
    case Null => VNull
    case Bool(b) => VBool(b)
    case Num(lexeme) => VNum(lexeme)
    case Str(text) => VStr(text)
    case Arr(items) => VArr(MeaningOfItems(items))
    case Obj(members) => VObj(MeaningOfMembers(members))
  }

  function MeaningOfItems(items: Items): seq<Value> {
    match items
    case Nil => []
    case Item(head, tail) => [Meaning(head)] + MeaningOfItems(tail)
  }

  /** The members as a map; an earlier member hides later ones with its key. */
  function MeaningOfMembers(ms: Members): map<Text, Value> {
    match ms
    case End => map[]
    case Field(key, value, rest) => MeaningOfMembers(rest)[key := Meaning(value)]
  }

  /** How a rebuilt object stores a member. */
  datatype Store = Assign | Define

  function Put(store: Store, ms: Members, key: Text, value: Json): Members {
    if store.Assign? && key == PROTO then ms else DefineOwn(ms, key, value)
  }

  /** Stores on `acc` the members of `source` named by `keys`, in that order. */
  function Rebuild(store: Store, keys: seq<Text>, source: Members, acc: Members): Members {
    if keys == [] then acc
    else
      Rebuild(store, keys[1..], source,
              match Get(source, keys[0])
              case Missing => acc
              case Found(value) => Put(store, acc, keys[0], value))
  }

  function Canonical(store: Store, v: Json): Json {
    match v
    case Arr(items) => Arr(CanonicalItems(store, items))
    case Obj(members) => Obj(Rebuild(store, SortKeys(Keys(members)), CanonicalValues(store, members), End))
    case _ => v
  }

  function CanonicalItems(store: Store, items: Items): Items {
    match items
    case Nil => Nil
    case Item(head, tail) => Item(Canonical(store, head), CanonicalItems(store, tail))
  }

  function CanonicalValues(store: Store, ms: Members): Members {
    match ms
    case End => End
    case Field(key, value, rest) => Field(key, Canonical(store, value), CanonicalValues(store, rest))
  }

  /** `canonicalize` of the agents package. */
  function Canonicalize(v: Json): Json { Canonical(Assign, v) }

  /** `canonicalJson` of the agents package, the text that is digested. */
  function CanonicalText(v: Json): Text { Stringify(Canonicalize(v)) }

  /** `stableJson` of the compatibility contract. */
  function StableText(v: Json): Text { Stringify(Canonical(Define, v)) }

  // ---------------------------------------------------------------- canonical form

  predicate BeforeAll(k: Text, ms: Members) {
    match ms
    case End => true
    case Field(k', _, rest) => KeyBefore(k, k') && BeforeAll(k, rest)
  }

  predicate Ascending(ms: Members) {
    match ms
    case End => true
    case Field(k, _, rest) => BeforeAll(k, rest) && Ascending(rest)
  }

  /** Every object lists its members in the one order that depends on nothing but their keys. */
  predicate IsCanonical(v: Json) {
    match v
    case Arr(items) => CanonicalEach(items)
    case Obj(members) => Ascending(members) && CanonicalMembers(members)
    case _ => true
  }

  predicate CanonicalEach(items: Items) {
    match items
    case Nil => true
    case Item(head, tail) => IsCanonical(head) && CanonicalEach(tail)
  }

  predicate CanonicalMembers(ms: Members) {
    match ms
    case End => true
    case Field(_, value, rest) => IsCanonical(value) && CanonicalMembers(rest)
  }

  lemma {:induction false} BeforeAllTransitive(a: Text, b: Text, ms: Members)
    requires KeyBefore(a, b) && BeforeAll(b, ms)
    ensures BeforeAll(a, ms)
  {
    if ms.Field? {
      KeyBeforeTransitive(a, b, ms.key);
      BeforeAllTransitive(a, b, ms.rest);
    }
  }

  /** Keys that sorting has already placed: each array index or smaller than every key still to come. */
  predicate Placed(ms: Members, key: Text) {
    match ms
    case End => true
    case Field(k, _, rest) => (IsArrayIndex(k) || Less(k, key)) && k != key && Placed(rest, key)
  }

  lemma {:induction false} DefineKeepsBefore(a: Text, ms: Members, key: Text, value: Json)
    requires BeforeAll(a, ms) && KeyBefore(a, key)
    ensures BeforeAll(a, DefineOwn(ms, key, value))
  {
    if ms.Field? {
      DefineKeepsBefore(a, ms.rest, key, value);
    }
  }

  /** A key stored in sorted turn keeps the members ascending. */
  lemma {:induction false} DefineKeepsAscending(ms: Members, key: Text, value: Json)
    requires Ascending(ms) && Placed(ms, key)
    ensures Ascending(DefineOwn(ms, key, value))
  {
    if ms.Field? {
      DefineKeepsAscending(ms.rest, key, value);
      PlacedIsMissing(ms, key);
      if IsArrayIndex(key) && (!IsArrayIndex(ms.key) || IndexLess(key, ms.key)) {
        BeforeAllTransitive(key, ms.key, ms.rest);
      } else {
        KeyBeforeTotal(ms.key, key);
        DefineKeepsBefore(ms.key, ms.rest, key, value);
      }
    }
  }

  lemma {:induction false} PlacedIsMissing(ms: Members, key: Text)
    requires Placed(ms, key)
    ensures Get(ms, key).Missing?
  {
    if ms.Field? {
      PlacedIsMissing(ms.rest, key);
    }
  }

  lemma {:induction false} DefineKeepsPlaced(ms: Members, key: Text, value: Json, next: Text)
    requires Placed(ms, next) && Less(key, next)
    ensures Placed(DefineOwn(ms, key, value), next)
  {
    LessIrreflexive(next);
    if ms.Field? {
      DefineKeepsPlaced(ms.rest, key, value, next);
    }
  }

  // ---------------------------------------------------------------- meanings

  lemma {:induction false} GetMeaning(ms: Members, key: Text)
    ensures key in MeaningOfMembers(ms) <==> Get(ms, key).Found?
    ensures Get(ms, key).Found? ==> MeaningOfMembers(ms)[key] == Meaning(Get(ms, key).value)
  {
    if ms.Field? {
      GetMeaning(ms.rest, key);
    }
  }

  lemma {:induction false} DefineMeaning(ms: Members, key: Text, value: Json)
    ensures MeaningOfMembers(DefineOwn(ms, key, value)) == MeaningOfMembers(ms)[key := Meaning(value)]
  {
    if ms.Field? {
      DefineMeaning(ms.rest, key, value);
    }
  }

  lemma {:induction false} KeysMeaning(ms: Members)
    ensures MeaningOfMembers(ms).Keys == KeySet(Keys(ms))
  {
    if ms.Field? {
      KeysMeaning(ms.rest);
      assert KeySet(Keys(ms)) == {ms.key} + KeySet(Keys(ms.rest));
    }
  }

  lemma {:induction false} LeadsAllIsNew(k: Text, ms: Members)
    requires LeadsAll(k, ms)
    ensures k !in Keys(ms)
  {
    if ms.Field? {
      LeadsAllIsNew(k, ms.rest);
    }
  }

  lemma {:induction false} EnumeratedKeysDistinct(ms: Members)
    requires Enumerated(ms)
    ensures forall i, j :: 0 <= i < j < |Keys(ms)| ==> Keys(ms)[i] != Keys(ms)[j]
  {
    if ms.Field? {
      EnumeratedKeysDistinct(ms.rest);
      LeadsAllIsNew(ms.key, ms.rest);
    }
  }

  function Dropped(store: Store): set<Text> {
    if store.Assign? then {PROTO} else {}
  }

  /** The restriction of a map to some keys. */
  function Restrict(m: map<Text, Value>, keys: set<Text>): map<Text, Value> {
    map k | k in m && k in keys :: m[k]
  }

  lemma {:induction false} RebuildMeaning(store: Store, keys: seq<Text>, source: Members, acc: Members)
    ensures MeaningOfMembers(Rebuild(store, keys, source, acc))
         == MeaningOfMembers(acc) + Restrict(MeaningOfMembers(source) - Dropped(store), KeySet(keys))
  {
    if keys == [] {
      assert Restrict(MeaningOfMembers(source) - Dropped(store), KeySet(keys)) == map[];
    } else {
      var acc' := match Get(source, keys[0])
                  case Missing => acc
                  case Found(value) => Put(store, acc, keys[0], value);
      RebuildMeaning(store, keys[1..], source, acc');
      GetMeaning(source, keys[0]);
      if Get(source, keys[0]).Found? {
        DefineMeaning(acc, keys[0], Get(source, keys[0]).value);
      }
      RestrictStep(MeaningOfMembers(acc), MeaningOfMembers(source) - Dropped(store), keys);
    }
  }

  lemma RestrictStep(acc: map<Text, Value>, m: map<Text, Value>, keys: seq<Text>)
    requires keys != []
    ensures acc + Restrict(m, KeySet(keys))
         == (if keys[0] in m then acc[keys[0] := m[keys[0]]] else acc) + Restrict(m, KeySet(keys[1..]))
  {
    assert keys == [keys[0]] + keys[1..];
    assert KeySet(keys) == {keys[0]} + KeySet(keys[1..]);
  }

  lemma {:induction false} RebuildAscends(store: Store, keys: seq<Text>, source: Members, acc: Members)
    requires Sorted(keys) && Ascending(acc) && forall i :: 0 <= i < |keys| ==> Placed(acc, keys[i])
    ensures Ascending(Rebuild(store, keys, source, acc))
  {
    if keys != [] {
      var acc' := match Get(source, keys[0])
                  case Missing => acc
                  case Found(value) => Put(store, acc, keys[0], value);
      if acc' != acc {
        var value := Get(source, keys[0]).value;
        DefineKeepsAscending(acc, keys[0], value);
        forall i | 1 <= i < |keys| ensures Placed(acc', keys[i]) {
          DefineKeepsPlaced(acc, keys[0], value, keys[i]);
        }
      }
      RebuildAscends(store, keys[1..], source, acc');
    }
  }

  /** What holds of every stored value holds of every rebuilt member. */
  predicate Sound(v: Json) {
    IsCanonical(v) && WellFormed(v)
  }

  predicate SoundMembers(ms: Members) {
    CanonicalMembers(ms) && WellFormedMembers(ms)
  }

  lemma {:induction false} DefineKeepsSound(ms: Members, key: Text, value: Json)
    requires SoundMembers(ms) && Sound(value)
    ensures SoundMembers(DefineOwn(ms, key, value))
  {
    if ms.Field? {
      DefineKeepsSound(ms.rest, key, value);
    }
  }

  lemma {:induction false} GetSound(ms: Members, key: Text)
    requires SoundMembers(ms)
    ensures Get(ms, key).Found? ==> Sound(Get(ms, key).value)
  {
    if ms.Field? {
      GetSound(ms.rest, key);
    }
  }

  lemma {:induction false} RebuildSound(store: Store, keys: seq<Text>, source: Members, acc: Members)
    requires SoundMembers(source) && SoundMembers(acc)
    ensures SoundMembers(Rebuild(store, keys, source, acc))
  {
    if keys != [] {
      GetSound(source, keys[0]);
      if Get(source, keys[0]).Found? {
        DefineKeepsSound(acc, keys[0], Get(source, keys[0]).value);
      }
      RebuildSound(store, keys[1..], source,
                   match Get(source, keys[0])
                   case Missing => acc
                   case Found(value) => Put(store, acc, keys[0], value));
    }
  }

  lemma {:induction false} AscendingIsEnumerated(ms: Members)
    requires Ascending(ms)
    ensures Enumerated(ms)
  {
    if ms.Field? {
      AscendingIsEnumerated(ms.rest);
      BeforeAllLeads(ms.key, ms.rest);
    }
  }

  lemma {:induction false} BeforeAllLeads(k: Text, ms: Members)
    requires BeforeAll(k, ms)
    ensures LeadsAll(k, ms)
  {
    if ms.Field? {
      BeforeAllLeads(k, ms.rest);
      KeyBeforeIrreflexive(k);
    }
  }

  /** The rebuilt value is canonical, and still one that JavaScript can hold. */
  lemma {:induction false} CanonicalSound(store: Store, v: Json)
    requires WellFormed(v)
    ensures Sound(Canonical(store, v))
  {
    match v
    case Arr(items) => CanonicalItemsSound(store, items);
    case Obj(members) =>
      CanonicalValuesSound(store, members);
      EnumeratedKeysDistinct(members);
      SortKeysSorts(Keys(members));
      var keys, source := SortKeys(Keys(members)), CanonicalValues(store, members);
      RebuildSound(store, keys, source, End);
      RebuildAscends(store, keys, source, End);
      AscendingIsEnumerated(Rebuild(store, keys, source, End));
    case _ =>
  }

  lemma {:induction false} CanonicalItemsSound(store: Store, items: Items)
    requires WellFormedItems(items)
    ensures CanonicalEach(CanonicalItems(store, items)) && WellFormedItems(CanonicalItems(store, items))
  {
    if items.Item? {
      CanonicalSound(store, items.head);
      CanonicalItemsSound(store, items.tail);
    }
  }

  lemma {:induction false} CanonicalValuesSound(store: Store, ms: Members)
    requires WellFormedMembers(ms)
    ensures SoundMembers(CanonicalValues(store, ms))
  {
    if ms.Field? {
      CanonicalSound(store, ms.value);
      CanonicalValuesSound(store, ms.rest);
    }
  }

  // ---------------------------------------------------------------- what is kept

  /** The value without any member called `__proto__`, at any depth. */
  function WithoutProto(v: Json): Json {
    match v
    case Arr(items) => Arr(ItemsWithoutProto(items))
    case Obj(members) => Obj(MembersWithoutProto(members))
    case _ => v
  }

  function ItemsWithoutProto(items: Items): Items {
    match items
    case Nil => Nil
    case Item(head, tail) => Item(WithoutProto(head), ItemsWithoutProto(tail))
  }

  function MembersWithoutProto(ms: Members): Members {
    match ms
    case End => End
    case Field(key, value, rest) =>
      if key == PROTO then MembersWithoutProto(rest) else Field(key, WithoutProto(value), MembersWithoutProto(rest))
  }

  predicate NoProto(v: Json) {
    match v
    case Arr(items) => NoProtoItems(items)
    case Obj(members) => NoProtoMembers(members)
    case _ => true
  }

  predicate NoProtoItems(items: Items) {
    match items
    case Nil => true
    case Item(head, tail) => NoProto(head) && NoProtoItems(tail)
  }

  predicate NoProtoMembers(ms: Members) {
    match ms
    case End => true
    case Field(key, value, rest) => key != PROTO && NoProto(value) && NoProtoMembers(rest)
  }

  function Kept(store: Store, v: Json): Json {
    if store.Assign? then WithoutProto(v) else v
  }

  function KeptMembers(store: Store, ms: Members): Members {
    if store.Assign? then MembersWithoutProto(ms) else ms
  }

  lemma RestrictToAll(m: map<Text, Value>, keys: set<Text>)
    requires m.Keys <= keys
    ensures map[] + Restrict(m, keys) == m
  {
  }

  /** Canonicalising means what the stored members mean, whatever the order it found them in. */
  lemma {:induction false} CanonicalMeaning(store: Store, v: Json)
    requires WellFormed(v)
    ensures Meaning(Canonical(store, v)) == Meaning(Kept(store, v))
  {
    match v
    case Arr(items) => CanonicalItemsMeaning(store, items);
    case Obj(members) =>
      CanonicalValuesMeaning(store, members);
      EnumeratedKeysDistinct(members);
      SortKeysSorts(Keys(members));
      KeysMeaning(members);
      var source := CanonicalValues(store, members);
      RebuildMeaning(store, SortKeys(Keys(members)), source, End);
      RestrictToAll(MeaningOfMembers(source) - Dropped(store), KeySet(Keys(members)));
    case _ =>
  }

  lemma {:induction false} CanonicalItemsMeaning(store: Store, items: Items)
    requires WellFormedItems(items)
    ensures MeaningOfItems(CanonicalItems(store, items))
         == MeaningOfItems(if store.Assign? then ItemsWithoutProto(items) else items)
  {
    if items.Item? {
      CanonicalMeaning(store, items.head);
      CanonicalItemsMeaning(store, items.tail);
    }
  }

  lemma {:induction false} CanonicalValuesMeaning(store: Store, ms: Members)
    requires WellFormedMembers(ms)
    ensures MeaningOfMembers(CanonicalValues(store, ms)) - Dropped(store) == MeaningOfMembers(KeptMembers(store, ms))
    ensures MeaningOfMembers(CanonicalValues(store, ms)).Keys == MeaningOfMembers(ms).Keys
  {
    if ms.Field? {
      CanonicalMeaning(store, ms.value);
      CanonicalValuesMeaning(store, ms.rest);
    }
  }

  // ---------------------------------------------------------------- uniqueness

  lemma {:induction false} BeforeAllKeys(k: Text, ms: Members, key: Text)
    requires BeforeAll(k, ms) && key in MeaningOfMembers(ms)
    ensures KeyBefore(k, key)
  {
    if ms.key != key {
      BeforeAllKeys(k, ms.rest, key);
    }
  }

  /** A canonical value is determined by its meaning. */
  lemma {:induction false} CanonicalUnique(v: Json, w: Json)
    requires IsCanonical(v) && IsCanonical(w) && Meaning(v) == Meaning(w)
    ensures v == w
  {
    match v
    case Arr(items) => CanonicalItemsUnique(items, w.items);
    case Obj(members) => CanonicalMembersUnique(members, w.members);
    case _ =>
  }

  lemma {:induction false} CanonicalItemsUnique(a: Items, b: Items)
    requires CanonicalEach(a) && CanonicalEach(b) && MeaningOfItems(a) == MeaningOfItems(b)
    ensures a == b
  {
    if a.Item? {
      assert MeaningOfItems(a)[0] == Meaning(a.head) && MeaningOfItems(b)[0] == Meaning(b.head);
      assert MeaningOfItems(a)[1..] == MeaningOfItems(a.tail) && MeaningOfItems(b)[1..] == MeaningOfItems(b.tail);
      CanonicalUnique(a.head, b.head);
      CanonicalItemsUnique(a.tail, b.tail);
    }
  }

  lemma NoMembers(ms: Members)
    ensures MeaningOfMembers(ms) == map[] <==> ms.End?
    ensures ms.Field? ==> ms.key in MeaningOfMembers(ms)
  {
    if ms.Field? {
      assert ms.key in MeaningOfMembers(ms);
    }
  }

  lemma FirstKeysAgree(a: Members, b: Members)
    requires a.Field? && b.Field? && Ascending(a) && Ascending(b)
    requires a.key in MeaningOfMembers(b) && b.key in MeaningOfMembers(a)
    ensures a.key == b.key
  {
    if a.key != b.key {
      BeforeAllKeys(a.key, a.rest, b.key);
      BeforeAllKeys(b.key, b.rest, a.key);
      KeyBeforeTransitive(a.key, b.key, a.key);
      KeyBeforeIrreflexive(a.key);
    }
  }

  lemma RestMeaning(ms: Members)
    requires ms.Field? && BeforeAll(ms.key, ms.rest)
    ensures MeaningOfMembers(ms.rest) == MeaningOfMembers(ms) - {ms.key}
  {
    if ms.key in MeaningOfMembers(ms.rest) {
      BeforeAllKeys(ms.key, ms.rest, ms.key);
      KeyBeforeIrreflexive(ms.key);
    }
  }

  lemma {:induction false} CanonicalMembersUnique(a: Members, b: Members)
    requires Ascending(a) && Ascending(b) && CanonicalMembers(a) && CanonicalMembers(b)
    requires MeaningOfMembers(a) == MeaningOfMembers(b)
    ensures a == b
  {
    NoMembers(a);
    NoMembers(b);
    if a.Field? {
      FirstKeysAgree(a, b);
      assert MeaningOfMembers(a)[a.key] == Meaning(a.value) && MeaningOfMembers(b)[b.key] == Meaning(b.value);
      CanonicalUnique(a.value, b.value);
      RestMeaning(a);
      RestMeaning(b);
      CanonicalMembersUnique(a.rest, b.rest);
    }
  }

  // ---------------------------------------------------------------- theorems

  lemma CanonicalAgree(store: Store, v: Json, w: Json)
    requires WellFormed(v) && WellFormed(w)
    ensures Stringify(Canonical(store, v)) == Stringify(Canonical(store, w))
       <==> Meaning(Kept(store, v)) == Meaning(Kept(store, w))
  {
    CanonicalSound(store, v);
    CanonicalSound(store, w);
    CanonicalMeaning(store, v);
    CanonicalMeaning(store, w);
    if Stringify(Canonical(store, v)) == Stringify(Canonical(store, w)) {
      StringifyInjective(Canonical(store, v), Canonical(store, w));
    }
    if Meaning(Kept(store, v)) == Meaning(Kept(store, w)) {
      CanonicalUnique(Canonical(store, v), Canonical(store, w));
    }
  }

  /** The contract's canonical texts are equal exactly when the values are equal up to key order. */
  lemma StableTextIff(v: Json, w: Json)
    requires WellFormed(v) && WellFormed(w)
    ensures StableText(v) == StableText(w) <==> Meaning(v) == Meaning(w)
  {
    CanonicalAgree(Define, v, w);
  }

  /** The agents package's texts are equal exactly when the values are, `__proto__` members aside. */
  lemma CanonicalTextIff(v: Json, w: Json)
    requires WellFormed(v) && WellFormed(w)
    ensures CanonicalText(v) == CanonicalText(w) <==> Meaning(WithoutProto(v)) == Meaning(WithoutProto(w))
  {
    CanonicalAgree(Assign, v, w);
  }

  // ---------------------------------------------------------------- the `__proto__` member

  lemma {:induction false} NoProtoKept(v: Json)
    requires NoProto(v)
    ensures WithoutProto(v) == v
  {
    match v
    case Arr(items) => NoProtoItemsKept(items);
    case Obj(members) => NoProtoMembersKept(members);
    case _ =>
  }

  lemma {:induction false} NoProtoItemsKept(items: Items)
    requires NoProtoItems(items)
    ensures ItemsWithoutProto(items) == items
  {
    if items.Item? {
      NoProtoKept(items.head);
      NoProtoItemsKept(items.tail);
    }
  }

  lemma {:induction false} NoProtoMembersKept(ms: Members)
    requires NoProtoMembers(ms)
    ensures MembersWithoutProto(ms) == ms
  {
    if ms.Field? {
      NoProtoKept(ms.value);
      NoProtoMembersKept(ms.rest);
    }
  }

  lemma {:induction false} NewKeyMeaning(k: Text, ms: Members)
    requires LeadsAll(k, ms)
    ensures k !in MeaningOfMembers(ms)
  {
    KeysMeaning(ms);
    LeadsAllIsNew(k, ms);
  }

  lemma {:induction false} ProtoMissing(ms: Members)
    ensures PROTO !in MeaningOfMembers(MembersWithoutProto(ms))
    ensures MeaningOfMembers(MembersWithoutProto(ms)).Keys == MeaningOfMembers(ms).Keys - {PROTO}
  {
    if ms.Field? {
      ProtoMissing(ms.rest);
    }
  }

  /** Dropping `__proto__` members keeps the meaning exactly when there are none. */
  lemma {:induction false} WithoutProtoMeaningIff(v: Json)
    requires WellFormed(v)
    ensures Meaning(WithoutProto(v)) == Meaning(v) <==> NoProto(v)
  {
    match v
    case Arr(items) => ItemsMeaningIff(items);
    case Obj(members) => MembersMeaningIff(members);
    case _ =>
  }

  lemma {:induction false} ItemsMeaningIff(items: Items)
    requires WellFormedItems(items)
    ensures MeaningOfItems(ItemsWithoutProto(items)) == MeaningOfItems(items) <==> NoProtoItems(items)
  {
    if items.Item? {
      WithoutProtoMeaningIff(items.head);
      ItemsMeaningIff(items.tail);
      var a, b := MeaningOfItems(ItemsWithoutProto(items)), MeaningOfItems(items);
      assert a[1..] == MeaningOfItems(ItemsWithoutProto(items.tail)) && b[1..] == MeaningOfItems(items.tail);
    }
  }

  lemma InsertedEqualIff(m: map<Text, Value>, n: map<Text, Value>, k: Text, x: Value, y: Value)
    requires k !in m && k !in n
    ensures m[k := x] == n[k := y] <==> m == n && x == y
  {
    assert m == m[k := x] - {k};
    assert n == n[k := y] - {k};
    assert m[k := x][k] == x && n[k := y][k] == y;
  }

  lemma {:induction false} MembersMeaningIff(ms: Members)
    requires Enumerated(ms) && WellFormedMembers(ms)
    ensures MeaningOfMembers(MembersWithoutProto(ms)) == MeaningOfMembers(ms) <==> NoProtoMembers(ms)
  {
    if ms.Field? {
      WithoutProtoMeaningIff(ms.value);
      MembersMeaningIff(ms.rest);
      ProtoMissing(ms);
      ProtoMissing(ms.rest);
      NewKeyMeaning(ms.key, ms.rest);
      if ms.key == PROTO {
        assert PROTO in MeaningOfMembers(ms);
      } else {
        InsertedEqualIff(MeaningOfMembers(MembersWithoutProto(ms.rest)), MeaningOfMembers(ms.rest), ms.key,
                         Meaning(WithoutProto(ms.value)), Meaning(ms.value));
      }
    }
  }

  /** Assignment gives canonical text that means the value exactly when no member is called `__proto__`. */
  lemma CanonicalizeKeepsMeaningIff(v: Json)
    requires WellFormed(v)
    ensures Meaning(Canonicalize(v)) == Meaning(v) <==> NoProto(v)
    ensures CanonicalText(v) == StableText(v) <==> NoProto(v)
  {
    CanonicalMeaning(Assign, v);
    CanonicalMeaning(Define, v);
    WithoutProtoMeaningIff(v);
    CanonicalSound(Assign, v);
    CanonicalSound(Define, v);
    if CanonicalText(v) == StableText(v) {
      StringifyInjective(Canonical(Assign, v), Canonical(Define, v));
    }
    if NoProto(v) {
      CanonicalUnique(Canonical(Assign, v), Canonical(Define, v));
    }
  }

  /** So on values without such members the digested text identifies the value up to key order. */
  lemma CanonicalTextIdentifies(v: Json, w: Json)
    requires WellFormed(v) && WellFormed(w) && NoProto(v) && NoProto(w)
    ensures CanonicalText(v) == CanonicalText(w) <==> Meaning(v) == Meaning(w)
  {
    CanonicalTextIff(v, w);
    NoProtoKept(v);
    NoProtoKept(w);
  }

  /** With one it does not: such an object digests like the empty object. */
  lemma ProtoMemberIsLost(value: Json)
    requires WellFormed(value)
    ensures var v := Obj(Field(PROTO, value, End));
            WellFormed(v) && CanonicalText(v) == CanonicalText(Obj(End)) && Meaning(v) != Meaning(Obj(End))
  {
    var v := Obj(Field(PROTO, value, End));
    CanonicalTextIff(v, Obj(End));
    assert PROTO in MeaningOfMembers(v.members);
  }

  lemma {:induction false} DefineKeepsNoProto(ms: Members, key: Text, value: Json)
    requires NoProtoMembers(ms) && key != PROTO && NoProto(value)
    ensures NoProtoMembers(DefineOwn(ms, key, value))
  {
    if ms.Field? {
      DefineKeepsNoProto(ms.rest, key, value);
    }
  }

  predicate ValuesNoProto(ms: Members) {
    match ms
    case End => true
    case Field(_, value, rest) => NoProto(value) && ValuesNoProto(rest)
  }

  lemma {:induction false} GetNoProto(ms: Members, key: Text)
    requires ValuesNoProto(ms)
    ensures Get(ms, key).Found? ==> NoProto(Get(ms, key).value)
  {
    if ms.Field? {
      GetNoProto(ms.rest, key);
    }
  }

  lemma {:induction false} RebuildNoProto(keys: seq<Text>, source: Members, acc: Members)
    requires ValuesNoProto(source) && NoProtoMembers(acc)
    ensures NoProtoMembers(Rebuild(Assign, keys, source, acc))
  {
    if keys != [] {
      GetNoProto(source, keys[0]);
      if Get(source, keys[0]).Found? && keys[0] != PROTO {
        DefineKeepsNoProto(acc, keys[0], Get(source, keys[0]).value);
      }
      RebuildNoProto(keys[1..], source,
                     match Get(source, keys[0])
                     case Missing => acc
                     case Found(value) => Put(Assign, acc, keys[0], value));
    }
  }

  lemma {:induction false} AssignedNoProto(v: Json)
    ensures NoProto(Canonical(Assign, v))
  {
    match v
    case Arr(items) => AssignedItemsNoProto(items);
    case Obj(members) =>
      AssignedValuesNoProto(members);
      RebuildNoProto(SortKeys(Keys(members)), CanonicalValues(Assign, members), End);
    case _ =>
  }

  lemma {:induction false} AssignedItemsNoProto(items: Items)
    ensures NoProtoItems(CanonicalItems(Assign, items))
  {
    if items.Item? {
      AssignedNoProto(items.head);
      AssignedItemsNoProto(items.tail);
    }
  }

  lemma {:induction false} AssignedValuesNoProto(ms: Members)
    ensures ValuesNoProto(CanonicalValues(Assign, ms))
  {
    if ms.Field? {
      AssignedNoProto(ms.value);
      AssignedValuesNoProto(ms.rest);
    }
  }

  /** Canonicalising a canonical value changes nothing. */
  lemma CanonicalIdempotent(store: Store, v: Json)
    requires WellFormed(v)
    ensures Canonical(store, Canonical(store, v)) == Canonical(store, v)
  {
    var c := Canonical(store, v);
    CanonicalSound(store, v);
    CanonicalSound(store, c);
    CanonicalMeaning(store, c);
    if store.Assign? {
      AssignedNoProto(v);
      NoProtoKept(c);
    }
    CanonicalUnique(Canonical(store, c), c);
  }
}
