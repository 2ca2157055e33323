/**
 The comparison of two schema bundles, file by file in the order of their names, and what its
 records say to someone who holds both bundles: each recorded file and pointer leads back to a real
 addition, removal or change, and an untruncated list turns the baseline into the candidate.
 */
module SchemaBundles {
  import opened Common
  import opened Text
  import opened Json
  import opened C = CanonicalJson
  import opened SchemaDiff

  datatype SchemaFile = SchemaFile(name: Text, document: Json)

  /** The documents by name; a later file replaces an earlier one of the same name. */
  function ByName(files: seq<SchemaFile>): map<Text, Json> {
    if files == [] then map[]
    else ByName(files[..|files| - 1])[files[|files| - 1].name := files[|files| - 1].document]
  }

  /** The names in insertion order, as a Map lists them. */
  function NamesOf(files: seq<SchemaFile>): seq<Text> {
    if files == [] then []
    else
      var names := NamesOf(files[..|files| - 1]);
      if files[|files| - 1].name in names then names else names + [files[|files| - 1].name]
  }

  function NotIn(names: seq<Text>, present: seq<Text>): seq<Text> {
    if names == [] then []
    else (if names[0] in present then [] else [names[0]]) + NotIn(names[1..], present)
  }

  function BundleNames(baseline: seq<SchemaFile>, candidate: seq<SchemaFile>): seq<Text> {
    SortKeys(NamesOf(baseline) + NotIn(NamesOf(candidate), NamesOf(baseline)))
  }

  /** The changes of one file. */
  function FileChanges(name: Text, baseline: map<Text, Json>, candidate: map<Text, Json>): seq<Change> {
    if name !in baseline then [Change(name, [SLASH], FileAdded)]
    else if name !in candidate then [Change(name, [SLASH], FileRemoved)]
    else NamedAll(name, [], Diff(baseline[name], candidate[name]))
  }

  function BundleChanges(names: seq<Text>, baseline: map<Text, Json>, candidate: map<Text, Json>): seq<Change> {
    if names == [] then []
    else BundleChanges(names[..|names| - 1], baseline, candidate) + FileChanges(names[|names| - 1], baseline, candidate)
  }

  lemma {:induction false} BundlePrefix(names: seq<Text>, i: nat, baseline: map<Text, Json>, candidate: map<Text, Json>, max: int)
    requires i <= |names| && |Extended([], BundleChanges(names[..i], baseline, candidate), max)| >= max
    ensures Extended([], BundleChanges(names, baseline, candidate), max)
         == Extended([], BundleChanges(names[..i], baseline, candidate), max)
    decreases |names| - i
  {
    if i < |names| {
      BundleStep(names, i, baseline, candidate, max);
      BundlePrefix(names, i + 1, baseline, candidate, max);
    } else {
      assert names[..i] == names;
    }
  }

  lemma {:induction false} NamesAre(files: seq<SchemaFile>)
    ensures DistinctKeys(NamesOf(files)) && KeySet(NamesOf(files)) == ByName(files).Keys
  {
    if files != [] {
      NamesAre(files[..|files| - 1]);
      var names := NamesOf(files[..|files| - 1]);
      assert forall k :: k in names <==> k in KeySet(names);
    }
  }

  lemma {:induction false} NotInIs(names: seq<Text>, present: seq<Text>)
    requires DistinctKeys(names)
    ensures DistinctKeys(NotIn(names, present))
    ensures forall k :: k in NotIn(names, present) <==> k in names && k !in present
  {
    if names != [] {
      NotInIs(names[1..], present);
      assert names == [names[0]] + names[1..];
    }
  }

  lemma BundleNamesAre(baseline: seq<SchemaFile>, candidate: seq<SchemaFile>)
    ensures Sorted(BundleNames(baseline, candidate))
    ensures KeySet(BundleNames(baseline, candidate)) == ByName(baseline).Keys + ByName(candidate).Keys
  {
    NamesAre(baseline);
    NamesAre(candidate);
    var b, c := NamesOf(baseline), NamesOf(candidate);
    NotInIs(c, b);
    JoinedKeys(b, NotIn(c, b));
    SortKeysSorts(b + NotIn(c, b));
    assert forall n :: n in KeySet(NotIn(c, b)) <==> n in NotIn(c, b);
    assert forall n :: n in KeySet(c) <==> n in c;
  }

  // ---------------------------------------------------------------- reading a record back

  /** Where the first reference token of a text ends. */
  function TokenLength(t: Text): (n: nat)
    ensures n <= |t|
  {
    if t == [] || t[0] == SLASH then 0 else 1 + TokenLength(t[1..])
  }

  /** The keys a pointer names (sections 3 and 4 of RFC 6901). */
  function ReadPointer(t: Text): seq<Text> {
    if t == [] || t[0] != SLASH then []
    else
      var n := 1 + TokenLength(t[1..]);
      [Unescape(t[1..n])] + ReadPointer(t[n..])
  }

  lemma {:induction false} TokenEndsAtSlash(token: Text, rest: Text)
    requires NoSlash(token) && (rest == [] || rest[0] == SLASH)
    ensures TokenLength(token + rest) == |token|
  {
    if token == [] {
      assert token + rest == rest;
    } else {
      assert (token + rest)[1..] == token[1..] + rest;
      TokenEndsAtSlash(token[1..], rest);
    }
  }

  lemma {:induction false} ReadPointerPointer(path: seq<Text>)
    ensures ReadPointer(Pointer(path)) == path
  {
    if path != [] {
      var token, rest := EscapeToken(path[0]), Pointer(path[1..]);
      EscapeIsOnePass(path[0]);
      EscapeHasNoSlash(path[0]);
      TokenEndsAtSlash(token, rest);
      var t, n := Pointer(path), 1 + |token|;
      assert t[1..] == token + rest && t[1..n] == token && t[n..] == rest;
      UnescapeEscape(path[0]);
      ReadPointerPointer(path[1..]);
      assert path == [path[0]] + path[1..];
    }
  }

  /** The keys a recorded pointer stands for, given the two documents: a change at `/` is one of the whole
      documents unless both are objects. */
  function PathOf(change: Change, before: Value, after: Value): seq<Text> {
    if change.kind.Changed? && change.path == [SLASH] && !(before.VObj? && after.VObj?) then []
    else ReadPointer(change.path)
  }

  /** Of a real difference the record gives the keys back, the ambiguous pointer included. */
  lemma {:induction false} RecordedPath(file: Text, e: Entry, before: Value, after: Value)
    requires Real(e, before, after)
    ensures PathOf(Named(file, [], e), before, after) == e.path
  {
    EmptyKeyPointer();
    ReadPointerPointer(e.path);
    assert [] + Pointer(e.path) == Pointer(e.path);
    if Pointer(e.path) == [SLASH] {
      PointerInjective(e.path, [[]]);
    }
  }

  // ---------------------------------------------------------------- bundles of values

  type Bundle = map<Text, Value>

  function Meanings(files: map<Text, Json>): Bundle {
    map name | name in files :: Meaning(files[name])
  }

  ghost predicate AllWellFormed(files: map<Text, Json>) {
    forall name :: name in files ==> WellFormed(files[name])
  }

  /** What a recorded change claims about the two bundles. */
  predicate RealChange(change: Change, before: Bundle, after: Bundle) {
    var file := change.file;
    match change.kind
    case FileAdded => file !in before && file in after
    case FileRemoved => file in before && file !in after
    case _ =>
      && file in before && file in after
      && Real(Entry(PathOf(change, before[file], after[file]), change.kind), before[file], after[file])
  }

  predicate AllRealChanges(changes: seq<Change>, before: Bundle, after: Bundle) {
    forall i :: 0 <= i < |changes| ==> RealChange(changes[i], before, after)
  }

  /** The bundle with what `after` has at the recorded place. */
  function ApplyChange(bundle: Bundle, change: Change, before: Bundle, after: Bundle): Bundle {
    var file := change.file;
    if change.kind.FileRemoved? then bundle - {file}
    else if file !in after then bundle
    else if change.kind.FileAdded? then bundle[file := after[file]]
    else if file !in before || file !in bundle then bundle
    else
      var path := PathOf(change, before[file], after[file]);
      bundle[file := SetAt(bundle[file], path, Resolve(after[file], path))]
  }

  function PatchBundle(bundle: Bundle, changes: seq<Change>, before: Bundle, after: Bundle): Bundle
    decreases |changes|
  {
    if changes == [] then bundle
    else PatchBundle(ApplyChange(bundle, changes[0], before, after), changes[1..], before, after)
  }

  lemma {:induction false} PatchBundleAppend(bundle: Bundle, a: seq<Change>, b: seq<Change>, before: Bundle, after: Bundle)
    ensures PatchBundle(bundle, a + b, before, after) == PatchBundle(PatchBundle(bundle, a, before, after), b, before, after)
    decreases |a|
  {
    if a == [] {
      assert a + b == b;
    } else {
      assert (a + b)[1..] == a[1..] + b;
      PatchBundleAppend(ApplyChange(bundle, a[0], before, after), a[1..], b, before, after);
    }
  }

  lemma {:induction false} PatchBundleOne(bundle: Bundle, change: Change, before: Bundle, after: Bundle)
    ensures PatchBundle(bundle, [change], before, after) == ApplyChange(bundle, change, before, after)
  {
    assert [change][1..] == [];
    assert PatchBundle(ApplyChange(bundle, change, before, after), [], before, after) == ApplyChange(bundle, change, before, after);
  }

  /** The records of one document patch that document as its entries do. */
  lemma {:induction false} PatchNamed(bundle: Bundle, name: Text, entries: seq<Entry>, before: Bundle, after: Bundle)
    requires name in bundle && name in before && name in after && AllReal(entries, before[name], after[name])
    ensures PatchBundle(bundle, NamedAll(name, [], entries), before, after)
         == bundle[name := Patch(bundle[name], after[name], entries)]
    decreases |entries|
  {
    if entries == [] {
      assert bundle[name := bundle[name]] == bundle;
    } else {
      var e, changes := entries[0], NamedAll(name, [], entries);
      assert Real(e, before[name], after[name]);
      RecordedPath(name, e, before[name], after[name]);
      var next := SetAt(bundle[name], e.path, Resolve(after[name], e.path));
      assert ApplyChange(bundle, changes[0], before, after) == bundle[name := next];
      assert changes[1..] == NamedAll(name, [], entries[1..]);
      PatchNamed(bundle[name := next], name, entries[1..], before, after);
      assert bundle[name := next][name := Patch(next, after[name], entries[1..])]
          == bundle[name := Patch(next, after[name], entries[1..])];
    }
  }

  lemma {:induction false} NamedReal(name: Text, entries: seq<Entry>, before: Bundle, after: Bundle)
    requires name in before && name in after && AllReal(entries, before[name], after[name])
    ensures AllRealChanges(NamedAll(name, [], entries), before, after)
  {
    var changes := NamedAll(name, [], entries);
    forall i | 0 <= i < |changes| ensures RealChange(changes[i], before, after) {
      assert Real(entries[i], before[name], after[name]);
      RecordedPath(name, entries[i], before[name], after[name]);
    }
  }

  lemma {:induction false} FileChangesReal(name: Text, baseline: map<Text, Json>, candidate: map<Text, Json>)
    requires AllWellFormed(baseline) && AllWellFormed(candidate) && (name in baseline || name in candidate)
    ensures AllRealChanges(FileChanges(name, baseline, candidate), Meanings(baseline), Meanings(candidate))
  {
    if name in baseline && name in candidate {
      DiffReal(baseline[name], candidate[name]);
      NamedReal(name, Diff(baseline[name], candidate[name]), Meanings(baseline), Meanings(candidate));
    }
  }

  lemma {:induction false} FileChangesPatch(name: Text, baseline: map<Text, Json>, candidate: map<Text, Json>, bundle: Bundle)
    requires AllWellFormed(baseline) && AllWellFormed(candidate) && (name in baseline || name in candidate)
    requires name in bundle <==> name in baseline
    requires name in bundle ==> bundle[name] == Meaning(baseline[name])
    ensures PatchBundle(bundle, FileChanges(name, baseline, candidate), Meanings(baseline), Meanings(candidate))
         == Merged(bundle, Meanings(candidate), {name})
  {
    var before, after := Meanings(baseline), Meanings(candidate);
    if name !in baseline {
      PatchBundleOne(bundle, Change(name, [SLASH], FileAdded), before, after);
      assert Merged(bundle, after, {name}) == bundle[name := after[name]];
    } else if name !in candidate {
      PatchBundleOne(bundle, Change(name, [SLASH], FileRemoved), before, after);
      assert Merged(bundle, after, {name}) == bundle - {name};
    } else {
      DiffReal(baseline[name], candidate[name]);
      PatchNamed(bundle, name, Diff(baseline[name], candidate[name]), before, after);
      DiffPatches(baseline[name], candidate[name]);
      assert Merged(bundle, after, {name}) == bundle[name := after[name]];
    }
  }

  lemma {:induction false} BundleChangesReal(names: seq<Text>, baseline: map<Text, Json>, candidate: map<Text, Json>)
    requires AllWellFormed(baseline) && AllWellFormed(candidate)
    requires forall n :: n in names ==> n in baseline || n in candidate
    ensures AllRealChanges(BundleChanges(names, baseline, candidate), Meanings(baseline), Meanings(candidate))
  {
    if names != [] {
      BundleChangesReal(names[..|names| - 1], baseline, candidate);
      FileChangesReal(names[|names| - 1], baseline, candidate);
    }
  }

  lemma {:induction false} LastFilePatches(rest: seq<Text>, last: Text, baseline: map<Text, Json>, candidate: map<Text, Json>)
    requires AllWellFormed(baseline) && AllWellFormed(candidate) && last !in rest && (last in baseline || last in candidate)
    ensures var before, after := Meanings(baseline), Meanings(candidate);
            PatchBundle(Merged(before, after, KeySet(rest)), FileChanges(last, baseline, candidate), before, after)
              == Merged(before, after, KeySet(rest) + {last})
  {
    var before, after := Meanings(baseline), Meanings(candidate);
    FileChangesPatch(last, baseline, candidate, Merged(before, after, KeySet(rest)));
    MergedTwice(before, after, KeySet(rest), {last});
  }

  lemma {:induction false} BundleChangesPatch(names: seq<Text>, baseline: map<Text, Json>, candidate: map<Text, Json>)
    requires AllWellFormed(baseline) && AllWellFormed(candidate) && DistinctKeys(names)
    requires forall n :: n in names ==> n in baseline || n in candidate
    ensures PatchBundle(Meanings(baseline), BundleChanges(names, baseline, candidate), Meanings(baseline), Meanings(candidate))
         == Merged(Meanings(baseline), Meanings(candidate), KeySet(names))
  {
    var before, after := Meanings(baseline), Meanings(candidate);
    if names == [] {
      assert Merged(before, after, KeySet(names)) == before;
    } else {
      var rest, last := names[..|names| - 1], names[|names| - 1];
      assert names == rest + [last];
      BundleChangesPatch(rest, baseline, candidate);
      LastFilePatches(rest, last, baseline, candidate);
      PatchBundleAppend(before, BundleChanges(rest, baseline, candidate), FileChanges(last, baseline, candidate), before, after);
      assert KeySet(names) == KeySet(rest) + {last};
    }
  }

  lemma {:induction false} MergedWhole(before: Bundle, after: Bundle, names: set<Text>)
    requires names == before.Keys + after.Keys
    ensures Merged(before, after, names) == after
  {
  }

  lemma NamesOfEither(baseline: seq<SchemaFile>, candidate: seq<SchemaFile>)
    ensures var names := BundleNames(baseline, candidate);
            && DistinctKeys(names) && KeySet(names) == ByName(baseline).Keys + ByName(candidate).Keys
            && forall n :: n in names ==> n in ByName(baseline) || n in ByName(candidate)
  {
    var names := BundleNames(baseline, candidate);
    BundleNamesAre(baseline, candidate);
    SortedIsDistinct(names);
    forall n | n in names ensures n in ByName(baseline) || n in ByName(candidate) {
      assert n in KeySet(names);
    }
  }

  /**
   The full list of changes, read by someone who holds both bundles: file and pointer of each name a
   real addition, removal or change, and taking them over turns the baseline into the candidate.
   */
  lemma {:induction false} ChangesReadBack(baselineFiles: seq<SchemaFile>, candidateFiles: seq<SchemaFile>)
    requires AllWellFormed(ByName(baselineFiles)) && AllWellFormed(ByName(candidateFiles))
    ensures var before, after := Meanings(ByName(baselineFiles)), Meanings(ByName(candidateFiles));
            var full := BundleChanges(BundleNames(baselineFiles, candidateFiles), ByName(baselineFiles), ByName(candidateFiles));
            AllRealChanges(full, before, after) && PatchBundle(before, full, before, after) == after
  {
    var baseline, candidate := ByName(baselineFiles), ByName(candidateFiles);
    var names := BundleNames(baselineFiles, candidateFiles);
    NamesOfEither(baselineFiles, candidateFiles);
    BundleChangesReal(names, baseline, candidate);
    BundleChangesPatch(names, baseline, candidate);
    MergedWhole(Meanings(baseline), Meanings(candidate), KeySet(names));
  }

  // ---------------------------------------------------------------- the comparison

  /** The bounded comparison lists the first differences of the full list, and says when it may have cut it. */
  method CompareSchemaBundles(baselineFiles: seq<SchemaFile>, candidateFiles: seq<SchemaFile>, max: int)
    returns (changes: seq<Change>, truncated: bool)
    ensures var full := BundleChanges(BundleNames(baselineFiles, candidateFiles), ByName(baselineFiles), ByName(candidateFiles));
            && changes == (if max <= 0 then [] else if |full| <= max then full else full[..max])
            && (truncated <==> |full| >= max)
    ensures AllWellFormed(ByName(baselineFiles)) && AllWellFormed(ByName(candidateFiles)) ==>
              var before, after := Meanings(ByName(baselineFiles)), Meanings(ByName(candidateFiles));
              && AllRealChanges(changes, before, after)
              && (!truncated ==> PatchBundle(before, changes, before, after) == after)
  {
    var baseline, candidate := ByName(baselineFiles), ByName(candidateFiles);
    var output := new Output();
    var names := BundleNames(baselineFiles, candidateFiles);
    var i := 0;
    while i < |names|
      invariant 0 <= i <= |names| && fresh(output)
      invariant output.changes == Extended([], BundleChanges(names[..i], baseline, candidate), max)
    {
      if |output.changes| >= max {
        BundlePrefix(names, i, baseline, candidate, max);
        break;
      }
      CompareFile(names[i], baseline, candidate, output, max);
      BundleStep(names, i, baseline, candidate, max);
      i := i + 1;
    }
    if i == |names| { assert names[..i] == names; }
    changes, truncated := output.changes, |output.changes| >= max;
    ExtendedEmpty(BundleChanges(names, baseline, candidate), max);
    if AllWellFormed(baseline) && AllWellFormed(candidate) {
      ChangesReadBack(baselineFiles, candidateFiles);
    }
  }

  /** The body of the loop over file names. */
  method CompareFile(name: Text, baseline: map<Text, Json>, candidate: map<Text, Json>, output: Output, max: int)
    requires |output.changes| < max
    modifies output
    ensures output.changes == Extended(old(output.changes), FileChanges(name, baseline, candidate), max)
  {
    if name !in baseline {
      output.changes := output.changes + [Change(name, [SLASH], FileAdded)];
    } else if name !in candidate {
      output.changes := output.changes + [Change(name, [SLASH], FileRemoved)];
    } else {
      DiffValue(baseline[name], candidate[name], name, [], output, max);
    }
  }

  lemma BundleStep(names: seq<Text>, i: nat, baseline: map<Text, Json>, candidate: map<Text, Json>, max: int)
    requires i < |names|
    ensures Extended(Extended([], BundleChanges(names[..i], baseline, candidate), max),
                     FileChanges(names[i], baseline, candidate), max)
         == Extended([], BundleChanges(names[..i + 1], baseline, candidate), max)
  {
    assert names[..i + 1][..i] == names[..i];
    ExtendedTwice([], BundleChanges(names[..i], baseline, candidate), FileChanges(names[i], baseline, candidate), max);
  }

  lemma ExtendedEmpty(full: seq<Change>, max: int)
    ensures Extended([], full, max) == if max <= 0 then [] else if |full| <= max then full else full[..max]
  {
    assert [] + full == full;
  }

  predicate SameFile(name: Text, baseline: map<Text, Json>, candidate: map<Text, Json>) {
    name in baseline && name in candidate && Meaning(baseline[name]) == Meaning(candidate[name])
  }

  lemma {:induction false} BundleChangesEmptyIff(names: seq<Text>, baseline: map<Text, Json>, candidate: map<Text, Json>)
    requires forall n :: n in names && n in baseline ==> WellFormed(baseline[n])
    requires forall n :: n in names && n in candidate ==> WellFormed(candidate[n])
    ensures BundleChanges(names, baseline, candidate) == [] <==> forall n :: n in names ==> SameFile(n, baseline, candidate)
  {
    if names != [] {
      var rest, last := names[..|names| - 1], names[|names| - 1];
      assert names == rest + [last];
      BundleChangesEmptyIff(rest, baseline, candidate);
      assert last in names;
      if last in baseline && last in candidate {
        DiffEmptyIff(baseline[last], candidate[last]);
        assert |FileChanges(last, baseline, candidate)| == |Diff(baseline[last], candidate[last])|;
      }
      assert FileChanges(last, baseline, candidate) == [] <==> SameFile(last, baseline, candidate);
      assert BundleChanges(names, baseline, candidate)
          == BundleChanges(rest, baseline, candidate) + FileChanges(last, baseline, candidate);
      assert forall n :: n in names <==> n in rest || n == last;
    }
  }

  /** The comparison finds nothing exactly when both bundles hold the same files, equal up to key order. */
  lemma BundlesEqualIff(baseline: seq<SchemaFile>, candidate: seq<SchemaFile>)
    requires forall n :: n in ByName(baseline) ==> WellFormed(ByName(baseline)[n])
    requires forall n :: n in ByName(candidate) ==> WellFormed(ByName(candidate)[n])
    ensures BundleChanges(BundleNames(baseline, candidate), ByName(baseline), ByName(candidate)) == []
       <==> forall n :: n in ByName(baseline).Keys + ByName(candidate).Keys ==> SameFile(n, ByName(baseline), ByName(candidate))
  {
    var names := BundleNames(baseline, candidate);
    BundleNamesAre(baseline, candidate);
    BundleChangesEmptyIff(names, ByName(baseline), ByName(candidate));
    assert forall n :: n in names <==> n in KeySet(names);
  }
}
