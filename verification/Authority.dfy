/**
 Effective authority: what is requested, configured and granted, met component by component. A
 component is a set of scope values, a mode in a four-point partial order per execution surface,
 a numeric bound where null means unbounded, or a set of permitted transitions.
 */
module Authority {
  import opened Text
  import opened Common
  import LineFraming

  // ---- Lists of values ----

  function Trimmed(values: seq<Text>): seq<Text> {
    if values == [] then []
    else (if LineFraming.Trim(values[0]) == [] then [] else [LineFraming.Trim(values[0])]) + Trimmed(values[1..])
  }

  function Unique(values: seq<Text>): seq<Text> {
    if values == [] then []
    else
      var n := |values| - 1;
      if values[n] in values[..n] then Unique(values[..n]) else Unique(values[..n]) + [values[n]]
  }

  function UniqueSorted(values: seq<Text>): seq<Text> {
    SortKeys(Unique(Trimmed(values)))
  }

  /** What a list of values means: the trimmed texts in it that are not blank. */
  function Meaning(values: seq<Text>): set<Text> {
    (set v | v in values :: LineFraming.Trim(v)) - {[]}
  }

  lemma {:induction false} TrimmedHolds(values: seq<Text>)
    ensures KeySet(Trimmed(values)) == Meaning(values)
  {
    if values != [] {
      TrimmedHolds(values[1..]);
      assert values == [values[0]] + values[1..];
      assert forall k :: k in Trimmed(values) <==> k in Trimmed(values[1..]) || (k != [] && k == LineFraming.Trim(values[0]));
      assert forall k :: k in Meaning(values) <==> k in Meaning(values[1..]) || (k != [] && k == LineFraming.Trim(values[0]));
    }
  }

  lemma {:induction false} UniqueHolds(values: seq<Text>)
    ensures Distinct(Unique(values)) && KeySet(Unique(values)) == KeySet(values)
  {
    if values != [] {
      var n := |values| - 1;
      UniqueHolds(values[..n]);
      assert values == values[..n] + [values[n]];
      forall k
        ensures k in Unique(values[..n]) <==> k in values[..n]
        ensures k in Unique(values) <==> k in values
      {
        assert k in KeySet(Unique(values[..n])) <==> k in KeySet(values[..n]);
      }
    }
  }

  /** The canonical list of a set of values: strictly increasing, with exactly those values. */
  lemma UniqueSortedIsCanonical(values: seq<Text>)
    ensures Sorted(UniqueSorted(values)) && KeySet(UniqueSorted(values)) == Meaning(values)
  {
    TrimmedHolds(values);
    UniqueHolds(Trimmed(values));
    SortKeysSorts(Unique(Trimmed(values)));
  }

  /** Two lists are normalised alike exactly when they mean the same: order and repetition do not count. */
  lemma UniqueSortedIff(a: seq<Text>, b: seq<Text>)
    ensures UniqueSorted(a) == UniqueSorted(b) <==> Meaning(a) == Meaning(b)
  {
    UniqueSortedIsCanonical(a);
    UniqueSortedIsCanonical(b);
    if Meaning(a) == Meaning(b) {
      SortedUnique(UniqueSorted(a), UniqueSorted(b));
    }
  }

  lemma TrimIsDone(t: Text)
    ensures LineFraming.Trim(LineFraming.Trim(t)) == LineFraming.Trim(t)
  {
    var lead, trail := LineFraming.TrimSplits(t);
  }

  /** Values of a normalised list are their own trimmed form. */
  lemma MeaningIsTrimmed(values: seq<Text>, some: seq<Text>)
    requires KeySet(some) <= Meaning(values)
    ensures Meaning(some) == KeySet(some)
  {
    forall v | v in some
      ensures LineFraming.Trim(v) == v && v != []
    {
      assert v in KeySet(some);
      var w :| w in values && LineFraming.Trim(w) == v;
      TrimIsDone(w);
    }
  }

  // ---- Scopes ----

  datatype Dimension = Capabilities | Actions | Resources | Environments | DataClasses

  const DIMENSIONS := [Capabilities, Actions, Resources, Environments, DataClasses]

  /** The lists of a scope, one per dimension. */
  type Scope = Dimension -> seq<Text>

  function NormalizeScope(s: Scope): Scope {
    d => UniqueSorted(s(d))
  }

  predicate InAll(v: Text, lists: seq<seq<Text>>) {
    forall i :: 0 <= i < |lists| ==> v in lists[i]
  }

  function Kept(first: seq<Text>, rest: seq<seq<Text>>): seq<Text> {
    if first == [] then []
    else (if InAll(first[0], rest) then [first[0]] else []) + Kept(first[1..], rest)
  }

  function IntersectLists(lists: seq<seq<Text>>): seq<Text> {
    if lists == [] then [] else UniqueSorted(Kept(lists[0], lists[1..]))
  }

  lemma {:induction false} KeptHolds(first: seq<Text>, rest: seq<seq<Text>>)
    ensures forall v :: v in Kept(first, rest) <==> v in first && InAll(v, rest)
  {
    if first != [] {
      KeptHolds(first[1..], rest);
      assert first == [first[0]] + first[1..];
      assert forall v :: v in first <==> v == first[0] || v in first[1..];
    }
  }

  /** A list as `uniqueSorted` leaves it. */
  predicate IsCanonical(values: seq<Text>) {
    Sorted(values) && Meaning(values) == KeySet(values)
  }

  lemma NormalizedIsCanonical(values: seq<Text>)
    ensures IsCanonical(UniqueSorted(values))
  {
    UniqueSortedIsCanonical(values);
    MeaningIsTrimmed(values, UniqueSorted(values));
  }

  /** Intersecting canonical lists keeps exactly the values that all of them have, in canonical order. */
  lemma ListsMeet(lists: seq<seq<Text>>)
    requires lists != [] && IsCanonical(lists[0])
    ensures IsCanonical(IntersectLists(lists))
    ensures forall v :: v in IntersectLists(lists) <==> v in lists[0] && InAll(v, lists[1..])
  {
    var kept := Kept(lists[0], lists[1..]);
    KeptHolds(lists[0], lists[1..]);
    assert KeySet(kept) <= Meaning(lists[0]) by {
      assert forall v :: v in kept ==> v in KeySet(lists[0]);
    }
    MeaningIsTrimmed(lists[0], kept);
    UniqueSortedIsCanonical(kept);
    NormalizedIsCanonical(kept);
    assert forall v :: v in UniqueSorted(kept) <==> v in KeySet(UniqueSorted(kept));
    assert forall v :: v in kept <==> v in KeySet(kept);
  }

  // ---- Surface modes ----

  datatype Surface =
    | RepositoryFileEdit | LocalShell | McpApi | UiComputerUse | GeneralDesktopComputerUse
    | ExternalBrowser | ConnectedAppRead | ConnectedAppMutation | RemoteDevice | PlaywrightRegistered

  const SURFACES := [
    RepositoryFileEdit, LocalShell, McpApi, UiComputerUse, GeneralDesktopComputerUse,
    ExternalBrowser, ConnectedAppRead, ConnectedAppMutation, RemoteDevice, PlaywrightRegistered]

  datatype Mode = Deny | ExplicitApproval | ReadOnly | Allow

  function Restrictiveness(m: Mode): nat {
    match m
    case Deny => 0
    case ExplicitApproval => 1
    case ReadOnly => 2
    case Allow => 3
  }

  /** The order of permission: reading and asking for approval are not comparable. */
  predicate ModeAtMost(a: Mode, b: Mode) {
    a == b || a == Deny || b == Allow
  }

  /** A reason given by a layer, or one of the fixed texts. */
  datatype Reason = Given(text: string) | LayerDenies | NotRepresentable | SurfaceDenied

  datatype Entry = Entry(surface: Surface, mode: Mode, reason: Option<Reason>)

  function MostRestrictive(entries: seq<Entry>): Entry
    requires entries != []
  {
    var n := |entries| - 1;
    if n == 0 then entries[0]
    else
      var selected := MostRestrictive(entries[..n]);
      if Restrictiveness(entries[n].mode) < Restrictiveness(selected.mode) then entries[n] else selected
  }

  predicate HasMode(entries: seq<Entry>, m: Mode) {
    exists i :: 0 <= i < |entries| && entries[i].mode == m
  }

  function FirstDenial(entries: seq<Entry>): Option<Reason> {
    if entries == [] then None
    else if entries[0].mode == Deny then entries[0].reason
    else FirstDenial(entries[1..])
  }

  function CombineSurfaceEntries(entries: seq<Entry>): Entry
    requires entries != []
  {
    if HasMode(entries, Deny) then
      Entry(entries[0].surface, Deny, Some(FirstDenial(entries).GetOr(LayerDenies)))
    else if HasMode(entries, ReadOnly) && HasMode(entries, ExplicitApproval) then
      Entry(entries[0].surface, Deny, Some(NotRepresentable))
    else MostRestrictive(entries)
  }

  lemma {:induction false} MostRestrictiveIsLeast(entries: seq<Entry>)
    requires entries != []
    ensures MostRestrictive(entries) in entries
    ensures forall i :: 0 <= i < |entries| ==> Restrictiveness(MostRestrictive(entries).mode) <= Restrictiveness(entries[i].mode)
  {
    var n := |entries| - 1;
    if n > 0 {
      MostRestrictiveIsLeast(entries[..n]);
      assert forall i :: 0 <= i < n ==> entries[..n][i] == entries[i];
    }
  }

  predicate IsLowerBound(m: Mode, entries: seq<Entry>) {
    forall i :: 0 <= i < |entries| ==> ModeAtMost(m, entries[i].mode)
  }

  lemma CombineIsLowerBound(entries: seq<Entry>)
    requires entries != []
    ensures IsLowerBound(CombineSurfaceEntries(entries).mode, entries)
  {
    MostRestrictiveIsLeast(entries);
    var mode := CombineSurfaceEntries(entries).mode;
    if mode != Deny {
      var k :| 0 <= k < |entries| && entries[k] == MostRestrictive(entries);
      forall i | 0 <= i < |entries|
        ensures ModeAtMost(mode, entries[i].mode)
      {
        assert mode == ReadOnly ==> entries[i].mode != ExplicitApproval;
        assert mode == ExplicitApproval ==> entries[i].mode != ReadOnly;
      }
    }
  }

  lemma BelowEachMode(m: Mode, entries: seq<Entry>, k: Mode)
    requires IsLowerBound(m, entries) && HasMode(entries, k)
    ensures ModeAtMost(m, k)
  {
    var i :| 0 <= i < |entries| && entries[i].mode == k;
    assert ModeAtMost(m, entries[i].mode);
  }

  lemma CombineIsGreatest(entries: seq<Entry>, m: Mode)
    requires entries != [] && IsLowerBound(m, entries)
    ensures ModeAtMost(m, CombineSurfaceEntries(entries).mode)
  {
    if HasMode(entries, Deny) {
      BelowEachMode(m, entries, Deny);
    } else if HasMode(entries, ReadOnly) && HasMode(entries, ExplicitApproval) {
      BelowEachMode(m, entries, ReadOnly);
      BelowEachMode(m, entries, ExplicitApproval);
    } else {
      var mode := LeastMode(entries);
      BelowEachMode(m, entries, mode);
    }
  }

  lemma LeastMode(entries: seq<Entry>) returns (mode: Mode)
    requires entries != []
    ensures mode == MostRestrictive(entries).mode && HasMode(entries, mode)
  {
    MostRestrictiveIsLeast(entries);
    mode := MostRestrictive(entries).mode;
  }

  /** Combining layers gives their greatest lower bound, so READ_ONLY meets EXPLICIT_APPROVAL_REQUIRED at DENY. */
  lemma CombineIsMeet(entries: seq<Entry>, m: Mode)
    requires entries != []
    ensures IsLowerBound(m, entries) <==> ModeAtMost(m, CombineSurfaceEntries(entries).mode)
  {
    CombineIsLowerBound(entries);
    if IsLowerBound(m, entries) {
      CombineIsGreatest(entries, m);
    } else if ModeAtMost(m, CombineSurfaceEntries(entries).mode) {
      BelowIsTransitive(m, CombineSurfaceEntries(entries).mode, entries);
    }
  }

  lemma BelowIsTransitive(m: Mode, k: Mode, entries: seq<Entry>)
    requires ModeAtMost(m, k) && IsLowerBound(k, entries)
    ensures IsLowerBound(m, entries)
  {
    forall i | 0 <= i < |entries|
      ensures ModeAtMost(m, entries[i].mode)
    {
      assert ModeAtMost(k, entries[i].mode);
    }
  }

  // ---- Bounds ----

  datatype RawBound = MissingBound | IntegerBound(value: int) | InvalidBound

  /** `None` is unbounded; an invalid value must not become that. */
  function NormalizeBound(raw: RawBound): Option<nat> {
    match raw
    case MissingBound => None
    case IntegerBound(value) => Some(if value >= 0 then value else 0)
    case InvalidBound => Some(0)
  }

  predicate BoundAtMost(a: Option<nat>, b: Option<nat>) {
    b.None? || (a.Some? && a.value <= b.value)
  }

  /** The minimum of the layers that set a bound. */
  function MeetBounds(bounds: seq<Option<nat>>): Option<nat> {
    if bounds == [] then None
    else
      var rest := MeetBounds(bounds[1..]);
      if bounds[0].None? then rest
      else if rest.None? then bounds[0]
      else Some(if bounds[0].value < rest.value then bounds[0].value else rest.value)
  }

  lemma {:induction false} BoundIsMeet(bounds: seq<Option<nat>>)
    ensures forall i :: 0 <= i < |bounds| ==> BoundAtMost(MeetBounds(bounds), bounds[i])
    ensures forall b :: (forall i :: 0 <= i < |bounds| ==> BoundAtMost(b, bounds[i])) ==> BoundAtMost(b, MeetBounds(bounds))
  {
    if bounds != [] {
      BoundIsMeet(bounds[1..]);
      assert forall i :: 1 <= i < |bounds| ==> bounds[i] == bounds[1..][i - 1];
      forall b | forall i :: 0 <= i < |bounds| ==> BoundAtMost(b, bounds[i])
        ensures BoundAtMost(b, MeetBounds(bounds))
      {
        assert BoundAtMost(b, bounds[0]);
        assert forall i :: 0 <= i < |bounds| - 1 ==> BoundAtMost(b, bounds[1..][i]) by {
          assert forall i :: 0 <= i < |bounds| - 1 ==> bounds[1..][i] == bounds[i + 1];
        }
        assert BoundAtMost(b, MeetBounds(bounds[1..]));
      }
    }
  }

  // ---- Layers and the snapshot ----

  datatype BoundKind = MaxDuration | MaxChildren | MaxConcurrentChildren

  const BOUND_KINDS := [MaxDuration, MaxChildren, MaxConcurrentChildren]

  datatype Bounds<T> = Bounds(duration: T, children: T, concurrent: T) {
    function At(k: BoundKind): T {
      match k
      case MaxDuration => duration
      case MaxChildren => children
      case MaxConcurrentChildren => concurrent
    }
  }

  /** Configuration entries; an unknown surface or mode is `None`. */
  datatype RawEntry = RawEntry(surface: Option<Surface>, mode: Option<Mode>, reason: Option<string>)

  datatype RawTransition = RawTransition(origin: Option<Surface>, target: Option<Surface>, reason: Option<string>)

  datatype Transition = Transition(origin: Surface, target: Surface, reason: Option<string>)

  datatype Layer = Layer(scope: Scope, entries: seq<RawEntry>, transitions: seq<RawTransition>, bounds: Bounds<RawBound>)

  /** Later entries for a surface override earlier ones; unmentioned surfaces and unknown modes are denied. */
  function EntryFor(entries: seq<RawEntry>, surface: Surface): Entry {
    if entries == [] then Entry(surface, Deny, None)
    else
      var e := entries[|entries| - 1];
      if e.surface != Some(surface) then EntryFor(entries[..|entries| - 1], surface)
      else Entry(surface, e.mode.GetOr(Deny), if e.reason.Some? && e.reason.value != "" then Some(Given(e.reason.value)) else None)
  }

  function SurfaceEntries(entries: seq<RawEntry>): seq<Entry> {
    seq(|SURFACES|, i requires 0 <= i < |SURFACES| => EntryFor(entries, SURFACES[i]))
  }

  predicate Permits(transitions: seq<Transition>, origin: Surface, target: Surface) {
    transitions != [] &&
    ((transitions[0].origin == origin && transitions[0].target == target) || Permits(transitions[1..], origin, target))
  }

  /** Known surfaces only, the first transition of a pair winning. */
  function NormalizeTransitions(raw: seq<RawTransition>): seq<Transition> {
    if raw == [] then []
    else
      var before := NormalizeTransitions(raw[..|raw| - 1]);
      var t := raw[|raw| - 1];
      if t.origin.None? || t.target.None? || Permits(before, t.origin.value, t.target.value) then before
      else before + [Transition(t.origin.value, t.target.value, t.reason)]
  }

  function Index(s: Surface): (i: nat)
    ensures i < |SURFACES| && SURFACES[i] == s
  {
    match s
    case RepositoryFileEdit => 0
    case LocalShell => 1
    case McpApi => 2
    case UiComputerUse => 3
    case GeneralDesktopComputerUse => 4
    case ExternalBrowser => 5
    case ConnectedAppRead => 6
    case ConnectedAppMutation => 7
    case RemoteDevice => 8
    case PlaywrightRegistered => 9
  }

  // ---- Authority: a normalised layer, and the intersection of three ----

  datatype Authority = Authority(
    scope: Scope, entry: Surface -> Entry, bound: BoundKind -> Option<nat>, transitions: seq<Transition>)

  function Normalize(l: Layer): Authority {
    Authority(NormalizeScope(l.scope), s => EntryFor(l.entries, s), k => NormalizeBound(l.bounds.At(k)), NormalizeTransitions(l.transitions))
  }

  ghost predicate CanonicalScopes(a: Authority) {
    forall d :: IsCanonical(a.scope(d))
  }

  function Retained(first: seq<Transition>, keeps: (Surface, Surface) -> bool): seq<Transition> {
    if first == [] then []
    else (if keeps(first[0].origin, first[0].target) then [first[0]] else []) + Retained(first[1..], keeps)
  }

  /** The other layers list a transition and its ends are not denied. */
  function Keeps(second: seq<Transition>, third: seq<Transition>, effective: Surface -> Entry): (Surface, Surface) -> bool {
    (f, t) => Permits(second, f, t) && Permits(third, f, t) && effective(f).mode != Deny && effective(t).mode != Deny
  }

  function Combined(a: Authority, b: Authority, c: Authority): Surface -> Entry {
    s => CombineSurfaceEntries([a.entry(s), b.entry(s), c.entry(s)])
  }

  function Intersect(a: Authority, b: Authority, c: Authority): Authority {
    Authority(
      d => IntersectLists([a.scope(d), b.scope(d), c.scope(d)]),
      Combined(a, b, c),
      k => MeetBounds([a.bound(k), b.bound(k), c.bound(k)]),
      Retained(a.transitions, Keeps(b.transitions, c.transitions, Combined(a, b, c))))
  }

  // ---- The order of authority ----

  ghost predicate ScopesAtMost(p: Authority, q: Authority) {
    forall d, v :: v in p.scope(d) ==> v in q.scope(d)
  }

  ghost predicate ModesAtMost(p: Authority, q: Authority) {
    forall s :: ModeAtMost(p.entry(s).mode, q.entry(s).mode)
  }

  ghost predicate BoundsAtMost(p: Authority, q: Authority) {
    forall k :: BoundAtMost(p.bound(k), q.bound(k))
  }

  ghost predicate TransitionsAtMost(p: Authority, q: Authority) {
    forall f, t :: Permits(p.transitions, f, t) ==> Permits(q.transitions, f, t)
  }

  /** What an authority permits, apart from the order of lists and the wording of reasons. */
  ghost predicate AtMost(p: Authority, q: Authority) {
    ScopesAtMost(p, q) && ModesAtMost(p, q) && BoundsAtMost(p, q) && TransitionsAtMost(p, q)
  }

  /** No transition from or to a denied surface. */
  ghost predicate Coherent(p: Authority) {
    forall f, t :: Permits(p.transitions, f, t) ==> p.entry(f).mode != Deny && p.entry(t).mode != Deny
  }

  lemma {:induction false} RetainedPermits(first: seq<Transition>, keeps: (Surface, Surface) -> bool, f: Surface, t: Surface)
    ensures Permits(Retained(first, keeps), f, t) <==> Permits(first, f, t) && keeps(f, t)
  {
    if first != [] {
      var rest := Retained(first[1..], keeps);
      RetainedPermits(first[1..], keeps, f, t);
      assert keeps(first[0].origin, first[0].target) ==> ([first[0]] + rest)[1..] == rest;
      assert [] + rest == rest;
    }
  }

  // ---- The intersection is the meet ----

  ghost predicate ScopesMeet(e: Authority, a: Authority, b: Authority, c: Authority) {
    forall d, v :: v in e.scope(d) <==> v in a.scope(d) && v in b.scope(d) && v in c.scope(d)
  }

  ghost predicate ModesMeet(e: Authority, a: Authority, b: Authority, c: Authority) {
    forall s, m :: ModeAtMost(m, e.entry(s).mode) <==>
                     ModeAtMost(m, a.entry(s).mode) && ModeAtMost(m, b.entry(s).mode) && ModeAtMost(m, c.entry(s).mode)
  }

  ghost predicate BoundsMeet(e: Authority, a: Authority, b: Authority, c: Authority) {
    forall k, n :: BoundAtMost(n, e.bound(k)) <==>
                     BoundAtMost(n, a.bound(k)) && BoundAtMost(n, b.bound(k)) && BoundAtMost(n, c.bound(k))
  }

  ghost predicate TransitionsMeet(e: Authority, a: Authority, b: Authority, c: Authority) {
    forall f, t :: Permits(e.transitions, f, t) <==>
                     && Permits(a.transitions, f, t) && Permits(b.transitions, f, t) && Permits(c.transitions, f, t)
                     && e.entry(f).mode != Deny && e.entry(t).mode != Deny
  }

  ghost predicate Meets(e: Authority, a: Authority, b: Authority, c: Authority) {
    ScopesMeet(e, a, b, c) && ModesMeet(e, a, b, c) && BoundsMeet(e, a, b, c) && TransitionsMeet(e, a, b, c)
  }

  lemma IntersectedScopes(a: Authority, b: Authority, c: Authority)
    requires CanonicalScopes(a)
    ensures ScopesMeet(Intersect(a, b, c), a, b, c) && CanonicalScopes(Intersect(a, b, c))
  {
    forall d
      ensures IsCanonical(Intersect(a, b, c).scope(d))
      ensures forall v :: v in Intersect(a, b, c).scope(d) <==> v in a.scope(d) && v in b.scope(d) && v in c.scope(d)
    {
      var lists := [a.scope(d), b.scope(d), c.scope(d)];
      var others := [b.scope(d), c.scope(d)];
      assert lists[1..] == others;
      ListsMeet(lists);
      assert forall v :: InAll(v, others) <==> v in others[0] && v in others[1];
    }
  }

  lemma IntersectedModes(a: Authority, b: Authority, c: Authority)
    ensures ModesMeet(Intersect(a, b, c), a, b, c)
  {
    forall s, m
      ensures ModeAtMost(m, Intersect(a, b, c).entry(s).mode) <==>
                ModeAtMost(m, a.entry(s).mode) && ModeAtMost(m, b.entry(s).mode) && ModeAtMost(m, c.entry(s).mode)
    {
      var entries := [a.entry(s), b.entry(s), c.entry(s)];
      CombineIsMeet(entries, m);
      assert IsLowerBound(m, entries) <==>
               ModeAtMost(m, entries[0].mode) && ModeAtMost(m, entries[1].mode) && ModeAtMost(m, entries[2].mode);
    }
  }

  lemma IntersectedBounds(a: Authority, b: Authority, c: Authority)
    ensures BoundsMeet(Intersect(a, b, c), a, b, c)
  {
    forall k, n
      ensures BoundAtMost(n, Intersect(a, b, c).bound(k)) <==>
                BoundAtMost(n, a.bound(k)) && BoundAtMost(n, b.bound(k)) && BoundAtMost(n, c.bound(k))
    {
      var bounds := [a.bound(k), b.bound(k), c.bound(k)];
      BoundIsMeet(bounds);
      assert BoundAtMost(MeetBounds(bounds), bounds[0]) && BoundAtMost(MeetBounds(bounds), bounds[1])
          && BoundAtMost(MeetBounds(bounds), bounds[2]);
    }
  }

  lemma IntersectedTransitions(a: Authority, b: Authority, c: Authority)
    ensures TransitionsMeet(Intersect(a, b, c), a, b, c)
  {
    forall f, t { RetainedPermits(a.transitions, Keeps(b.transitions, c.transitions, Combined(a, b, c)), f, t); }
  }

  lemma IntersectMeets(a: Authority, b: Authority, c: Authority)
    requires CanonicalScopes(a)
    ensures Meets(Intersect(a, b, c), a, b, c)
  {
    IntersectedScopes(a, b, c);
    IntersectedModes(a, b, c);
    IntersectedBounds(a, b, c);
    IntersectedTransitions(a, b, c);
  }

  lemma MeetIsLower(e: Authority, a: Authority, b: Authority, c: Authority)
    requires Meets(e, a, b, c)
    ensures Coherent(e) && AtMost(e, a) && AtMost(e, b) && AtMost(e, c)
  {
    forall s
      ensures ModeAtMost(e.entry(s).mode, a.entry(s).mode) && ModeAtMost(e.entry(s).mode, b.entry(s).mode)
              && ModeAtMost(e.entry(s).mode, c.entry(s).mode)
    {
      assert ModeAtMost(e.entry(s).mode, e.entry(s).mode);
    }
    forall k
      ensures BoundAtMost(e.bound(k), a.bound(k)) && BoundAtMost(e.bound(k), b.bound(k)) && BoundAtMost(e.bound(k), c.bound(k))
    {
      assert BoundAtMost(e.bound(k), e.bound(k));
    }
  }

  lemma MeetIsGreatest(e: Authority, a: Authority, b: Authority, c: Authority, p: Authority)
    requires Meets(e, a, b, c) && Coherent(p) && AtMost(p, a) && AtMost(p, b) && AtMost(p, c)
    ensures AtMost(p, e)
  {
    forall s
      ensures ModeAtMost(p.entry(s).mode, e.entry(s).mode)
    {
      assert ModeAtMost(p.entry(s).mode, a.entry(s).mode) && ModeAtMost(p.entry(s).mode, b.entry(s).mode)
          && ModeAtMost(p.entry(s).mode, c.entry(s).mode);
    }
    forall f, t | Permits(p.transitions, f, t)
      ensures Permits(e.transitions, f, t)
    {
      assert p.entry(f).mode != Deny && p.entry(t).mode != Deny;
      assert ModeAtMost(p.entry(f).mode, e.entry(f).mode) && ModeAtMost(p.entry(t).mode, e.entry(t).mode);
    }
  }

  /**
   Effective authority is the meet of its layers: it is coherent, exceeds none of them, and every
   coherent authority that exceeds none of them does not exceed it.
   */
  lemma EffectiveIsMeet(a: Authority, b: Authority, c: Authority, p: Authority)
    requires CanonicalScopes(a)
    ensures Coherent(Intersect(a, b, c))
    ensures AtMost(Intersect(a, b, c), a) && AtMost(Intersect(a, b, c), b) && AtMost(Intersect(a, b, c), c)
    ensures Coherent(p) && AtMost(p, a) && AtMost(p, b) && AtMost(p, c) ==> AtMost(p, Intersect(a, b, c))
  {
    IntersectMeets(a, b, c);
    MeetIsLower(Intersect(a, b, c), a, b, c);
    if Coherent(p) && AtMost(p, a) && AtMost(p, b) && AtMost(p, c) {
      MeetIsGreatest(Intersect(a, b, c), a, b, c, p);
    }
  }

  lemma AtMostIsTransitive(p: Authority, q: Authority, r: Authority)
    requires AtMost(p, q) && AtMost(q, r)
    ensures AtMost(p, r)
  {
    forall s
      ensures ModeAtMost(p.entry(s).mode, r.entry(s).mode)
    {
      assert ModeAtMost(p.entry(s).mode, q.entry(s).mode) && ModeAtMost(q.entry(s).mode, r.entry(s).mode);
    }
    forall k
      ensures BoundAtMost(p.bound(k), r.bound(k))
    {
      assert BoundAtMost(p.bound(k), q.bound(k)) && BoundAtMost(q.bound(k), r.bound(k));
    }
  }

  lemma MeetIsMonotone(e: Authority, a: Authority, b: Authority, c: Authority,
                       e': Authority, a': Authority, b': Authority, c': Authority)
    requires Meets(e, a, b, c) && Meets(e', a', b', c')
    requires AtMost(a, a') && AtMost(b, b') && AtMost(c, c')
    ensures AtMost(e, e')
  {
    MeetIsLower(e, a, b, c);
    AtMostIsTransitive(e, a, a');
    AtMostIsTransitive(e, b, b');
    AtMostIsTransitive(e, c, c');
    MeetIsGreatest(e', a', b', c', e);
  }

  /** Shrinking layers never broadens the result. */
  lemma ShrinkingNeverBroadens(a: Authority, b: Authority, c: Authority, a': Authority, b': Authority, c': Authority)
    requires CanonicalScopes(a) && CanonicalScopes(a')
    requires AtMost(a, a') && AtMost(b, b') && AtMost(c, c')
    ensures AtMost(Intersect(a, b, c), Intersect(a', b', c'))
  {
    IntersectMeets(a, b, c);
    IntersectMeets(a', b', c');
    MeetIsMonotone(Intersect(a, b, c), a, b, c, Intersect(a', b', c'), a', b', c');
  }

  /** Normalised layers are canonical, and depend on a scope list only through the values it means. */
  lemma NormalizeIsCanonical(l: Layer)
    ensures CanonicalScopes(Normalize(l))
    ensures forall d, v :: v in Normalize(l).scope(d) <==> v in Meaning(l.scope(d))
  {
    forall d
      ensures IsCanonical(Normalize(l).scope(d))
      ensures forall v :: v in Normalize(l).scope(d) <==> v in Meaning(l.scope(d))
    {
      NormalizedIsCanonical(l.scope(d));
      UniqueSortedIsCanonical(l.scope(d));
      assert forall v :: v in UniqueSorted(l.scope(d)) <==> v in KeySet(UniqueSorted(l.scope(d)));
    }
  }

  /**
   The evaluation of three raw layers: its scopes hold exactly the values that all three mean, and it
   is the greatest coherent authority that exceeds none of the three once normalised.
   */
  lemma EvaluationIsMeet(r: Layer, c: Layer, g: Layer, p: Authority)
    ensures var e := Intersect(Normalize(r), Normalize(c), Normalize(g));
            && (forall d, v :: v in e.scope(d) <==> v in Meaning(r.scope(d)) && v in Meaning(c.scope(d)) && v in Meaning(g.scope(d)))
            && Coherent(e)
            && (Coherent(p) ==> (AtMost(p, e) <==> AtMost(p, Normalize(r)) && AtMost(p, Normalize(c)) && AtMost(p, Normalize(g))))
  {
    var e := Intersect(Normalize(r), Normalize(c), Normalize(g));
    NormalizeIsCanonical(r);
    NormalizeIsCanonical(c);
    NormalizeIsCanonical(g);
    IntersectedScopes(Normalize(r), Normalize(c), Normalize(g));
    EffectiveIsMeet(Normalize(r), Normalize(c), Normalize(g), p);
    if AtMost(p, e) {
      AtMostIsTransitive(p, e, Normalize(r));
      AtMostIsTransitive(p, e, Normalize(c));
      AtMostIsTransitive(p, e, Normalize(g));
    }
  }

  // ---- From raw entries, bounds and transitions ----

  /** The last entry that names a surface, by its place in the list. */
  predicate IsLastNaming(entries: seq<RawEntry>, i: nat, surface: Surface) {
    && i < |entries| && entries[i].surface == Some(surface)
    && forall j :: i < j < |entries| ==> entries[j].surface != Some(surface)
  }

  predicate Mentions(entries: seq<RawEntry>, surface: Surface) {
    exists i :: 0 <= i < |entries| && entries[i].surface == Some(surface)
  }

  /** What a raw list says of a surface: its last entry counts, unknown modes and unmentioned surfaces are denied. */
  predicate Settles(entries: seq<RawEntry>, surface: Surface, e: Entry) {
    && e.surface == surface
    && (!Mentions(entries, surface) ==> e.mode == Deny && e.reason.None?)
    && (forall i :: 0 <= i < |entries| && IsLastNaming(entries, i, surface) ==>
          && (entries[i].mode.Some? ==> e.mode == entries[i].mode.value)
          && (entries[i].mode.None? ==> e.mode == Deny)
          && (e.reason.Some? <==> entries[i].reason.Some? && entries[i].reason.value != "")
          && (e.reason.Some? ==> e.reason.value == Given(entries[i].reason.value)))
  }

  /** An entry about another surface settles nothing. */
  lemma SettledBefore(entries: seq<RawEntry>, surface: Surface, e: Entry)
    requires entries != [] && entries[|entries| - 1].surface != Some(surface)
    requires Settles(entries[..|entries| - 1], surface, e)
    ensures Settles(entries, surface, e)
  {
    var n := |entries| - 1;
    forall i | 0 <= i < |entries| && IsLastNaming(entries, i, surface)
      ensures IsLastNaming(entries[..n], i, surface) && entries[..n][i] == entries[i]
    {
    }
    if Mentions(entries[..n], surface) {
      var i :| 0 <= i < n && entries[..n][i].surface == Some(surface);
      assert entries[i].surface == Some(surface);
    }
  }

  lemma {:induction false} LastEntryCounts(entries: seq<RawEntry>, surface: Surface)
    ensures Settles(entries, surface, EntryFor(entries, surface))
  {
    if entries != [] {
      if entries[|entries| - 1].surface != Some(surface) {
        LastEntryCounts(entries[..|entries| - 1], surface);
        SettledBefore(entries, surface, EntryFor(entries, surface));
      } else {
        SettledLast(entries, surface);
      }
    }
  }

  lemma SettledLast(entries: seq<RawEntry>, surface: Surface)
    requires entries != [] && entries[|entries| - 1].surface == Some(surface)
    ensures Settles(entries, surface, EntryFor(entries, surface))
  {
    forall i | 0 <= i < |entries| && IsLastNaming(entries, i, surface) ensures i == |entries| - 1 {
    }
  }

  /** A surface that any of three raw layers does not mention is denied. */
  lemma UnmentionedIsDenied(r: Layer, c: Layer, g: Layer, surface: Surface)
    requires !Mentions(r.entries, surface) || !Mentions(c.entries, surface) || !Mentions(g.entries, surface)
    ensures Intersect(Normalize(r), Normalize(c), Normalize(g)).entry(surface).mode == Deny
    ensures SurfaceDenial(surface, Intersect(Normalize(r), Normalize(c), Normalize(g)).entry(surface).reason.GetOr(SurfaceDenied))
              in Denials(Normalize(r), Intersect(Normalize(r), Normalize(c), Normalize(g)))
  {
    LastEntryCounts(r.entries, surface);
    LastEntryCounts(c.entries, surface);
    LastEntryCounts(g.entries, surface);
    var a, b, d := Normalize(r), Normalize(c), Normalize(g);
    IntersectedModes(a, b, d);
    var e := Intersect(a, b, d);
    assert ModeAtMost(e.entry(surface).mode, e.entry(surface).mode);
    var entries := [a.entry(surface), b.entry(surface), d.entry(surface)];
    CombinedIsAbout(entries, surface);
    DeniedSurfaceIsListed(a, e, surface);
  }

  lemma CombinedIsAbout(entries: seq<Entry>, surface: Surface)
    requires entries != [] && forall i :: 0 <= i < |entries| ==> entries[i].surface == surface
    ensures CombineSurfaceEntries(entries).surface == surface
  {
    MostRestrictiveIsLeast(entries);
  }

  lemma {:induction false} DeniedIn(entry: Surface -> Entry, surfaces: seq<Surface>, surface: Surface)
    requires surface in surfaces && entry(surface).mode == Deny && entry(surface).surface == surface
    ensures SurfaceDenial(surface, entry(surface).reason.GetOr(SurfaceDenied)) in SurfaceDenials(entry, surfaces)
  {
    var n := |surfaces| - 1;
    if surfaces[n] != surface {
      assert surfaces == surfaces[..n] + [surfaces[n]];
      DeniedIn(entry, surfaces[..n], surface);
    }
  }

  lemma DeniedSurfaceIsListed(a: Authority, e: Authority, surface: Surface)
    requires e.entry(surface).mode == Deny && e.entry(surface).surface == surface
    ensures SurfaceDenial(surface, e.entry(surface).reason.GetOr(SurfaceDenied)) in Denials(a, e)
  {
    assert SURFACES[Index(surface)] == surface;
    DeniedIn(e.entry, SURFACES, surface);
  }

  /** A raw bound: missing means unbounded, a negative or unusable one means zero. */
  predicate BoundIs(raw: RawBound, bound: Option<nat>) {
    match raw
    case MissingBound => bound.None?
    case IntegerBound(value) => bound.Some? && (value < 0 ==> bound.value == 0) && (value >= 0 ==> bound.value == value)
    case InvalidBound => bound == Some(0)
  }

  /** A known transition that a raw list contains. */
  predicate Lists(raw: seq<RawTransition>, origin: Surface, target: Surface) {
    exists i :: 0 <= i < |raw| && raw[i].origin == Some(origin) && raw[i].target == Some(target)
  }

  lemma {:induction false} PermitsAppend(a: seq<Transition>, t: Transition, origin: Surface, target: Surface)
    ensures Permits(a + [t], origin, target) <==> Permits(a, origin, target) || (t.origin == origin && t.target == target)
  {
    if a == [] {
      assert a + [t] == [t] && [t][1..] == [];
    } else {
      assert (a + [t])[1..] == a[1..] + [t];
      PermitsAppend(a[1..], t, origin, target);
    }
  }

  lemma ListsLast(raw: seq<RawTransition>, origin: Surface, target: Surface)
    requires raw != []
    ensures var n := |raw| - 1;
            Lists(raw, origin, target) <==>
              Lists(raw[..n], origin, target) || (raw[n].origin == Some(origin) && raw[n].target == Some(target))
  {
    var n := |raw| - 1;
    if Lists(raw[..n], origin, target) {
      var i :| 0 <= i < n && raw[..n][i].origin == Some(origin) && raw[..n][i].target == Some(target);
      assert raw[i].origin == Some(origin) && raw[i].target == Some(target);
    }
    if Lists(raw, origin, target) {
      var i :| 0 <= i < |raw| && raw[i].origin == Some(origin) && raw[i].target == Some(target);
      assert i < n ==> raw[..n][i].origin == Some(origin) && raw[..n][i].target == Some(target);
    }
  }

  lemma {:induction false} NormalizedTransitions(raw: seq<RawTransition>, origin: Surface, target: Surface)
    ensures Permits(NormalizeTransitions(raw), origin, target) <==> Lists(raw, origin, target)
  {
    if raw != [] {
      var t := raw[|raw| - 1];
      NormalizedTransitions(raw[..|raw| - 1], origin, target);
      ListsLast(raw, origin, target);
      if t.origin.Some? && t.target.Some? {
        PermitsAppend(NormalizeTransitions(raw[..|raw| - 1]), Transition(t.origin.value, t.target.value, t.reason), origin, target);
      }
    }
  }

  /**
   The evaluation read off three raw layers: which transitions it permits, and what its bounds and its
   entries are the meet of.
   */
  lemma EvaluationFromRaw(r: Layer, c: Layer, g: Layer, k: BoundKind, origin: Surface, target: Surface)
    ensures var e := Intersect(Normalize(r), Normalize(c), Normalize(g));
            && BoundIs(r.bounds.At(k), Normalize(r).bound(k)) && BoundIs(c.bounds.At(k), Normalize(c).bound(k))
            && BoundIs(g.bounds.At(k), Normalize(g).bound(k))
            && (e.bound(k).None? <==> r.bounds.At(k).MissingBound? && c.bounds.At(k).MissingBound? && g.bounds.At(k).MissingBound?)
            && Settles(r.entries, origin, Normalize(r).entry(origin)) && Settles(c.entries, origin, Normalize(c).entry(origin))
            && Settles(g.entries, origin, Normalize(g).entry(origin))
            && (Permits(e.transitions, origin, target) <==>
                  && Lists(r.transitions, origin, target) && Lists(c.transitions, origin, target) && Lists(g.transitions, origin, target)
                  && e.entry(origin).mode != Deny && e.entry(target).mode != Deny)
  {
    var a, b, d := Normalize(r), Normalize(c), Normalize(g);
    LastEntryCounts(r.entries, origin);
    LastEntryCounts(c.entries, origin);
    LastEntryCounts(g.entries, origin);
    NormalizedTransitions(r.transitions, origin, target);
    NormalizedTransitions(c.transitions, origin, target);
    NormalizedTransitions(g.transitions, origin, target);
    IntersectedTransitions(a, b, d);
    UnboundedMeet(a.bound(k), b.bound(k), d.bound(k));
  }

  lemma UnboundedMeet(a: Option<nat>, b: Option<nat>, c: Option<nat>)
    ensures MeetBounds([a, b, c]).None? <==> a.None? && b.None? && c.None?
  {
    BoundIsMeet([a, b, c]);
    var bounds := [a, b, c];
    assert BoundAtMost(MeetBounds(bounds), bounds[0]) && BoundAtMost(MeetBounds(bounds), bounds[1])
        && BoundAtMost(MeetBounds(bounds), bounds[2]);
    if a.None? && b.None? && c.None? {
      assert forall i :: 0 <= i < |bounds| ==> BoundAtMost(None, bounds[i]);
      assert BoundAtMost(None, MeetBounds(bounds));
    }
  }

  // ---- Denials and differences ----

  datatype Denial =
    | ScopeDenial(dimension: Dimension, value: Text)
    | SurfaceDenial(surface: Surface, reason: Reason)

  datatype Difference =
    | ScopeDifference(dimension: Dimension, value: Text)
    | SurfaceDifference(surface: Surface, requestedMode: Mode, effectiveMode: Mode)
    | BoundDifference(kind: BoundKind, requested: nat, effective: Option<nat>)

  function Missing(requested: seq<Text>, effective: seq<Text>): seq<Text> {
    if requested == [] then []
    else
      var n := |requested| - 1;
      Missing(requested[..n], effective) + if requested[n] in effective then [] else [requested[n]]
  }

  function ScopeDenialsOf(d: Dimension, values: seq<Text>): seq<Denial> {
    seq(|values|, i requires 0 <= i < |values| => ScopeDenial(d, values[i]))
  }

  function ScopeDenials(requested: Scope, effective: Scope, dimensions: seq<Dimension>): seq<Denial> {
    if dimensions == [] then []
    else
      var n := |dimensions| - 1;
      var d := dimensions[n];
      ScopeDenials(requested, effective, dimensions[..n]) + ScopeDenialsOf(d, Missing(requested(d), effective(d)))
  }

  function SurfaceDenials(entry: Surface -> Entry, surfaces: seq<Surface>): seq<Denial> {
    if surfaces == [] then []
    else
      var n := |surfaces| - 1;
      var e := entry(surfaces[n]);
      SurfaceDenials(entry, surfaces[..n]) + if e.mode == Deny then [SurfaceDenial(e.surface, e.reason.GetOr(SurfaceDenied))] else []
  }

  /** What `evaluateAuthority` reports as denied: `a` is the requested layer and `e` the effective authority. */
  function Denials(a: Authority, e: Authority): seq<Denial> {
    ScopeDenials(a.scope, e.scope, DIMENSIONS) + SurfaceDenials(e.entry, SURFACES)
  }

  lemma {:induction false} MissingHolds(requested: seq<Text>, effective: seq<Text>)
    ensures forall v :: v in Missing(requested, effective) <==> v in requested && v !in effective
  {
    if requested != [] {
      var n := |requested| - 1;
      MissingHolds(requested[..n], effective);
      assert requested == requested[..n] + [requested[n]];
      assert forall v :: v in requested <==> v in requested[..n] || v == requested[n];
    }
  }

  lemma ScopeDenialsOfHold(d: Dimension, values: seq<Text>, v: Text)
    ensures ScopeDenial(d, v) in ScopeDenialsOf(d, values) <==> v in values
  {
    if v in values {
      var i :| 0 <= i < |values| && values[i] == v;
      assert ScopeDenialsOf(d, values)[i] == ScopeDenial(d, v);
    }
  }

  lemma {:induction false} ScopeDenialsHold(requested: Scope, effective: Scope, dimensions: seq<Dimension>, d: Dimension, v: Text)
    ensures ScopeDenial(d, v) in ScopeDenials(requested, effective, dimensions) <==>
              d in dimensions && v in requested(d) && v !in effective(d)
  {
    if dimensions != [] {
      var n := |dimensions| - 1;
      var last := dimensions[n];
      ScopeDenialsHold(requested, effective, dimensions[..n], d, v);
      MissingHolds(requested(last), effective(last));
      ScopeDenialsOfHold(last, Missing(requested(last), effective(last)), v);
      assert dimensions == dimensions[..n] + [last];
    }
  }

  lemma {:induction false} NoScopeAmongSurfaces(entry: Surface -> Entry, surfaces: seq<Surface>, d: Dimension, v: Text)
    ensures ScopeDenial(d, v) !in SurfaceDenials(entry, surfaces)
  {
    if surfaces != [] {
      NoScopeAmongSurfaces(entry, surfaces[..|surfaces| - 1], d, v);
    }
  }

  lemma EveryDimension(d: Dimension)
    ensures d in DIMENSIONS
  {
    assert DIMENSIONS[0] == Capabilities && DIMENSIONS[1] == Actions && DIMENSIONS[2] == Resources
        && DIMENSIONS[3] == Environments && DIMENSIONS[4] == DataClasses;
  }

  /** The scope denials are exactly the requested values that some other layer does not have. */
  lemma DenialsAreExact(a: Authority, b: Authority, c: Authority, d: Dimension, v: Text)
    requires CanonicalScopes(a)
    ensures ScopeDenial(d, v) in Denials(a, Intersect(a, b, c)) <==> v in a.scope(d) && !(v in b.scope(d) && v in c.scope(d))
  {
    IntersectedScopes(a, b, c);
    DenialsOf(a, Intersect(a, b, c), d, v);
  }

  lemma {:induction false} SurfaceDenialsHold(entry: Surface -> Entry, surfaces: seq<Surface>, s: Surface, reason: Reason)
    requires forall t :: entry(t).surface == t
    ensures SurfaceDenial(s, reason) in SurfaceDenials(entry, surfaces) <==>
              s in surfaces && entry(s).mode == Deny && reason == entry(s).reason.GetOr(SurfaceDenied)
  {
    if surfaces != [] {
      var n := |surfaces| - 1;
      SurfaceDenialsHold(entry, surfaces[..n], s, reason);
      assert surfaces == surfaces[..n] + [surfaces[n]];
    }
  }

  lemma {:induction false} NoSurfaceAmongScopes(requested: Scope, effective: Scope, dimensions: seq<Dimension>, s: Surface, reason: Reason)
    ensures SurfaceDenial(s, reason) !in ScopeDenials(requested, effective, dimensions)
  {
    if dimensions != [] {
      NoSurfaceAmongScopes(requested, effective, dimensions[..|dimensions| - 1], s, reason);
    }
  }

  /** The surface denials are exactly the denied surfaces, each with its reason or the fixed one. */
  lemma SurfaceDenialsAreExact(a: Authority, e: Authority, s: Surface, reason: Reason)
    requires forall t :: e.entry(t).surface == t
    ensures SurfaceDenial(s, reason) in Denials(a, e) <==> e.entry(s).mode == Deny && reason == e.entry(s).reason.GetOr(SurfaceDenied)
  {
    SurfaceDenialsHold(e.entry, SURFACES, s, reason);
    NoSurfaceAmongScopes(a.scope, e.scope, DIMENSIONS, s, reason);
    assert SURFACES[Index(s)] == s;
  }

  /** In an evaluation each entry is about its own surface. */
  lemma EvaluatedSurfaces(r: Layer, c: Layer, g: Layer)
    ensures forall s :: Intersect(Normalize(r), Normalize(c), Normalize(g)).entry(s).surface == s
  {
    forall s ensures Intersect(Normalize(r), Normalize(c), Normalize(g)).entry(s).surface == s {
      LastEntryCounts(r.entries, s);
      LastEntryCounts(c.entries, s);
      LastEntryCounts(g.entries, s);
      CombinedIsAbout([Normalize(r).entry(s), Normalize(c).entry(s), Normalize(g).entry(s)], s);
    }
  }

  lemma DenialsOf(a: Authority, e: Authority, d: Dimension, v: Text)
    ensures ScopeDenial(d, v) in Denials(a, e) <==> v in a.scope(d) && v !in e.scope(d)
  {
    ScopeDenialsHold(a.scope, e.scope, DIMENSIONS, d, v);
    NoScopeAmongSurfaces(e.entry, SURFACES, d, v);
    EveryDimension(d);
  }

  function ScopeDifferences(requested: Scope, effective: Scope, dimensions: seq<Dimension>): seq<Difference> {
    if dimensions == [] then []
    else
      var n := |dimensions| - 1;
      var d := dimensions[n];
      ScopeDifferences(requested, effective, dimensions[..n]) + DifferencesOf(d, Missing(requested(d), effective(d)))
  }

  function DifferencesOf(d: Dimension, values: seq<Text>): seq<Difference> {
    seq(|values|, i requires 0 <= i < |values| => ScopeDifference(d, values[i]))
  }

  function SurfaceDifferences(requested: Surface -> Entry, effective: Surface -> Entry, surfaces: seq<Surface>): seq<Difference> {
    if surfaces == [] then []
    else
      var n := |surfaces| - 1;
      var x, y := requested(surfaces[n]), effective(surfaces[n]);
      SurfaceDifferences(requested, effective, surfaces[..n]) + if x.mode == y.mode then [] else [SurfaceDifference(y.surface, x.mode, y.mode)]
  }

  /** A request without a bound is never reported, whatever the other layers set. */
  function BoundDifferences(requested: BoundKind -> Option<nat>, effective: BoundKind -> Option<nat>, kinds: seq<BoundKind>): seq<Difference> {
    if kinds == [] then []
    else
      var n := |kinds| - 1;
      var x, y := requested(kinds[n]), effective(kinds[n]);
      BoundDifferences(requested, effective, kinds[..n]) + if BoundKept(x, y) then [] else [BoundDifference(kinds[n], x.value, y)]
  }

  predicate BoundKept(requested: Option<nat>, effective: Option<nat>) {
    requested.None? || requested == effective
  }

  function Differences(a: Authority, e: Authority): seq<Difference> {
    ScopeDifferences(a.scope, e.scope, DIMENSIONS) + SurfaceDifferences(a.entry, e.entry, SURFACES)
    + BoundDifferences(a.bound, e.bound, BOUND_KINDS)
  }

  lemma NothingMissing(requested: seq<Text>, effective: seq<Text>)
    ensures Missing(requested, effective) == [] <==> forall v :: v in requested ==> v in effective
  {
    MissingHolds(requested, effective);
    if Missing(requested, effective) != [] {
      assert Missing(requested, effective)[0] in Missing(requested, effective);
    } else {
      forall v | v in requested
        ensures v in effective
      {
        assert v !in Missing(requested, effective);
      }
    }
  }

  predicate ScopeKept(requested: seq<Text>, effective: seq<Text>) {
    forall v :: v in requested ==> v in effective
  }

  lemma {:induction false} NoScopeDifferences(requested: Scope, effective: Scope, dimensions: seq<Dimension>)
    ensures ScopeDifferences(requested, effective, dimensions) == [] <==>
              forall i :: 0 <= i < |dimensions| ==> ScopeKept(requested(dimensions[i]), effective(dimensions[i]))
  {
    if dimensions != [] {
      var n := |dimensions| - 1;
      var d := dimensions[n];
      NoScopeDifferences(requested, effective, dimensions[..n]);
      NothingMissing(requested(d), effective(d));
      assert |DifferencesOf(d, Missing(requested(d), effective(d)))| == |Missing(requested(d), effective(d))|;
      assert forall i :: 0 <= i < n ==> dimensions[..n][i] == dimensions[i];
    }
  }

  lemma {:induction false} NoSurfaceDifferences(requested: Surface -> Entry, effective: Surface -> Entry, surfaces: seq<Surface>)
    ensures SurfaceDifferences(requested, effective, surfaces) == [] <==>
              forall i :: 0 <= i < |surfaces| ==> requested(surfaces[i]).mode == effective(surfaces[i]).mode
  {
    if surfaces != [] {
      var n := |surfaces| - 1;
      NoSurfaceDifferences(requested, effective, surfaces[..n]);
      assert forall i :: 0 <= i < n ==> surfaces[..n][i] == surfaces[i];
    }
  }

  lemma {:induction false} NoBoundDifferences(requested: BoundKind -> Option<nat>, effective: BoundKind -> Option<nat>, kinds: seq<BoundKind>)
    ensures BoundDifferences(requested, effective, kinds) == [] <==>
              forall i :: 0 <= i < |kinds| ==> BoundKept(requested(kinds[i]), effective(kinds[i]))
  {
    if kinds != [] {
      var n := |kinds| - 1;
      NoBoundDifferences(requested, effective, kinds[..n]);
      assert forall i :: 0 <= i < n ==> kinds[..n][i] == kinds[i];
    }
  }

  lemma EveryKind(k: BoundKind)
    ensures k in BOUND_KINDS
  {
    assert BOUND_KINDS[0] == MaxDuration && BOUND_KINDS[1] == MaxChildren && BOUND_KINDS[2] == MaxConcurrentChildren;
  }

  /**
   No difference is reported if and only if every requested scope value is effective, every
   surface has the requested mode, and every bound that was requested is the effective one.
   */
  lemma NoDifferencesIff(a: Authority, e: Authority)
    ensures Differences(a, e) == [] <==>
              && (forall d :: ScopeKept(a.scope(d), e.scope(d)))
              && (forall s :: a.entry(s).mode == e.entry(s).mode)
              && (forall k :: BoundKept(a.bound(k), e.bound(k)))
  {
    NoScopeDifferences(a.scope, e.scope, DIMENSIONS);
    NoSurfaceDifferences(a.entry, e.entry, SURFACES);
    NoBoundDifferences(a.bound, e.bound, BOUND_KINDS);
    if Differences(a, e) == [] {
      forall d
        ensures ScopeKept(a.scope(d), e.scope(d))
      {
        EveryDimension(d);
        var i :| 0 <= i < |DIMENSIONS| && DIMENSIONS[i] == d;
      }
      forall k
        ensures BoundKept(a.bound(k), e.bound(k))
      {
        EveryKind(k);
        var i :| 0 <= i < |BOUND_KINDS| && BOUND_KINDS[i] == k;
      }
      forall s
        ensures a.entry(s).mode == e.entry(s).mode
      {
        assert SURFACES[Index(s)] == s;
      }
    }
  }

  lemma {:induction false} ScopeDifferencesHold(requested: Scope, effective: Scope, dimensions: seq<Dimension>, d: Dimension, v: Text)
    ensures ScopeDifference(d, v) in ScopeDifferences(requested, effective, dimensions) <==>
              d in dimensions && v in requested(d) && v !in effective(d)
  {
    if dimensions != [] {
      var n := |dimensions| - 1;
      var last := dimensions[n];
      ScopeDifferencesHold(requested, effective, dimensions[..n], d, v);
      MissingHolds(requested(last), effective(last));
      var missing := Missing(requested(last), effective(last));
      if d == last && v in missing {
        var i :| 0 <= i < |missing| && missing[i] == v;
        assert DifferencesOf(last, missing)[i] == ScopeDifference(d, v);
      }
      assert dimensions == dimensions[..n] + [last];
    }
  }

  lemma {:induction false} SurfaceDifferencesHold(requested: Surface -> Entry, effective: Surface -> Entry, surfaces: seq<Surface>,
                                                  s: Surface, x: Mode, y: Mode)
    requires forall t :: effective(t).surface == t
    ensures SurfaceDifference(s, x, y) in SurfaceDifferences(requested, effective, surfaces) <==>
              s in surfaces && x == requested(s).mode && y == effective(s).mode && x != y
  {
    if surfaces != [] {
      var n := |surfaces| - 1;
      SurfaceDifferencesHold(requested, effective, surfaces[..n], s, x, y);
      assert surfaces == surfaces[..n] + [surfaces[n]];
    }
  }

  lemma {:induction false} BoundDifferencesHold(requested: BoundKind -> Option<nat>, effective: BoundKind -> Option<nat>,
                                                kinds: seq<BoundKind>, k: BoundKind, x: nat, y: Option<nat>)
    ensures BoundDifference(k, x, y) in BoundDifferences(requested, effective, kinds) <==>
              k in kinds && requested(k) == Some(x) && effective(k) == y && Some(x) != y
  {
    if kinds != [] {
      var n := |kinds| - 1;
      BoundDifferencesHold(requested, effective, kinds[..n], k, x, y);
      assert kinds == kinds[..n] + [kinds[n]];
    }
  }

  lemma {:induction false} EachOfOneSort(a: Authority, e: Authority, difference: Difference)
    ensures difference in Differences(a, e) <==>
              match difference
              case ScopeDifference(_, _) => difference in ScopeDifferences(a.scope, e.scope, DIMENSIONS)
              case SurfaceDifference(_, _, _) => difference in SurfaceDifferences(a.entry, e.entry, SURFACES)
              case BoundDifference(_, _, _) => difference in BoundDifferences(a.bound, e.bound, BOUND_KINDS)
  {
    OnlyScopes(a.scope, e.scope, DIMENSIONS);
    OnlySurfaces(a.entry, e.entry, SURFACES);
    OnlyBounds(a.bound, e.bound, BOUND_KINDS);
  }

  lemma {:induction false} OnlyScopes(requested: Scope, effective: Scope, dimensions: seq<Dimension>)
    ensures forall x :: x in ScopeDifferences(requested, effective, dimensions) ==> x.ScopeDifference?
  {
    if dimensions != [] {
      OnlyScopes(requested, effective, dimensions[..|dimensions| - 1]);
    }
  }

  lemma {:induction false} OnlySurfaces(requested: Surface -> Entry, effective: Surface -> Entry, surfaces: seq<Surface>)
    ensures forall x :: x in SurfaceDifferences(requested, effective, surfaces) ==> x.SurfaceDifference?
  {
    if surfaces != [] {
      OnlySurfaces(requested, effective, surfaces[..|surfaces| - 1]);
    }
  }

  lemma {:induction false} OnlyBounds(requested: BoundKind -> Option<nat>, effective: BoundKind -> Option<nat>, kinds: seq<BoundKind>)
    ensures forall x :: x in BoundDifferences(requested, effective, kinds) ==> x.BoundDifference?
  {
    if kinds != [] {
      OnlyBounds(requested, effective, kinds[..|kinds| - 1]);
    }
  }

  /**
   Which differences are reported, each with the requested and the effective side: every requested value that is
   not effective, every surface whose mode changed, and every requested bound that is not the effective one.
   */
  lemma DifferencesAreExact(a: Authority, e: Authority, difference: Difference)
    requires forall s :: e.entry(s).surface == s
    ensures difference in Differences(a, e) <==>
              match difference
              case ScopeDifference(d, v) => v in a.scope(d) && v !in e.scope(d)
              case SurfaceDifference(s, x, y) => x == a.entry(s).mode && y == e.entry(s).mode && x != y
              case BoundDifference(k, x, y) => a.bound(k) == Some(x) && e.bound(k) == y && y != Some(x)
  {
    EachOfOneSort(a, e, difference);
    match difference
    case ScopeDifference(d, v) =>
      ScopeDifferencesHold(a.scope, e.scope, DIMENSIONS, d, v);
      EveryDimension(d);
    case SurfaceDifference(s, x, y) =>
      SurfaceDifferencesHold(a.entry, e.entry, SURFACES, s, x, y);
      assert SURFACES[Index(s)] == s;
    case BoundDifference(k, x, y) =>
      BoundDifferencesHold(a.bound, e.bound, BOUND_KINDS, k, x, y);
      EveryKind(k);
  }

  /** Differences are silent about an unbounded request that another layer cuts down to zero. */
  lemma UnboundedRequestIsNotReported(a: Authority, b: Authority, c: Authority)
    requires Differences(a, Intersect(a, b, c)) == []
    requires forall k :: b.bound(k) == Some(0)
    ensures var unbounded := a.(bound := k => None);
            && Differences(unbounded, Intersect(unbounded, b, c)) == []
            && forall k :: Intersect(unbounded, b, c).bound(k) == Some(0)
  {
    var unbounded := a.(bound := k => None);
    var e, f := Intersect(a, b, c), Intersect(unbounded, b, c);
    IntersectedBounds(unbounded, b, c);
    forall k
      ensures f.bound(k) == Some(0)
    {
      assert BoundAtMost(f.bound(k), f.bound(k)) && BoundAtMost(f.bound(k), b.bound(k));
    }
    NoDifferencesIff(a, e);
    NoDifferencesIff(unbounded, f);
    assert forall d :: f.scope(d) == e.scope(d);
    assert forall s :: f.entry(s) == e.entry(s);
  }

  predicate ReportsBound(differences: seq<Difference>, k: BoundKind) {
    exists i :: 0 <= i < |differences| && differences[i].BoundDifference? && differences[i].kind == k
  }

  lemma ReportsBoundSplit(a: seq<Difference>, b: seq<Difference>, k: BoundKind)
    ensures ReportsBound(a + b, k) <==> ReportsBound(a, k) || ReportsBound(b, k)
  {
    if ReportsBound(a, k) {
      var i :| 0 <= i < |a| && a[i].BoundDifference? && a[i].kind == k;
      assert (a + b)[i] == a[i];
    }
    if ReportsBound(b, k) {
      var i :| 0 <= i < |b| && b[i].BoundDifference? && b[i].kind == k;
      assert (a + b)[|a| + i] == b[i];
    }
  }

  lemma {:induction false} ReportedBounds(requested: BoundKind -> Option<nat>, effective: BoundKind -> Option<nat>,
                                          kinds: seq<BoundKind>, k: BoundKind)
    ensures ReportsBound(BoundDifferences(requested, effective, kinds), k) <==>
              k in kinds && !BoundKept(requested(k), effective(k))
  {
    if kinds != [] {
      var n := |kinds| - 1;
      var before := BoundDifferences(requested, effective, kinds[..n]);
      var x, y := requested(kinds[n]), effective(kinds[n]);
      var last := if BoundKept(x, y) then [] else [BoundDifference(kinds[n], x.value, y)];
      ReportedBounds(requested, effective, kinds[..n], k);
      ReportsBoundSplit(before, last, k);
      assert !BoundKept(x, y) ==> last[0].kind == kinds[n];
      assert kinds == kinds[..n] + [kinds[n]];
    }
  }

  lemma {:induction false} NoBoundAmongScopes(requested: Scope, effective: Scope, dimensions: seq<Dimension>, k: BoundKind)
    ensures !ReportsBound(ScopeDifferences(requested, effective, dimensions), k)
  {
    if dimensions != [] {
      NoBoundAmongScopes(requested, effective, dimensions[..|dimensions| - 1], k);
    }
  }

  lemma {:induction false} NoBoundAmongSurfaces(requested: Surface -> Entry, effective: Surface -> Entry, surfaces: seq<Surface>, k: BoundKind)
    ensures !ReportsBound(SurfaceDifferences(requested, effective, surfaces), k)
  {
    if surfaces != [] {
      NoBoundAmongSurfaces(requested, effective, surfaces[..|surfaces| - 1], k);
    }
  }

  lemma DifferencesReportBound(a: Authority, e: Authority, k: BoundKind)
    ensures ReportsBound(Differences(a, e), k) <==> !BoundKept(a.bound(k), e.bound(k))
  {
    var scopes := ScopeDifferences(a.scope, e.scope, DIMENSIONS);
    var surfaces := SurfaceDifferences(a.entry, e.entry, SURFACES);
    NoBoundAmongScopes(a.scope, e.scope, DIMENSIONS, k);
    NoBoundAmongSurfaces(a.entry, e.entry, SURFACES, k);
    ReportedBounds(a.bound, e.bound, BOUND_KINDS, k);
    ReportsBoundSplit(scopes, surfaces, k);
    ReportsBoundSplit(scopes + surfaces, BoundDifferences(a.bound, e.bound, BOUND_KINDS), k);
    EveryKind(k);
  }

  /** Exactly when: a bound is cut in silence if and only if none was requested and another layer sets one. */
  lemma SilentBoundCutIff(a: Authority, b: Authority, c: Authority, k: BoundKind)
    ensures var e := Intersect(a, b, c);
            e.bound(k) != a.bound(k) && !ReportsBound(Differences(a, e), k)
            <==> a.bound(k).None? && (b.bound(k).Some? || c.bound(k).Some?)
  {
    var e := Intersect(a, b, c);
    DifferencesReportBound(a, e, k);
    var bounds := [a.bound(k), b.bound(k), c.bound(k)];
    var two, one: seq<Option<nat>> := [b.bound(k), c.bound(k)], [c.bound(k)];
    assert bounds[1..] == two && two[1..] == one && |one[1..]| == 0;
    assert MeetBounds(one) == c.bound(k);
    assert MeetBounds(two).Some? <==> b.bound(k).Some? || c.bound(k).Some?;
    assert MeetBounds(bounds) == e.bound(k);
  }

  // ---- Scope lists are sets ----

  /** The same authority, the functions in it compared value by value. */
  ghost predicate SameAuthority(p: Authority, q: Authority) {
    && (forall d :: p.scope(d) == q.scope(d))
    && (forall s :: p.entry(s) == q.entry(s))
    && (forall k :: p.bound(k) == q.bound(k))
    && p.transitions == q.transitions
  }

  /** Two layers that differ only in the order, repetition, blanks and white space of their scope lists. */
  ghost predicate SameButForLists(l: Layer, m: Layer) {
    && (forall d :: Meaning(l.scope(d)) == Meaning(m.scope(d)))
    && l.entries == m.entries && l.transitions == m.transitions && l.bounds == m.bounds
  }

  lemma NormalizedAlike(l: Layer, m: Layer)
    requires SameButForLists(l, m)
    ensures SameAuthority(Normalize(l), Normalize(m))
  {
    forall d
      ensures Normalize(l).scope(d) == Normalize(m).scope(d)
    {
      UniqueSortedIff(l.scope(d), m.scope(d));
    }
  }

  lemma {:induction false} RetainedAlike(first: seq<Transition>, p: (Surface, Surface) -> bool, q: (Surface, Surface) -> bool)
    requires forall f, t :: p(f, t) == q(f, t)
    ensures Retained(first, p) == Retained(first, q)
  {
    if first != [] {
      RetainedAlike(first[1..], p, q);
    }
  }

  lemma IntersectedAlike(a: Authority, b: Authority, c: Authority, a': Authority, b': Authority, c': Authority)
    requires SameAuthority(a, a') && SameAuthority(b, b') && SameAuthority(c, c')
    ensures SameAuthority(Intersect(a, b, c), Intersect(a', b', c'))
  {
    var p, q := Keeps(b.transitions, c.transitions, Combined(a, b, c)), Keeps(b'.transitions, c'.transitions, Combined(a', b', c'));
    assert forall s :: Combined(a, b, c)(s) == Combined(a', b', c')(s);
    RetainedAlike(a.transitions, p, q);
  }

  lemma {:induction false} ScopesReportedAlike(r: Scope, e: Scope, r': Scope, e': Scope, dimensions: seq<Dimension>)
    requires forall d :: r(d) == r'(d) && e(d) == e'(d)
    ensures ScopeDenials(r, e, dimensions) == ScopeDenials(r', e', dimensions)
    ensures ScopeDifferences(r, e, dimensions) == ScopeDifferences(r', e', dimensions)
  {
    if dimensions != [] {
      ScopesReportedAlike(r, e, r', e', dimensions[..|dimensions| - 1]);
    }
  }

  lemma {:induction false} SurfacesReportedAlike(r: Surface -> Entry, e: Surface -> Entry, r': Surface -> Entry, e': Surface -> Entry,
                                                 surfaces: seq<Surface>)
    requires forall s :: r(s) == r'(s) && e(s) == e'(s)
    ensures SurfaceDenials(e, surfaces) == SurfaceDenials(e', surfaces)
    ensures SurfaceDifferences(r, e, surfaces) == SurfaceDifferences(r', e', surfaces)
  {
    if surfaces != [] {
      SurfacesReportedAlike(r, e, r', e', surfaces[..|surfaces| - 1]);
    }
  }

  lemma {:induction false} BoundsReportedAlike(r: BoundKind -> Option<nat>, e: BoundKind -> Option<nat>,
                                               r': BoundKind -> Option<nat>, e': BoundKind -> Option<nat>, kinds: seq<BoundKind>)
    requires forall k :: r(k) == r'(k) && e(k) == e'(k)
    ensures BoundDifferences(r, e, kinds) == BoundDifferences(r', e', kinds)
  {
    if kinds != [] {
      BoundsReportedAlike(r, e, r', e', kinds[..|kinds| - 1]);
    }
  }

  lemma ReportedAlike(a: Authority, e: Authority, a': Authority, e': Authority)
    requires SameAuthority(a, a') && SameAuthority(e, e')
    ensures Denials(a, e) == Denials(a', e') && Differences(a, e) == Differences(a', e')
  {
    ScopesReportedAlike(a.scope, e.scope, a'.scope, e'.scope, DIMENSIONS);
    SurfacesReportedAlike(a.entry, e.entry, a'.entry, e'.entry, SURFACES);
    BoundsReportedAlike(a.bound, e.bound, a'.bound, e'.bound, BOUND_KINDS);
  }

  /**
   Permuting the values of the scope lists of the three layers, repeating them, or padding them with
   white space or blank values changes nothing in the evaluation: not the normalised layers, not the
   effective authority, not the denials and not the differences.
   */
  lemma ScopeListsAreSets(r: Layer, c: Layer, g: Layer, r': Layer, c': Layer, g': Layer)
    requires SameButForLists(r, r') && SameButForLists(c, c') && SameButForLists(g, g')
    ensures SameAuthority(Normalize(r), Normalize(r')) && SameAuthority(Normalize(c), Normalize(c'))
    ensures var e := Intersect(Normalize(r), Normalize(c), Normalize(g));
            var e' := Intersect(Normalize(r'), Normalize(c'), Normalize(g'));
            && SameAuthority(e, e')
            && Denials(Normalize(r), e) == Denials(Normalize(r'), e')
            && Differences(Normalize(r), e) == Differences(Normalize(r'), e')
  {
    NormalizedAlike(r, r');
    NormalizedAlike(c, c');
    NormalizedAlike(g, g');
    var e := Intersect(Normalize(r), Normalize(c), Normalize(g));
    var e' := Intersect(Normalize(r'), Normalize(c'), Normalize(g'));
    IntersectedAlike(Normalize(r), Normalize(c), Normalize(g), Normalize(r'), Normalize(c'), Normalize(g'));
    ReportedAlike(Normalize(r), e, Normalize(r'), e');
  }

  // ---- The loops ----

  /** `normalizeSurfaceLayer`: a map of defaults, overwritten entry by entry and read in catalogue order. */
  method NormalizeSurfaces(entries: seq<RawEntry>) returns (surfaces: seq<Entry>)
    ensures surfaces == SurfaceEntries(entries)
    ensures |surfaces| == |SURFACES| && forall k :: 0 <= k < |SURFACES| ==> Settles(entries, SURFACES[k], surfaces[k])
  {
    var bySurface: map<Surface, Entry> := map[];
    for i := 0 to |SURFACES|
      invariant forall j :: 0 <= j < i ==> SURFACES[j] in bySurface
      invariant forall s :: s in bySurface ==> bySurface[s] == Entry(s, Deny, None)
    {
      bySurface := bySurface[SURFACES[i] := Entry(SURFACES[i], Deny, None)];
    }
    for i := 0 to |entries|
      invariant forall j :: 0 <= j < |SURFACES| ==> SURFACES[j] in bySurface
      invariant forall s :: s in bySurface ==> bySurface[s] == EntryFor(entries[..i], s)
    {
      var e := entries[i];
      assert entries[..i + 1][..i] == entries[..i];
      if e.surface.Some? {
        var mode := if e.mode.Some? then e.mode.value else Deny;
        var reason := if e.reason.Some? && e.reason.value != "" then Some(Given(e.reason.value)) else None;
        bySurface := bySurface[e.surface.value := Entry(e.surface.value, mode, reason)];
      }
    }
    assert entries[..|entries|] == entries;
    surfaces := [];
    for i := 0 to |SURFACES|
      invariant surfaces == SurfaceEntries(entries)[..i]
    {
      surfaces := surfaces + [bySurface[SURFACES[i]]];
    }
    forall k | 0 <= k < |SURFACES| ensures Settles(entries, SURFACES[k], surfaces[k]) {
      LastEntryCounts(entries, SURFACES[k]);
    }
  }

  /** The denials of `evaluateAuthority`, pushed by a nested loop over values and one over surfaces. */
  method CollectDenials(a: Authority, e: Authority) returns (denials: seq<Denial>)
    ensures denials == Denials(a, e)
  {
    denials := [];
    for i := 0 to |DIMENSIONS|
      invariant denials == ScopeDenials(a.scope, e.scope, DIMENSIONS[..i])
    {
      var d := DIMENSIONS[i];
      var more := CollectMissing(d, a.scope(d), e.scope(d));
      denials := denials + more;
      assert DIMENSIONS[..i + 1][..i] == DIMENSIONS[..i];
    }
    assert DIMENSIONS[..|DIMENSIONS|] == DIMENSIONS;
    ghost var before := denials;
    for i := 0 to |SURFACES|
      invariant denials == before + SurfaceDenials(e.entry, SURFACES[..i])
    {
      assert SURFACES[..i + 1][..i] == SURFACES[..i];
      var entry := e.entry(SURFACES[i]);
      if entry.mode == Deny {
        denials := denials + [SurfaceDenial(entry.surface, if entry.reason.Some? then entry.reason.value else SurfaceDenied)];
      }
    }
    assert SURFACES[..|SURFACES|] == SURFACES;
  }

  method CollectMissing(d: Dimension, requested: seq<Text>, effective: seq<Text>) returns (denials: seq<Denial>)
    ensures denials == ScopeDenialsOf(d, Missing(requested, effective))
  {
    denials := [];
    for k := 0 to |requested|
      invariant denials == ScopeDenialsOf(d, Missing(requested[..k], effective))
    {
      assert requested[..k + 1][..k] == requested[..k];
      if requested[k] !in effective {
        denials := denials + [ScopeDenial(d, requested[k])];
      }
    }
    assert requested[..|requested|] == requested;
  }
}
