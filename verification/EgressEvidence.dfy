/**
 Evidence about a window of proxy decisions, drawn from two truncated snapshots of the
 journal: a boundary taken at the start and a snapshot taken at the end.

 Snapshots arrive over HTTP, so their fields are read as untrusted values. The main
 results say what the evidence means when both snapshots come from one run of the journal.
 */
module EgressEvidence {
  import opened Common
  import J = PhaseJournal

  const MAX_SAFE_INTEGER: int := 0x1F_FFFF_FFFF_FFFF
  const MAX_RETAINED_EVENTS: nat := 20
  const MAX_EVENTS: nat := 80
  const KNOWN_SAFE_HOSTS: set<string> := {"auth.openai.com", "chatgpt.com", "api.openai.com"}

  /** A received value where a count is expected: a safe integer, or anything else. */
  datatype Number = Safe(n: int) | NotSafe

  /** The text shapes the code tests by regular expression, and its case mappings. */
  datatype Shapes = Shapes(isUuid: string -> bool, isIso: string -> bool, isHost: string -> bool, isDigest: string -> bool,
                           lower: string -> string, upper: string -> string)

  /** Received fields; `None` stands for a value of any other type or spelling. */
  datatype RawEvent =
    | NotAnObject
    | RawEvent(cursor: Number, port: Number, decision: Option<J.Decision>, reason: J.Reason, observedAt: Option<string>,
               host: Option<string>, classification: Option<J.Classification>, fingerprint: Option<string>)

  datatype RawSnapshot = RawSnapshot(generation: string, cursor: Number, pendingConnects: Number,
                                     earliestRetainedCursor: Number, events: Option<seq<RawEvent>>)

  datatype RawBoundary = RawBoundary(schemaMatches: bool, generation: string, cursor: Number, pendingConnects: Number,
                                     observedAt: Option<string>)

  datatype Snapshot = Snapshot(generation: string, cursor: nat, pendingConnects: nat, earliestRetainedCursor: nat,
                               observedAt: string, events: seq<RawEvent>)

  datatype WindowBoundary = WindowBoundary(generation: string, cursor: nat, pendingConnects: nat, observedAt: string)

  datatype EvidenceEvent = EvidenceEvent(cursor: int, knownProvider: bool, host: Option<string>, fingerprint: string,
                                         port: int, decision: J.Decision, reason: J.Reason, observedAt: string)

  datatype Availability = Unavailable | Incomplete | Complete

  datatype Completeness =
    | StartBoundaryUnavailable
    | EndSnapshotUnavailable
    | CursorEvidenceInvalid
    | ProxyGenerationChanged
    | ConnectionsInFlight
    | JournalOverwritten
    | EventSequenceIncomplete
    | EventProjectionInvalid
    | EvidenceOutputCapped
    | AllRetained

  datatype Evidence = Evidence(availability: Availability, reason: Completeness,
                               start: Option<WindowBoundary>, end: Option<WindowBoundary>,
                               observedCount: Option<int>, events: seq<EvidenceEvent>)

  function ToNumber(n: int): Number {
    if -MAX_SAFE_INTEGER <= n <= MAX_SAFE_INTEGER then Safe(n) else NotSafe
  }

  predicate ValidCursor(value: Number) {
    value.Safe? && 0 <= value.n
  }

  function SanitizeBoundary(sh: Shapes, value: Option<RawBoundary>): Option<WindowBoundary> {
    match value
    case None => None
    case Some(b) =>
      if !b.schemaMatches || !sh.isUuid(b.generation) || !ValidCursor(b.cursor) || !ValidCursor(b.pendingConnects)
         || b.observedAt.None? || !sh.isIso(b.observedAt.value)
      then None
      else Some(WindowBoundary(sh.lower(b.generation), b.cursor.n, b.pendingConnects.n, b.observedAt.value))
  }

  function ValidatedSnapshot(sh: Shapes, value: Option<RawSnapshot>, observedAt: string): Option<Snapshot> {
    match value
    case None => None
    case Some(v) =>
      if !sh.isUuid(v.generation) || !ValidCursor(v.cursor) || !ValidCursor(v.pendingConnects)
         || !ValidCursor(v.earliestRetainedCursor) || v.earliestRetainedCursor.n > v.cursor.n + 1
         || v.events.None? || |v.events.value| > MAX_EVENTS || !sh.isIso(observedAt)
      then None
      else Some(Snapshot(sh.lower(v.generation), v.cursor.n, v.pendingConnects.n, v.earliestRetainedCursor.n,
                         observedAt, v.events.value))
  }

  function Received(b: WindowBoundary): RawBoundary {
    RawBoundary(true, b.generation, ToNumber(b.cursor), ToNumber(b.pendingConnects), Some(b.observedAt))
  }

  function InitialEgressBoundary(sh: Shapes, snapshot: Option<Snapshot>): Option<WindowBoundary> {
    match snapshot
    case None => None
    case Some(s) =>
      SanitizeBoundary(sh, Some(Received(WindowBoundary(s.generation, s.cursor, s.pendingConnects, s.observedAt))))
  }

  function SafeEvent(sh: Shapes, event: RawEvent): Option<EvidenceEvent> {
    if event.NotAnObject? || !ValidCursor(event.cursor) || event.cursor.n < 1
       || event.port.NotSafe? || event.port.n < 1 || event.port.n > 65535
       || event.decision.None? || event.reason.OtherReason?
       || event.observedAt.None? || !sh.isIso(event.observedAt.value)
       || event.fingerprint.None? || !sh.isDigest(event.fingerprint.value)
    then None
    else
      var rawHost := if event.host.Some? && sh.isHost(event.host.value) && |event.host.value| <= 253
                     then Some(sh.lower(event.host.value)) else None;
      var authHostProjected := rawHost.None? && event.classification == Some(J.ApprovedAuthHost);
      var known := rawHost.Some? && rawHost.value in KNOWN_SAFE_HOSTS;
      Some(EvidenceEvent(event.cursor.n, known || authHostProjected,
                         if known then rawHost else if authHostProjected then Some("auth.openai.com") else None,
                         sh.upper(event.fingerprint.value), event.port.n, event.decision.value, event.reason,
                         event.observedAt.value))
  }

  // ---------------------------------------------------------------- candidates

  predicate Ordered(e: RawEvent, f: RawEvent) {
    e.RawEvent? && f.RawEvent? && e.cursor.Safe? && f.cursor.Safe? && e.cursor.n <= f.cursor.n
  }

  predicate Counted(events: seq<RawEvent>) {
    forall i :: 0 <= i < |events| ==> events[i].RawEvent? && events[i].cursor.Safe?
  }

  function Since(events: seq<RawEvent>, cursor: int): (candidates: seq<RawEvent>)
    ensures Counted(candidates)
  {
    if events == [] then []
    else
      (if events[0].RawEvent? && events[0].cursor.Safe? && events[0].cursor.n > cursor then [events[0]] else [])
      + Since(events[1..], cursor)
  }

  function InsertByCursor(event: RawEvent, sorted: seq<RawEvent>): (r: seq<RawEvent>)
    requires event.RawEvent? && event.cursor.Safe? && Counted(sorted)
    ensures Counted(r)
  {
    if sorted == [] || event.cursor.n <= sorted[0].cursor.n then [event] + sorted
    else [sorted[0]] + InsertByCursor(event, sorted[1..])
  }

  /** A stable sort by cursor. */
  function SortByCursor(events: seq<RawEvent>): (r: seq<RawEvent>)
    requires Counted(events)
    ensures Counted(r)
  {
    if events == [] then [] else InsertByCursor(events[0], SortByCursor(events[1..]))
  }

  predicate Ascending(events: seq<RawEvent>) {
    forall i, j :: 0 <= i < j < |events| ==> Ordered(events[i], events[j])
  }

  /** The events carry the cursors `from + 1`, `from + 2`, and so on, without a gap. */
  predicate Consecutive(events: seq<RawEvent>, from: int) {
    forall i :: 0 <= i < |events| ==> events[i].RawEvent? && events[i].cursor == Safe(from + i + 1)
  }

  function SafeEvents(sh: Shapes, events: seq<RawEvent>): seq<Option<EvidenceEvent>> {
    seq(|events|, i requires 0 <= i < |events| => SafeEvent(sh, events[i]))
  }

  function Present(events: seq<Option<EvidenceEvent>>): seq<EvidenceEvent> {
    if events == [] then []
    else (if events[0].Some? then [events[0].value] else []) + Present(events[1..])
  }

  predicate AllPresent(events: seq<Option<EvidenceEvent>>) {
    forall i :: 0 <= i < |events| ==> events[i].Some?
  }

  function EgressWindowEvidence(sh: Shapes, boundaryValue: Option<RawBoundary>, endSnapshot: Option<Snapshot>): Evidence {
    var boundary := SanitizeBoundary(sh, boundaryValue);
    if boundary.None? then Evidence(Unavailable, StartBoundaryUnavailable, None, None, None, [])
    else if endSnapshot.None? then Evidence(Unavailable, EndSnapshotUnavailable, None, None, None, [])
    else
      var start, end := boundary.value, endSnapshot.value;
      if start.generation != end.generation then Base(start, end).(reason := ProxyGenerationChanged)
      else if !ValidCursor(ToNumber(end.cursor)) || end.cursor < start.cursor then Base(start, end)
      else Assess(sh, start, end, SortByCursor(Since(end.events, start.cursor)))
  }

  function Base(start: WindowBoundary, end: Snapshot): Evidence {
    Evidence(Incomplete, CursorEvidenceInvalid, Some(start), Some(StartOf(end)), None, [])
  }

  function StartOf(s: Snapshot): WindowBoundary {
    WindowBoundary(s.generation, s.cursor, s.pendingConnects, s.observedAt)
  }

  /** The judgement on a window, given the events of the end snapshot that follow its start. */
  function Assess(sh: Shapes, start: WindowBoundary, end: Snapshot, candidate: seq<RawEvent>): Evidence {
    var observedCount := end.cursor - start.cursor;
    var completeRetention := end.earliestRetainedCursor <= start.cursor + 1;
    var projection := SafeEvents(sh, LastN(candidate, MAX_RETAINED_EVENTS));
    var completeSequence := |candidate| == observedCount && Consecutive(candidate, start.cursor);
    var completeProjection := AllPresent(projection);
    var complete := start.pendingConnects == 0 && end.pendingConnects == 0
                    && completeRetention && completeSequence && completeProjection
                    && observedCount <= MAX_RETAINED_EVENTS;
    var reason := if start.pendingConnects > 0 || end.pendingConnects > 0 then ConnectionsInFlight
                  else if !completeRetention then JournalOverwritten
                  else if !completeSequence then EventSequenceIncomplete
                  else if !completeProjection then EventProjectionInvalid
                  else if observedCount > MAX_RETAINED_EVENTS then EvidenceOutputCapped
                  else AllRetained;
    Base(start, end).(availability := if complete then Complete else Incomplete, reason := reason,
                      observedCount := Some(observedCount), events := Present(projection))
  }

  // ---------------------------------------------------------------- any snapshot

  lemma {:induction false} InsertAddsOne(event: RawEvent, sorted: seq<RawEvent>)
    requires event.RawEvent? && event.cursor.Safe? && Counted(sorted)
    ensures multiset(InsertByCursor(event, sorted)) == multiset(sorted) + multiset{event}
  {
    if sorted != [] && event.cursor.n > sorted[0].cursor.n {
      InsertAddsOne(event, sorted[1..]);
      assert sorted == [sorted[0]] + sorted[1..];
    }
  }

  lemma {:induction false} InsertKeepsOrder(event: RawEvent, sorted: seq<RawEvent>)
    requires event.RawEvent? && event.cursor.Safe? && Counted(sorted) && Ascending(sorted)
    ensures Ascending(InsertByCursor(event, sorted))
  {
    if sorted != [] && event.cursor.n > sorted[0].cursor.n {
      InsertKeepsOrder(event, sorted[1..]);
      InsertAddsOne(event, sorted[1..]);
      var tail := InsertByCursor(event, sorted[1..]);
      forall i | 0 <= i < |tail| ensures Ordered(sorted[0], tail[i]) {
        assert tail[i] in multiset(tail);
        assert tail[i] == event || tail[i] in sorted[1..];
      }
    }
  }

  lemma {:induction false} SortSorts(events: seq<RawEvent>)
    requires Counted(events)
    ensures Ascending(SortByCursor(events))
    ensures multiset(SortByCursor(events)) == multiset(events)
  {
    if events != [] {
      SortSorts(events[1..]);
      InsertKeepsOrder(events[0], SortByCursor(events[1..]));
      InsertAddsOne(events[0], SortByCursor(events[1..]));
      assert events == [events[0]] + events[1..];
    }
  }

  lemma {:induction false} SortOfSorted(events: seq<RawEvent>)
    requires Counted(events) && Ascending(events)
    ensures SortByCursor(events) == events
  {
    if events != [] {
      SortOfSorted(events[1..]);
      assert events == [events[0]] + events[1..];
      if |events| > 1 {
        assert Ordered(events[0], events[1]);
      }
    }
  }

  lemma {:induction false} PresentOfAll(events: seq<Option<EvidenceEvent>>)
    requires AllPresent(events)
    ensures |Present(events)| == |events|
    ensures forall i :: 0 <= i < |events| ==> Some(Present(events)[i]) == events[i]
  {
    if events != [] {
      PresentOfAll(events[1..]);
    }
  }

  lemma CompleteAssessment(sh: Shapes, start: WindowBoundary, end: Snapshot, candidate: seq<RawEvent>)
    ensures var e := Assess(sh, start, end, candidate);
            && (e.availability == Complete <==> e.reason == AllRetained)
            && (e.availability == Complete ==>
                  && start.pendingConnects == 0 && end.pendingConnects == 0
                  && |e.events| == end.cursor - start.cursor <= MAX_RETAINED_EVENTS
                  && forall i :: 0 <= i < |e.events| ==> e.events[i].cursor == start.cursor + i + 1)
  {
    if Assess(sh, start, end, candidate).availability == Complete {
      assert LastN(candidate, MAX_RETAINED_EVENTS) == candidate;
      PresentOfAll(SafeEvents(sh, candidate));
    }
  }

  /**
   Whatever snapshot arrives, honest or not: evidence called complete lists one event for
   every cursor of the window, in order, at most twenty, with nothing in flight at either end.
   */
  lemma CompleteEvidenceFillsWindow(sh: Shapes, boundary: Option<RawBoundary>, end: Option<Snapshot>)
    ensures var e := EgressWindowEvidence(sh, boundary, end);
            && (e.availability == Complete <==> e.reason == AllRetained)
            && (e.availability == Complete ==>
                  && e.start.Some? && e.end.Some? && e.start.value.generation == e.end.value.generation
                  && e.start.value.pendingConnects == 0 && e.end.value.pendingConnects == 0
                  && |e.events| == e.end.value.cursor - e.start.value.cursor <= MAX_RETAINED_EVENTS
                  && forall i :: 0 <= i < |e.events| ==> e.events[i].cursor == e.start.value.cursor + i + 1)
  {
    var start := SanitizeBoundary(sh, boundary);
    if start.Some? && end.Some? {
      CompleteAssessment(sh, start.value, end.value, SortByCursor(Since(end.value.events, start.value.cursor)));
    }
  }

  // ---------------------------------------------------------------- what is trusted of the ends

  predicate TrustedBoundary(sh: Shapes, b: RawBoundary) {
    b.schemaMatches && sh.isUuid(b.generation) && ValidCursor(b.cursor) && ValidCursor(b.pendingConnects)
    && b.observedAt.Some? && sh.isIso(b.observedAt.value)
  }

  predicate TrustedSnapshot(sh: Shapes, v: RawSnapshot) {
    sh.isUuid(v.generation) && ValidCursor(v.cursor) && ValidCursor(v.pendingConnects) && ValidCursor(v.earliestRetainedCursor)
    && v.earliestRetainedCursor.n <= v.cursor.n + 1 && v.events.Some? && |v.events.value| <= 80
  }

  /**
   From a boundary and a snapshot as received to the ends of the window: what makes evidence unavailable,
   when the two are of different generations, and what the evidence then says of its ends.
   */
  lemma EvidenceEnds(sh: Shapes, boundary: Option<RawBoundary>, received: Option<RawSnapshot>, observedAt: string)
    requires sh.isIso(observedAt)
    ensures var e := EgressWindowEvidence(sh, boundary, ValidatedSnapshot(sh, received, observedAt));
            var startTrusted := boundary.Some? && TrustedBoundary(sh, boundary.value);
            var endTrusted := received.Some? && TrustedSnapshot(sh, received.value);
            && (e.reason == StartBoundaryUnavailable <==> !startTrusted)
            && (e.reason == EndSnapshotUnavailable <==> startTrusted && !endTrusted)
            && (e.availability == Unavailable <==> !startTrusted || !endTrusted)
            && (e.reason == ProxyGenerationChanged <==>
                  startTrusted && endTrusted && sh.lower(boundary.value.generation) != sh.lower(received.value.generation))
            && (startTrusted && endTrusted ==>
                  && e.start == Some(WindowBoundary(sh.lower(boundary.value.generation), boundary.value.cursor.n,
                                                    boundary.value.pendingConnects.n, boundary.value.observedAt.value))
                  && e.end == Some(WindowBoundary(sh.lower(received.value.generation), received.value.cursor.n,
                                                  received.value.pendingConnects.n, observedAt)))
  {
  }

  // ---------------------------------------------------------------- what an event may show

  /** The received host is a host name that could be shown. */
  predicate UsableHost(sh: Shapes, raw: RawEvent) {
    raw.RawEvent? && raw.host.Some? && sh.isHost(raw.host.value) && |raw.host.value| <= 253
  }

  predicate IsListed(sh: Shapes, raw: RawEvent) {
    UsableHost(sh, raw) && sh.lower(raw.host.value) in KNOWN_SAFE_HOSTS
  }

  /** The proxy has already replaced the host by its class, and the class is that of the authentication host. */
  predicate IsVouchedFor(sh: Shapes, raw: RawEvent) {
    raw.RawEvent? && !UsableHost(sh, raw) && raw.classification == Some(J.ApprovedAuthHost)
  }

  /** What an evidence event may say of the received one: a host is named only if it is a listed one. */
  predicate Reports(sh: Shapes, e: EvidenceEvent, raw: RawEvent) {
    && raw.RawEvent?
    && raw.cursor == Safe(e.cursor) && raw.port == Safe(e.port) && 1 <= e.port <= 65535
    && raw.decision == Some(e.decision) && raw.reason == e.reason && !e.reason.OtherReason?
    && raw.observedAt == Some(e.observedAt) && sh.isIso(e.observedAt)
    && raw.fingerprint.Some? && sh.isDigest(raw.fingerprint.value) && e.fingerprint == sh.upper(raw.fingerprint.value)
    && (e.host.Some? <==> e.knownProvider)
    && (e.knownProvider <==> IsListed(sh, raw) || IsVouchedFor(sh, raw))
    && (IsListed(sh, raw) ==> e.host == Some(sh.lower(raw.host.value)))
    && (IsVouchedFor(sh, raw) ==> e.host == Some("auth.openai.com"))
    && (e.host.Some? ==> e.host.value in KNOWN_SAFE_HOSTS)
  }

  lemma SafeEventReports(sh: Shapes, raw: RawEvent)
    ensures SafeEvent(sh, raw).Some? ==> Reports(sh, SafeEvent(sh, raw).value, raw)
  {
  }

  lemma {:induction false} SinceHolds(events: seq<RawEvent>, cursor: int)
    ensures forall e :: e in Since(events, cursor) ==> e in events && e.cursor.n > cursor
  {
    if events != [] {
      SinceHolds(events[1..], cursor);
      assert events == [events[0]] + events[1..];
    }
  }

  lemma {:induction false} PresentHolds(events: seq<Option<EvidenceEvent>>, i: nat) returns (j: nat)
    requires i < |Present(events)|
    ensures j < |events| && events[j] == Some(Present(events)[i])
  {
    if events[0].Some? && i == 0 {
      j := 0;
    } else {
      j := PresentHolds(events[1..], if events[0].Some? then i - 1 else i);
      j := j + 1;
    }
  }

  /**
   Whatever snapshot arrives, honest or not: each event of the evidence reports a received event of the
   window, and names no host outside the list.
   */
  lemma EvidenceReports(sh: Shapes, boundary: Option<RawBoundary>, end: Option<Snapshot>, i: nat) returns (raw: RawEvent)
    requires i < |EgressWindowEvidence(sh, boundary, end).events|
    ensures end.Some? && raw in end.value.events && Reports(sh, EgressWindowEvidence(sh, boundary, end).events[i], raw)
    ensures var e := EgressWindowEvidence(sh, boundary, end);
            e.start.Some? && e.events[i].cursor > e.start.value.cursor && |e.events| <= MAX_RETAINED_EVENTS
  {
    var start := SanitizeBoundary(sh, boundary).value;
    var since := Since(end.value.events, start.cursor);
    var candidate := SortByCursor(since);
    var shown := LastN(candidate, MAX_RETAINED_EVENTS);
    assert EgressWindowEvidence(sh, boundary, end) == Assess(sh, start, end.value, candidate);
    var j := PresentHolds(SafeEvents(sh, shown), i);
    raw := shown[j];
    SafeEventReports(sh, raw);
    SortSorts(since);
    assert raw in candidate;
    assert raw in multiset(candidate) && raw in multiset(since);
    SinceHolds(end.value.events, start.cursor);
    PresentShorter(SafeEvents(sh, shown));
  }

  lemma {:induction false} PresentShorter(events: seq<Option<EvidenceEvent>>)
    ensures |Present(events)| <= |events|
  {
    if events != [] {
      PresentShorter(events[1..]);
    }
  }

  // ---------------------------------------------------------------- snapshots of one journal

  /** One journal event as `/diagnostics` sends it outside the diagnostic mode. */
  function Diagnosed(projector: J.Projector, event: J.Event): RawEvent {
    RawEvent(ToNumber(event.cursor), ToNumber(event.verdict.port), Some(event.verdict.decision), event.verdict.reason,
             Some(event.verdict.observedAt), Some(event.verdict.host), None,
             Some(projector.fingerprint(event.verdict.host)))
  }

  function DiagnosedAll(projector: J.Projector, events: seq<J.Event>): (raw: seq<RawEvent>)
    ensures |raw| == |events|
    ensures forall i :: 0 <= i < |events| ==> raw[i] == Diagnosed(projector, events[i])
  {
    seq(|events|, i requires 0 <= i < |events| => Diagnosed(projector, events[i]))
  }

  /** The `/diagnostics` answer; nothing when projecting some retained event throws. */
  function Diagnostics(j: J.Journal, generation: string): Option<RawSnapshot> {
    if exists i :: 0 <= i < |j.events| && !J.Projectable(j.events[i]) then None
    else Some(RawSnapshot(generation, ToNumber(j.cursor), ToNumber(j.pendingConnects),
                          ToNumber(j.cursor - |j.events| + 1), Some(DiagnosedAll(j.projector, j.events))))
  }

  /** What the regular expressions and `toLowerCase` guarantee of identifiers. */
  ghost predicate Lawful(sh: Shapes) {
    forall g :: sh.isUuid(g) ==> sh.isUuid(sh.lower(g)) && sh.lower(sh.lower(g)) == sh.lower(g)
  }

  /** An event that the evidence can show. */
  predicate Reportable(sh: Shapes, projector: J.Projector, event: J.Event) {
    && 1 <= event.verdict.port <= 65535 && !event.verdict.reason.OtherReason?
    && sh.isIso(event.verdict.observedAt) && sh.isDigest(projector.fingerprint(event.verdict.host))
  }

  predicate AllReportable(sh: Shapes, projector: J.Projector, events: seq<J.Event>) {
    forall i :: 0 <= i < |events| ==> Reportable(sh, projector, events[i])
  }

  /** The diagnostics route can answer: every retained event of the log can be projected. */
  predicate Readable(log: seq<J.Event>) {
    forall i :: 0 <= i < |LastN(log, MAX_EVENTS)| ==> J.Projectable(LastN(log, MAX_EVENTS)[i])
  }

  lemma {:induction false} SinceOfConsecutive(events: seq<RawEvent>, first: int, cursor: int)
    requires Consecutive(events, first)
    ensures Since(events, cursor) == events[Min(|events|, Max(0, cursor - first))..]
  {
    if events != [] {
      assert Consecutive(events[1..], first + 1);
      SinceOfConsecutive(events[1..], first + 1, cursor);
      assert events == [events[0]] + events[1..];
    }
  }

  /** A log numbers its events from one. */
  predicate Numbered(log: seq<J.Event>) {
    |log| <= MAX_SAFE_INTEGER && forall i :: 0 <= i < |log| ==> log[i].cursor == i + 1
  }

  lemma DiagnosedDrop(projector: J.Projector, events: seq<J.Event>, n: nat)
    requires n <= |events|
    ensures DiagnosedAll(projector, events)[n..] == DiagnosedAll(projector, events[n..])
  {
  }

  lemma DiagnosedConsecutive(projector: J.Projector, log: seq<J.Event>, from: nat)
    requires Numbered(log) && from <= |log|
    ensures Consecutive(DiagnosedAll(projector, log[from..]), from)
  {
  }

  /** The candidates of a window are the log between its ends, as far back as the journal reaches. */
  lemma CandidatesOfWindow(projector: J.Projector, log: seq<J.Event>, from: nat)
    requires Numbered(log) && from <= |log| <= from + MAX_EVENTS
    ensures SortByCursor(Since(DiagnosedAll(projector, LastN(log, MAX_EVENTS)), from)) == DiagnosedAll(projector, log[from..])
    ensures Consecutive(DiagnosedAll(projector, log[from..]), from)
  {
    var kept := if |log| <= MAX_EVENTS then 0 else |log| - MAX_EVENTS;
    assert LastN(log, MAX_EVENTS) == log[kept..];
    CandidatesOfTail(projector, log, kept, from);
  }

  lemma CandidatesOfTail(projector: J.Projector, log: seq<J.Event>, kept: nat, from: nat)
    requires Numbered(log) && kept <= from <= |log|
    ensures SortByCursor(Since(DiagnosedAll(projector, log[kept..]), from)) == DiagnosedAll(projector, log[from..])
    ensures Consecutive(DiagnosedAll(projector, log[from..]), from)
  {
    DiagnosedConsecutive(projector, log, kept);
    SinceOfConsecutive(DiagnosedAll(projector, log[kept..]), kept, from);
    DiagnosedDrop(projector, log[kept..], from - kept);
    assert log[kept..][from - kept..] == log[from..];
    DiagnosedConsecutive(projector, log, from);
    SortOfConsecutive(DiagnosedAll(projector, log[from..]), from);
  }

  lemma SortOfConsecutive(events: seq<RawEvent>, from: int)
    requires Consecutive(events, from)
    ensures Counted(events) && SortByCursor(events) == events
  {
    SortOfSorted(events);
  }

  lemma ProjectedIffReportable(sh: Shapes, projector: J.Projector, events: seq<J.Event>)
    requires forall i :: 0 <= i < |events| ==> 1 <= events[i].cursor <= MAX_SAFE_INTEGER
    ensures AllPresent(SafeEvents(sh, DiagnosedAll(projector, events))) <==> AllReportable(sh, projector, events)
  {
    forall i | 0 <= i < |events|
      ensures SafeEvents(sh, DiagnosedAll(projector, events))[i].Some? <==> Reportable(sh, projector, events[i])
    {
    }
  }

  /** A snapshot that holds the tail of a log. */
  predicate HoldsTail(end: Snapshot, projector: J.Projector, log: seq<J.Event>) {
    && end.cursor == |log|
    && end.events == DiagnosedAll(projector, LastN(log, MAX_EVENTS))
    && end.earliestRetainedCursor == |log| - |end.events| + 1
  }

  predicate Quiet(start: WindowBoundary, end: Snapshot) {
    start.pendingConnects == 0 && end.pendingConnects == 0
  }

  /** The events of a window that the evidence would show. */
  function Shown(log: seq<J.Event>, from: nat): seq<J.Event>
    requires from <= |log|
  {
    LastN(log[from..], MAX_RETAINED_EVENTS)
  }

  /** The reason for a window of `n` decisions whose ends could both be read. */
  function ReasonOf(quiet: bool, n: nat, reportable: bool): Completeness {
    if !quiet then ConnectionsInFlight
    else if n > MAX_EVENTS then JournalOverwritten
    else if !reportable then EventProjectionInvalid
    else if n > MAX_RETAINED_EVENTS then EvidenceOutputCapped
    else AllRetained
  }

  /** The verdict on a window of a log, by what was in flight, how many decisions it holds, and whether they can be shown. */
  lemma EvidenceOfTail(sh: Shapes, projector: J.Projector, log: seq<J.Event>, start: WindowBoundary, end: Snapshot)
    requires Numbered(log) && HoldsTail(end, projector, log)
    requires SanitizeBoundary(sh, Some(Received(start))) == Some(start)
    requires start.generation == end.generation && start.cursor <= |log|
    ensures var e := EgressWindowEvidence(sh, Some(Received(start)), Some(end));
            var n := |log| - start.cursor;
            var reportable := AllReportable(sh, projector, Shown(log, start.cursor));
            && e.observedCount == Some(n)
            && (e.availability == Complete <==> Quiet(start, end) && n <= MAX_RETAINED_EVENTS && reportable)
            && e.reason == ReasonOf(Quiet(start, end), n, reportable)
  {
    var candidate := SortByCursor(Since(end.events, start.cursor));
    assert EgressWindowEvidence(sh, Some(Received(start)), Some(end)) == Assess(sh, start, end, candidate);
    if |log| - start.cursor <= MAX_EVENTS {
      CandidatesOfWindow(projector, log, start.cursor);
      LastOfDiagnosed(sh, projector, log[start.cursor..]);
      AssessedSlice(sh, projector, log[start.cursor..], start, end);
    }
  }

  /** The judgement on a window that the end snapshot reaches back over. */
  lemma AssessedSlice(sh: Shapes, projector: J.Projector, slice: seq<J.Event>, start: WindowBoundary, end: Snapshot)
    requires Consecutive(DiagnosedAll(projector, slice), start.cursor) && end.cursor - start.cursor == |slice|
    requires end.earliestRetainedCursor <= start.cursor + 1 && |slice| <= MAX_EVENTS
    requires AllPresent(SafeEvents(sh, LastN(DiagnosedAll(projector, slice), MAX_RETAINED_EVENTS)))
        <==> AllReportable(sh, projector, LastN(slice, MAX_RETAINED_EVENTS))
    ensures var e := Assess(sh, start, end, DiagnosedAll(projector, slice));
            var reportable := AllReportable(sh, projector, LastN(slice, MAX_RETAINED_EVENTS));
            && e.observedCount == Some(|slice|)
            && (e.availability == Complete <==> Quiet(start, end) && |slice| <= MAX_RETAINED_EVENTS && reportable)
            && e.reason == ReasonOf(Quiet(start, end), |slice|, reportable)
  {
  }

  lemma LastOfDiagnosed(sh: Shapes, projector: J.Projector, slice: seq<J.Event>)
    requires forall i :: 0 <= i < |slice| ==> 1 <= slice[i].cursor <= MAX_SAFE_INTEGER
    ensures AllPresent(SafeEvents(sh, LastN(DiagnosedAll(projector, slice), MAX_RETAINED_EVENTS)))
       <==> AllReportable(sh, projector, LastN(slice, MAX_RETAINED_EVENTS))
  {
    var window := LastN(slice, MAX_RETAINED_EVENTS);
    assert LastN(DiagnosedAll(projector, slice), MAX_RETAINED_EVENTS) == DiagnosedAll(projector, window);
    ProjectedIffReportable(sh, projector, window);
  }

  /** The events that are shown: the latest twenty of the window, when all of them can be. */
  lemma EventsOfTail(sh: Shapes, projector: J.Projector, log: seq<J.Event>, start: WindowBoundary, end: Snapshot)
    requires Numbered(log) && HoldsTail(end, projector, log)
    requires SanitizeBoundary(sh, Some(Received(start))) == Some(start)
    requires start.generation == end.generation && start.cursor <= |log| <= start.cursor + MAX_EVENTS
    requires AllReportable(sh, projector, Shown(log, start.cursor))
    ensures var e, shown := EgressWindowEvidence(sh, Some(Received(start)), Some(end)), Shown(log, start.cursor);
            && |e.events| == |shown|
            && forall n :: 0 <= n < |shown| ==> Some(e.events[n]) == SafeEvent(sh, Diagnosed(projector, shown[n]))
  {
    CandidatesOfWindow(projector, log, start.cursor);
    var slice, shown := log[start.cursor..], Shown(log, start.cursor);
    assert LastN(DiagnosedAll(projector, slice), MAX_RETAINED_EVENTS) == DiagnosedAll(projector, shown);
    ProjectedIffReportable(sh, projector, shown);
    PresentOfAll(SafeEvents(sh, DiagnosedAll(projector, shown)));
  }

  // ---------------------------------------------------------------- any two snapshots of a run

  lemma InvBoundsEvents(w: J.World)
    requires J.Inv(w) && w.j.maxEvents == MAX_EVENTS
    ensures w.j.events == LastN(w.log, MAX_EVENTS) && w.j.cursor == |w.log| == |w.makers|
    ensures forall i :: 0 <= i < |w.log| ==> w.log[i].cursor == i + 1
    ensures w.j.pendingConnects == |J.InFlight(w)| == |w.begun| - |w.log|
  {
    J.InFlightIsBegunMinusRecorded(w);
  }

  /** The snapshot of a journal, once validated. */
  function ValidatedView(sh: Shapes, w: J.World, generation: string, observedAt: string): Snapshot {
    var kept := LastN(w.log, MAX_EVENTS);
    Snapshot(sh.lower(generation), |w.log|, |J.InFlight(w)|, |w.log| - |kept| + 1, observedAt, DiagnosedAll(w.j.projector, kept))
  }

  /** What the worker reads of a journal: the tail of its log, or nothing while some event in it cannot be projected. */
  lemma SnapshotOfJournal(sh: Shapes, w: J.World, generation: string, observedAt: string)
    requires J.Inv(w) && w.j.maxEvents == MAX_EVENTS && |w.begun| <= MAX_SAFE_INTEGER
    requires sh.isUuid(generation) && sh.isIso(observedAt)
    ensures ValidatedSnapshot(sh, Diagnostics(w.j, generation), observedAt)
         == if Readable(w.log) then Some(ValidatedView(sh, w, generation, observedAt)) else None
  {
    InvBoundsEvents(w);
  }

  /** An evidence event says of a log entry, field by field, when and how it was decided, and its host only if listed. */
  predicate ShowsEntry(sh: Shapes, projector: J.Projector, e: EvidenceEvent, entry: J.Event) {
    var v := entry.verdict;
    var listed := sh.isHost(v.host) && |v.host| <= 253 && sh.lower(v.host) in KNOWN_SAFE_HOSTS;
    && e.cursor == entry.cursor && e.port == v.port && e.decision == v.decision && e.reason == v.reason
    && e.observedAt == v.observedAt && e.fingerprint == sh.upper(projector.fingerprint(v.host))
    && (e.knownProvider <==> listed)
    && e.host == if listed then Some(sh.lower(v.host)) else None
  }

  lemma DiagnosedShows(sh: Shapes, projector: J.Projector, e: EvidenceEvent, entry: J.Event)
    requires Reports(sh, e, Diagnosed(projector, entry)) && entry.cursor <= MAX_SAFE_INTEGER
    ensures ShowsEntry(sh, projector, e, entry)
  {
  }

  lemma BoundaryOfSnapshot(sh: Shapes, s: Snapshot)
    requires Lawful(sh) && sh.isIso(s.observedAt) && exists g :: sh.isUuid(g) && s.generation == sh.lower(g)
    requires s.cursor <= MAX_SAFE_INTEGER && s.pendingConnects <= MAX_SAFE_INTEGER
    ensures InitialEgressBoundary(sh, Some(s)) == Some(StartOf(s))
    ensures SanitizeBoundary(sh, Some(Received(StartOf(s)))) == Some(StartOf(s))
  {
  }

  /** The evidence a worker draws from a boundary taken at one world and a snapshot taken at a later one. */
  function WindowOf(sh: Shapes, start: J.World, end: J.World, generation: string, t0: string, t1: string): Evidence {
    var boundary := InitialEgressBoundary(sh, ValidatedSnapshot(sh, Diagnostics(start.j, generation), t0));
    EgressWindowEvidence(sh, if boundary.Some? then Some(Received(boundary.value)) else None,
                         ValidatedSnapshot(sh, Diagnostics(end.j, generation), t1))
  }

  /** Two moments of one run of an 80-event journal, in order. */
  ghost predicate Observable(sh: Shapes, run: seq<J.World>, projector: J.Projector, i: nat, k: nat,
                             generation: string, t0: string, t1: string) {
    && J.IsRun(run, MAX_EVENTS, projector) && i <= k < |run|
    && Lawful(sh) && sh.isUuid(generation) && sh.isIso(t0) && sh.isIso(t1)
    && |run[k].begun| <= MAX_SAFE_INTEGER
  }

  lemma WorldsOfRun(run: seq<J.World>, projector: J.Projector, i: nat, k: nat)
    requires J.IsRun(run, MAX_EVENTS, projector) && i <= k < |run|
    ensures J.Inv(run[i]) && J.Inv(run[k]) && J.Extends(run[i], run[k])
    ensures run[i].j.maxEvents == run[k].j.maxEvents == MAX_EVENTS
    ensures run[i].j.projector == run[k].j.projector == projector
    ensures |run[i].log| <= |run[i].begun| <= |run[k].begun|
    ensures |run[i].log| <= |run[k].log| == |run[k].makers| <= |run[k].begun|
  {
    J.RunKeepsInv(run, MAX_EVENTS, projector, i);
    J.RunKeepsInv(run, MAX_EVENTS, projector, k);
    J.RunExtends(run, MAX_EVENTS, projector, i, k);
    InvBoundsEvents(run[i]);
    InvBoundsEvents(run[k]);
    SubsetCardinality(run[i].begun.Keys, run[k].begun.Keys);
    assert |run[i].begun.Keys| == |run[i].begun| && |run[k].begun.Keys| == |run[k].begun|;
  }

  lemma WindowEnds(sh: Shapes, run: seq<J.World>, projector: J.Projector, i: nat, k: nat,
                   generation: string, t0: string, t1: string)
    requires Observable(sh, run, projector, i, k, generation, t0, t1) && Readable(run[i].log) && Readable(run[k].log)
    ensures var start := StartOf(ValidatedView(sh, run[i], generation, t0));
            var end := ValidatedView(sh, run[k], generation, t1);
            && WindowOf(sh, run[i], run[k], generation, t0, t1) == EgressWindowEvidence(sh, Some(Received(start)), Some(end))
            && SanitizeBoundary(sh, Some(Received(start))) == Some(start)
            && HoldsTail(end, projector, run[k].log)
            && (Quiet(start, end) <==> J.InFlight(run[i]) == {} && J.InFlight(run[k]) == {})
    ensures Numbered(run[k].log) && |run[i].log| <= |run[k].log|
  {
    WorldsOfRun(run, projector, i, k);
    InvBoundsEvents(run[i]);
    InvBoundsEvents(run[k]);
    SnapshotOfJournal(sh, run[i], generation, t0);
    SnapshotOfJournal(sh, run[k], generation, t1);
    BoundaryOfSnapshot(sh, ValidatedView(sh, run[i], generation, t0));
  }

  /** Without a readable journal at either end there is no evidence. */
  lemma UnreadableEnds(sh: Shapes, run: seq<J.World>, projector: J.Projector, i: nat, k: nat,
                       generation: string, t0: string, t1: string)
    requires Observable(sh, run, projector, i, k, generation, t0, t1) && !(Readable(run[i].log) && Readable(run[k].log))
    ensures WindowOf(sh, run[i], run[k], generation, t0, t1)
         == Evidence(Unavailable, if !Readable(run[i].log) then StartBoundaryUnavailable else EndSnapshotUnavailable,
                     None, None, None, [])
  {
    WorldsOfRun(run, projector, i, k);
    SnapshotOfJournal(sh, run[i], generation, t0);
    SnapshotOfJournal(sh, run[k], generation, t1);
    if Readable(run[i].log) {
      InvBoundsEvents(run[i]);
      BoundaryOfSnapshot(sh, ValidatedView(sh, run[i], generation, t0));
    }
  }

  /**
   Every verdict on two moments of a run. There is evidence unless an event retained at either end
   cannot be projected. It is `COMPLETE` exactly when nothing was in flight at either end and at most
   twenty decisions lie between, all of which can be shown; otherwise the reason tells which of
   these failed. An incomplete sequence is never the reason.
   */
  lemma WindowVerdict(sh: Shapes, run: seq<J.World>, projector: J.Projector, i: nat, k: nat,
                      generation: string, t0: string, t1: string)
    requires Observable(sh, run, projector, i, k, generation, t0, t1)
    ensures |run[i].log| <= |run[k].log|
    ensures var e := WindowOf(sh, run[i], run[k], generation, t0, t1);
            var n := |run[k].log| - |run[i].log|;
            var quiet := J.InFlight(run[i]) == {} && J.InFlight(run[k]) == {};
            var reportable := AllReportable(sh, projector, Shown(run[k].log, |run[i].log|));
            if !Readable(run[i].log) then e.availability == Unavailable && e.reason == StartBoundaryUnavailable
            else if !Readable(run[k].log) then e.availability == Unavailable && e.reason == EndSnapshotUnavailable
            else
              && e.observedCount == Some(n)
              && (e.availability == Complete <==> quiet && n <= MAX_RETAINED_EVENTS && reportable)
              && e.reason == ReasonOf(quiet, n, reportable)
  {
    WorldsOfRun(run, projector, i, k);
    if Readable(run[i].log) && Readable(run[k].log) {
      WindowEnds(sh, run, projector, i, k, generation, t0, t1);
      EvidenceOfTail(sh, projector, run[k].log, StartOf(ValidatedView(sh, run[i], generation, t0)),
                     ValidatedView(sh, run[k], generation, t1));
    } else {
      UnreadableEnds(sh, run, projector, i, k, generation, t0, t1);
    }
  }

  /** Evidence of a window of up to eighty decisions shows the latest twenty of them, entry by entry, when all can be shown. */
  lemma WindowShowsLatest(sh: Shapes, run: seq<J.World>, projector: J.Projector, i: nat, k: nat,
                          generation: string, t0: string, t1: string)
    requires Observable(sh, run, projector, i, k, generation, t0, t1) && Readable(run[i].log) && Readable(run[k].log)
    requires |run[i].log| <= |run[k].log| <= |run[i].log| + MAX_EVENTS
    requires AllReportable(sh, projector, Shown(run[k].log, |run[i].log|))
    ensures var e, shown := WindowOf(sh, run[i], run[k], generation, t0, t1), Shown(run[k].log, |run[i].log|);
            && |e.events| == |shown|
            && forall n :: 0 <= n < |shown| ==> ShowsEntry(sh, projector, e.events[n], shown[n])
  {
    WindowEnds(sh, run, projector, i, k, generation, t0, t1);
    var e, shown := WindowOf(sh, run[i], run[k], generation, t0, t1), Shown(run[k].log, |run[i].log|);
    EventsOfTail(sh, projector, run[k].log, StartOf(ValidatedView(sh, run[i], generation, t0)),
                 ValidatedView(sh, run[k], generation, t1));
    forall n | 0 <= n < |shown| ensures ShowsEntry(sh, projector, e.events[n], shown[n]) {
      SafeEventReports(sh, Diagnosed(projector, shown[n]));
      DiagnosedShows(sh, projector, e.events[n], shown[n]);
    }
  }

  /** Complete evidence shows exactly the log slice between the two snapshots, entry by entry. */
  lemma CompleteWindowIsLogSlice(sh: Shapes, run: seq<J.World>, projector: J.Projector, i: nat, k: nat,
                                 generation: string, t0: string, t1: string)
    requires Observable(sh, run, projector, i, k, generation, t0, t1)
    requires WindowOf(sh, run[i], run[k], generation, t0, t1).availability == Complete
    ensures |run[i].log| <= |run[k].log|
    ensures var e := WindowOf(sh, run[i], run[k], generation, t0, t1);
            var slice := run[k].log[|run[i].log|..];
            && |e.events| == |slice|
            && forall n :: 0 <= n < |slice| ==> ShowsEntry(sh, projector, e.events[n], slice[n])
  {
    WindowVerdict(sh, run, projector, i, k, generation, t0, t1);
    assert Shown(run[k].log, |run[i].log|) == run[k].log[|run[i].log|..];
    WindowShowsLatest(sh, run, projector, i, k, generation, t0, t1);
  }

  /** Nothing in flight means every connection begun has been recorded. */
  lemma QuietMeansAllRecorded(w: J.World)
    requires J.Inv(w) && J.InFlight(w) == {}
    ensures J.Elements(w.makers) == w.begun.Keys
  {
    forall c | c in w.begun ensures c in w.makers {
      assert c !in J.InFlight(w);
    }
  }

  lemma LaterElements(before: seq<J.Connection>, after: seq<J.Connection>)
    requires before <= after && Distinct(after)
    ensures J.Elements(after[|before|..]) == J.Elements(after) - J.Elements(before)
  {
    var later := after[|before|..];
    assert after == before + later;
    forall c | c in later ensures c !in before {
      var n :| 0 <= n < |later| && later[n] == c;
      assert after[|before| + n] == c;
    }
  }

  /** Hence complete evidence accounts for exactly the connections begun inside the window. */
  lemma CompleteWindowIsConnectionsBegun(sh: Shapes, run: seq<J.World>, projector: J.Projector, i: nat, k: nat,
                                         generation: string, t0: string, t1: string)
    requires Observable(sh, run, projector, i, k, generation, t0, t1)
    requires WindowOf(sh, run[i], run[k], generation, t0, t1).availability == Complete
    ensures |run[i].log| <= |run[k].makers|
    ensures J.Elements(run[k].makers[|run[i].log|..]) == run[k].begun.Keys - run[i].begun.Keys
  {
    WindowVerdict(sh, run, projector, i, k, generation, t0, t1);
    WorldsOfRun(run, projector, i, k);
    QuietMeansAllRecorded(run[i]);
    QuietMeansAllRecorded(run[k]);
    InvBoundsEvents(run[i]);
    LaterElements(run[i].makers, run[k].makers);
  }
}
