/**
 The bounded journal of CONNECT decisions kept by the egress proxy, and the phases
 that a diagnostic run opens and closes on it.

 `Journal` is the state of the journal object as a value, and the functions over it
 are its event-loop turns. `World` adds what the proxy itself never stores: every
 decision ever recorded, which connection made it, and which connections were begun.
 The module `EgressProxyJournal` holds the journal object as the proxy runs it; each of
 its methods is proved to perform one of these turns.
 */
module PhaseJournal {
  import opened Common

  /** A phase name; `OtherPhase` is any text outside the known list. */
  datatype Phase =
    | AppServerStartup
    | Initialize
    | PostInitializeIdle
    | AccountLoginStart
    | DeviceCodeUserCodeRequest
    | PostRequestProcessing
    | OtherPhase(name: string)

  datatype Decision = Allow | Deny

  datatype Reason =
    | InvalidAuthority
    | DnsLookupFailed
    | PortNotAllowed
    | HostNotAllowlisted
    | NonPublicDnsResult
    | UpstreamConnectFailed
    | PublicAllowlistedTls
    | OtherReason(text: string)

  /** A phase token: a fresh random identifier. */
  type Token = nat

  /** Names one run of the proxy's CONNECT handler. */
  type Connection = nat

  /** Names one call of `endPhase` that is waiting for its phase to drain. */
  type CallId = nat

  /** What a handler passes to `finishConnect`, with the clock readings taken there. */
  datatype Verdict = Verdict(host: string, port: int, decision: Decision, reason: Reason,
                             observedAt: string, observedNs: nat)

  datatype Event = Event(cursor: nat, verdict: Verdict, phaseToken: Option<Token>)

  datatype Boundary = Boundary(phase: Phase, token: Token, startedNs: nat, beforeCursor: nat, beforeCount: nat)

  datatype Classification = ApprovedAuthHost | OtherHostRedacted

  /** An event as it leaves the proxy: the host is replaced by a class and a keyed fingerprint. */
  datatype Projected = Projected(cursor: nat, classification: Classification, fingerprint: string, port: int,
                                 decision: Decision, reason: Reason, observedAt: string, observedNs: nat, count: nat)

  /** The journal's key, as the two functions of a host that projection computes with it. */
  datatype Projector = Projector(isAuthHost: string -> bool, fingerprint: string -> string)

  datatype PhaseResult = PhaseResult(phase: Phase, startedNs: nat, endedNs: nat, beforeCursor: nat, afterCursor: nat,
                                     beforeCount: nat, afterCount: nat, count: nat, events: seq<Projected>)

  /** Whether an `endPhase` call has to wait, and how it was woken: `Ready` never slept. */
  datatype Wake = Ready | Asleep | Drained | TimedOut

  datatype EndCall = EndCall(boundary: Boundary, wake: Wake)

  datatype EndError = NotActive | NotDrained | Incomplete | EventInvalid

  datatype Journal = Journal(
    maxEvents: int,
    projector: Projector,
    events: seq<Event>,
    cursor: nat,
    pendingConnects: nat,
    active: Option<Boundary>,
    phaseCounts: map<Token, nat>,
    pendingByPhase: map<Token, nat>,
    waiters: map<Token, CallId>,
    calls: map<CallId, EndCall>)

  /** The phases that the journal knows. */
  const AUTH_AB_PHASES: seq<Phase> :=
    [AppServerStartup, Initialize, PostInitializeIdle, AccountLoginStart, PostRequestProcessing]

  predicate IsJournalPhase(phase: Phase) {
    phase != DeviceCodeUserCodeRequest && !phase.OtherPhase?
  }

  lemma JournalPhases(phase: Phase)
    ensures IsJournalPhase(phase) <==> phase in AUTH_AB_PHASES
  {
    assert AUTH_AB_PHASES[0] == AppServerStartup && AUTH_AB_PHASES[1] == Initialize && AUTH_AB_PHASES[2] == PostInitializeIdle;
    assert AUTH_AB_PHASES[3] == AccountLoginStart && AUTH_AB_PHASES[4] == PostRequestProcessing;
  }

  function Empty(maxEvents: int, projector: Projector): Journal {
    Journal(maxEvents, projector, [], 0, 0, None, map[], map[], map[], map[])
  }

  // ---------------------------------------------------------------- projection

  predicate Projectable(event: Event) {
    && 1 <= |event.verdict.host| <= 253
    && event.cursor >= 1
    && 1 <= event.verdict.port <= 65535
    && !event.verdict.reason.OtherReason?
  }

  function Project(projector: Projector, event: Event): Projected {
    var v := event.verdict;
    Projected(event.cursor,
              if projector.isAuthHost(v.host) then ApprovedAuthHost else OtherHostRedacted,
              projector.fingerprint(v.host), v.port, v.decision, v.reason, v.observedAt, v.observedNs, 1)
  }

  function ProjectAll(projector: Projector, events: seq<Event>): (projected: seq<Projected>)
    ensures |projected| == |events|
    ensures forall i :: 0 <= i < |events| ==> projected[i] == Project(projector, events[i])
  {
    seq(|events|, i requires 0 <= i < |events| => Project(projector, events[i]))
  }

  function TokenEvents(events: seq<Event>, token: Token): seq<Event> {
    if events == [] then []
    else
      var last := |events| - 1;
      TokenEvents(events[..last], token) + (if events[last].phaseToken == Some(token) then [events[last]] else [])
  }

  predicate AllOf(events: seq<Event>, token: Token) {
    forall i :: 0 <= i < |events| ==> events[i].phaseToken == Some(token)
  }

  // ---------------------------------------------------------------- turns

  function BeginConnect(j: Journal): (Journal, Option<Token>) {
    var counted := j.(pendingConnects := j.pendingConnects + 1);
    match j.active
    case None => (counted, None)
    case Some(b) =>
      (counted.(pendingByPhase := j.pendingByPhase[b.token := GetOr(j.pendingByPhase, b.token, 0) + 1]), Some(b.token))
  }

  function Retain(events: seq<Event>, maxEvents: int): seq<Event> {
    if |events| > maxEvents && |events| > 0 then events[1..] else events
  }

  /** JavaScript's `(value || 1) - 1`, clipped at zero. */
  function Decrement(pending: nat): nat {
    if pending == 0 then 0 else pending - 1
  }

  function Wakened(calls: map<CallId, EndCall>, call: CallId): map<CallId, EndCall> {
    if call in calls && calls[call].wake.Asleep? then calls[call := calls[call].(wake := Drained)] else calls
  }

  function FinishConnect(j: Journal, token: Option<Token>, verdict: Verdict): (Journal, Event) {
    var event := Event(j.cursor + 1, verdict, token);
    var recorded := j.(pendingConnects := Max(0, j.pendingConnects - 1), cursor := j.cursor + 1,
                       events := Retain(j.events + [event], j.maxEvents));
    match token
    case None => (recorded, event)
    case Some(t) =>
      var pending := Decrement(GetOr(j.pendingByPhase, t, 1));
      var counted := recorded.(phaseCounts := j.phaseCounts[t := GetOr(j.phaseCounts, t, 0) + 1],
                               pendingByPhase := j.pendingByPhase[t := pending]);
      (if pending == 0 && t in j.waiters then counted.(calls := Wakened(j.calls, j.waiters[t])) else counted, event)
  }

  function BeginPhase(j: Journal, phase: Phase, token: Token, startedNs: nat): Option<(Journal, Boundary)> {
    if !IsJournalPhase(phase) || j.active.Some? then None
    else
      var boundary := Boundary(phase, token, startedNs, j.cursor, |j.events|);
      Some((j.(active := Some(boundary),
               phaseCounts := j.phaseCounts[token := 0],
               pendingByPhase := j.pendingByPhase[token := 0]), boundary))
  }

  /** `endPhase` up to its suspension: refused, or suspended as `call`. */
  function EndPhaseCall(j: Journal, call: CallId, token: Token): Option<Journal> {
    if j.active.None? || j.active.value.token != token then None
    else if GetOr(j.pendingByPhase, token, 0) == 0 then
      Some(j.(calls := j.calls[call := EndCall(j.active.value, Ready)]))
    else
      Some(j.(calls := j.calls[call := EndCall(j.active.value, Asleep)], waiters := j.waiters[token := call]))
  }

  /** The drain timer of a suspended call fires. */
  function WaiterTimeout(j: Journal, call: CallId): Journal
    requires call in j.calls && j.calls[call].wake.Asleep?
  {
    j.(calls := j.calls[call := j.calls[call].(wake := TimedOut)])
  }

  /** Whether the retained events of `boundary`'s phase account for the whole cursor interval. */
  predicate Accounted(j: Journal, boundary: Boundary) {
    var raw := TokenEvents(j.events, boundary.token);
    var expected := GetOr(j.phaseCounts, boundary.token, 0);
    && |raw| == expected
    && expected <= j.maxEvents
    && j.cursor - boundary.beforeCursor == |raw|
    && (|raw| > 0 ==> raw[0].cursor > boundary.beforeCursor)
  }

  /** `endPhase` from its resumption to its return or throw. */
  function EndPhaseResume(j: Journal, call: CallId, endedNs: nat): (Journal, Result<PhaseResult, EndError>)
    requires call in j.calls && !j.calls[call].wake.Asleep?
  {
    var EndCall(boundary, wake) := j.calls[call];
    var token := boundary.token;
    var resumed := j.(calls := j.calls - {call}, waiters := if wake.Ready? then j.waiters else j.waiters - {token});
    if wake.TimedOut? then (resumed.(active := None), Failure(NotDrained))
    else if !Accounted(j, boundary) then (resumed.(active := None), Failure(Incomplete))
    else
      var raw := TokenEvents(j.events, token);
      if exists i :: 0 <= i < |raw| && !Projectable(raw[i]) then (resumed, Failure(EventInvalid))
      else
        (resumed.(active := None, pendingByPhase := j.pendingByPhase - {token}, phaseCounts := j.phaseCounts - {token},
                  waiters := resumed.waiters - {token}),
         Success(PhaseResult(boundary.phase, boundary.startedNs, endedNs, boundary.beforeCursor, j.cursor,
                             boundary.beforeCount, |j.events|, |raw|, ProjectAll(j.projector, raw))))
  }

  // ---------------------------------------------------------------- runs

  /** The journal together with everything that has happened to it. */
  datatype World = World(
    j: Journal,
    log: seq<Event>,
    makers: seq<Connection>,
    begun: map<Connection, Option<Token>>,
    started: map<Token, nat>,
    callIds: set<CallId>)

  datatype Step =
    | Begin(connection: Connection)
    | Finish(connection: Connection, verdict: Verdict)
    | Open(phase: Phase, token: Token, ns: nat)
    | Call(call: CallId, token: Token)
    | Timeout(call: CallId)
    | Resume(call: CallId, ns: nat)

  function InitialWorld(maxEvents: int, projector: Projector): World {
    World(Empty(maxEvents, projector), [], [], map[], map[], {})
  }

  /**
   What the environment guarantees: handlers and tokens are fresh, a handler records at
   most one verdict, and only a suspended call can time out or resume.
   */
  predicate Enabled(w: World, step: Step) {
    match step
    case Begin(c) => c !in w.begun
    case Finish(c, _) => c in w.begun && c !in w.makers
    case Open(_, token, _) => token !in w.started
    case Call(call, _) => call !in w.callIds
    case Timeout(call) => call in w.j.calls && w.j.calls[call].wake.Asleep?
    case Resume(call, _) => call in w.j.calls && !w.j.calls[call].wake.Asleep?
  }

  function Next(w: World, step: Step): World
    requires Enabled(w, step)
  {
    match step
    case Begin(c) =>
      var (j, token) := BeginConnect(w.j);
      w.(j := j, begun := w.begun[c := token])
    case Finish(c, verdict) =>
      var (j, event) := FinishConnect(w.j, w.begun[c], verdict);
      w.(j := j, log := w.log + [event], makers := w.makers + [c])
    case Open(phase, token, ns) =>
      (match BeginPhase(w.j, phase, token, ns)
       case None => w
       case Some((j, boundary)) => w.(j := j, started := w.started[token := w.j.cursor]))
    case Call(call, token) =>
      (match EndPhaseCall(w.j, call, token)
       case None => w
       case Some(j) => w.(j := j, callIds := w.callIds + {call}))
    case Timeout(call) => w.(j := WaiterTimeout(w.j, call))
    case Resume(call, ns) => w.(j := EndPhaseResume(w.j, call, ns).0)
  }

  ghost predicate IsRun(run: seq<World>, maxEvents: int, projector: Projector) {
    && |run| > 0
    && run[0] == InitialWorld(maxEvents, projector)
    && forall i :: 0 < i < |run| ==> Follows(run[i - 1], run[i])
  }

  ghost predicate Follows(before: World, after: World) {
    exists step :: Enabled(before, step) && after == Next(before, step)
  }

  // ---------------------------------------------------------------- invariant

  /** Connections begun and not yet recorded. */
  function InFlight(w: World): set<Connection> {
    set c | c in w.begun && c !in w.makers
  }

  function InFlightOf(w: World, token: Token): set<Connection> {
    set c | c in w.begun && c !in w.makers && w.begun[c] == Some(token)
  }

  predicate LogValid(w: World) {
    && w.j.cursor == |w.log| == |w.makers|
    && (forall i :: 0 <= i < |w.log| ==> w.log[i].cursor == i + 1)
    && w.j.events == LastN(w.log, Max(0, w.j.maxEvents))
    && Distinct(w.makers)
    && (forall i :: 0 <= i < |w.makers| ==> w.makers[i] in w.begun && w.begun[w.makers[i]] == w.log[i].phaseToken)
    && w.j.pendingConnects == |InFlight(w)|
  }

  /** A boundary is honest when it repeats the cursor at which its phase began, and the events retained then. */
  predicate Honest(w: World, boundary: Boundary) {
    && boundary.token in w.started && w.started[boundary.token] == boundary.beforeCursor
    && boundary.beforeCount == Min(boundary.beforeCursor, Max(0, w.j.maxEvents))
    && IsJournalPhase(boundary.phase)
  }

  predicate PhasesValid(w: World) {
    && (forall t :: t in w.started ==> w.started[t] <= |w.log|)
    && (forall c :: c in w.begun && w.begun[c].Some? ==> w.begun[c].value in w.started)
    && (forall i :: 0 <= i < |w.log| && w.log[i].phaseToken.Some?
                    ==> w.log[i].phaseToken.value in w.started && w.started[w.log[i].phaseToken.value] <= i)
    && (w.j.active.Some? ==> Honest(w, w.j.active.value))
    && (forall c :: c in w.j.calls ==> c in w.callIds && Honest(w, w.j.calls[c].boundary))
    && (forall t :: t in w.j.waiters ==> w.j.waiters[t] in w.callIds)
  }

  /** The open phase's two counters say what the log and the connections in flight say. */
  predicate ActiveCounted(w: World) {
    w.j.active.Some? ==>
      var t := w.j.active.value.token;
      && t in w.j.phaseCounts && w.j.phaseCounts[t] == |TokenEvents(w.log, t)|
      && t in w.j.pendingByPhase && w.j.pendingByPhase[t] == |InFlightOf(w, t)|
  }

  predicate Inv(w: World) {
    LogValid(w) && PhasesValid(w) && ActiveCounted(w)
  }

  lemma TokenEventsAppend(events: seq<Event>, event: Event, token: Token)
    ensures TokenEvents(events + [event], token)
         == TokenEvents(events, token) + (if event.phaseToken == Some(token) then [event] else [])
  {
    assert (events + [event])[..|events|] == events;
  }

  lemma {:induction false} TokenEventsNone(events: seq<Event>, token: Token)
    requires forall i :: 0 <= i < |events| ==> events[i].phaseToken != Some(token)
    ensures TokenEvents(events, token) == []
  {
    if events != [] {
      TokenEventsNone(events[..|events| - 1], token);
    }
  }

  /** A filter never lengthens, and keeps the full length only when it drops nothing. */
  lemma {:induction false} TokenEventsLength(events: seq<Event>, token: Token)
    ensures |TokenEvents(events, token)| <= |events|
    ensures |TokenEvents(events, token)| == |events| <==> AllOf(events, token)
    ensures AllOf(events, token) ==> TokenEvents(events, token) == events
  {
    if events != [] {
      var last := |events| - 1;
      TokenEventsLength(events[..last], token);
      AllOfSplit(events, token);
    }
  }

  lemma AllOfSplit(events: seq<Event>, token: Token)
    requires events != []
    ensures var last := |events| - 1;
            AllOf(events, token) <==> AllOf(events[..last], token) && events[last].phaseToken == Some(token)
  {
    var last := |events| - 1;
    if AllOf(events[..last], token) && events[last].phaseToken == Some(token) {
      forall i | 0 <= i < |events|
        ensures events[i].phaseToken == Some(token)
      {
        assert i < last ==> events[i] == events[..last][i];
      }
    }
  }

  lemma {:induction false} TokenEventsSplit(a: seq<Event>, b: seq<Event>, token: Token)
    ensures TokenEvents(a + b, token) == TokenEvents(a, token) + TokenEvents(b, token)
  {
    if b == [] {
      assert a + b == a;
    } else {
      var last := |b| - 1;
      TokenEventsSplit(a, b[..last], token);
      assert a + b == (a + b[..last]) + [b[last]];
      TokenEventsAppend(a + b[..last], b[last], token);
    }
  }

  lemma InvInitially(maxEvents: int, projector: Projector)
    ensures Inv(InitialWorld(maxEvents, projector))
  {
    assert InFlight(InitialWorld(maxEvents, projector)) == {};
  }

  lemma BeginKeepsLog(w: World, c: Connection)
    requires LogValid(w) && Enabled(w, Begin(c))
    ensures LogValid(Next(w, Begin(c)))
  {
    assert InFlight(Next(w, Begin(c))) == InFlight(w) + {c};
  }

  lemma BeginKeepsPhases(w: World, c: Connection)
    requires PhasesValid(w) && Enabled(w, Begin(c))
    ensures PhasesValid(Next(w, Begin(c)))
  {
  }

  lemma BeginKeepsCounts(w: World, c: Connection)
    requires ActiveCounted(w) && Enabled(w, Begin(c)) && c !in w.makers
    ensures ActiveCounted(Next(w, Begin(c)))
  {
    if w.j.active.Some? {
      var t := w.j.active.value.token;
      assert InFlightOf(Next(w, Begin(c)), t) == InFlightOf(w, t) + {c};
    }
  }

  lemma RecordedWereBegun(w: World, c: Connection)
    requires LogValid(w) && c !in w.begun
    ensures c !in w.makers
  {
  }

  /** Appending and then dropping the oldest event keeps the tail of the log. */
  lemma RetainKeepsTail(log: seq<Event>, event: Event, maxEvents: int)
    ensures Retain(LastN(log, Max(0, maxEvents)) + [event], maxEvents) == LastN(log + [event], Max(0, maxEvents))
  {
    var n := Max(0, maxEvents);
    if |log| > n {
      assert log[|log| - n..] + [event] == (log + [event])[|log| - n..];
      assert ((log + [event])[|log| - n..])[1..] == (log + [event])[|log| + 1 - n..];
    }
  }

  lemma FinishKeepsLog(w: World, c: Connection, verdict: Verdict)
    requires Inv(w) && Enabled(w, Finish(c, verdict))
    ensures LogValid(Next(w, Finish(c, verdict)))
  {
    var w' := Next(w, Finish(c, verdict));
    assert InFlight(w') == InFlight(w) - {c};
    assert c in InFlight(w);
    RetainKeepsTail(w.log, w'.log[|w.log|], w.j.maxEvents);
  }

  /** What recording does to the two counters of a phase. */
  lemma FinishCounts(j: Journal, token: Option<Token>, verdict: Verdict, t: Token)
    requires t in j.phaseCounts && t in j.pendingByPhase
    ensures var (j', event) := FinishConnect(j, token, verdict);
            && event.phaseToken == token && j'.active == j.active
            && t in j'.phaseCounts && t in j'.pendingByPhase
            && j'.phaseCounts[t] == j.phaseCounts[t] + (if token == Some(t) then 1 else 0)
            && j'.pendingByPhase[t] == if token == Some(t) then Decrement(j.pendingByPhase[t]) else j.pendingByPhase[t]
  {
  }

  lemma FinishKeepsCounts(w: World, c: Connection, verdict: Verdict)
    requires ActiveCounted(w) && Enabled(w, Finish(c, verdict))
    ensures ActiveCounted(Next(w, Finish(c, verdict)))
  {
    var w' := Next(w, Finish(c, verdict));
    if w.j.active.Some? {
      var t := w.j.active.value.token;
      FinishCounts(w.j, w.begun[c], verdict, t);
      TokenEventsAppend(w.log, w'.log[|w.log|], t);
      FinishInFlight(w, w', c, t);
    }
  }

  lemma FinishInFlight(w: World, w': World, c: Connection, t: Token)
    requires c in w.begun && c !in w.makers && w'.begun == w.begun && w'.makers == w.makers + [c]
    ensures InFlightOf(w', t) == InFlightOf(w, t) - {c}
    ensures |InFlightOf(w', t)| == |InFlightOf(w, t)| - if w.begun[c] == Some(t) then 1 else 0
  {
    assert InFlightOf(w', t) == InFlightOf(w, t) - {c};
    assert c in InFlightOf(w, t) <==> w.begun[c] == Some(t);
  }

  lemma FinishKeepsPhases(w: World, c: Connection, verdict: Verdict)
    requires LogValid(w) && PhasesValid(w) && Enabled(w, Finish(c, verdict))
    ensures PhasesValid(Next(w, Finish(c, verdict)))
  {
  }

  lemma OpenKeepsInv(w: World, phase: Phase, token: Token, ns: nat)
    requires Inv(w) && Enabled(w, Open(phase, token, ns))
    ensures Inv(Next(w, Open(phase, token, ns)))
  {
    var w' := Next(w, Open(phase, token, ns));
    OpenKeepsPhases(w, phase, token, ns);
    assert InFlight(w') == InFlight(w);
    assert InFlightOf(w', token) == {};
    TokenEventsNone(w.log, token);
    if w.j.active.Some? {
      assert w' == w;
    }
  }

  lemma OpenKeepsPhases(w: World, phase: Phase, token: Token, ns: nat)
    requires LogValid(w) && PhasesValid(w) && Enabled(w, Open(phase, token, ns))
    ensures PhasesValid(Next(w, Open(phase, token, ns)))
  {
  }

  lemma CallKeepsInv(w: World, call: CallId, token: Token)
    requires Inv(w) && Enabled(w, Call(call, token))
    ensures Inv(Next(w, Call(call, token)))
  {
    var w' := Next(w, Call(call, token));
    if w' != w {
      var more := w.(callIds := w.callIds + {call});
      assert InFlight(more) == InFlight(w);
      assert w.j.active.Some? ==> InFlightOf(more, token) == InFlightOf(w, token);
      ReplacedJournalKeepsInv(more, w'.j);
    }
  }

  lemma TimeoutKeepsInv(w: World, call: CallId)
    requires Inv(w) && Enabled(w, Timeout(call))
    ensures Inv(Next(w, Timeout(call)))
  {
    ReplacedJournalKeepsInv(w, Next(w, Timeout(call)).j);
  }

  /** Resumption records nothing: it only forgets the call, and possibly the open phase with its counters. */
  lemma ResumeFrame(j: Journal, call: CallId, ns: nat)
    requires call in j.calls && !j.calls[call].wake.Asleep?
    ensures var j' := EndPhaseResume(j, call, ns).0;
            && j'.events == j.events && j'.cursor == j.cursor && j'.pendingConnects == j.pendingConnects
            && j'.maxEvents == j.maxEvents
            && j'.calls == j.calls - {call} && (forall t :: t in j'.waiters ==> t in j.waiters && j'.waiters[t] == j.waiters[t])
            && (j'.active.None?
                || (j'.active == j.active && j'.phaseCounts == j.phaseCounts && j'.pendingByPhase == j.pendingByPhase))
  {
  }

  lemma ResumeKeepsInv(w: World, call: CallId, ns: nat)
    requires Inv(w) && Enabled(w, Resume(call, ns))
    ensures Inv(Next(w, Resume(call, ns)))
  {
    ResumeFrame(w.j, call, ns);
    ReplacedJournalKeepsInv(w, EndPhaseResume(w.j, call, ns).0);
  }

  lemma ReplacedJournalKeepsInv(w: World, j: Journal)
    requires Inv(w)
    requires j.events == w.j.events && j.cursor == w.j.cursor && j.pendingConnects == w.j.pendingConnects
    requires j.maxEvents == w.j.maxEvents
    requires forall c :: c in j.calls ==> c in w.callIds && Honest(w, j.calls[c].boundary)
    requires forall t :: t in j.waiters ==> j.waiters[t] in w.callIds
    requires j.active.None?
             || (j.active == w.j.active && j.phaseCounts == w.j.phaseCounts && j.pendingByPhase == w.j.pendingByPhase)
    ensures Inv(w.(j := j))
  {
    var w' := w.(j := j);
    assert InFlight(w') == InFlight(w);
    if j.active.Some? {
      assert InFlightOf(w', j.active.value.token) == InFlightOf(w, j.active.value.token);
    }
  }

  lemma StepKeepsInv(w: World, step: Step)
    requires Inv(w) && Enabled(w, step)
    ensures Inv(Next(w, step))
  {
    match step
    case Begin(c) =>
      RecordedWereBegun(w, c);
      BeginKeepsLog(w, c);
      BeginKeepsPhases(w, c);
      BeginKeepsCounts(w, c);
    case Finish(c, verdict) =>
      FinishKeepsLog(w, c, verdict);
      FinishKeepsPhases(w, c, verdict);
      FinishKeepsCounts(w, c, verdict);
    case Open(phase, token, ns) => OpenKeepsInv(w, phase, token, ns);
    case Resume(call, ns) => ResumeKeepsInv(w, call, ns);
    case Call(call, token) => CallKeepsInv(w, call, token);
    case Timeout(call) => TimeoutKeepsInv(w, call);
  }

  // ---------------------------------------------------------------- every run

  lemma {:induction false} RunKeepsInv(run: seq<World>, maxEvents: int, projector: Projector, i: nat)
    requires IsRun(run, maxEvents, projector) && i < |run|
    ensures Inv(run[i]) && run[i].j.maxEvents == maxEvents && run[i].j.projector == projector
  {
    if i == 0 {
      InvInitially(maxEvents, projector);
    } else {
      RunKeepsInv(run, maxEvents, projector, i - 1);
      assert Follows(run[i - 1], run[i]);
      FollowsKeepsInv(run[i - 1], run[i]);
    }
  }

  lemma FollowsKeepsInv(before: World, after: World)
    requires Inv(before) && Follows(before, after)
    ensures Inv(after) && after.j.maxEvents == before.j.maxEvents && after.j.projector == before.j.projector
  {
    var step :| Enabled(before, step) && after == Next(before, step);
    StepKeepsInv(before, step);
    StepKeepsSettings(before, step);
  }

  lemma StepKeepsSettings(w: World, step: Step)
    requires Enabled(w, step)
    ensures Next(w, step).j.maxEvents == w.j.maxEvents && Next(w, step).j.projector == w.j.projector
  {
  }

  /** Nothing recorded is ever forgotten by the world, and a phase's starting cursor never moves. */
  predicate Extends(before: World, after: World) {
    && before.log <= after.log
    && before.makers <= after.makers
    && (forall c :: c in before.begun ==> c in after.begun && after.begun[c] == before.begun[c])
    && (forall t :: t in before.started ==> t in after.started && after.started[t] == before.started[t])
    && (forall t :: t in after.started && t !in before.started ==> after.started[t] >= |before.log|)
  }

  lemma StepExtends(w: World, step: Step)
    requires Inv(w) && Enabled(w, step)
    ensures Extends(w, Next(w, step))
  {
  }

  lemma ExtendsTransitive(a: World, b: World, c: World)
    requires Extends(a, b) && Extends(b, c)
    ensures Extends(a, c)
  {
    assert c.log[..|b.log|] == b.log;
    assert c.makers[..|b.makers|] == b.makers;
  }

  /** A relation that every step from a consistent world prolongs. */
  ghost predicate Prolonged(relates: (World, World) -> bool) {
    && (forall w :: relates(w, w))
    && (forall a, b, c :: relates(a, b) && Steps(b, c) ==> relates(a, c))
  }

  ghost predicate Steps(before: World, after: World) {
    Inv(before) && Follows(before, after)
  }

  lemma StepOfRun(run: seq<World>, maxEvents: int, projector: Projector, k: nat)
    requires IsRun(run, maxEvents, projector) && 0 < k < |run|
    ensures Steps(run[k - 1], run[k])
  {
    RunKeepsInv(run, maxEvents, projector, k - 1);
  }

  ghost predicate AllSteps(run: seq<World>) {
    forall n :: 0 < n < |run| ==> Steps(run[n - 1], run[n])
  }

  lemma AllStepsOfRun(run: seq<World>, maxEvents: int, projector: Projector)
    requires IsRun(run, maxEvents, projector)
    ensures AllSteps(run)
  {
    forall n | 0 < n < |run| ensures Steps(run[n - 1], run[n]) {
      StepOfRun(run, maxEvents, projector, n);
    }
  }

  lemma {:induction false} RunProlongs(run: seq<World>, relates: (World, World) -> bool, i: nat, k: nat)
    requires i <= k < |run| && Prolonged(relates) && AllSteps(run)
    ensures relates(run[i], run[k])
    decreases k
  {
    if i < k {
      RunProlongs(run, relates, i, k - 1);
      assert Steps(run[k - 1], run[k]);
    }
  }

  /** What every step from a consistent world keeps. */
  ghost predicate Kept(property: World -> bool) {
    forall b, c :: property(b) && Steps(b, c) ==> property(c)
  }

  lemma {:induction false} RunKeeps(run: seq<World>, property: World -> bool, k: nat)
    requires k < |run| && Kept(property) && AllSteps(run) && property(run[0])
    ensures property(run[k])
  {
    if k > 0 {
      RunKeeps(run, property, k - 1);
      assert Steps(run[k - 1], run[k]);
    }
  }

  lemma {:induction false} RunExtends(run: seq<World>, maxEvents: int, projector: Projector, i: nat, k: nat)
    requires IsRun(run, maxEvents, projector) && i <= k < |run|
    ensures Extends(run[i], run[k])
  {
    AllStepsOfRun(run, maxEvents, projector);
    ExtendsIsProlonged();
    RunProlongs(run, Extends, i, k);
  }

  lemma ExtendsIsProlonged()
    ensures Prolonged(Extends)
  {
    forall a, b, c | Extends(a, b) && Steps(b, c) ensures Extends(a, c) {
      FollowsExtends(a, b, c);
    }
  }

  lemma {:induction false} FollowsExtends(start: World, before: World, after: World)
    requires Extends(start, before) && Inv(before) && Follows(before, after)
    ensures Extends(start, after)
  {
    var step :| Enabled(before, step) && after == Next(before, step);
    StepExtends(before, step);
    ExtendsTransitive(start, before, after);
  }

  function Elements(s: seq<Connection>): set<Connection> {
    set c | c in s
  }

  lemma {:induction false} DistinctCardinality(s: seq<Connection>)
    requires Distinct(s)
    ensures |Elements(s)| == |s|
  {
    if s != [] {
      var init := s[..|s| - 1];
      DistinctCardinality(init);
      assert s == init + [s[|s| - 1]];
      assert Elements(s) == Elements(init) + {s[|s| - 1]};
    }
  }

  lemma InFlightIsBegunMinusRecorded(w: World)
    requires Inv(w)
    ensures |InFlight(w)| == |w.begun| - |w.log|
  {
    DistinctCardinality(w.makers);
    assert Elements(w.makers) <= w.begun.Keys;
    assert InFlight(w) == w.begun.Keys - Elements(w.makers);
    assert |w.begun.Keys| == |w.begun|;
  }

  /** Whatever the interleaving, the bounded journal is the tail of the unbounded log, and its counters are true. */
  lemma JournalAgreesWithLog(run: seq<World>, maxEvents: int, projector: Projector, i: nat)
    requires IsRun(run, maxEvents, projector) && i < |run|
    ensures var w := run[i];
            && w.j.cursor == |w.log|
            && w.j.events == LastN(w.log, Max(0, maxEvents))
            && (forall k :: 0 <= k < |w.j.events| ==> w.j.events[k].cursor == w.j.cursor - |w.j.events| + k + 1)
            && w.j.pendingConnects == |w.begun| - |w.log|
            && (w.j.active.Some? ==>
                  var t := w.j.active.value.token;
                  && GetOr(w.j.phaseCounts, t, 0) == |TokenEvents(w.log, t)|
                  && GetOr(w.j.pendingByPhase, t, 0) == |InFlightOf(w, t)|)
  {
    RunKeepsInv(run, maxEvents, projector, i);
    InFlightIsBegunMinusRecorded(run[i]);
  }

  /** The clipping of the pending counter at zero is never used. */
  lemma FinishNeverClips(run: seq<World>, maxEvents: int, projector: Projector, i: nat, c: Connection, verdict: Verdict)
    requires IsRun(run, maxEvents, projector) && i < |run| && Enabled(run[i], Finish(c, verdict))
    ensures Next(run[i], Finish(c, verdict)).j.pendingConnects == run[i].j.pendingConnects - 1
  {
    RunKeepsInv(run, maxEvents, projector, i);
    assert c in InFlight(run[i]);
  }

  // ---------------------------------------------------------------- waking a suspended call

  /** The steps that record a decision of a phase after which none of its connections is undecided. */
  predicate Drains(w: World, step: Step, token: Token)
    requires Enabled(w, step)
  {
    step.Finish? && w.begun[step.connection] == Some(token) && InFlightOf(Next(w, step), token) == {}
  }

  predicate IsDrained(j: Journal, call: CallId) {
    call in j.calls && j.calls[call].wake.Drained?
  }

  /** What recording a decision does to a sleeping call, read off the connections. */
  lemma FinishWakes(w: World, c: Connection, verdict: Verdict, call: CallId)
    requires Inv(w) && Enabled(w, Finish(c, verdict)) && call in w.j.calls && w.j.calls[call].wake.Asleep?
    requires w.j.active == Some(w.j.calls[call].boundary)
    ensures var token, after := w.j.calls[call].boundary.token, Next(w, Finish(c, verdict));
            && call in after.j.calls
            && (if Drains(w, Finish(c, verdict), token) && token in w.j.waiters && w.j.waiters[token] == call
                then after.j.calls[call] == w.j.calls[call].(wake := Drained)
                else w.begun[c] == Some(token) ==> after.j.calls[call] == w.j.calls[call])
  {
    var token, after := w.j.calls[call].boundary.token, Next(w, Finish(c, verdict));
    FinishInFlight(w, after, c, token);
    FinishCounts(w.j, w.begun[c], verdict, token);
    assert |InFlightOf(after, token)| == 0 <==> InFlightOf(after, token) == {};
  }

  /** Each registered waiter is a call for the phase under which it is registered. */
  predicate WaitersFit(j: Journal) {
    forall t :: t in j.waiters && j.waiters[t] in j.calls ==> j.calls[j.waiters[t]].boundary.token == t
  }

  lemma StepKeepsWaiters(w: World, step: Step)
    requires Inv(w) && WaitersFit(w.j) && Enabled(w, step)
    ensures WaitersFit(Next(w, step).j)
  {
    match step
    case Resume(call, ns) => ResumeFrame(w.j, call, ns);
    case Finish(c, verdict) => FinishLeavesCalls(w, c, verdict);
    case Call(call, token) => CallKeepsWaiters(w, call, token);
    case Begin(_) =>
    case Open(_, _, _) =>
    case Timeout(_) =>
  }

  lemma CallKeepsWaiters(w: World, call: CallId, token: Token)
    requires PhasesValid(w) && WaitersFit(w.j) && Enabled(w, Call(call, token))
    ensures WaitersFit(Next(w, Call(call, token)).j)
  {
  }

  predicate Fitting(w: World) {
    WaitersFit(w.j)
  }

  lemma FittingIsKept()
    ensures Kept(Fitting)
  {
    forall b, c | Fitting(b) && Steps(b, c) ensures Fitting(c) {
      var step :| Enabled(b, step) && c == Next(b, step);
      StepKeepsWaiters(b, step);
    }
  }

  lemma {:induction false} RunKeepsWaiters(run: seq<World>, maxEvents: int, projector: Projector, i: nat)
    requires IsRun(run, maxEvents, projector) && i < |run|
    ensures WaitersFit(run[i].j)
  {
    AllStepsOfRun(run, maxEvents, projector);
    FittingIsKept();
    RunKeeps(run, Fitting, i);
  }

  /**
   A call that sleeps for the open phase is woken as drained by exactly those steps that record a decision
   of that phase and leave none of its connections undecided, provided no later call took its place as
   the waiter; any other step but its own timer leaves it asleep.
   */
  lemma WokenIffDrained(run: seq<World>, maxEvents: int, projector: Projector, i: nat, step: Step, call: CallId)
    requires IsRun(run, maxEvents, projector) && i < |run| && Enabled(run[i], step)
    requires call in run[i].j.calls && run[i].j.calls[call].wake.Asleep?
    requires run[i].j.active == Some(run[i].j.calls[call].boundary)
    ensures var w, after, token := run[i], Next(run[i], step), run[i].j.calls[call].boundary.token;
            && (IsDrained(after.j, call) <==> Drains(w, step, token) && token in w.j.waiters && w.j.waiters[token] == call)
            && (!IsDrained(after.j, call) && step != Timeout(call) ==>
                  call in after.j.calls && after.j.calls[call] == w.j.calls[call])
  {
    RunKeepsInv(run, maxEvents, projector, i);
    RunKeepsWaiters(run, maxEvents, projector, i);
    var w := run[i];
    if step.Finish? {
      FinishWakes(w, step.connection, step.verdict, call);
      if w.begun[step.connection] != Some(w.j.calls[call].boundary.token) {
        ForeignFinishWakes(w, step.connection, step.verdict, call);
      }
    }
  }

  /** A decision of another phase, or of none, does not touch the call. */
  lemma ForeignFinishWakes(w: World, c: Connection, verdict: Verdict, call: CallId)
    requires WaitersFit(w.j) && Enabled(w, Finish(c, verdict)) && call in w.j.calls
    requires w.begun[c] != Some(w.j.calls[call].boundary.token)
    ensures var after := Next(w, Finish(c, verdict));
            call in after.j.calls && after.j.calls[call] == w.j.calls[call]
  {
  }

  // ---------------------------------------------------------------- ending a phase

  /** What `endPhase` reports is exactly the phase: its interval of the log, no event missing and none foreign. */
  predicate ReportsPhase(w: World, token: Token, r: PhaseResult) {
    && r.beforeCursor <= r.afterCursor == |w.log|
    && r.count == r.afterCursor - r.beforeCursor
    && r.events == ProjectAll(w.j.projector, w.log[r.beforeCursor..r.afterCursor])
    && (forall i :: 0 <= i < |w.log| ==> (w.log[i].phaseToken == Some(token) <==> r.beforeCursor <= i < r.afterCursor))
  }

  lemma EventsBeforePhase(w: World, token: Token, n: nat)
    requires Inv(w) && token in w.started && n <= w.started[token]
    ensures TokenEvents(w.log[..n], token) == []
  {
    TokenEventsNone(w.log[..n], token);
  }

  /** A suffix of a log in which `token` occurs only from `before` on. */
  lemma SuffixEvents(log: seq<Event>, kept: nat, before: nat, token: Token)
    requires kept <= |log| && before <= |log|
    requires forall i :: 0 <= i < before ==> log[i].phaseToken != Some(token)
    ensures var raw, since := TokenEvents(log[kept..], token), log[before..];
            && |raw| <= |since|
            && (|raw| == |since| <==> AllOf(since, token) && |since| <= |log| - kept)
            && (|raw| == |since| ==> raw == since)
  {
    TokenEventsLength(log[kept..], token);
    if kept <= before {
      var skipped, since := log[kept..before], log[before..];
      assert log[kept..] == skipped + since;
      TokenEventsSplit(skipped, since, token);
      TokenEventsNone(skipped, token);
      TokenEventsLength(since, token);
    }
  }

  /** Of the retained events of a phase: they number at most the events recorded since it began; when they number
      as many, they are those events. */
  lemma RetainedPhaseEvents(w: World, token: Token)
    requires Inv(w) && token in w.started
    ensures var before := w.started[token];
            var raw := TokenEvents(w.j.events, token);
            && |raw| <= |w.log| - before
            && (|raw| == |w.log| - before <==> AllOf(w.log[before..], token) && |w.log| - before <= |w.j.events|)
            && (|raw| == |w.log| - before ==> raw == w.log[before..])
  {
    var before, kept := w.started[token], |w.log| - |w.j.events|;
    assert w.j.events == w.log[kept..];
    SuffixEvents(w.log, kept, before, token);
  }

  lemma LogMembership(w: World, token: Token, before: nat)
    requires Inv(w) && token in w.started && w.started[token] == before
    requires AllOf(w.log[before..], token)
    ensures forall i :: 0 <= i < |w.log| ==> (w.log[i].phaseToken == Some(token) <==> before <= i)
  {
    forall i | before <= i < |w.log| ensures w.log[i].phaseToken == Some(token) {
      assert w.log[i] == w.log[before..][i - before];
    }
  }

  /** Soundness, at any moment of any run, even with several calls ending the same phase. */
  lemma SuccessReportsPhase(run: seq<World>, maxEvents: int, projector: Projector, i: nat, call: CallId, ns: nat)
    requires IsRun(run, maxEvents, projector) && i < |run| && Enabled(run[i], Resume(call, ns))
    ensures var r := EndPhaseResume(run[i].j, call, ns).1;
            && (r.Success? ==> ReportsPhase(run[i], run[i].j.calls[call].boundary.token, r.value) && r.value.count <= maxEvents)
            && (r == Failure(NotDrained) <==> run[i].j.calls[call].wake.TimedOut?)
            && r != Failure(NotActive)
  {
    RunKeepsInv(run, maxEvents, projector, i);
    var w := run[i];
    var boundary := w.j.calls[call].boundary;
    if EndPhaseResume(w.j, call, ns).1.Success? {
      RetainedPhaseEvents(w, boundary.token);
      LogMembership(w, boundary.token, boundary.beforeCursor);
      assert w.log[boundary.beforeCursor..|w.log|] == w.log[boundary.beforeCursor..];
    }
  }

  /** A projected event says of a log entry what may leave the proxy: everything but its host and its phase. */
  predicate Shows(p: Projected, e: Event, projector: Projector) {
    && p.cursor == e.cursor && p.count == 1
    && p.port == e.verdict.port && p.decision == e.verdict.decision && p.reason == e.verdict.reason
    && p.observedAt == e.verdict.observedAt && p.observedNs == e.verdict.observedNs
    && (p.classification.ApprovedAuthHost? <==> projector.isAuthHost(e.verdict.host))
    && p.fingerprint == projector.fingerprint(e.verdict.host)
  }

  /** Some earlier step of the run opened this phase, at this log length, while no phase was open. */
  ghost predicate WasOpened(run: seq<World>, k: nat, b: Boundary)
    requires k < |run|
  {
    exists i :: 0 <= i < k && OpenedAt(run, i, b)
  }

  ghost predicate OpenedAt(run: seq<World>, i: nat, b: Boundary)
    requires i + 1 < |run|
  {
    && Enabled(run[i], Open(b.phase, b.token, b.startedNs)) && run[i + 1] == Next(run[i], Open(b.phase, b.token, b.startedNs))
    && run[i].j.active.None? && |run[i].log| == b.beforeCursor && |run[i].j.events| == b.beforeCount
    && b.phase in AUTH_AB_PHASES
  }

  ghost predicate Held(j: Journal, b: Boundary) {
    j.active == Some(b) || exists c :: c in j.calls && j.calls[c].boundary == b
  }

  lemma BoundaryComesFrom(w: World, step: Step, b: Boundary)
    requires Inv(w) && Enabled(w, step) && Held(Next(w, step).j, b) && !Held(w.j, b)
    ensures step == Open(b.phase, b.token, b.startedNs) && w.j.active.None?
    ensures |w.log| == b.beforeCursor && |w.j.events| == b.beforeCount
    ensures b.phase in AUTH_AB_PHASES
  {
    match step
    case Finish(c, verdict) => FinishLeavesCalls(w, c, verdict);
    case Resume(call, ns) => ResumeFrame(w.j, call, ns);
    case Call(_, _) =>
    case Begin(_) =>
    case Open(phase, _, _) => JournalPhases(phase);
    case Timeout(_) =>
  }

  lemma {:induction false} BoundaryWasOpened(run: seq<World>, maxEvents: int, projector: Projector, k: nat, b: Boundary)
    requires IsRun(run, maxEvents, projector) && k < |run| && Held(run[k].j, b)
    ensures WasOpened(run, k, b)
  {
    if k > 0 {
      RunKeepsInv(run, maxEvents, projector, k - 1);
      assert Follows(run[k - 1], run[k]);
      var step :| Enabled(run[k - 1], step) && run[k] == Next(run[k - 1], step);
      if Held(run[k - 1].j, b) {
        BoundaryWasOpened(run, maxEvents, projector, k - 1, b);
        var i :| 0 <= i < k - 1 && OpenedAt(run, i, b);
      } else {
        BoundaryComesFrom(run[k - 1], step, b);
        assert OpenedAt(run, k - 1, b);
      }
    }
  }

  /**
   A successful report, field by field: the name and start of the phase as some earlier step opened it, the
   end of now, the events retained at both ends, and of the nth log entry of the phase what may leave the proxy.
   */
  lemma SuccessShowsPhase(run: seq<World>, maxEvents: int, projector: Projector, k: nat, call: CallId, ns: nat)
    requires IsRun(run, maxEvents, projector) && k < |run| && Enabled(run[k], Resume(call, ns))
    requires EndPhaseResume(run[k].j, call, ns).1.Success?
    ensures var w, r := run[k], EndPhaseResume(run[k].j, call, ns).1.value;
            && WasOpened(run, k, Boundary(r.phase, w.j.calls[call].boundary.token, r.startedNs, r.beforeCursor, r.beforeCount))
            && r.endedNs == ns && r.afterCursor == |w.log| && r.afterCount == Min(|w.log|, Max(0, maxEvents))
            && r.beforeCursor + |r.events| == |w.log| && r.count == |r.events|
            && forall n :: 0 <= n < |r.events| ==> Shows(r.events[n], w.log[r.beforeCursor + n], projector)
  {
    SuccessReportsPhase(run, maxEvents, projector, k, call, ns);
    RunKeepsInv(run, maxEvents, projector, k);
    var w, r := run[k], EndPhaseResume(run[k].j, call, ns).1.value;
    ResultFields(w.j, call, ns);
    CallWasOpened(run, maxEvents, projector, k, call);
    ReportShows(w, w.j.calls[call].boundary.token, r);
  }

  lemma CallWasOpened(run: seq<World>, maxEvents: int, projector: Projector, k: nat, call: CallId)
    requires IsRun(run, maxEvents, projector) && k < |run| && call in run[k].j.calls
    ensures WasOpened(run, k, run[k].j.calls[call].boundary)
  {
    assert Held(run[k].j, run[k].j.calls[call].boundary);
    BoundaryWasOpened(run, maxEvents, projector, k, run[k].j.calls[call].boundary);
  }

  lemma ResultFields(j: Journal, call: CallId, ns: nat)
    requires call in j.calls && !j.calls[call].wake.Asleep? && EndPhaseResume(j, call, ns).1.Success?
    ensures var r, b := EndPhaseResume(j, call, ns).1.value, j.calls[call].boundary;
            && Boundary(r.phase, b.token, r.startedNs, r.beforeCursor, r.beforeCount) == b
            && r.endedNs == ns && r.afterCount == |j.events|
  {
  }

  lemma ReportShows(w: World, token: Token, r: PhaseResult)
    requires ReportsPhase(w, token, r)
    ensures r.beforeCursor + |r.events| == |w.log| && r.count == |r.events|
    ensures forall n :: 0 <= n < |r.events| ==> Shows(r.events[n], w.log[r.beforeCursor + n], w.j.projector)
  {
    forall n | 0 <= n < |r.events| ensures Shows(r.events[n], w.log[r.beforeCursor + n], w.j.projector) {
      assert r.events[n] == Project(w.j.projector, w.log[r.beforeCursor..r.afterCursor][n]);
    }
  }

  lemma TailMakers(makers: seq<Connection>, log: seq<Event>, begun: map<Connection, Option<Token>>, token: Token, before: nat)
    requires |makers| == |log| && before <= |log|
    requires forall i :: 0 <= i < |makers| ==> makers[i] in begun && begun[makers[i]] == log[i].phaseToken
    requires forall i :: 0 <= i < |log| ==> (log[i].phaseToken == Some(token) <==> before <= i)
    ensures Elements(makers[before..]) == set c | c in begun && begun[c] == Some(token) && c in makers
  {
    var reported := makers[before..];
    forall c | c in reported ensures c in begun && begun[c] == Some(token) && c in makers {
      var k :| 0 <= k < |reported| && reported[k] == c;
      assert makers[before + k] == c;
    }
    forall c | c in makers && begun[c] == Some(token) ensures c in reported {
      var k :| 0 <= k < |makers| && makers[k] == c;
      assert reported[k - before] == c;
    }
  }

  /** The connections behind a report are exactly those begun in the phase and recorded by now. */
  lemma ReportedConnections(w: World, token: Token, r: PhaseResult)
    requires LogValid(w) && ReportsPhase(w, token, r)
    ensures r.beforeCursor <= |w.makers|
    ensures Elements(w.makers[r.beforeCursor..]) == set c | c in w.begun && w.begun[c] == Some(token) && c in w.makers
  {
    TailMakers(w.makers, w.log, w.begun, token, r.beforeCursor);
  }

  lemma SuccessReportsConnections(run: seq<World>, maxEvents: int, projector: Projector, i: nat, call: CallId, ns: nat)
    requires IsRun(run, maxEvents, projector) && i < |run| && Enabled(run[i], Resume(call, ns))
    requires EndPhaseResume(run[i].j, call, ns).1.Success?
    ensures var w := run[i];
            var token := w.j.calls[call].boundary.token;
            var r := EndPhaseResume(w.j, call, ns).1.value;
            && r.beforeCursor <= |w.makers|
            && Elements(w.makers[r.beforeCursor..]) == set c | c in w.begun && w.begun[c] == Some(token) && c in w.makers
  {
    SuccessReportsPhase(run, maxEvents, projector, i, call, ns);
    RunKeepsInv(run, maxEvents, projector, i);
    ReportedConnections(run[i], run[i].j.calls[call].boundary.token, EndPhaseResume(run[i].j, call, ns).1.value);
  }

  /** The counter of the open phase, as a count over the log since it began. */
  lemma OpenPhaseCount(w: World, boundary: Boundary)
    requires Inv(w) && w.j.active == Some(boundary)
    ensures boundary.beforeCursor <= |w.log|
    ensures GetOr(w.j.phaseCounts, boundary.token, 0) == |TokenEvents(w.log[boundary.beforeCursor..], boundary.token)|
  {
    var before, since := w.log[..boundary.beforeCursor], w.log[boundary.beforeCursor..];
    EventsBeforePhase(w, boundary.token, boundary.beforeCursor);
    assert w.log == before + since;
    TokenEventsSplit(before, since, boundary.token);
  }

  lemma AccountedIff(w: World, boundary: Boundary)
    requires Inv(w) && w.j.active == Some(boundary)
    ensures boundary.beforeCursor <= |w.log|
    ensures Accounted(w.j, boundary) <==>
              AllOf(w.log[boundary.beforeCursor..], boundary.token) && |w.log| - boundary.beforeCursor <= w.j.maxEvents
  {
    OpenPhaseCount(w, boundary);
    RetainedPhaseEvents(w, boundary.token);
    var since := w.log[boundary.beforeCursor..];
    TokenEventsLength(since, boundary.token);
    if AllOf(since, boundary.token) && |since| <= w.j.maxEvents {
      assert |since| <= |w.j.events|;
      assert TokenEvents(w.j.events, boundary.token) == since;
    }
  }

  /**
   Completeness: while its phase is still the open one, a drained call finds its evidence complete
   exactly when every decision since the phase began belongs to it and all of them are retained.
   */
  lemma DrainedCallCompleteIff(run: seq<World>, maxEvents: int, projector: Projector, i: nat, call: CallId, ns: nat)
    requires IsRun(run, maxEvents, projector) && i < |run| && Enabled(run[i], Resume(call, ns))
    requires !run[i].j.calls[call].wake.TimedOut? && run[i].j.active == Some(run[i].j.calls[call].boundary)
    ensures var w := run[i];
            var boundary := w.j.calls[call].boundary;
            && boundary.beforeCursor <= |w.log|
            && (EndPhaseResume(w.j, call, ns).1 != Failure(Incomplete)
                <==> AllOf(w.log[boundary.beforeCursor..], boundary.token)
                     && |w.log| - boundary.beforeCursor <= maxEvents)
  {
    RunKeepsInv(run, maxEvents, projector, i);
    AccountedIff(run[i], run[i].j.calls[call].boundary);
  }

  /** A successful report holds no event that cannot be projected. */
  lemma SuccessIsProjectable(w: World, call: CallId, ns: nat)
    requires Inv(w) && Enabled(w, Resume(call, ns)) && EndPhaseResume(w.j, call, ns).1.Success?
    ensures var before := w.j.calls[call].boundary.beforeCursor;
            before <= |w.log| && forall n :: before <= n < |w.log| ==> Projectable(w.log[n])
  {
    var boundary := w.j.calls[call].boundary;
    RetainedPhaseEvents(w, boundary.token);
    var raw := TokenEvents(w.j.events, boundary.token);
    assert Honest(w, boundary) && Accounted(w.j, boundary);
    assert raw == w.log[boundary.beforeCursor..] && forall k :: 0 <= k < |raw| ==> Projectable(raw[k]);
    forall n | boundary.beforeCursor <= n < |w.log| ensures Projectable(w.log[n]) {
      assert raw[n - boundary.beforeCursor] == w.log[n];
    }
  }

  /** An event of the log since `from` that cannot be projected. */
  predicate Blocked(log: seq<Event>, from: nat) {
    exists n :: from <= n < |log| && !Projectable(log[n])
  }

  /**
   A resumed call closes its phase, however it ends, except in one case: the phase stays open, and every
   attempt to begin another is refused, if and only if the timer did not fire, all decisions since the
   phase began belong to it and are retained, and one of them cannot be projected.
   */
  lemma PhaseStaysOpenIff(run: seq<World>, maxEvents: int, projector: Projector, i: nat, call: CallId, ns: nat)
    requires IsRun(run, maxEvents, projector) && i < |run| && Enabled(run[i], Resume(call, ns))
    requires run[i].j.active == Some(run[i].j.calls[call].boundary)
    ensures var w, after := run[i], Next(run[i], Resume(call, ns));
            var boundary, wake := w.j.calls[call].boundary, w.j.calls[call].wake;
            && boundary.beforeCursor <= |w.log|
            && (after.j.active.None? || after.j.active == w.j.active)
            && (after.j.active.Some? <==>
                  && !wake.TimedOut? && Blocked(w.log, boundary.beforeCursor)
                  && AllOf(w.log[boundary.beforeCursor..], boundary.token) && |w.log| - boundary.beforeCursor <= maxEvents)
            && (after.j.active.Some? <==> EndPhaseResume(w.j, call, ns).1 == Failure(EventInvalid))
            && (after.j.active.Some? ==> forall phase, token, t0 :: BeginPhase(after.j, phase, token, t0).None?)
  {
    RunKeepsInv(run, maxEvents, projector, i);
    var w := run[i];
    var boundary := w.j.calls[call].boundary;
    AccountedIff(w, boundary);
    if Accounted(w.j, boundary) {
      RetainedPhaseEvents(w, boundary.token);
      BlockedSlice(w.log, boundary.beforeCursor, TokenEvents(w.j.events, boundary.token));
    }
  }

  lemma BlockedSlice(log: seq<Event>, from: nat, raw: seq<Event>)
    requires from <= |log| && raw == log[from..]
    ensures Blocked(log, from) <==> exists i :: 0 <= i < |raw| && !Projectable(raw[i])
  {
    if Blocked(log, from) {
      var n :| from <= n < |log| && !Projectable(log[n]);
      assert raw[n - from] == log[n];
    }
    if i :| 0 <= i < |raw| && !Projectable(raw[i]) {
      var n := from + i;
      assert log[n] == raw[i];
    }
  }

  /** Once an event of a phase cannot be projected, no call ever ends that phase successfully. */
  lemma BlockedPhaseNeverSucceeds(run: seq<World>, maxEvents: int, projector: Projector, i: nat, n: nat,
                                  k: nat, call: CallId, ns: nat)
    requires IsRun(run, maxEvents, projector) && i <= k < |run| && Enabled(run[k], Resume(call, ns))
    requires n < |run[i].log| && !Projectable(run[i].log[n])
    requires run[i].log[n].phaseToken == Some(run[k].j.calls[call].boundary.token)
    ensures EndPhaseResume(run[k].j, call, ns).1.Failure?
  {
    RunExtends(run, maxEvents, projector, i, k);
    RunKeepsInv(run, maxEvents, projector, k);
    assert run[k].log[n] == run[i].log[n];
    if EndPhaseResume(run[k].j, call, ns).1.Success? {
      SuccessIsProjectable(run[k], call, ns);
    }
  }

  predicate Covers(r: PhaseResult, n: nat) {
    r.beforeCursor < n <= r.afterCursor
  }

  /** No cursor is ever reported by two different phases. */
  lemma PhasesNeverShareACursor(run: seq<World>, maxEvents: int, projector: Projector,
                                i: nat, callI: CallId, nsI: nat, k: nat, callK: CallId, nsK: nat)
    requires IsRun(run, maxEvents, projector) && i <= k < |run|
    requires Enabled(run[i], Resume(callI, nsI)) && Enabled(run[k], Resume(callK, nsK))
    requires run[i].j.calls[callI].boundary.token != run[k].j.calls[callK].boundary.token
    ensures var first := EndPhaseResume(run[i].j, callI, nsI).1;
            var second := EndPhaseResume(run[k].j, callK, nsK).1;
            first.Success? && second.Success? ==> forall n: nat :: Covers(first.value, n) ==> !Covers(second.value, n)
  {
    SuccessReportsPhase(run, maxEvents, projector, i, callI, nsI);
    SuccessReportsPhase(run, maxEvents, projector, k, callK, nsK);
    RunExtends(run, maxEvents, projector, i, k);
    var first := EndPhaseResume(run[i].j, callI, nsI).1;
    var second := EndPhaseResume(run[k].j, callK, nsK).1;
    if first.Success? && second.Success? {
      forall n: nat | Covers(first.value, n) ensures !Covers(second.value, n) {
        assert run[i].log[n - 1] == run[k].log[n - 1];
      }
    }
  }

  /** A phase opened after another one succeeded reports an interval that starts where or after that one ended. */
  lemma LaterPhaseReportsLater(run: seq<World>, maxEvents: int, projector: Projector,
                               i: nat, callI: CallId, nsI: nat, k: nat, callK: CallId, nsK: nat)
    requires IsRun(run, maxEvents, projector) && i <= k < |run|
    requires Enabled(run[i], Resume(callI, nsI)) && Enabled(run[k], Resume(callK, nsK))
    requires run[k].j.calls[callK].boundary.token !in run[i].started
    ensures var first := EndPhaseResume(run[i].j, callI, nsI).1;
            var second := EndPhaseResume(run[k].j, callK, nsK).1;
            first.Success? && second.Success? ==> first.value.afterCursor <= second.value.beforeCursor
  {
    SuccessReportsPhase(run, maxEvents, projector, i, callI, nsI);
    RunExtends(run, maxEvents, projector, i, k);
    RunKeepsInv(run, maxEvents, projector, k);
  }

  // ---------------------------------------------------------------- overlapping calls

  /** While callers wait for one `endPhase` before making another, a waiting call's phase stays the open one. */
  predicate OwnPhaseOpen(j: Journal) {
    forall c :: c in j.calls ==> j.active == Some(j.calls[c].boundary) && j.calls.Keys == {c}
  }

  predicate Disciplined(w: World, step: Step) {
    step.Call? ==> w.j.calls == map[]
  }

  lemma DisciplineKeepsOwnPhaseOpen(w: World, step: Step)
    requires OwnPhaseOpen(w.j) && Enabled(w, step) && Disciplined(w, step)
    ensures OwnPhaseOpen(Next(w, step).j)
  {
    var j' := Next(w, step).j;
    match step
    case Call(call, token) =>
      if EndPhaseCall(w.j, call, token).Some? {
        assert j'.calls.Keys == {call};
      }
    case Resume(call, ns) =>
      ResumeFrame(w.j, call, ns);
      assert j'.calls.Keys == {};
    case Timeout(call) => assert j'.calls.Keys == w.j.calls.Keys;
    case Finish(c, _) => assert j'.calls.Keys == w.j.calls.Keys;
    case Begin(_) =>
    case Open(_, _, _) =>
  }

  ghost predicate IsDisciplinedRun(run: seq<World>, maxEvents: int, projector: Projector) {
    && IsRun(run, maxEvents, projector)
    && forall i :: 0 < i < |run| ==> FollowsInTurn(run[i - 1], run[i])
  }

  ghost predicate FollowsInTurn(before: World, after: World) {
    exists step :: Enabled(before, step) && Disciplined(before, step) && after == Next(before, step)
  }

  /** So under that discipline a resuming call never closes a phase other than its own. */
  lemma {:induction false} DisciplinedRunKeepsOwnPhaseOpen(run: seq<World>, maxEvents: int, projector: Projector, i: nat)
    requires IsDisciplinedRun(run, maxEvents, projector) && i < |run|
    ensures OwnPhaseOpen(run[i].j)
  {
    if i > 0 {
      DisciplinedRunKeepsOwnPhaseOpen(run, maxEvents, projector, i - 1);
      assert FollowsInTurn(run[i - 1], run[i]);
      var step :| Enabled(run[i - 1], step) && Disciplined(run[i - 1], step) && run[i] == Next(run[i - 1], step);
      DisciplineKeepsOwnPhaseOpen(run[i - 1], step);
    }
  }

  /** What a suspended call knows: while it sleeps it is the registered waiter and some connection of its phase is undecided. */
  predicate SleepsForReason(w: World) {
    forall c :: c in w.j.calls && w.j.calls[c].wake.Asleep? ==>
      var token := w.j.calls[c].boundary.token;
      token in w.j.waiters && w.j.waiters[token] == c && InFlightOf(w, token) != {}
  }

  lemma StepSleepsForReason(w: World, step: Step)
    requires Inv(w) && WaitersFit(w.j) && OwnPhaseOpen(w.j) && SleepsForReason(w) && Enabled(w, step) && Disciplined(w, step)
    ensures SleepsForReason(Next(w, step))
  {
    var w' := Next(w, step);
    match step
    case Begin(c) =>
      forall t ensures InFlightOf(w, t) <= InFlightOf(w', t) {
        RecordedWereBegun(w, c);
      }
    case Finish(c, verdict) =>
      FinishLeavesCalls(w, c, verdict);
      forall call | call in w.j.calls && w.j.calls[call].wake.Asleep? && w'.j.calls[call].wake.Asleep?
        ensures InFlightOf(w', w.j.calls[call].boundary.token) != {}
      {
        FinishWakes(w, c, verdict, call);
        FinishInFlight(w, w', c, w.j.calls[call].boundary.token);
      }
    case Call(call, token) => CallSleepsForReason(w, call, token);
    case Resume(call, ns) => ResumeFrame(w.j, call, ns);
    case Timeout(call) => assert w'.j.calls.Keys == w.j.calls.Keys;
    case Open(_, _, _) =>
  }

  lemma CallSleepsForReason(w: World, call: CallId, token: Token)
    requires Inv(w) && w.j.calls == map[] && Enabled(w, Call(call, token))
    ensures SleepsForReason(Next(w, Call(call, token)))
    ensures var w' := Next(w, Call(call, token));
            call in w'.j.calls && w'.j.calls[call].wake.Ready? ==> InFlightOf(w', token) == {} && w'.j.calls[call].boundary.token == token
  {
    var w' := Next(w, Call(call, token));
    assert InFlightOf(w', token) == InFlightOf(w, token);
    assert |InFlightOf(w, token)| == 0 <==> InFlightOf(w, token) == {};
  }

  /** At some moment since the call was made, every connection of its phase had been decided. */
  ghost predicate SawQuiet(run: seq<World>, k: nat, call: CallId, token: Token)
    requires k < |run|
  {
    exists i :: 0 <= i <= k && call in run[i].j.calls && InFlightOf(run[i], token) == {}
  }

  /**
   Over any run without overlapping calls: a call that sleeps has an undecided connection of its phase, and
   one that goes on without its timer having fired saw a moment at which there was none.
   */
  lemma {:induction false} WaitsForItsConnections(run: seq<World>, maxEvents: int, projector: Projector, k: nat, call: CallId)
    requires IsDisciplinedRun(run, maxEvents, projector) && k < |run|
    ensures SleepsForReason(run[k])
    ensures call in run[k].j.calls ==>
              && (run[k].j.calls[call].wake.Asleep? ==> InFlightOf(run[k], run[k].j.calls[call].boundary.token) != {})
              && (run[k].j.calls[call].wake.Ready? || run[k].j.calls[call].wake.Drained? ==>
                    SawQuiet(run, k, call, run[k].j.calls[call].boundary.token))
  {
    if k > 0 {
      var w, w' := run[k - 1], run[k];
      WaitsForItsConnections(run, maxEvents, projector, k - 1, call);
      RunKeepsInv(run, maxEvents, projector, k - 1);
      RunKeepsWaiters(run, maxEvents, projector, k - 1);
      DisciplinedRunKeepsOwnPhaseOpen(run, maxEvents, projector, k - 1);
      assert FollowsInTurn(w, w');
      var step :| Enabled(w, step) && Disciplined(w, step) && w' == Next(w, step);
      StepSleepsForReason(w, step);
      if call in w'.j.calls && (w'.j.calls[call].wake.Ready? || w'.j.calls[call].wake.Drained?) {
        GoesOn(w, step, call);
        var token := w'.j.calls[call].boundary.token;
        if InFlightOf(w', token) != {} {
          var i :| 0 <= i <= k - 1 && call in run[i].j.calls && InFlightOf(run[i], token) == {};
        }
        assert SawQuiet(run, k, call, token);
      }
    }
  }

  /** A call that goes on now either did so before, or finds nothing of its phase undecided. */
  lemma GoesOn(w: World, step: Step, call: CallId)
    requires Inv(w) && WaitersFit(w.j) && OwnPhaseOpen(w.j) && SleepsForReason(w) && Enabled(w, step) && Disciplined(w, step)
    requires var j := Next(w, step).j; call in j.calls && (j.calls[call].wake.Ready? || j.calls[call].wake.Drained?)
    ensures var w' := Next(w, step);
            var token := w'.j.calls[call].boundary.token;
            || InFlightOf(w', token) == {}
            || (call in w.j.calls && w.j.calls[call] == w'.j.calls[call])
  {
    match step
    case Finish(c, verdict) =>
      FinishLeavesCalls(w, c, verdict);
      if w.j.calls[call].wake.Asleep? {
        FinishWakes(w, c, verdict, call);
        if w.begun[c] != Some(w.j.calls[call].boundary.token) {
          ForeignFinishWakes(w, c, verdict, call);
        }
      }
    case Call(id, token) => CallSleepsForReason(w, id, token);
    case Resume(id, ns) => ResumeFrame(w.j, id, ns);
    case Begin(_) =>
    case Open(_, _, _) =>
    case Timeout(_) =>
  }

  // ---------------------------------------------------------------- when a call is safe

  /** A continuation in which no further call overlaps another. */
  ghost predicate InTurn(w: World, steps: seq<Step>)
    decreases steps
  {
    steps == [] || (Enabled(w, steps[0]) && Disciplined(w, steps[0]) && InTurn(Next(w, steps[0]), steps[1..]))
  }

  ghost function After(w: World, steps: seq<Step>): World
    requires InTurn(w, steps)
    decreases steps
  {
    if steps == [] then w else After(Next(w, steps[0]), steps[1..])
  }

  lemma OneInTurn(w: World, step: Step)
    requires Enabled(w, step) && Disciplined(w, step)
    ensures InTurn(w, [step]) && After(w, [step]) == Next(w, step)
  {
    assert [step][1..] == [];
    assert After(Next(w, step), []) == Next(w, step);
  }

  lemma {:induction false} Continue(w: World, a: seq<Step>, b: seq<Step>)
    requires InTurn(w, a) && InTurn(After(w, a), b)
    ensures InTurn(w, a + b) && After(w, a + b) == After(After(w, a), b)
    decreases a
  {
    if a == [] {
      assert a + b == b;
    } else {
      assert (a + b)[1..] == a[1..] + b;
      Continue(Next(w, a[0]), a[1..], b);
    }
  }

  /** The resumption of a call closes a phase which is not its own. */
  predicate Foreign(w: World, call: CallId, ns: nat)
    requires Enabled(w, Resume(call, ns))
  {
    && w.j.active.Some? && w.j.active.value.token != w.j.calls[call].boundary.token
    && Next(w, Resume(call, ns)).j.active.None?
  }

  /** A call after which, unless further calls overlap, no resumption ever closes a foreign phase. */
  ghost predicate SafeCall(w: World, call: CallId, token: Token)
    requires Enabled(w, Call(call, token))
  {
    var w' := Next(w, Call(call, token));
    forall steps, late, ns ::
      InTurn(w', steps) && Enabled(After(w', steps), Resume(late, ns)) ==> !Foreign(After(w', steps), late, ns)
  }

  lemma {:induction false} StaysOwnPhaseOpen(w: World, steps: seq<Step>)
    requires OwnPhaseOpen(w.j) && InTurn(w, steps)
    ensures OwnPhaseOpen(After(w, steps).j)
    decreases steps
  {
    if steps != [] {
      DisciplineKeepsOwnPhaseOpen(w, steps[0]);
      StaysOwnPhaseOpen(Next(w, steps[0]), steps[1..]);
    }
  }

  /** What recording connections leaves alone: the phases, the calls, and whether a call sleeps no more. */
  predicate Recorded(w: World, w': World) {
    && w'.j.active == w.j.active && w'.j.maxEvents == w.j.maxEvents && w'.started == w.started
    && w'.j.calls.Keys == w.j.calls.Keys
    && (forall c :: c in w.j.calls ==> w'.j.calls[c].boundary == w.j.calls[c].boundary)
    && (forall c :: c in w.j.calls && !w.j.calls[c].wake.Asleep? ==> w'.j.calls[c] == w.j.calls[c])
  }

  lemma {:induction false} UnboundedNat(s: set<nat>) returns (bound: nat)
    ensures forall n :: n in s ==> n < bound
  {
    bound := 0;
    if s != {} {
      var n :| n in s;
      var rest := UnboundedNat(s - {n});
      bound := Max(rest, n + 1);
      assert s == (s - {n}) + {n};
    }
  }

  lemma RecordOne(w: World, verdict: Verdict) returns (steps: seq<Step>)
    requires Inv(w)
    ensures InTurn(w, steps)
    ensures var w' := After(w, steps); Inv(w') && Recorded(w, w') && |w'.log| == |w.log| + 1
  {
    var c := UnboundedNat(w.begun.Keys);
    RecordedWereBegun(w, c);
    var middle := Next(w, Begin(c));
    StepKeepsInv(w, Begin(c));
    StepKeepsInv(middle, Finish(c, verdict));
    InTwoTurns(w, Begin(c), Finish(c, verdict));
    steps := [Begin(c)] + [Finish(c, verdict)];
    FinishLeavesCalls(middle, c, verdict);
  }

  lemma FinishLeavesCalls(w: World, c: Connection, verdict: Verdict)
    requires Enabled(w, Finish(c, verdict))
    ensures Recorded(w, Next(w, Finish(c, verdict)))
  {
    assert forall waiter :: Wakened(w.j.calls, waiter).Keys == w.j.calls.Keys;
  }

  lemma {:induction false} RecordMany(w: World, verdict: Verdict, n: nat) returns (steps: seq<Step>)
    requires Inv(w)
    ensures InTurn(w, steps)
    ensures var w' := After(w, steps); Inv(w') && Recorded(w, w') && |w'.log| == |w.log| + n
    decreases n
  {
    steps := [];
    if n > 0 {
      var first := RecordOne(w, verdict);
      var more := RecordMany(After(w, first), verdict, n - 1);
      Continue(w, first, more);
      steps := first + more;
    }
  }

  /** Any suspended call can be brought to fail: its timer fires, or its phase outgrows the journal. */
  lemma BringToFailure(w: World, call: CallId, verdict: Verdict) returns (steps: seq<Step>)
    requires Inv(w) && call in w.j.calls
    ensures InTurn(w, steps)
    ensures var w' := After(w, steps);
            && Inv(w') && Recorded(w, w') && Enabled(w', Resume(call, 0))
            && Next(w', Resume(call, 0)).j.active.None?
  {
    if w.j.calls[call].wake.Asleep? {
      OneInTurn(w, Timeout(call));
      StepKeepsInv(w, Timeout(call));
      steps := [Timeout(call)];
      assert Next(w, Timeout(call)).j.calls.Keys == w.j.calls.Keys;
    } else {
      steps := RecordMany(w, verdict, Max(0, w.j.maxEvents) + 1);
      assert Honest(w, w.j.calls[call].boundary);
      Outgrown(After(w, steps), call);
    }
  }

  lemma Outgrown(w: World, call: CallId)
    requires Inv(w) && Enabled(w, Resume(call, 0))
    requires |w.log| - w.j.calls[call].boundary.beforeCursor > w.j.maxEvents
    ensures Next(w, Resume(call, 0)).j.active.None?
  {
    assert !Accounted(w.j, w.j.calls[call].boundary);
  }

  /** A suspended call whose phase is not the open one can be brought to close that one. */
  lemma LateCallClosesForeignPhase(w: World, late: CallId, verdict: Verdict) returns (steps: seq<Step>)
    requires Inv(w) && late in w.j.calls
    requires w.j.active.Some? && w.j.active.value.token != w.j.calls[late].boundary.token
    ensures InTurn(w, steps) && Enabled(After(w, steps), Resume(late, 0)) && Foreign(After(w, steps), late, 0)
  {
    steps := BringToFailure(w, late, verdict);
  }

  /** Of two suspended calls for the open phase, one fails; a new phase opens, and the other one closes it. */
  lemma SecondCallClosesForeignPhase(w: World, first: CallId, late: CallId, verdict: Verdict) returns (steps: seq<Step>)
    requires Inv(w) && first in w.j.calls && late in w.j.calls && first != late
    ensures InTurn(w, steps) && Enabled(After(w, steps), Resume(late, 0)) && Foreign(After(w, steps), late, 0)
  {
    var fail := BringToFailure(w, first, verdict);
    var w1 := After(w, fail);
    var reopen, w3 := CloseAndOpen(w1, first, late);
    Continue(w, fail, reopen);
    var rest := LateCallClosesForeignPhase(w3, late, verdict);
    Continue(w, fail + reopen, rest);
    steps := fail + reopen + rest;
  }

  lemma CloseAndOpen(w: World, first: CallId, late: CallId) returns (steps: seq<Step>, w': World)
    requires Inv(w) && Enabled(w, Resume(first, 0)) && late in w.j.calls && first != late
    requires Next(w, Resume(first, 0)).j.active.None?
    ensures InTurn(w, steps) && w' == After(w, steps) && Inv(w')
    ensures late in w'.j.calls && w'.j.active.Some? && w'.j.active.value.token != w'.j.calls[late].boundary.token
  {
    var close := Resume(first, 0);
    var closed := Next(w, close);
    StepKeepsInv(w, close);
    ResumeFrame(w.j, first, 0);
    var open;
    open, w' := OpenAnother(closed, late);
    InTwoTurns(w, close, open);
    steps := [close] + [open];
  }

  lemma OpenAnother(w: World, late: CallId) returns (open: Step, w': World)
    requires Inv(w) && w.j.active.None? && late in w.j.calls
    ensures open.Open? && Enabled(w, open) && w' == Next(w, open) && Inv(w')
    ensures w'.j.calls == w.j.calls && w'.j.active.Some? && w'.j.active.value.token != w.j.calls[late].boundary.token
  {
    var token := UnboundedNat(w.started.Keys);
    assert Honest(w, w.j.calls[late].boundary);
    open := Open(Initialize, token, 0);
    w' := Next(w, open);
    StepKeepsInv(w, open);
  }

  lemma InTwoTurns(w: World, a: Step, b: Step)
    requires Enabled(w, a) && Disciplined(w, a) && Enabled(Next(w, a), b) && Disciplined(Next(w, a), b)
    ensures InTurn(w, [a] + [b]) && After(w, [a] + [b]) == Next(Next(w, a), b)
  {
    OneInTurn(w, a);
    OneInTurn(Next(w, a), b);
    Continue(w, [a], [b]);
  }

  /**
   Exactly when: an accepted call is safe if and only if no other call is suspended when it is made.
   With one suspended, whatever its state, some continuation has a call close a phase that is not its own.
   */
  lemma CallIsSafeIff(run: seq<World>, maxEvents: int, projector: Projector, i: nat, call: CallId, token: Token)
    requires IsRun(run, maxEvents, projector) && i < |run| && Enabled(run[i], Call(call, token))
    requires EndPhaseCall(run[i].j, call, token).Some?
    ensures SafeCall(run[i], call, token) <==> run[i].j.calls == map[]
  {
    var w := run[i];
    RunKeepsInv(run, maxEvents, projector, i);
    if w.j.calls == map[] {
      DisciplineKeepsOwnPhaseOpen(w, Call(call, token));
      OnlyCallIsSafe(w, call, token);
    } else {
      var other :| other in w.j.calls;
      OverlappingCallIsUnsafe(w, call, token, other);
    }
  }

  lemma OnlyCallIsSafe(w: World, call: CallId, token: Token)
    requires Enabled(w, Call(call, token)) && OwnPhaseOpen(Next(w, Call(call, token)).j)
    ensures SafeCall(w, call, token)
  {
    var w' := Next(w, Call(call, token));
    forall steps, late, ns | InTurn(w', steps) && Enabled(After(w', steps), Resume(late, ns))
      ensures !Foreign(After(w', steps), late, ns)
    {
      StaysOwnPhaseOpen(w', steps);
    }
  }

  lemma OverlappingCallIsUnsafe(w: World, call: CallId, token: Token, other: CallId)
    requires Inv(w) && Enabled(w, Call(call, token)) && EndPhaseCall(w.j, call, token).Some? && other in w.j.calls
    ensures !SafeCall(w, call, token)
  {
    var w' := Next(w, Call(call, token));
    StepKeepsInv(w, Call(call, token));
    var verdict := Verdict("", 0, Deny, InvalidAuthority, "", 0);
    var steps;
    if w'.j.calls[other].boundary.token != token {
      steps := LateCallClosesForeignPhase(w', other, verdict);
    } else {
      steps := SecondCallClosesForeignPhase(w', call, other, verdict);
    }
    assert Foreign(After(w', steps), other, 0);
  }

  /**
   Without it one can: two calls end the same phase, the second replaces the first one's waiter,
   so the first sleeps until its timer fires and then closes whatever phase is open by then.
   */
  lemma OverlappingCallsCloseAForeignPhase(projector: Projector, verdict: Verdict) returns (run: seq<World>)
    requires Projectable(Event(1, verdict, Some(0)))
    ensures IsRun(run, 80, projector) && |run| == 10
    ensures run[8].j.active.Some? && run[8].j.active.value.token == 1
    ensures 1 in run[8].j.calls && run[8].j.calls[1].boundary.token == 0
    ensures Enabled(run[8], Resume(1, 0)) && run[9] == Next(run[8], Resume(1, 0)) && run[9].j.active.None?
  {
    var sleeping := EndCall(Boundary(Initialize, 0, 0, 0, 0), Asleep);
    var first := TwoCallsSleep(projector, sleeping);
    var w5, w6 := SecondCallSucceeds(first[4], projector, sleeping, verdict);
    var w7, w8, w9 := FirstCallTimesOut(w6, sleeping);
    run := ChainOfTen(first, w5, w6, w7, w8, w9);
    assert IsRun(run, 80, projector);
  }

  ghost predicate Chain(run: seq<World>) {
    forall i :: 0 < i < |run| ==> Follows(run[i - 1], run[i])
  }

  lemma Linked(run: seq<World>, w: World) returns (longer: seq<World>)
    requires Chain(run) && run != [] && Follows(run[|run| - 1], w)
    ensures longer == run + [w] && Chain(longer)
  {
    longer := run + [w];
    forall i | 0 < i < |longer| ensures Follows(longer[i - 1], longer[i]) {
      if i < |run| {
        assert longer[i - 1] == run[i - 1] && longer[i] == run[i];
      }
    }
  }

  lemma ChainOfTen(first: seq<World>, w5: World, w6: World, w7: World, w8: World, w9: World) returns (run: seq<World>)
    requires Chain(first) && |first| == 5 && Follows(first[4], w5) && Follows(w5, w6) && Follows(w6, w7)
    requires Follows(w7, w8) && Follows(w8, w9)
    ensures Chain(run) && |run| == 10 && run[0] == first[0] && run[8] == w8 && run[9] == w9
  {
    run := Linked(first, w5);
    run := Linked(run, w6);
    run := Linked(run, w7);
    run := Linked(run, w8);
    run := Linked(run, w9);
  }

  lemma TwoCallsSleep(projector: Projector, sleeping: EndCall) returns (run: seq<World>)
    requires sleeping == EndCall(Boundary(Initialize, 0, 0, 0, 0), Asleep)
    ensures |run| == 5 && run[0] == InitialWorld(80, projector)
    ensures Chain(run)
    ensures run[4] == World(Journal(80, projector, [], 0, 1, Some(sleeping.boundary), map[0 := 0], map[0 := 1], map[0 := 2],
                                    map[1 := sleeping, 2 := sleeping]), [], [], map[0 := Some(0)], map[0 := 0], {1, 2})
  {
    var w0 := InitialWorld(80, projector);
    var w1 := Next(w0, Open(Initialize, 0, 0));
    var w2 := Next(w1, Begin(0));
    var w3 := Next(w2, Call(1, 0));
    var w4 := Next(w3, Call(2, 0));
    assert Follows(w0, w1) && Follows(w1, w2) && Follows(w2, w3) && Follows(w3, w4);
    run := [w0, w1, w2, w3, w4];
  }

  lemma SecondCallSucceeds(w: World, projector: Projector, sleeping: EndCall, verdict: Verdict) returns (w': World, w'': World)
    requires sleeping == EndCall(Boundary(Initialize, 0, 0, 0, 0), Asleep)
    requires Projectable(Event(1, verdict, Some(0)))
    requires w == World(Journal(80, projector, [], 0, 1, Some(sleeping.boundary), map[0 := 0], map[0 := 1], map[0 := 2],
                                map[1 := sleeping, 2 := sleeping]), [], [], map[0 := Some(0)], map[0 := 0], {1, 2})
    ensures Follows(w, w') && Follows(w', w'')
    ensures w''.j.active.None? && w''.j.calls == map[1 := sleeping] && w''.started == map[0 := 0]
  {
    assert Enabled(w, Finish(0, verdict));
    w' := Next(w, Finish(0, verdict));
    assert w'.j.calls == map[1 := sleeping, 2 := sleeping.(wake := Drained)];
    var event := Event(1, verdict, Some(0));
    assert w'.j.events == [event];
    OwnEvents([event], 0);
    ClosesUnlessBlocked(w'.j, 2, 0);
    assert Enabled(w', Resume(2, 0));
    w'' := Next(w', Resume(2, 0));
  }

  lemma {:induction false} ClosesUnlessBlocked(j: Journal, call: CallId, ns: nat)
    requires call in j.calls && !j.calls[call].wake.Asleep?
    requires forall e :: e in TokenEvents(j.events, j.calls[call].boundary.token) ==> Projectable(e)
    ensures EndPhaseResume(j, call, ns).0.active.None? && EndPhaseResume(j, call, ns).0.calls == j.calls - {call}
  {
    var raw := TokenEvents(j.events, j.calls[call].boundary.token);
    assert forall i :: 0 <= i < |raw| ==> raw[i] in raw;
    assert EndPhaseResume(j, call, ns).1 != Failure(EventInvalid);
  }

  lemma OwnEvents(events: seq<Event>, token: Token)
    requires AllOf(events, token)
    ensures TokenEvents(events, token) == events
  {
    TokenEventsLength(events, token);
  }

  lemma FirstCallTimesOut(w: World, sleeping: EndCall) returns (w7: World, w8: World, w9: World)
    requires sleeping == EndCall(Boundary(Initialize, 0, 0, 0, 0), Asleep)
    requires w.j.active.None? && w.j.calls == map[1 := sleeping] && w.started == map[0 := 0]
    ensures Follows(w, w7) && Follows(w7, w8) && Follows(w8, w9)
    ensures w8.j.active.Some? && w8.j.active.value.token == 1 && 1 in w8.j.calls && w8.j.calls[1].boundary.token == 0
    ensures Enabled(w8, Resume(1, 0)) && w9 == Next(w8, Resume(1, 0)) && w9.j.active.None?
  {
    assert Enabled(w, Open(PostInitializeIdle, 1, 0));
    w7 := Next(w, Open(PostInitializeIdle, 1, 0));
    assert Enabled(w7, Timeout(1));
    w8 := Next(w7, Timeout(1));
    assert Enabled(w8, Resume(1, 0));
    w9 := Next(w8, Resume(1, 0));
  }
}
