/**
 What a diagnostic stage does with the journal: it captures one phase after another, re-checks
 each reply of the proxy, adds an alias of the login phase, and correlates whole snapshots.
 */
module StageEgress {
  import opened Common
  import J = PhaseJournal
  import E = EgressEvidence
  import P = EgressProxyJournal

  const MAX_PHASE_EVENTS: nat := 80

  datatype Source = ProxyPhaseCursor | RpcEnvelopeAlias

  /** The text shapes tested by regular expression: an upper-case digest and a timestamp. */
  datatype Shapes = Shapes(isSha256: string -> bool, isTimestamp: string -> bool)

  /** A received phase; `None` and `NotSafe` stand for values of the wrong type or spelling. */
  datatype RawPhase = RawPhase(phase: J.Phase, source: Option<Source>, correlated: Option<J.Phase>,
                               startedNs: Option<nat>, endedNs: Option<nat>,
                               beforeCursor: E.Number, afterCursor: E.Number, beforeCount: E.Number, afterCount: E.Number,
                               count: E.Number, events: Option<seq<Option<J.Projected>>>)

  datatype SafePhase = SafePhase(phase: J.Phase, source: Source, startedNs: nat, endedNs: nat,
                                 beforeCursor: int, afterCursor: int, beforeCount: int, afterCount: int, count: int,
                                 events: seq<J.Projected>)

  const STAGE_PHASES: seq<J.Phase> :=
    [J.AppServerStartup, J.Initialize, J.PostInitializeIdle, J.AccountLoginStart,
     J.DeviceCodeUserCodeRequest, J.PostRequestProcessing]

  /** The place of a phase in the stage's order, or -1. */
  function PhaseIndex(phase: J.Phase): int {
    match phase
    case AppServerStartup => 0
    case Initialize => 1
    case PostInitializeIdle => 2
    case AccountLoginStart => 3
    case DeviceCodeUserCodeRequest => 4
    case PostRequestProcessing => 5
    case OtherPhase(_) => -1
  }

  lemma PhaseIndexIsPosition(phase: J.Phase)
    ensures phase in STAGE_PHASES <==> PhaseIndex(phase) >= 0
    ensures PhaseIndex(phase) >= 0 ==> PhaseIndex(phase) < |STAGE_PHASES| && STAGE_PHASES[PhaseIndex(phase)] == phase
  {
    assert STAGE_PHASES[0] == J.AppServerStartup && STAGE_PHASES[1] == J.Initialize;
    assert STAGE_PHASES[2] == J.PostInitializeIdle && STAGE_PHASES[3] == J.AccountLoginStart;
    assert STAGE_PHASES[4] == J.DeviceCodeUserCodeRequest && STAGE_PHASES[5] == J.PostRequestProcessing;
  }

  predicate Bounded(value: E.Number, low: int, high: int) {
    value.Safe? && low <= value.n <= high
  }

  predicate SafeStageEvent(sh: Shapes, event: Option<J.Projected>, beforeCursor: int, afterCursor: int) {
    && event.Some?
    && beforeCursor < event.value.cursor <= afterCursor
    && sh.isSha256(event.value.fingerprint)
    && 1 <= event.value.port <= 65535
    && !event.value.reason.OtherReason?
    && sh.isTimestamp(event.value.observedAt)
    && event.value.count == 1
  }

  function CountOf(events: seq<Option<J.Projected>>): int {
    if events == [] then 0 else (if events[0].Some? then events[0].value.count else 0) + CountOf(events[1..])
  }

  predicate SafeFields(v: RawPhase) {
    && PhaseIndex(v.phase) >= 0
    && v.source.Some? && v.startedNs.Some? && v.endedNs.Some? && v.endedNs.value >= v.startedNs.value
    && Bounded(v.beforeCursor, 0, E.MAX_SAFE_INTEGER) && Bounded(v.afterCursor, v.beforeCursor.n, E.MAX_SAFE_INTEGER)
    && Bounded(v.beforeCount, 0, MAX_PHASE_EVENTS) && Bounded(v.afterCount, 0, MAX_PHASE_EVENTS)
    && Bounded(v.count, 0, MAX_PHASE_EVENTS)
    && v.events.Some? && |v.events.value| <= MAX_PHASE_EVENTS
    && (v.source.value == RpcEnvelopeAlias ==>
          v.phase == J.DeviceCodeUserCodeRequest && v.correlated == Some(J.AccountLoginStart))
    && (v.source.value == ProxyPhaseCursor ==> v.correlated.None?)
  }

  function ProjectSafePhaseEgress(sh: Shapes, v: RawPhase): Option<SafePhase> {
    if !SafeFields(v) then None
    else
      var events := v.events.value;
      if (exists i :: 0 <= i < |events| && !SafeStageEvent(sh, events[i], v.beforeCursor.n, v.afterCursor.n))
         || CountOf(events) != v.count.n
      then None
      else Some(SafePhase(v.phase, v.source.value, v.startedNs.value, v.endedNs.value, v.beforeCursor.n, v.afterCursor.n,
                          v.beforeCount.n, v.afterCount.n, v.count.n, Values(events)))
  }

  function Values(events: seq<Option<J.Projected>>): (values: seq<J.Projected>)
    requires forall i :: 0 <= i < |events| ==> events[i].Some?
    ensures |values| == |events| && forall i :: 0 <= i < |events| ==> Some(values[i]) == events[i]
  {
    seq(|events|, i requires 0 <= i < |events| => events[i].value)
  }

  /** A projected phase, sent or stored and received again. */
  function AsRaw(p: SafePhase): RawPhase {
    RawPhase(p.phase, Some(p.source), if p.source == RpcEnvelopeAlias then Some(J.AccountLoginStart) else None,
             Some(p.startedNs), Some(p.endedNs), E.Safe(p.beforeCursor), E.Safe(p.afterCursor), E.Safe(p.beforeCount),
             E.Safe(p.afterCount), E.Safe(p.count), Some(Somes(p.events)))
  }

  function Somes(events: seq<J.Projected>): (somes: seq<Option<J.Projected>>)
    ensures |somes| == |events| && forall i :: 0 <= i < |events| ==> somes[i] == Some(events[i])
  {
    seq(|events|, i requires 0 <= i < |events| => Some(events[i]))
  }

  /** A phase that some projection has accepted. */
  ghost predicate Accepted(sh: Shapes, p: SafePhase) {
    ProjectSafePhaseEgress(sh, AsRaw(p)) == Some(p)
  }

  lemma ProjectionIsAccepted(sh: Shapes, v: RawPhase)
    ensures var p := ProjectSafePhaseEgress(sh, v); p.Some? ==> Accepted(sh, p.value)
  {
    var p := ProjectSafePhaseEgress(sh, v);
    if p.Some? {
      assert Somes(p.value.events) == v.events.value;
      assert Values(Somes(p.value.events)) == p.value.events;
      assert AsRaw(p.value) == v;
    }
  }

  function Find(phases: seq<SafePhase>, phase: J.Phase): Option<SafePhase> {
    if phases == [] then None else if phases[0].phase == phase then Some(phases[0]) else Find(phases[1..], phase)
  }

  function ProjectEach(project: RawPhase -> Option<SafePhase>, value: seq<RawPhase>): Option<seq<SafePhase>> {
    if value == [] then Some([])
    else
      var first := project(value[0]);
      var rest := ProjectEach(project, value[1..]);
      if first.None? || rest.None? then None else Some([first.value] + rest.value)
  }

  function Projecting(sh: Shapes): RawPhase -> Option<SafePhase> {
    v => ProjectSafePhaseEgress(sh, v)
  }

  predicate InOrder(phases: seq<SafePhase>) {
    forall i :: 0 <= i < |phases| ==>
      PhaseIndex(phases[i].phase) >= 0
      && (i > 0 ==> PhaseIndex(phases[i - 1].phase) < PhaseIndex(phases[i].phase))
  }

  predicate SameWindow(a: SafePhase, b: SafePhase) {
    && a.beforeCursor == b.beforeCursor && a.afterCursor == b.afterCursor
    && a.startedNs == b.startedNs && a.endedNs == b.endedNs && a.events == b.events
  }

  function ProjectSafePhaseEgressList(sh: Shapes, value: seq<RawPhase>): Option<seq<SafePhase>> {
    if |value| > |STAGE_PHASES| then None
    else
      match ProjectEach(Projecting(sh), value)
      case None => None
      case Some(phases) =>
        if !InOrder(phases) then None
        else
          var alias := Find(phases, J.DeviceCodeUserCodeRequest);
          var account := Find(phases, J.AccountLoginStart);
          if alias.Some? && (account.None? || !SameWindow(alias.value, account.value)) then None else Some(phases)
  }

  // ---------------------------------------------------------------- capturing

  datatype BeginReply = BeginReply(phase: J.Phase, tokenIsUuid: bool, startedNs: Option<nat>,
                                   beforeCursor: E.Number, beforeCount: E.Number)

  /** The two replies of the proxy around one action, and whether the action threw. A failed request is `None`. */
  datatype Attempt = Attempt(begin: Option<BeginReply>, actionThrows: bool, end: Option<RawPhase>)

  /** The phase that is recorded, if any, and whether the capture returns normally. */
  function CaptureProxyPhase(sh: Shapes, phase: J.Phase, attempt: Attempt): (Option<SafePhase>, bool) {
    if attempt.begin.None? then (None, false)
    else
      var begin := attempt.begin.value;
      if begin.phase != phase || !begin.tokenIsUuid || begin.startedNs.None?
         || !Bounded(begin.beforeCursor, 0, E.MAX_SAFE_INTEGER) || !Bounded(begin.beforeCount, 0, MAX_PHASE_EVENTS)
      then (None, false)
      else if attempt.end.None? then (None, false)
      else
        match ProjectSafePhaseEgress(sh, attempt.end.value.(source := Some(ProxyPhaseCursor)))
        case None => (None, false)
        case Some(evidence) =>
          if evidence.phase != phase || evidence.startedNs != begin.startedNs.value
             || evidence.beforeCursor != begin.beforeCursor.n || evidence.beforeCount != begin.beforeCount.n
          then (None, false)
          else (Some(evidence), !attempt.actionThrows)
  }

  function AliasDeviceUserCodePhase(sh: Shapes, login: SafePhase): Option<SafePhase> {
    ProjectSafePhaseEgress(sh, AsRaw(login).(phase := J.DeviceCodeUserCodeRequest, source := Some(RpcEnvelopeAlias),
                                             correlated := Some(J.AccountLoginStart)))
  }

  lemma AliasNeverThrows(sh: Shapes, login: SafePhase)
    requires Accepted(sh, login) && login.phase == J.AccountLoginStart
    ensures var alias := AliasDeviceUserCodePhase(sh, login);
            && alias.Some? && Accepted(sh, alias.value) && SameWindow(alias.value, login)
            && alias.value.phase == J.DeviceCodeUserCodeRequest
  {
    ProjectionIsAccepted(sh, AsRaw(login).(phase := J.DeviceCodeUserCodeRequest, source := Some(RpcEnvelopeAlias),
                                           correlated := Some(J.AccountLoginStart)));
  }

  function Raws(phases: seq<SafePhase>): seq<RawPhase> {
    seq(|phases|, i requires 0 <= i < |phases| => AsRaw(phases[i]))
  }

  /** The phases of a stage so far: each accepted, and their names a beginning of the stage's order,
      where only the alias may still be missing, right after the login phase. */
  ghost predicate StageSoFar(sh: Shapes, phases: seq<SafePhase>) {
    && |phases| <= |STAGE_PHASES|
    && (forall i :: 0 <= i < |phases| ==> Accepted(sh, phases[i]) && PhaseIndex(phases[i].phase) == i)
    && (|phases| > 4 ==> SameWindow(phases[4], phases[3]))
  }

  lemma {:induction false} AcceptedEach(project: RawPhase -> Option<SafePhase>, raws: seq<RawPhase>, phases: seq<SafePhase>)
    requires |raws| == |phases| && forall i :: 0 <= i < |phases| ==> project(raws[i]) == Some(phases[i])
    ensures ProjectEach(project, raws) == Some(phases)
  {
    if phases != [] {
      var rest := phases[1..];
      AcceptedEach(project, raws[1..], rest);
      assert phases == [phases[0]] + rest;
    }
  }

  lemma {:induction false} FindByIndex(phases: seq<SafePhase>, first: nat, phase: J.Phase)
    requires forall i :: 0 <= i < |phases| ==> PhaseIndex(phases[i].phase) == first + i
    requires PhaseIndex(phase) >= first
    ensures var at := PhaseIndex(phase) - first;
            Find(phases, phase) == if at < |phases| then Some(phases[at]) else None
  {
    if phases != [] && PhaseIndex(phase) > first {
      FindByIndex(phases[1..], first + 1, phase);
    }
    if phases != [] && PhaseIndex(phase) == first {
      PhaseIndexIsPosition(phase);
      PhaseIndexIsPosition(phases[0].phase);
    }
  }

  lemma EachAccepted(sh: Shapes, phases: seq<SafePhase>)
    requires forall i :: 0 <= i < |phases| ==> Accepted(sh, phases[i])
    ensures ProjectEach(Projecting(sh), Raws(phases)) == Some(phases)
  {
    forall i | 0 <= i < |phases|
      ensures Projecting(sh)(Raws(phases)[i]) == Some(phases[i])
    {
      assert Accepted(sh, phases[i]);
    }
    AcceptedEach(Projecting(sh), Raws(phases), phases);
  }

  lemma StageSoFarIsListed(sh: Shapes, phases: seq<SafePhase>)
    requires StageSoFar(sh, phases)
    ensures ProjectSafePhaseEgressList(sh, Raws(phases)) == Some(phases)
  {
    EachAccepted(sh, phases);
    FindByIndex(phases, 0, J.DeviceCodeUserCodeRequest);
    FindByIndex(phases, 0, J.AccountLoginStart);
  }

  lemma CapturedPhase(sh: Shapes, phase: J.Phase, attempt: Attempt)
    ensures var (captured, _) := CaptureProxyPhase(sh, phase, attempt);
            captured.Some? ==> Accepted(sh, captured.value) && captured.value.phase == phase
  {
    if attempt.end.Some? {
      ProjectionIsAccepted(sh, attempt.end.value.(source := Some(ProxyPhaseCursor)));
    }
  }

  /** The events of a received phase are all sound, and it counts each of them once. */
  predicate CountsItsEvents(sh: Shapes, v: RawPhase)
    requires SafeFields(v)
  {
    && |v.events.value| == v.count.n
    && forall i :: 0 <= i < |v.events.value| ==> SafeStageEvent(sh, v.events.value[i], v.beforeCursor.n, v.afterCursor.n)
  }

  /** A received phase is accepted exactly when its fields and events are sound, and is kept field by field. */
  lemma ProjectedIff(sh: Shapes, v: RawPhase)
    ensures var p := ProjectSafePhaseEgress(sh, v);
            && (p.Some? <==> SafeFields(v) && CountsItsEvents(sh, v))
            && (p.Some? ==>
                  && p.value.phase == v.phase && Some(p.value.source) == v.source
                  && Some(p.value.startedNs) == v.startedNs && Some(p.value.endedNs) == v.endedNs
                  && p.value.startedNs <= p.value.endedNs
                  && E.Safe(p.value.beforeCursor) == v.beforeCursor && E.Safe(p.value.afterCursor) == v.afterCursor
                  && E.Safe(p.value.beforeCount) == v.beforeCount && E.Safe(p.value.afterCount) == v.afterCount
                  && E.Safe(p.value.count) == v.count && Some(Somes(p.value.events)) == v.events)
  {
    if SafeFields(v) && forall i :: 0 <= i < |v.events.value| ==>
        SafeStageEvent(sh, v.events.value[i], v.beforeCursor.n, v.afterCursor.n) {
      CountOfOnes(v.events.value);
      assert Somes(Values(v.events.value)) == v.events.value;
    }
  }

  /** The proxy's two replies around an action agree on the phase, its start and where it began. */
  predicate RepliesAgree(sh: Shapes, phase: J.Phase, attempt: Attempt) {
    && attempt.begin.Some? && attempt.end.Some?
    && var b, e := attempt.begin.value, attempt.end.value.(source := Some(ProxyPhaseCursor));
    && b.tokenIsUuid && b.startedNs.Some?
    && Bounded(b.beforeCursor, 0, E.MAX_SAFE_INTEGER) && Bounded(b.beforeCount, 0, MAX_PHASE_EVENTS)
    && SafeFields(e) && CountsItsEvents(sh, e)
    && b.phase == phase && e.phase == phase
    && e.startedNs == b.startedNs && e.beforeCursor == b.beforeCursor && e.beforeCount == b.beforeCount
  }

  /** A capture records the end reply exactly when the two replies agree, and returns if moreover its action did. */
  lemma CaptureIff(sh: Shapes, phase: J.Phase, attempt: Attempt)
    ensures var (captured, returned) := CaptureProxyPhase(sh, phase, attempt);
            && (captured.Some? <==> RepliesAgree(sh, phase, attempt))
            && (returned <==> RepliesAgree(sh, phase, attempt) && !attempt.actionThrows)
            && (captured.Some? ==> AsRaw(captured.value) == attempt.end.value.(source := Some(ProxyPhaseCursor)))
  {
    if attempt.end.Some? {
      ProjectedIff(sh, attempt.end.value.(source := Some(ProxyPhaseCursor)));
    }
  }

  predicate StrictlyOrdered(phases: seq<SafePhase>) {
    && (forall i :: 0 <= i < |phases| ==> PhaseIndex(phases[i].phase) >= 0)
    && forall i, j :: 0 <= i < j < |phases| ==> PhaseIndex(phases[i].phase) < PhaseIndex(phases[j].phase)
  }

  /** A device-code phase repeats the window of the login phase in the same list. */
  predicate AliasFits(phases: seq<SafePhase>) {
    forall i :: 0 <= i < |phases| && phases[i].phase == J.DeviceCodeUserCodeRequest ==>
      exists j :: 0 <= j < |phases| && phases[j].phase == J.AccountLoginStart && SameWindow(phases[i], phases[j])
  }

  lemma {:induction false} EachProjected(project: RawPhase -> Option<SafePhase>, raws: seq<RawPhase>, phases: seq<SafePhase>)
    ensures ProjectEach(project, raws) == Some(phases) <==>
              |raws| == |phases| && forall i :: 0 <= i < |phases| ==> project(raws[i]) == Some(phases[i])
  {
    if raws != [] && phases != [] {
      EachProjected(project, raws[1..], phases[1..]);
      assert phases == [phases[0]] + phases[1..];
      assert forall i :: 0 < i < |phases| ==> phases[i] == phases[1..][i - 1];
      if |raws| == |phases| {
        assert forall i :: 0 < i < |raws| ==> raws[i] == raws[1..][i - 1];
      }
    }
  }

  lemma {:induction false} OrderedBefore(phases: seq<SafePhase>, i: nat, j: nat)
    requires InOrder(phases) && i < j < |phases|
    ensures PhaseIndex(phases[i].phase) < PhaseIndex(phases[j].phase)
    decreases j
  {
    if i < j - 1 {
      OrderedBefore(phases, i, j - 1);
    }
  }

  lemma InOrderIff(phases: seq<SafePhase>)
    ensures InOrder(phases) <==> StrictlyOrdered(phases)
  {
    if InOrder(phases) {
      forall i, j | 0 <= i < j < |phases| ensures PhaseIndex(phases[i].phase) < PhaseIndex(phases[j].phase) {
        OrderedBefore(phases, i, j);
      }
    }
  }

  lemma {:induction false} FindFinds(phases: seq<SafePhase>, phase: J.Phase)
    ensures var found := Find(phases, phase);
            && (found.Some? ==> exists i :: 0 <= i < |phases| && phases[i] == found.value && found.value.phase == phase)
            && (found.None? ==> forall i :: 0 <= i < |phases| ==> phases[i].phase != phase)
  {
    if phases != [] && phases[0].phase != phase {
      FindFinds(phases[1..], phase);
      var found := Find(phases[1..], phase);
      if found.Some? {
        var i :| 0 <= i < |phases[1..]| && phases[1..][i] == found.value;
        assert phases[i + 1] == found.value;
      } else {
        assert forall i :: 0 < i < |phases| ==> phases[i] == phases[1..][i - 1];
      }
    }
  }

  lemma OnlyOne(phases: seq<SafePhase>, i: nat, j: nat)
    requires StrictlyOrdered(phases) && i < |phases| && j < |phases| && phases[i].phase == phases[j].phase
    ensures phases[i] == phases[j]
  {
  }

  lemma AliasFitsIff(phases: seq<SafePhase>)
    requires StrictlyOrdered(phases)
    ensures var alias, account := Find(phases, J.DeviceCodeUserCodeRequest), Find(phases, J.AccountLoginStart);
            AliasFits(phases) <==> alias.None? || (account.Some? && SameWindow(alias.value, account.value))
  {
    var alias, account := Find(phases, J.DeviceCodeUserCodeRequest), Find(phases, J.AccountLoginStart);
    FindFinds(phases, J.DeviceCodeUserCodeRequest);
    FindFinds(phases, J.AccountLoginStart);
    if alias.Some? {
      var i :| 0 <= i < |phases| && phases[i] == alias.value && alias.value.phase == J.DeviceCodeUserCodeRequest;
      forall k | 0 <= k < |phases| && phases[k].phase == J.DeviceCodeUserCodeRequest ensures phases[k] == alias.value {
        OnlyOne(phases, i, k);
      }
      forall k | 0 <= k < |phases| && phases[k].phase == J.AccountLoginStart ensures account == Some(phases[k]) {
        var j :| 0 <= j < |phases| && phases[j] == account.value && account.value.phase == J.AccountLoginStart;
        OnlyOne(phases, j, k);
      }
    }
  }

  /** A received list is accepted exactly when it has at most six sound phases, in order, whose alias fits. */
  lemma ListedIff(sh: Shapes, value: seq<RawPhase>, phases: seq<SafePhase>)
    ensures ProjectSafePhaseEgressList(sh, value) == Some(phases) <==>
              && |value| == |phases| <= 6
              && (forall i :: 0 <= i < |phases| ==> ProjectSafePhaseEgress(sh, value[i]) == Some(phases[i]))
              && StrictlyOrdered(phases) && AliasFits(phases)
  {
    EachProjected(Projecting(sh), value, phases);
    InOrderIff(phases);
    if StrictlyOrdered(phases) {
      AliasFitsIff(phases);
    }
    assert forall v :: Projecting(sh)(v) == ProjectSafePhaseEgress(sh, v);
  }

  /** The phase at a place of the list is what its own capture gave; the alias is that of the login phase. */
  predicate FromAttempt(sh: Shapes, phases: seq<SafePhase>, attempts: seq<Attempt>, i: nat)
    requires |attempts| == 5 && i < |phases| <= |STAGE_PHASES|
  {
    if i == 4 then AliasDeviceUserCodePhase(sh, phases[3]) == Some(phases[4])
    else CaptureProxyPhase(sh, STAGE_PHASES[i], attempts[if i < 4 then i else 4]).0 == Some(phases[i])
  }

  predicate FromAttempts(sh: Shapes, phases: seq<SafePhase>, attempts: seq<Attempt>)
    requires |attempts| == 5 && |phases| <= |STAGE_PHASES|
  {
    forall i :: 0 <= i < |phases| ==> FromAttempt(sh, phases, attempts, i)
  }

  lemma FromOneMore(sh: Shapes, phases: seq<SafePhase>, next: SafePhase, attempts: seq<Attempt>)
    requires |attempts| == 5 && |phases| < |STAGE_PHASES| && FromAttempts(sh, phases, attempts)
    requires FromAttempt(sh, phases + [next], attempts, |phases|)
    ensures FromAttempts(sh, phases + [next], attempts)
  {
    var all := phases + [next];
    forall i | 0 <= i < |all|
      ensures FromAttempt(sh, all, attempts, i)
    {
      if i < |phases| {
        assert FromAttempt(sh, phases, attempts, i);
        assert all[i] == phases[i];
      }
    }
  }

  /** One capture of a stage: the phase is recorded as soon as both replies agree, whether or not the action threw. */
  method Capture(sh: Shapes, phase: J.Phase, attempts: seq<Attempt>, k: nat, phases: seq<SafePhase>)
    returns (after: seq<SafePhase>, returned: bool)
    requires |attempts| == 5 && StageSoFar(sh, phases) && FromAttempts(sh, phases, attempts)
    requires |phases| < |STAGE_PHASES| && STAGE_PHASES[|phases|] == phase && J.IsJournalPhase(phase)
    requires k == if |phases| < 4 then |phases| else 4
    ensures StageSoFar(sh, after) && FromAttempts(sh, after, attempts) && phases <= after && |after| <= |phases| + 1
    ensures returned ==> |after| == |phases| + 1
    ensures returned <==> CaptureProxyPhase(sh, phase, attempts[k]).1
    ensures |after| > |phases| <==> CaptureProxyPhase(sh, phase, attempts[k]).0.Some?
  {
    CapturedPhase(sh, phase, attempts[k]);
    var (captured, ok) := CaptureProxyPhase(sh, phase, attempts[k]);
    after, returned := phases, ok;
    if captured.Some? {
      after := phases + [captured.value];
      AppendedPhase(sh, phases, captured.value);
      FromOneMore(sh, phases, captured.value, attempts);
    }
  }

  lemma AppendedPhase(sh: Shapes, phases: seq<SafePhase>, phase: SafePhase)
    requires StageSoFar(sh, phases) && Accepted(sh, phase) && PhaseIndex(phase.phase) == |phases|
    requires |phases| == 4 ==> SameWindow(phase, phases[3])
    ensures StageSoFar(sh, phases + [phase])
  {
  }

  predicate EachReturns(sh: Shapes, attempts: seq<Attempt>)
    requires |attempts| == 5
  {
    && CaptureProxyPhase(sh, J.AppServerStartup, attempts[0]).1
    && CaptureProxyPhase(sh, J.Initialize, attempts[1]).1
    && CaptureProxyPhase(sh, J.PostInitializeIdle, attempts[2]).1
    && CaptureProxyPhase(sh, J.AccountLoginStart, attempts[3]).1
    && CaptureProxyPhase(sh, J.PostRequestProcessing, attempts[4]).1
  }

  /**
   The phases a stage accumulates. `attempts` gives the outcome of each of its five captures in
   turn, and `stop` is the number of captures after which some other step of the stage throws.
   Wherever it stops, the list so far is one that evidence projection accepts unchanged,
   by `StageSoFarIsListed`.
   */
  method RunStagePhases(sh: Shapes, attempts: seq<Attempt>, stop: nat) returns (phases: seq<SafePhase>, finished: bool)
    requires |attempts| == 5
    ensures StageSoFar(sh, phases) && FromAttempts(sh, phases, attempts)
    ensures finished ==> |phases| == |STAGE_PHASES|
    ensures finished <==> stop >= 5 && EachReturns(sh, attempts)
  {
    phases, finished := [], false;
    if stop == 0 { return; }
    phases, finished := Capture(sh, J.AppServerStartup, attempts, 0, phases);
    if !finished || stop == 1 { finished := false; return; }
    phases, finished := Capture(sh, J.Initialize, attempts, 1, phases);
    if !finished || stop == 2 { finished := false; return; }
    phases, finished := Capture(sh, J.PostInitializeIdle, attempts, 2, phases);
    if !finished || stop == 3 { finished := false; return; }
    phases, finished := Capture(sh, J.AccountLoginStart, attempts, 3, phases);
    if !finished { return; }
    AliasNeverThrows(sh, phases[3]);
    var alias := AliasDeviceUserCodePhase(sh, phases[3]).value;
    AppendedPhase(sh, phases, alias);
    FromOneMore(sh, phases, alias, attempts);
    phases := phases + [alias];
    if stop == 4 { finished := false; return; }
    phases, finished := Capture(sh, J.PostRequestProcessing, attempts, 4, phases);
  }

  // ---------------------------------------------------------------- the proxy's own replies

  /** The proxy's reply to a successful `endPhase`. */
  function EndReply(r: J.PhaseResult): RawPhase {
    RawPhase(r.phase, Some(ProxyPhaseCursor), None, Some(r.startedNs), Some(r.endedNs), E.ToNumber(r.beforeCursor),
             E.ToNumber(r.afterCursor), E.ToNumber(r.beforeCount), E.ToNumber(r.afterCount), E.ToNumber(r.count),
             Some(Somes(r.events)))
  }

  /** The texts of an event that the proxy does not check itself: its time, and the fingerprint of its host. */
  predicate Stamped(sh: Shapes, projector: J.Projector, event: J.Event) {
    sh.isTimestamp(event.verdict.observedAt) && sh.isSha256(projector.fingerprint(event.verdict.host))
  }

  predicate AllStamped(sh: Shapes, projector: J.Projector, events: seq<J.Event>) {
    forall i :: 0 <= i < |events| ==> Stamped(sh, projector, events[i])
  }

  lemma {:induction false} CountOfOnes(events: seq<Option<J.Projected>>)
    requires forall i :: 0 <= i < |events| ==> events[i].Some? && events[i].value.count == 1
    ensures CountOf(events) == |events|
  {
    if events != [] {
      CountOfOnes(events[1..]);
    }
  }

  /** A phase the journal ends successfully is one that the stage accepts, unless a clock runs backwards or a text of
      one of its events has the wrong shape. */
  lemma JournalPhaseIsAccepted(sh: Shapes, run: seq<J.World>, projector: J.Projector, i: nat, call: J.CallId, ns: nat)
    requires J.IsRun(run, MAX_PHASE_EVENTS, projector) && i < |run| && J.Enabled(run[i], J.Resume(call, ns))
    requires J.EndPhaseResume(run[i].j, call, ns).1.Success?
    requires |run[i].log| <= E.MAX_SAFE_INTEGER
    ensures var r := J.EndPhaseResume(run[i].j, call, ns).1.value;
            && r.beforeCursor <= |run[i].log|
            && (ProjectSafePhaseEgress(sh, EndReply(r)).Some? <==>
                  r.startedNs <= ns && AllStamped(sh, projector, run[i].log[r.beforeCursor..]))
            && (ProjectSafePhaseEgress(sh, EndReply(r)).Some? ==>
                  ProjectSafePhaseEgress(sh, EndReply(r)).value ==
                  SafePhase(r.phase, ProxyPhaseCursor, r.startedNs, ns, r.beforeCursor, |run[i].log|, r.beforeCount,
                            r.afterCount, r.count, r.events))
  {
    J.SuccessReportsPhase(run, MAX_PHASE_EVENTS, projector, i, call, ns);
    J.RunKeepsInv(run, MAX_PHASE_EVENTS, projector, i);
    J.SuccessIsProjectable(run[i], call, ns);
    J.ResultFields(run[i].j, call, ns);
    var w := run[i];
    var r := J.EndPhaseResume(w.j, call, ns).1.value;
    ReportIsAccepted(sh, w, w.j.calls[call].boundary.token, r);
  }

  lemma ReportIsAccepted(sh: Shapes, w: J.World, token: J.Token, r: J.PhaseResult)
    requires J.LogValid(w) && w.j.maxEvents == MAX_PHASE_EVENTS && J.ReportsPhase(w, token, r)
    requires r.count <= MAX_PHASE_EVENTS && r.beforeCount <= MAX_PHASE_EVENTS && r.afterCount <= MAX_PHASE_EVENTS
    requires J.IsJournalPhase(r.phase) && |w.log| <= E.MAX_SAFE_INTEGER
    requires forall i :: r.beforeCursor <= i < |w.log| ==> J.Projectable(w.log[i])
    ensures ProjectSafePhaseEgress(sh, EndReply(r)).Some? <==>
              r.startedNs <= r.endedNs && AllStamped(sh, w.j.projector, w.log[r.beforeCursor..])
    ensures ProjectSafePhaseEgress(sh, EndReply(r)).Some? ==>
              ProjectSafePhaseEgress(sh, EndReply(r)).value ==
              SafePhase(r.phase, ProxyPhaseCursor, r.startedNs, r.endedNs, r.beforeCursor, r.afterCursor, r.beforeCount,
                        r.afterCount, r.count, r.events)
  {
    ProjectedIff(sh, EndReply(r));
    var events, slice := Somes(r.events), w.log[r.beforeCursor..];
    forall i | 0 <= i < |events|
      ensures SafeStageEvent(sh, events[i], r.beforeCursor, r.afterCursor) <==> Stamped(sh, w.j.projector, slice[i])
      ensures events[i].value.count == 1
    {
      var j := r.beforeCursor + i;
      assert events[i] == Some(J.Project(w.j.projector, w.log[j])) && slice[i] == w.log[j];
    }
    CountOfOnes(events);
  }

  // ---------------------------------------------------------------- whole-stage snapshots

  datatype StageSnapshot = StageSnapshot(cursor: nat, count: nat, events: seq<J.Projected>)

  datatype StageEvidence = StageEvidence(beforeCursor: nat, afterCursor: nat, beforeCount: nat, afterCount: nat,
                                         count: int, events: seq<J.Projected>)

  /** `None` is received when the proxy did not answer. */
  function ProjectSafeProxySnapshot(sh: Shapes, healthy: bool, received: Option<P.Snapshot>): Option<StageSnapshot> {
    if received.None? then None else ProjectReceived(sh, healthy, received.value)
  }

  function ProjectReceived(sh: Shapes, healthy: bool, s: P.Snapshot): Option<StageSnapshot> {
    if !healthy || s.cursor > E.MAX_SAFE_INTEGER || s.count != |s.events| || |s.events| > MAX_PHASE_EVENTS || s.cursor < s.count
       || (exists i :: 0 <= i < |s.events| && !SafeStageEvent(sh, Some(s.events[i]), 0, s.cursor))
       || (exists i, k :: 0 <= i < k < |s.events| && s.events[i].cursor == s.events[k].cursor)
    then None
    else Some(StageSnapshot(s.cursor, s.count, s.events))
  }

  function CursorsOf(events: seq<J.Projected>): set<nat> {
    set i | 0 <= i < |events| :: events[i].cursor
  }

  lemma {:induction false} DistinctCursors(events: seq<J.Projected>)
    ensures |CursorsOf(events)| <= |events|
    ensures |CursorsOf(events)| == |events| <==> forall i, k :: 0 <= i < k < |events| ==> events[i].cursor != events[k].cursor
  {
    if events != [] {
      var n := |events| - 1;
      DistinctCursors(events[..n]);
      assert forall i :: 0 <= i < n ==> events[..n][i] == events[i];
      assert CursorsOf(events) == CursorsOf(events[..n]) + {events[n].cursor};
      if events[n].cursor in CursorsOf(events[..n]) {
        assert CursorsOf(events) == CursorsOf(events[..n]);
      }
    }
  }

  /** A received snapshot is accepted exactly when the proxy is healthy and it holds that many sound events, no cursor twice. */
  lemma ReceivedIff(sh: Shapes, healthy: bool, s: P.Snapshot)
    ensures ProjectSafeProxySnapshot(sh, healthy, None).None?
    ensures var taken := ProjectSafeProxySnapshot(sh, healthy, Some(s));
            && (taken.Some? <==>
                  && healthy && s.count == |s.events| <= 80 && s.count <= s.cursor <= E.MAX_SAFE_INTEGER
                  && (forall e :: e in s.events ==> SafeStageEvent(sh, Some(e), 0, s.cursor))
                  && |CursorsOf(s.events)| == |s.events|)
            && (taken.Some? ==> taken.value == StageSnapshot(s.cursor, s.count, s.events))
  {
    DistinctCursors(s.events);
    assert forall i :: 0 <= i < |s.events| ==> s.events[i] in s.events;
  }

  function CorrelateStageEgress(before: StageSnapshot, after: StageSnapshot): Option<StageEvidence> {
    if before.count != |before.events| || after.count != |after.events| || before.cursor != 0 || before.count != 0
       || after.cursor < before.cursor || after.count < before.count
    then None
    else
      var events := after.events[before.count..];
      if (exists i :: 0 <= i < |events| && events[i].cursor != before.cursor + i + 1)
         || after.cursor != before.cursor + |events|
      then None
      else Some(StageEvidence(before.cursor, after.cursor, before.count, after.count, CountOf(Somes(events)), events))
  }

  /**
   Correlating any two accepted snapshots: the earlier one must be that of a fresh proxy, and the later one must
   hold the events with the cursors one, two and so on up to its own, which the evidence then lists.
   */
  lemma CorrelationIff(before: StageSnapshot, after: StageSnapshot)
    ensures var n := |after.events|;
            CorrelateStageEgress(before, after) ==
            if before == StageSnapshot(0, 0, []) && after.count == n && after.cursor == n
               && forall i :: 0 <= i < n ==> after.events[i].cursor == i + 1
            then Some(StageEvidence(0, n, 0, n, CountOf(Somes(after.events)), after.events)) else None
  {
    if before == StageSnapshot(0, 0, []) {
      assert after.events[0..] == after.events;
    }
  }

  /** The diagnostic mode's snapshot of a journal at some world; nothing while a retained event cannot be projected. */
  function SnapshotOf(w: J.World): Option<P.Snapshot> {
    if exists i :: 0 <= i < |w.j.events| && !J.Projectable(w.j.events[i]) then None
    else Some(P.Snapshot(w.j.cursor, w.j.pendingConnects, |w.j.events|, J.ProjectAll(w.j.projector, w.j.events)))
  }

  /** What the stage makes of that snapshot. */
  function Taken(sh: Shapes, w: J.World): Option<StageSnapshot> {
    ProjectSafeProxySnapshot(sh, true, SnapshotOf(w))
  }

  /** All events that the journal still holds can be projected and have the texts the stage tests. */
  predicate RetainedAreSound(sh: Shapes, w: J.World) {
    E.Readable(w.log) && AllStamped(sh, w.j.projector, LastN(w.log, MAX_PHASE_EVENTS))
  }

  /** The stage accepts the journal's own snapshot exactly when every retained event is sound, and keeps it unchanged. */
  lemma SnapshotIsSafe(sh: Shapes, w: J.World)
    requires J.LogValid(w) && w.j.maxEvents == MAX_PHASE_EVENTS && |w.log| <= E.MAX_SAFE_INTEGER
    ensures Taken(sh, w).Some? <==> RetainedAreSound(sh, w)
    ensures Taken(sh, w).Some? ==>
              SnapshotOf(w).Some? && var s := SnapshotOf(w).value;
                                     Taken(sh, w) == Some(StageSnapshot(s.cursor, s.count, s.events))
  {
    var kept := |w.log| - |w.j.events|;
    if E.Readable(w.log) {
      var events := SnapshotOf(w).value.events;
      forall i | 0 <= i < |events|
        ensures SafeStageEvent(sh, Some(events[i]), 0, w.j.cursor) <==> Stamped(sh, w.j.projector, w.j.events[i])
        ensures events[i].cursor == kept + i + 1
      {
        var j := kept + i;
        assert w.j.events[i] == w.log[j];
      }
    }
  }

  /**
   Correlating a fresh proxy's snapshot with a later one: there is a later one exactly when the events
   still held are sound, and then correlation gives the whole log, or fails because some of it was evicted.
   */
  lemma CorrelationIsWholeLog(sh: Shapes, run: seq<J.World>, projector: J.Projector, i: nat)
    requires J.IsRun(run, MAX_PHASE_EVENTS, projector) && i < |run| && |run[i].log| <= E.MAX_SAFE_INTEGER
    ensures var before, after := Taken(sh, run[0]), Taken(sh, run[i]);
            && before.Some? && (after.Some? <==> RetainedAreSound(sh, run[i]))
            && (after.Some? ==>
                  var evidence := CorrelateStageEgress(before.value, after.value);
                  && (evidence.Some? <==> |run[i].log| <= MAX_PHASE_EVENTS)
                  && (evidence.Some? ==> evidence.value.events == J.ProjectAll(projector, run[i].log)
                                         && evidence.value.count == |run[i].log|))
  {
    J.RunKeepsInv(run, MAX_PHASE_EVENTS, projector, 0);
    J.RunKeepsInv(run, MAX_PHASE_EVENTS, projector, i);
    SnapshotIsSafe(sh, run[0]);
    SnapshotIsSafe(sh, run[i]);
    if Taken(sh, run[i]).Some? {
      CorrelationOfTail(run[i], Taken(sh, run[0]).value, Taken(sh, run[i]).value);
    }
  }

  lemma CorrelationOfTail(w: J.World, before: StageSnapshot, after: StageSnapshot)
    requires J.LogValid(w) && w.j.maxEvents == MAX_PHASE_EVENTS
    requires before == StageSnapshot(0, 0, [])
    requires after == StageSnapshot(w.j.cursor, |w.j.events|, J.ProjectAll(w.j.projector, w.j.events))
    ensures var evidence := CorrelateStageEgress(before, after);
            && (evidence.Some? <==> |w.log| <= MAX_PHASE_EVENTS)
            && (evidence.Some? ==> evidence.value.events == J.ProjectAll(w.j.projector, w.log)
                                   && evidence.value.count == |w.log|)
  {
    var events := after.events[0..];
    assert events == after.events;
    CountOfOnes(Somes(events));
    if |w.log| > MAX_PHASE_EVENTS {
      assert after.cursor != |events|;
    } else {
      assert w.j.events == w.log;
    }
  }

  /**
   What the evidence does not say by itself, and the later snapshot does: it accounts for every
   connection begun if and only if that snapshot had none pending.
   */
  lemma CorrelationAccountsForAllIff(sh: Shapes, run: seq<J.World>, projector: J.Projector, i: nat)
    requires J.IsRun(run, MAX_PHASE_EVENTS, projector) && i < |run| && |run[i].log| <= E.MAX_SAFE_INTEGER
    requires Taken(sh, run[i]).Some?
    ensures Taken(sh, run[0]).Some? && SnapshotOf(run[i]).Some?
    ensures var evidence := CorrelateStageEgress(Taken(sh, run[0]).value, Taken(sh, run[i]).value);
            var quiet := SnapshotOf(run[i]).value.pendingConnects == 0;
            evidence.Some? ==>
              && (evidence.value.count == |run[i].begun| <==> quiet)
              && ((forall c :: c in run[i].begun ==> c in run[i].makers) <==> quiet)
  {
    CorrelationIsWholeLog(sh, run, projector, i);
    J.JournalAgreesWithLog(run, MAX_PHASE_EVENTS, projector, i);
    J.RunKeepsInv(run, MAX_PHASE_EVENTS, projector, i);
    NoneInFlight(run[i]);
  }

  lemma NoneInFlight(w: J.World)
    ensures |J.InFlight(w)| == 0 <==> forall c :: c in w.begun ==> c in w.makers
  {
    forall c | c in w.begun && c !in w.makers ensures c in J.InFlight(w) {
    }
    if forall c :: c in w.begun ==> c in w.makers {
      assert J.InFlight(w) == {};
    }
  }

  /** But it is silent on connections still in flight: a stage may be correlated while one has not been decided. */
  lemma CorrelationIgnoresInFlight(sh: Shapes, projector: J.Projector) returns (run: seq<J.World>)
    ensures J.IsRun(run, MAX_PHASE_EVENTS, projector) && |run| == 2 && J.InFlight(run[1]) == {0}
    ensures var before, after := Taken(sh, run[0]), Taken(sh, run[1]);
            && before.Some? && after.Some?
            && CorrelateStageEgress(before.value, after.value) == Some(StageEvidence(0, 0, 0, 0, 0, []))
  {
    var w := J.InitialWorld(MAX_PHASE_EVENTS, projector);
    assert J.Enabled(w, J.Begin(0));
    run := [w, J.Next(w, J.Begin(0))];
    assert J.Follows(run[0], run[1]);
  }
}
