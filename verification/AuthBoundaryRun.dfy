/**
 The one-shot state machine of an authentication boundary experiment. Its methods check, record
 and move on, and any of them may throw, some after they have already changed a field.
 */
module AuthBoundaryRun {
  import opened Common

  /** A value that should be an ISO timestamp. */
  datatype Stamp = NotATime | At(ms: int)

  /** A value that should be a safe integer. */
  datatype Number = NotANumber | NullNumber | Integer(value: int)

  /** A login id as held or as sent: null, a string, or something else. */
  datatype Login = NoLogin | LoginId(id: string) | OtherLogin

  datatype State =
    | Created | PreflightPassed | RuntimeVerified | Initialized | LoginStartInFlight
    | WaitingForProviderCompletion | LoginCompletionObserved | AccountReadInFlight | Terminal | TerminalDiscarded

  datatype ProtocolMethod = Initialize | LoginStart | AccountRead

  const PROTOCOL := [Initialize, LoginStart, AccountRead]

  datatype Outcome =
    | LoginStartFailure | ProviderLoginFailure | AccountReadSuccess | AccountReadFailure | ProviderOutcomeUncertain

  datatype FailureCode =
    | DeviceAuthRpcError | DeviceAuthStartTimeout | DeviceAuthEnvelopeInvalid | DeviceAuthResponseInvalid
    | LoginFailed | OutcomeUncertain
    | AccountReadRpcError | AccountReadTimeout | AccountReadResultInvalid | OtherFailure

  datatype Stage = AccountLoginStart | AccountReading | ProviderCompletionWait

  datatype Error = OrderInvalid | EvidenceInvalid | CleanupUnverified | ProjectionFailed | CallbackFailed

  datatype RpcOutcome = RpcResult | JsonRpcError | RpcTimeout | TransportError

  datatype Rpc = Rpc(name: ProtocolMethod, requestId: int, rpcCode: Option<int>, outcome: RpcOutcome, at: int)

  datatype AccountState = Present | Absent | UnknownAccount | NotAnAccountState

  datatype Notification =
    | Updated
    | OtherNotification
    | Completed(experiment: Option<string>, operation: Option<string>, generation: Option<string>,
                login: Login, success: Option<bool>, at: Stamp)

  datatype Run = Run(
    experimentId: string,
    operationId: string,
    state: State,
    login: Login,
    outcome: Option<Outcome>,
    failureCode: Option<FailureCode>,
    terminalStage: Option<Stage>,
    terminalAt: Option<int>,
    rpc: Option<Rpc>,
    protocolMethods: seq<ProtocolMethod>,
    generation: Option<string>,
    loginStartCount: nat,
    accountReadCount: nat,
    loginStartAt: Option<int>,
    loginRequestId: Option<int>,
    accountReadRequestId: Option<int>,
    notifiedAt: Option<int>,
    account: Option<(AccountState, bool)>,
    teardownVerified: bool)

  function NewRun(experimentId: string, operationId: string): Run {
    Run(experimentId, operationId, Created, NoLogin, None, None, None, None, None, [], None, 0, 0, None, None, None, None, None, false)
  }

  /** The public methods; `valid` stands for a projection or shape test that belongs to another component. */
  datatype Call =
    | AcceptPreflight(valid: bool)
    | AcceptIsolatedRuntime(valid: bool)
    | MarkInitialized(generation: Option<string>, valid: bool, at: Stamp)
    | BeginLoginStart(requestId: Number, at: Stamp)
    | RecordLoginStartFailure(code: FailureCode, rpcCode: Number, requestId: Number, at: Stamp)
    | PresentCheckpoint(valid: bool, loginId: string, requestId: Number, at: Stamp, callbackThrows: bool)
    | ObserveNotification(notification: Notification)
    | BeginAccountRead(requestId: Number, at: Stamp)
    | RecordAccountReadFailure(code: FailureCode, rpcCode: Number, requestId: Number, at: Stamp)
    | RecordAccountReadResult(requestId: Number, at: Stamp, accountState: AccountState, authenticated: Option<bool>)
    | MarkProviderOutcomeUncertain(at: Stamp)
    | MarkTeardownVerified(containerRemoved: bool, homeDiscarded: bool, proxyRemoved: bool)

  /** The run after a call, and what the call threw. */
  datatype Reply = Reply(run: Run, thrown: Option<Error>)

  // ---- The methods ----

  predicate IsRequestId(n: Number) {
    n.Integer? && n.value >= 1
  }

  function SafeRpc(name: ProtocolMethod, requestId: Number, rpcCode: Number, outcome: RpcOutcome, at: Stamp): Option<Rpc> {
    if !IsRequestId(requestId) || rpcCode.NotANumber? || at.NotATime? then None
    else Some(Rpc(name, requestId.value, if rpcCode.Integer? then Some(rpcCode.value) else None, outcome, at.ms))
  }

  function StageOf(s: State): Stage {
    if s.LoginStartInFlight? then AccountLoginStart else if s.AccountReadInFlight? then AccountReading else ProviderCompletionWait
  }

  /** The internal `finish`, with an outcome and a failure code of its tables. */
  function Finish(r: Run, outcome: Outcome, code: Option<FailureCode>, at: Stamp): Reply {
    if at.NotATime? then Reply(r, Some(EvidenceInvalid))
    else Reply(r.(outcome := Some(outcome), failureCode := code, terminalStage := Some(StageOf(r.state)),
               terminalAt := Some(at.ms), state := Terminal), None)
  }

  function Failing(r: Run, name: ProtocolMethod, code: FailureCode, rpcCode: Number, requestId: Number, at: Stamp,
                   outcome: Outcome, rpcOutcome: RpcOutcome): Reply {
    var rpc := SafeRpc(name, requestId, rpcCode, rpcOutcome, at);
    if rpc.None? then Reply(r, Some(EvidenceInvalid))
    else Finish(r.(rpc := rpc), outcome, Some(code), at)
  }

  predicate Matches(r: Run, n: Notification) {
    && n.Completed? && n.experiment == Some(r.experimentId) && n.operation == Some(r.operationId)
    && n.generation == r.generation && n.login == r.login
    && n.success.Some? && n.at.At? && (r.loginStartAt.Some? ==> n.at.ms >= r.loginStartAt.value)
  }

  /** The login id is forgotten before `finish` may throw. */
  function Observed(r: Run, n: Notification): Reply {
    if !r.state.WaitingForProviderCompletion? then Reply(r, Some(OrderInvalid))
    else if !n.Completed? then Reply(r, None)
    else if !Matches(r, n) then Finish(r.(login := NoLogin), ProviderOutcomeUncertain, Some(OutcomeUncertain), n.at)
    else
      var s := r.(notifiedAt := Some(n.at.ms), login := NoLogin);
      if !n.success.value then Finish(s, ProviderLoginFailure, Some(LoginFailed), n.at)
      else Reply(s.(state := LoginCompletionObserved), None)
  }

  function Presented(r: Run, c: Call): Reply
    requires c.PresentCheckpoint?
  {
    if !r.state.LoginStartInFlight? || !c.requestId.Integer? || Some(c.requestId.value) != r.loginRequestId || c.at.NotATime? then
      Reply(r, Some(OrderInvalid))
    else if !c.valid then Reply(r, Some(EvidenceInvalid))
    else
      var s := r.(login := LoginId(c.loginId));
      var rpc := SafeRpc(LoginStart, c.requestId, NullNumber, RpcResult, c.at);
      if rpc.None? then Reply(s, Some(EvidenceInvalid))
      else Reply(s.(rpc := rpc, state := WaitingForProviderCompletion), if c.callbackThrows then Some(CallbackFailed) else None)
  }

  function ReadResult(r: Run, c: Call): Reply
    requires c.RecordAccountReadResult?
  {
    if !r.state.AccountReadInFlight? || !c.requestId.Integer? || Some(c.requestId.value) != r.accountReadRequestId
       || c.at.NotATime? || c.accountState.NotAnAccountState? || c.authenticated.None? then Reply(r, Some(EvidenceInvalid))
    else
      var rpc := SafeRpc(AccountRead, c.requestId, NullNumber, RpcResult, c.at);
      if rpc.None? then Reply(r, Some(EvidenceInvalid))
      else
        var s := r.(rpc := rpc, account := Some((c.accountState, c.authenticated.value)));
        if c.authenticated.value && c.accountState.Present? then Finish(s, AccountReadSuccess, None, c.at)
        else Finish(s, AccountReadFailure, Some(AccountReadResultInvalid), c.at)
  }

  function Apply(r: Run, c: Call): Reply {
    match c
    case AcceptPreflight(valid) =>
      if !r.state.Created? then Reply(r, Some(OrderInvalid))
      else if !valid then Reply(r, Some(ProjectionFailed))
      else Reply(r.(state := PreflightPassed), None)
    case AcceptIsolatedRuntime(valid) =>
      if !r.state.PreflightPassed? then Reply(r, Some(OrderInvalid))
      else if !valid then Reply(r, Some(ProjectionFailed))
      else Reply(r.(state := RuntimeVerified), None)
    case MarkInitialized(generation, valid, at) =>
      if !r.state.RuntimeVerified? || generation.None? || !valid || at.NotATime? then Reply(r, Some(OrderInvalid))
      else Reply(r.(generation := generation, protocolMethods := r.protocolMethods + [Initialize], state := Initialized), None)
    case BeginLoginStart(requestId, at) =>
      if !r.state.Initialized? || r.loginStartCount != 0 || !IsRequestId(requestId) || at.NotATime? then Reply(r, Some(OrderInvalid))
      else Reply(r.(loginStartCount := 1, protocolMethods := r.protocolMethods + [LoginStart], loginStartAt := Some(at.ms),
                 loginRequestId := Some(requestId.value), state := LoginStartInFlight), None)
    case RecordLoginStartFailure(code, rpcCode, requestId, at) =>
      if !r.state.LoginStartInFlight?
         || !(code.DeviceAuthRpcError? || code.DeviceAuthStartTimeout? || code.DeviceAuthEnvelopeInvalid? || code.DeviceAuthResponseInvalid?)
      then Reply(r, Some(OrderInvalid))
      else Failing(r, LoginStart, code, rpcCode, requestId, at, LoginStartFailure,
             if code.DeviceAuthStartTimeout? then RpcTimeout else if code.DeviceAuthRpcError? then JsonRpcError else TransportError)
    case PresentCheckpoint(_, _, _, _, _) => Presented(r, c)
    case ObserveNotification(n) => Observed(r, n)
    case BeginAccountRead(requestId, at) =>
      if !r.state.LoginCompletionObserved? || r.accountReadCount != 0 || !IsRequestId(requestId) || at.NotATime? then
        Reply(r, Some(OrderInvalid))
      else Reply(r.(accountReadCount := 1, protocolMethods := r.protocolMethods + [AccountRead], state := AccountReadInFlight,
                 accountReadRequestId := Some(requestId.value)), None)
    case RecordAccountReadFailure(code, rpcCode, requestId, at) =>
      if !r.state.AccountReadInFlight? || !(code.AccountReadRpcError? || code.AccountReadTimeout? || code.AccountReadResultInvalid?) then
        Reply(r, Some(OrderInvalid))
      else Failing(r, AccountRead, code, rpcCode, requestId, at, AccountReadFailure,
             if code.AccountReadTimeout? then RpcTimeout else if code.AccountReadRpcError? then JsonRpcError else TransportError)
    case RecordAccountReadResult(_, _, _, _) => ReadResult(r, c)
    case MarkProviderOutcomeUncertain(at) =>
      if !r.state.WaitingForProviderCompletion? || at.NotATime? then Reply(r, Some(OrderInvalid))
      else Finish(r.(login := NoLogin), ProviderOutcomeUncertain, Some(OutcomeUncertain), at)
    case MarkTeardownVerified(container, home, proxy) =>
      if r.outcome.None? || !container || !home || !proxy then Reply(r, Some(CleanupUnverified))
      else Reply(r.(teardownVerified := true, state := TerminalDiscarded), None)
  }

  /** `safeEvidence` gives evidence or throws; it changes nothing. */
  predicate EvidenceAvailable(r: Run, valid: bool) {
    r.state.TerminalDiscarded? && r.teardownVerified && valid
  }

  function After(r: Run, calls: seq<Call>): Run {
    if calls == [] then r else Apply(After(r, calls[..|calls| - 1]), calls[|calls| - 1]).run
  }

  // ---- The invariant ----

  predicate IsTerminal(s: State) {
    s.Terminal? || s.TerminalDiscarded?
  }

  /** How many protocol methods a state that is still open has sent. */
  function Sent(s: State): nat {
    match s
    case Initialized => 1
    case LoginStartInFlight => 2
    case WaitingForProviderCompletion => 2
    case LoginCompletionObserved => 2
    case AccountReadInFlight => 3
    case _ => 0
  }

  predicate MethodsInOrder(r: Run) {
    && r.protocolMethods <= PROTOCOL
    && (if IsTerminal(r.state) then 2 <= |r.protocolMethods| else |r.protocolMethods| == Sent(r.state))
    && r.loginStartCount == (if LoginStart in r.protocolMethods then 1 else 0)
    && r.accountReadCount == (if AccountRead in r.protocolMethods then 1 else 0)
    && (|r.protocolMethods| >= 2 ==> r.loginStartAt.Some? && r.loginRequestId.Some? && r.loginRequestId.value >= 1)
    && (|r.protocolMethods| >= 3 ==> r.accountReadRequestId.Some? && r.accountReadRequestId.value >= 1)
  }

  predicate OutcomeFits(r: Run) {
    && (r.outcome.Some? <==> IsTerminal(r.state))
    && (r.outcome.None? ==> r.failureCode.None? && r.terminalStage.None? && r.terminalAt.None?)
    && (r.outcome.Some? ==> r.terminalStage.Some? && r.terminalAt.Some? && (r.failureCode.None? <==> r.outcome.value.AccountReadSuccess?))
    && (r.outcome.Some? ==> (r.terminalStage.value == AccountLoginStart <==> r.outcome.value.LoginStartFailure?))
    && (r.outcome.Some? ==>
          (r.terminalStage.value == AccountReading <==> r.outcome.value.AccountReadSuccess? || r.outcome.value.AccountReadFailure?))
    && (r.teardownVerified <==> r.state.TerminalDiscarded?)
  }

  predicate LoginHeld(r: Run) {
    && !r.login.OtherLogin?
    && (r.login.LoginId? ==> r.state.WaitingForProviderCompletion?)
    && (r.generation.None? <==> r.protocolMethods == [])
    && (r.state.LoginCompletionObserved? || r.state.AccountReadInFlight? ==> r.notifiedAt.Some?)
    && (r.outcome == Some(AccountReadSuccess) ==> r.notifiedAt.Some? && r.account == Some((Present, true)) && |r.protocolMethods| == 3)
  }

  predicate Inv(r: Run) {
    MethodsInOrder(r) && OutcomeFits(r) && LoginHeld(r)
  }

  lemma PrefixGrows(r: Run, n: nat)
    requires r.protocolMethods <= PROTOCOL && |r.protocolMethods| == n && n < 3
    ensures r.protocolMethods + [PROTOCOL[n]] <= PROTOCOL
    ensures LoginStart in r.protocolMethods <==> n >= 2
    ensures LoginStart in r.protocolMethods + [PROTOCOL[n]] <==> n >= 1
    ensures AccountRead in r.protocolMethods + [PROTOCOL[n]] <==> n >= 2
    ensures AccountRead !in r.protocolMethods
  {
    assert r.protocolMethods == PROTOCOL[..n];
    assert PROTOCOL[..1] == [Initialize] && PROTOCOL[..2] == [Initialize, LoginStart];
    assert r.protocolMethods + [PROTOCOL[n]] == PROTOCOL[..n + 1];
  }

  predicate Sends(c: Call) {
    c.MarkInitialized? || c.BeginLoginStart? || c.BeginAccountRead?
  }

  lemma SendingKeepsOrder(r: Run, c: Call)
    requires Inv(r) && Sends(c)
    ensures MethodsInOrder(Apply(r, c).run)
  {
    if |r.protocolMethods| < 3 {
      PrefixGrows(r, |r.protocolMethods|);
    }
  }

  /** The calls that may end the run by finishing it. */
  predicate Ends(c: Call) {
    || c.RecordLoginStartFailure? || c.ObserveNotification? || c.RecordAccountReadFailure? || c.RecordAccountReadResult?
    || c.MarkProviderOutcomeUncertain?
  }

  lemma EndingKeepsOrder(r: Run, c: Call)
    requires Inv(r) && Ends(c)
    ensures MethodsInOrder(Apply(r, c).run)
  {
  }

  lemma OthersKeepOrder(r: Run, c: Call)
    requires Inv(r) && !Sends(c) && !Ends(c)
    ensures MethodsInOrder(Apply(r, c).run)
  {
  }

  lemma EndingKeepsOutcome(r: Run, c: Call)
    requires Inv(r) && Ends(c)
    ensures OutcomeFits(Apply(r, c).run)
  {
  }

  lemma ProgressKeepsOutcome(r: Run, c: Call)
    requires Inv(r) && !Ends(c)
    ensures OutcomeFits(Apply(r, c).run)
  {
  }

  lemma ApplyKeepsOutcome(r: Run, c: Call)
    requires Inv(r)
    ensures OutcomeFits(Apply(r, c).run)
  {
    if Ends(c) {
      EndingKeepsOutcome(r, c);
    } else {
      ProgressKeepsOutcome(r, c);
    }
  }

  lemma EndingKeepsLogin(r: Run, c: Call)
    requires Inv(r) && Ends(c)
    ensures LoginHeld(Apply(r, c).run)
  {
  }

  lemma ProgressKeepsLogin(r: Run, c: Call)
    requires Inv(r) && !Ends(c)
    ensures LoginHeld(Apply(r, c).run)
  {
  }

  lemma ApplyKeepsInv(r: Run, c: Call)
    requires Inv(r)
    ensures Inv(Apply(r, c).run)
  {
    ApplyKeepsOutcome(r, c);
    if Ends(c) {
      EndingKeepsOrder(r, c);
      EndingKeepsLogin(r, c);
    } else {
      ProgressKeepsLogin(r, c);
      if Sends(c) {
        SendingKeepsOrder(r, c);
      } else {
        OthersKeepOrder(r, c);
      }
    }
  }

  lemma {:induction false} AfterKeepsInv(r: Run, calls: seq<Call>)
    requires Inv(r)
    ensures Inv(After(r, calls))
  {
    if calls != [] {
      AfterKeepsInv(r, calls[..|calls| - 1]);
      ApplyKeepsInv(After(r, calls[..|calls| - 1]), calls[|calls| - 1]);
    }
  }

  // ---- What holds in every run ----

  function Rank(s: State): nat {
    match s
    case Created => 0
    case PreflightPassed => 1
    case RuntimeVerified => 2
    case Initialized => 3
    case LoginStartInFlight => 4
    case WaitingForProviderCompletion => 5
    case LoginCompletionObserved => 6
    case AccountReadInFlight => 7
    case Terminal => 8
    case TerminalDiscarded => 9
  }

  lemma RankStep(r: Run, c: Call)
    requires Inv(r)
    ensures Rank(Apply(r, c).run.state) >= Rank(r.state)
  {
  }

  /** States only move forward. */
  lemma {:induction false} RankGrows(r: Run, calls: seq<Call>)
    requires Inv(r)
    ensures Rank(After(r, calls).state) >= Rank(r.state)
  {
    if calls != [] {
      var before := calls[..|calls| - 1];
      RankGrows(r, before);
      AfterKeepsInv(r, before);
      RankStep(After(r, before), calls[|calls| - 1]);
    }
  }

  /** Any sequence of calls, throwing or not, sends each protocol method at most once and in order. */
  lemma ProtocolIsAPrefix(experimentId: string, operationId: string, calls: seq<Call>)
    ensures var r := After(NewRun(experimentId, operationId), calls);
            && r.protocolMethods <= PROTOCOL
            && r.loginStartCount == (if LoginStart in r.protocolMethods then 1 else 0)
            && r.accountReadCount == (if AccountRead in r.protocolMethods then 1 else 0)
            && (r.outcome.Some? <==> IsTerminal(r.state))
            && (r.outcome.Some? ==> (r.failureCode.None? <==> r.outcome == Some(AccountReadSuccess)))
  {
    AfterKeepsInv(NewRun(experimentId, operationId), calls);
  }

  /** The outcome is set once: whatever is called afterwards, the terminal record stays as it is. */
  lemma {:induction false} OutcomeIsFinal(r: Run, calls: seq<Call>)
    requires Inv(r) && r.outcome.Some?
    ensures var s := After(r, calls);
            s == r.(state := s.state, teardownVerified := s.teardownVerified) && IsTerminal(s.state)
            && (r.teardownVerified ==> s == r)
  {
    if calls != [] {
      var before := calls[..|calls| - 1];
      OutcomeIsFinal(r, before);
      AfterKeepsInv(r, before);
    }
  }

  /** Evidence is available exactly after an outcome whose teardown was verified in all three parts. */
  lemma {:induction false} EvidenceNeedsTeardown(r: Run, calls: seq<Call>, valid: bool) returns (k: nat)
    requires Inv(r) && !r.teardownVerified && EvidenceAvailable(After(r, calls), valid)
    ensures k < |calls| && calls[k] == MarkTeardownVerified(true, true, true)
    ensures After(r, calls[..k]).outcome.Some? && After(r, calls[..k]).outcome == After(r, calls).outcome
    decreases |calls|
  {
    var n := |calls| - 1;
    var before := After(r, calls[..n]);
    AfterKeepsInv(r, calls[..n]);
    TeardownStep(before, calls[n]);
    if before.teardownVerified {
      k := EvidenceNeedsTeardown(r, calls[..n], true);
      assert calls[..n][..k] == calls[..k];
    } else {
      k := n;
    }
  }

  // ---- Success ----

  /** A successful completion of this experiment, operation and server generation, not older than the login, with the id held. */
  predicate AcceptsCompletion(r: Run, c: Call) {
    && c.ObserveNotification? && r.state.WaitingForProviderCompletion? && c.notification.Completed?
    && c.notification.experiment == Some(r.experimentId) && c.notification.operation == Some(r.operationId)
    && r.generation.Some? && c.notification.generation == r.generation
    && c.notification.login == r.login && c.notification.success == Some(true)
    && c.notification.at.At? && r.loginStartAt.Some? && r.loginStartAt.value <= c.notification.at.ms
  }

  predicate ReadsAccount(r: Run, c: Call) {
    && c.RecordAccountReadResult? && r.state.AccountReadInFlight? && c.requestId.Integer?
    && Some(c.requestId.value) == r.accountReadRequestId && c.accountState.Present? && c.authenticated == Some(true)
  }

  /** The call that led out of one group of states, found in the run. */
  lemma {:induction false} CompletionWasAccepted(r: Run, calls: seq<Call>) returns (k: nat)
    requires Inv(r) && r.notifiedAt.None?
    requires Completing(After(r, calls).state)
    ensures k < |calls| && AcceptsCompletion(After(r, calls[..k]), calls[k])
    ensures After(r, calls).notifiedAt == Some(calls[k].notification.at.ms)
    decreases |calls|
  {
    AfterKeepsInv(r, calls);
    var n := |calls| - 1;
    AfterKeepsInv(r, calls[..n]);
    CompletionStep(After(r, calls[..n]), calls[n]);
    if Completing(After(r, calls[..n]).state) {
      k := CompletionWasAccepted(r, calls[..n]);
      assert calls[..n][..k] == calls[..k];
    } else {
      k := n;
    }
  }

  predicate Completing(s: State) {
    s.LoginCompletionObserved? || s.AccountReadInFlight?
  }

  lemma CompletionStep(r: Run, c: Call)
    requires Inv(r) && Completing(Apply(r, c).run.state)
    ensures Completing(r.state) ==> Apply(r, c).run.notifiedAt == r.notifiedAt
    ensures !Completing(r.state) ==> AcceptsCompletion(r, c) && Apply(r, c).run.notifiedAt == Some(c.notification.at.ms)
  {
  }

  /** While the run waits, it moves on to the account read exactly when such a completion is observed. */
  lemma CompletionAcceptedIff(r: Run, c: Call)
    requires Inv(r) && r.state.WaitingForProviderCompletion?
    ensures Completing(Apply(r, c).run.state) <==> AcceptsCompletion(r, c)
    ensures AcceptsCompletion(r, c) ==> Apply(r, c).thrown.None? && Apply(r, c).run.login == NoLogin
  {
    if Completing(Apply(r, c).run.state) {
      CompletionStep(r, c);
    }
  }

  lemma SuccessStep(r: Run, c: Call)
    requires Inv(r) && Apply(r, c).run.outcome == Some(AccountReadSuccess)
    ensures r.outcome.None? ==> ReadsAccount(r, c) && Completing(r.state)
    ensures r.outcome.Some? ==> r.outcome == Some(AccountReadSuccess)
  {
  }

  lemma TeardownStep(r: Run, c: Call)
    requires Inv(r) && Apply(r, c).run.teardownVerified
    ensures !r.teardownVerified ==> c == MarkTeardownVerified(true, true, true) && r.outcome.Some?
    ensures Apply(r, c).run.outcome == r.outcome && (r.teardownVerified ==> r.state.TerminalDiscarded?)
  {
  }

  /**
   Success was reached through an accepted completion notification of this experiment, operation
   and server generation, and a later account read that carried the id of the request sent.
   */
  lemma {:induction false} SuccessWasEarned(r: Run, calls: seq<Call>) returns (i: nat, j: nat)
    requires Inv(r) && r.notifiedAt.None? && r.outcome.None? && After(r, calls).outcome == Some(AccountReadSuccess)
    ensures i < j < |calls| && AcceptsCompletion(After(r, calls[..i]), calls[i]) && ReadsAccount(After(r, calls[..j]), calls[j])
    decreases |calls|
  {
    var n := |calls| - 1;
    var before := After(r, calls[..n]);
    AfterKeepsInv(r, calls[..n]);
    SuccessStep(before, calls[n]);
    if before.outcome.Some? {
      i, j := SuccessWasEarned(r, calls[..n]);
      assert calls[..n][..i] == calls[..i] && calls[..n][..j] == calls[..j];
    } else {
      j := n;
      i := CompletionWasAccepted(r, calls[..n]);
      assert calls[..n][..i] == calls[..i];
    }
  }

  // ---- What ends a run, and what each call records ----

  /** A completion notification for this login: right experiment, operation, generation and id, decided, and not older. */
  predicate IsForLogin(r: Run, n: Notification) {
    && n.Completed? && n.experiment == Some(r.experimentId) && n.operation == Some(r.operationId)
    && n.generation == r.generation && n.login == r.login && n.success.Some? && n.at.At?
    && (r.loginStartAt.None? || r.loginStartAt.value <= n.at.ms)
  }

  predicate SoundRpc(requestId: Number, rpcCode: Number, at: Stamp) {
    requestId.Integer? && requestId.value >= 1 && !rpcCode.NotANumber? && at.At?
  }

  /** When a call ends the run with this outcome, failure code and time. */
  predicate Concludes(r: Run, c: Call, outcome: Outcome, code: Option<FailureCode>, at: int) {
    match c
    case RecordLoginStartFailure(failure, rpcCode, requestId, time) =>
      && r.state == LoginStartInFlight && SoundRpc(requestId, rpcCode, time) && time == At(at)
      && failure in {DeviceAuthRpcError, DeviceAuthStartTimeout, DeviceAuthEnvelopeInvalid, DeviceAuthResponseInvalid}
      && outcome == LoginStartFailure && code == Some(failure)
    case RecordAccountReadFailure(failure, rpcCode, requestId, time) =>
      && r.state == AccountReadInFlight && SoundRpc(requestId, rpcCode, time) && time == At(at)
      && failure in {AccountReadRpcError, AccountReadTimeout, AccountReadResultInvalid}
      && outcome == AccountReadFailure && code == Some(failure)
    case RecordAccountReadResult(requestId, time, account, authenticated) =>
      && r.state == AccountReadInFlight && requestId.Integer? && Some(requestId.value) == r.accountReadRequestId
      && time == At(at) && account != NotAnAccountState && authenticated.Some?
      && (if account == Present && authenticated == Some(true) then outcome == AccountReadSuccess && code == None
          else outcome == AccountReadFailure && code == Some(AccountReadResultInvalid))
    case MarkProviderOutcomeUncertain(time) =>
      r.state == WaitingForProviderCompletion && time == At(at) && outcome == ProviderOutcomeUncertain && code == Some(OutcomeUncertain)
    case ObserveNotification(n) =>
      && r.state == WaitingForProviderCompletion && n.Completed? && n.at == At(at)
      && (if !IsForLogin(r, n) then outcome == ProviderOutcomeUncertain && code == Some(OutcomeUncertain)
          else n.success == Some(false) && outcome == ProviderLoginFailure && code == Some(LoginFailed))
    case _ => false
  }

  /** A call ends an open run exactly so: a refused login is told from an uncertain one, and each failure keeps its code. */
  lemma ConcludesIff(r: Run, c: Call, outcome: Outcome, code: Option<FailureCode>, at: int)
    requires Inv(r) && r.outcome.None?
    ensures var after := Apply(r, c).run;
            (after.outcome == Some(outcome) && after.failureCode == code && after.terminalAt == Some(at))
            <==> Concludes(r, c, outcome, code, at)
  {
    if c.ObserveNotification? {
      ObservationConcludes(r, c, outcome, code, at);
    } else if Ends(c) {
      EndingConcludes(r, c, outcome, code, at);
    }
  }

  lemma ObservationConcludes(r: Run, c: Call, outcome: Outcome, code: Option<FailureCode>, at: int)
    requires Inv(r) && r.outcome.None? && c.ObserveNotification?
    ensures var after := Apply(r, c).run;
            (after.outcome == Some(outcome) && after.failureCode == code && after.terminalAt == Some(at))
            <==> Concludes(r, c, outcome, code, at)
  {
    assert Matches(r, c.notification) <==> IsForLogin(r, c.notification);
  }

  lemma EndingConcludes(r: Run, c: Call, outcome: Outcome, code: Option<FailureCode>, at: int)
    requires Inv(r) && r.outcome.None? && Ends(c) && !c.ObserveNotification?
    ensures var after := Apply(r, c).run;
            (after.outcome == Some(outcome) && after.failureCode == code && after.terminalAt == Some(at))
            <==> Concludes(r, c, outcome, code, at)
  {
  }

  /** In every run, the outcome was given by the one call that ended it. */
  lemma {:induction false} OutcomeHasItsCause(r: Run, calls: seq<Call>) returns (k: nat)
    requires Inv(r) && r.outcome.None? && After(r, calls).outcome.Some?
    ensures k < |calls| && After(r, calls).terminalAt.Some?
    ensures var s := After(r, calls);
            After(r, calls[..k]).outcome.None?
            && Concludes(After(r, calls[..k]), calls[k], s.outcome.value, s.failureCode, s.terminalAt.value)
    decreases |calls|
  {
    var n := |calls| - 1;
    var before := After(r, calls[..n]);
    AfterKeepsInv(r, calls[..n]);
    AfterKeepsInv(r, calls);
    if before.outcome.Some? {
      k := OutcomeHasItsCause(r, calls[..n]);
      assert calls[..n][..k] == calls[..k];
      OutcomeIsFinal(before, [calls[n]]);
      OneMoreCall(before, calls[n]);
    } else {
      k := n;
      var s := After(r, calls);
      ConcludesIff(before, calls[n], s.outcome.value, s.failureCode, s.terminalAt.value);
    }
  }

  lemma OneMoreCall(r: Run, c: Call)
    ensures After(r, [c]) == Apply(r, c).run
  {
    assert [c][..0] == [];
  }

  /** The calls that move an open run one state forward, and where to. */
  function Advances(r: Run, c: Call): Option<State> {
    match (c, r.state)
    case (AcceptPreflight(true), Created) => Some(PreflightPassed)
    case (AcceptIsolatedRuntime(true), PreflightPassed) => Some(RuntimeVerified)
    case (MarkInitialized(Some(_), true, At(_)), RuntimeVerified) => Some(Initialized)
    case (BeginLoginStart(Integer(id), At(_)), Initialized) => if id >= 1 then Some(LoginStartInFlight) else None
    case (PresentCheckpoint(true, _, Integer(id), At(_), _), LoginStartInFlight) =>
      if r.loginRequestId == Some(id) then Some(WaitingForProviderCompletion) else None
    case (ObserveNotification(n), WaitingForProviderCompletion) =>
      if IsForLogin(r, n) && n.success == Some(true) then Some(LoginCompletionObserved) else None
    case (BeginAccountRead(Integer(id), At(_)), LoginCompletionObserved) => if id >= 1 then Some(AccountReadInFlight) else None
    case _ => None
  }

  /** An open run moves on exactly by the right call with the right values; every other call leaves its state or ends it. */
  lemma AdvancesIff(r: Run, c: Call)
    requires Inv(r) && r.outcome.None?
    ensures var after := Apply(r, c).run;
            after.outcome.None? ==> after.state == if Advances(r, c).Some? then Advances(r, c).value else r.state
    ensures Advances(r, c).Some? ==> Apply(r, c).run.outcome.None? && (Apply(r, c).thrown.None? <==> !(c.PresentCheckpoint? && c.callbackThrows))
  {
    if Ends(c) {
      EndingAdvances(r, c);
    }
  }

  lemma EndingAdvances(r: Run, c: Call)
    requires Inv(r) && r.outcome.None? && Ends(c)
    ensures var after := Apply(r, c).run;
            after.outcome.None? ==> after.state == if Advances(r, c).Some? then Advances(r, c).value else r.state
    ensures Advances(r, c).Some? ==> Apply(r, c).run.outcome.None? && Apply(r, c).thrown.None?
  {
  }

  /** A run that has ended is torn down exactly by a call that reports all three parts as gone. */
  lemma TornDownIff(r: Run, container: bool, home: bool, proxy: bool)
    requires Inv(r)
    ensures var reply := Apply(r, MarkTeardownVerified(container, home, proxy));
            && (reply.thrown.None? <==> r.outcome.Some? && container && home && proxy)
            && reply.run == if reply.thrown.None? then r.(state := TerminalDiscarded, teardownVerified := true) else r
  {
  }

  /** The request, time, id and generation a run holds were given by the call of that kind. */
  predicate GivenBy(r: Run, c: Call, s: Run) {
    && (s.generation != r.generation ==> c.MarkInitialized? && s.generation == c.generation && c.valid && c.at.At?)
    && (s.loginStartAt != r.loginStartAt ==> c.BeginLoginStart? && c.at.At? && s.loginStartAt == Some(c.at.ms))
    && (s.loginRequestId != r.loginRequestId ==> c.BeginLoginStart? && c.requestId.Integer? && s.loginRequestId == Some(c.requestId.value))
    && (s.accountReadRequestId != r.accountReadRequestId ==>
          c.BeginAccountRead? && c.requestId.Integer? && s.accountReadRequestId == Some(c.requestId.value))
    && (s.login != r.login && s.login != NoLogin ==> c.PresentCheckpoint? && c.valid && s.login == LoginId(c.loginId))
    && (s.notifiedAt != r.notifiedAt ==> c.ObserveNotification? && IsForLogin(r, c.notification) && s.notifiedAt == Some(c.notification.at.ms))
    && (s.account != r.account ==> c.RecordAccountReadResult? && c.authenticated.Some? && s.account == Some((c.accountState, c.authenticated.value)))
    && s.experimentId == r.experimentId && s.operationId == r.operationId
  }

  /** The diagnostic of the last request: which request, what it returned, and how it failed. */
  predicate RpcBy(r: Run, c: Call, s: Run) {
    s.rpc != r.rpc ==>
      match c
      case PresentCheckpoint(_, _, requestId, at, _) =>
        requestId.Integer? && at.At? && s.rpc == Some(Rpc(LoginStart, requestId.value, None, RpcResult, at.ms))
      case RecordLoginStartFailure(code, rpcCode, requestId, at) =>
        && SoundRpc(requestId, rpcCode, at)
        && s.rpc == Some(Rpc(LoginStart, requestId.value, if rpcCode.Integer? then Some(rpcCode.value) else None,
                             match code case DeviceAuthRpcError => JsonRpcError case DeviceAuthStartTimeout => RpcTimeout case _ => TransportError,
                             at.ms))
      case RecordAccountReadFailure(code, rpcCode, requestId, at) =>
        && SoundRpc(requestId, rpcCode, at)
        && s.rpc == Some(Rpc(AccountRead, requestId.value, if rpcCode.Integer? then Some(rpcCode.value) else None,
                             match code case AccountReadRpcError => JsonRpcError case AccountReadTimeout => RpcTimeout case _ => TransportError,
                             at.ms))
      case RecordAccountReadResult(requestId, at, _, _) =>
        requestId.Integer? && at.At? && s.rpc == Some(Rpc(AccountRead, requestId.value, None, RpcResult, at.ms))
      case _ => false
  }

  lemma RecordedAsGiven(r: Run, c: Call)
    requires Inv(r)
    ensures GivenBy(r, c, Apply(r, c).run)
  {
    if Ends(c) {
      EndingRecords(r, c);
    } else {
      ProgressRecords(r, c);
    }
  }

  lemma EndingRecords(r: Run, c: Call)
    requires Inv(r) && Ends(c)
    ensures GivenBy(r, c, Apply(r, c).run)
  {
  }

  lemma ProgressRecords(r: Run, c: Call)
    requires Inv(r) && !Ends(c)
    ensures GivenBy(r, c, Apply(r, c).run)
  {
  }

  lemma RpcRecordedAsGiven(r: Run, c: Call)
    requires Inv(r)
    ensures RpcBy(r, c, Apply(r, c).run)
  {
  }

  /** The server generation and the login start that a completion is matched against were given earlier in the run. */
  lemma {:induction false} MatchedAgainstGiven(experimentId: string, operationId: string, calls: seq<Call>) returns (i: nat, j: nat)
    requires After(NewRun(experimentId, operationId), calls).generation.Some?
    requires After(NewRun(experimentId, operationId), calls).loginStartAt.Some?
    ensures var r := After(NewRun(experimentId, operationId), calls);
            && i < |calls| && calls[i].MarkInitialized? && calls[i].generation == r.generation && calls[i].valid
            && j < |calls| && calls[j].BeginLoginStart? && calls[j].at == At(r.loginStartAt.value)
            && r.experimentId == experimentId && r.operationId == operationId
  {
    i := GenerationGiven(experimentId, operationId, calls);
    j := LoginStartGiven(experimentId, operationId, calls);
  }

  lemma {:induction false} GenerationGiven(experimentId: string, operationId: string, calls: seq<Call>) returns (i: nat)
    requires After(NewRun(experimentId, operationId), calls).generation.Some?
    ensures var r := After(NewRun(experimentId, operationId), calls);
            && i < |calls| && calls[i].MarkInitialized? && calls[i].generation == r.generation && calls[i].valid
            && r.experimentId == experimentId && r.operationId == operationId
    decreases |calls|
  {
    var n := |calls| - 1;
    var r := NewRun(experimentId, operationId);
    AfterKeepsInv(r, calls[..n]);
    var before := After(r, calls[..n]);
    RecordedAsGiven(before, calls[n]);
    if before.generation == After(r, calls).generation {
      i := GenerationGiven(experimentId, operationId, calls[..n]);
    } else {
      i := n;
      IdentityStays(experimentId, operationId, calls);
    }
  }

  lemma {:induction false} IdentityStays(experimentId: string, operationId: string, calls: seq<Call>)
    ensures var r := After(NewRun(experimentId, operationId), calls); r.experimentId == experimentId && r.operationId == operationId
    decreases |calls|
  {
    if calls != [] {
      IdentityStays(experimentId, operationId, calls[..|calls| - 1]);
      AfterKeepsInv(NewRun(experimentId, operationId), calls[..|calls| - 1]);
      RecordedAsGiven(After(NewRun(experimentId, operationId), calls[..|calls| - 1]), calls[|calls| - 1]);
    }
  }

  lemma {:induction false} LoginStartGiven(experimentId: string, operationId: string, calls: seq<Call>) returns (j: nat)
    requires After(NewRun(experimentId, operationId), calls).loginStartAt.Some?
    ensures var r := After(NewRun(experimentId, operationId), calls);
            j < |calls| && calls[j].BeginLoginStart? && calls[j].at == At(r.loginStartAt.value)
    decreases |calls|
  {
    var n := |calls| - 1;
    var r := NewRun(experimentId, operationId);
    AfterKeepsInv(r, calls[..n]);
    var before := After(r, calls[..n]);
    RecordedAsGiven(before, calls[n]);
    if before.loginStartAt == After(r, calls).loginStartAt {
      j := LoginStartGiven(experimentId, operationId, calls[..n]);
    } else {
      j := n;
    }
  }

  // ---- The forgotten login id ----

  /** A notification that is rejected with an unusable time: the id is forgotten and the call throws. */
  predicate Forgets(r: Run, c: Call) {
    r.state.WaitingForProviderCompletion? && c.ObserveNotification? && c.notification.Completed? && c.notification.at.NotATime?
  }

  /** Such a call throws and the run still waits, now without a login id. */
  lemma ForgettingThrows(r: Run, c: Call)
    requires Inv(r) && Forgets(r, c)
    ensures Apply(r, c) == Reply(r.(login := NoLogin), Some(EvidenceInvalid))
  {
  }

  /**
   Which throws leave a trace: a call that throws leaves the run exactly as it was, unless it forgets a
   login id that was held, or the checkpoint was already presented when the callback threw.
   */
  lemma ThrowLeavesNoTraceIff(r: Run, c: Call)
    requires Inv(r) && Apply(r, c).thrown.Some?
    ensures Apply(r, c).run == r <==> !(Forgets(r, c) && r.login.LoginId?) && Apply(r, c).thrown != Some(CallbackFailed)
    ensures Apply(r, c).run != r ==> Apply(r, c).run.state.WaitingForProviderCompletion?
  {
  }

  /** What observing a notification does to a waiting run. */
  lemma ObservationMeans(r: Run, n: Notification)
    requires Inv(r)
    ensures var c := ObserveNotification(n);
            && Inv(Apply(r, c).run)
            && (r.state.WaitingForProviderCompletion? ==> (Completing(Apply(r, c).run.state) <==> AcceptsCompletion(r, c)))
            && (Forgets(r, c) ==> Apply(r, c) == Reply(r.(login := NoLogin), Some(EvidenceInvalid)))
  {
    ApplyKeepsInv(r, ObserveNotification(n));
    if r.state.WaitingForProviderCompletion? {
      CompletionAcceptedIff(r, ObserveNotification(n));
    }
    if Forgets(r, ObserveNotification(n)) {
      ForgettingThrows(r, ObserveNotification(n));
    }
  }

  /** No notification observed in these calls made the run throw. */
  predicate NoObservationThrew(r: Run, calls: seq<Call>) {
    forall k :: 0 <= k < |calls| && calls[k].ObserveNotification? ==> Apply(After(r, calls[..k]), calls[k]).thrown.None?
  }

  lemma NoObservationThrewSplit(r: Run, calls: seq<Call>)
    requires calls != []
    ensures var n := |calls| - 1;
            NoObservationThrew(r, calls) <==>
              NoObservationThrew(r, calls[..n]) && (calls[n].ObserveNotification? ==> Apply(After(r, calls[..n]), calls[n]).thrown.None?)
  {
    var n := |calls| - 1;
    forall k | 0 <= k < n
      ensures calls[..n][..k] == calls[..k] && calls[..n][k] == calls[k]
    {
    }
  }

  /**
   While the run waits, the id it holds is the presented one exactly as long as no observed
   notification was rejected with an exception since the checkpoint was presented.
   */
  lemma {:induction false} LoginIsHeldIff(r: Run, calls: seq<Call>)
    requires Inv(r) && r.state.WaitingForProviderCompletion? && r.login.LoginId?
    requires After(r, calls).state.WaitingForProviderCompletion?
    ensures After(r, calls) == r.(login := After(r, calls).login)
    ensures After(r, calls).login == r.login <==> NoObservationThrew(r, calls)
    ensures After(r, calls).login == r.login || After(r, calls).login == NoLogin
    decreases |calls|
  {
    if calls != [] {
      var n := |calls| - 1;
      AfterKeepsInv(r, calls[..n]);
      RankGrows(r, calls[..n]);
      StillWaiting(After(r, calls[..n]), calls[n]);
      LoginIsHeldIff(r, calls[..n]);
      NoObservationThrewSplit(r, calls);
    }
  }

  /** Only forgetting keeps the run waiting and changes it. */
  lemma StillWaiting(r: Run, c: Call)
    requires Inv(r) && Apply(r, c).run.state.WaitingForProviderCompletion? && Rank(r.state) >= Rank(WaitingForProviderCompletion)
    ensures r.state.WaitingForProviderCompletion?
    ensures Apply(r, c).run == if Forgets(r, c) then r.(login := NoLogin) else r
    ensures Forgets(r, c) <==> c.ObserveNotification? && Apply(r, c).thrown.Some?
  {
  }

  /**
   An accepted completion carries the id that was presented if and only if no earlier notification
   of this login was rejected with an exception; otherwise it carries no login id at all.
   */
  lemma AcceptedCompletionIsGenuineIff(r: Run, calls: seq<Call>, c: Call)
    requires Inv(r) && r.state.WaitingForProviderCompletion? && r.login.LoginId?
    requires AcceptsCompletion(After(r, calls), c)
    ensures c.notification.login == r.login <==> NoObservationThrew(r, calls)
    ensures c.notification.login == r.login || c.notification.login == NoLogin
  {
    LoginIsHeldIff(r, calls);
  }

  /** The failing input: an unusable time, then a completion with a null login id, is accepted. */
  lemma NullLoginIsAccepted(r: Run)
    requires Inv(r) && r.state.WaitingForProviderCompletion? && r.login.LoginId?
    ensures r.loginStartAt.Some?
    ensures var bad := Completed(Some(r.experimentId), Some(r.operationId), r.generation, r.login, Some(true), NotATime);
            var foreign := Completed(Some(r.experimentId), Some(r.operationId), r.generation, NoLogin, Some(true), At(r.loginStartAt.value));
            && Apply(r, ObserveNotification(bad)).thrown == Some(EvidenceInvalid)
            && Apply(Apply(r, ObserveNotification(bad)).run, ObserveNotification(foreign)).run.state == LoginCompletionObserved
  {
  }

  // ---- The run object ----

  class BoundaryRun {
    const experimentId: string
    const operationId: string
    var state: State
    var login: Login
    var outcome: Option<Outcome>
    var failureCode: Option<FailureCode>
    var terminalStage: Option<Stage>
    var terminalAt: Option<int>
    var rpc: Option<Rpc>
    var protocolMethods: seq<ProtocolMethod>
    var generation: Option<string>
    var loginStartCount: nat
    var accountReadCount: nat
    var loginStartAt: Option<int>
    var loginRequestId: Option<int>
    var accountReadRequestId: Option<int>
    var notifiedAt: Option<int>
    var account: Option<(AccountState, bool)>
    var teardownVerified: bool

    ghost function Value(): Run
      reads this
    {
      Run(experimentId, operationId, state, login, outcome, failureCode, terminalStage, terminalAt, rpc, protocolMethods,
          generation, loginStartCount, accountReadCount, loginStartAt, loginRequestId, accountReadRequestId, notifiedAt,
          account, teardownVerified)
    }

    ghost predicate Valid()
      reads this
    {
      Inv(Value())
    }

    constructor (experimentId: string, operationId: string)
      ensures Valid() && Value() == NewRun(experimentId, operationId)
    {
      this.experimentId, this.operationId := experimentId, operationId;
      state, login, outcome, failureCode, terminalStage, terminalAt, rpc := Created, NoLogin, None, None, None, None, None;
      protocolMethods, generation, loginStartCount, accountReadCount := [], None, 0, 0;
      loginStartAt, loginRequestId, accountReadRequestId, notifiedAt, account := None, None, None, None, None;
      teardownVerified := false;
    }

    method FinishWith(category: Outcome, code: Option<FailureCode>, at: Stamp) returns (thrown: Option<Error>)
      modifies this
      ensures Reply(Value(), thrown) == Finish(old(Value()), category, code, at)
    {
      if at.NotATime? {
        return Some(EvidenceInvalid);
      }
      outcome := Some(category);
      failureCode := code;
      terminalStage := Some(if state.LoginStartInFlight? then AccountLoginStart
                            else if state.AccountReadInFlight? then AccountReading else ProviderCompletionWait);
      terminalAt := Some(at.ms);
      state := Terminal;
      thrown := None;
    }

    method Preflight(valid: bool) returns (thrown: Option<Error>)
      requires Valid()
      modifies this
      ensures Valid() && Reply(Value(), thrown) == Apply(old(Value()), AcceptPreflight(valid))
      ensures thrown.Some? ==> Value() == old(Value())
    {
      ApplyKeepsInv(Value(), AcceptPreflight(valid));
      if !state.Created? {
        return Some(OrderInvalid);
      }
      if !valid {
        return Some(ProjectionFailed);
      }
      state := PreflightPassed;
      thrown := None;
    }

    method IsolatedRuntime(valid: bool) returns (thrown: Option<Error>)
      requires Valid()
      modifies this
      ensures Valid() && Reply(Value(), thrown) == Apply(old(Value()), AcceptIsolatedRuntime(valid))
      ensures thrown.Some? ==> Value() == old(Value())
    {
      ApplyKeepsInv(Value(), AcceptIsolatedRuntime(valid));
      if !state.PreflightPassed? {
        return Some(OrderInvalid);
      }
      if !valid {
        return Some(ProjectionFailed);
      }
      state := RuntimeVerified;
      thrown := None;
    }

    method ServerInitialized(serverGeneration: Option<string>, valid: bool, at: Stamp) returns (thrown: Option<Error>)
      requires Valid()
      modifies this
      ensures Valid() && Reply(Value(), thrown) == Apply(old(Value()), MarkInitialized(serverGeneration, valid, at))
      ensures thrown.Some? ==> Value() == old(Value())
    {
      ApplyKeepsInv(Value(), MarkInitialized(serverGeneration, valid, at));
      if !state.RuntimeVerified? || serverGeneration.None? || !valid || at.NotATime? {
        return Some(OrderInvalid);
      }
      generation := serverGeneration;
      protocolMethods := protocolMethods + [Initialize];
      state := Initialized;
      thrown := None;
    }

    method StartLogin(requestId: Number, at: Stamp) returns (thrown: Option<Error>)
      requires Valid()
      modifies this
      ensures Valid() && Reply(Value(), thrown) == Apply(old(Value()), BeginLoginStart(requestId, at))
      ensures thrown.Some? ==> Value() == old(Value())
    {
      ApplyKeepsInv(Value(), BeginLoginStart(requestId, at));
      if !state.Initialized? || loginStartCount != 0 || !IsRequestId(requestId) || at.NotATime? {
        return Some(OrderInvalid);
      }
      loginStartCount := 1;
      protocolMethods := protocolMethods + [LoginStart];
      loginStartAt := Some(at.ms);
      loginRequestId := Some(requestId.value);
      state := LoginStartInFlight;
      thrown := None;
    }

    method LoginStartFailed(code: FailureCode, rpcCode: Number, requestId: Number, at: Stamp) returns (thrown: Option<Error>)
      requires Valid()
      modifies this
      ensures Valid() && Reply(Value(), thrown) == Apply(old(Value()), RecordLoginStartFailure(code, rpcCode, requestId, at))
    {
      ApplyKeepsInv(Value(), RecordLoginStartFailure(code, rpcCode, requestId, at));
      if !state.LoginStartInFlight?
         || !(code.DeviceAuthRpcError? || code.DeviceAuthStartTimeout? || code.DeviceAuthEnvelopeInvalid? || code.DeviceAuthResponseInvalid?) {
        return Some(OrderInvalid);
      }
      var kind := if code.DeviceAuthStartTimeout? then RpcTimeout else if code.DeviceAuthRpcError? then JsonRpcError else TransportError;
      var safe := SafeRpc(LoginStart, requestId, rpcCode, kind, at);
      if safe.None? {
        return Some(EvidenceInvalid);
      }
      rpc := safe;
      thrown := FinishWith(LoginStartFailure, Some(code), at);
    }

    method Checkpoint(valid: bool, loginId: string, requestId: Number, at: Stamp, callbackThrows: bool) returns (thrown: Option<Error>)
      requires Valid()
      modifies this
      ensures Valid() && Reply(Value(), thrown) == Apply(old(Value()), PresentCheckpoint(valid, loginId, requestId, at, callbackThrows))
    {
      ApplyKeepsInv(Value(), PresentCheckpoint(valid, loginId, requestId, at, callbackThrows));
      if !state.LoginStartInFlight? || !requestId.Integer? || Some(requestId.value) != loginRequestId || at.NotATime? {
        return Some(OrderInvalid);
      }
      if !valid {
        return Some(EvidenceInvalid);
      }
      login := LoginId(loginId);
      var safe := SafeRpc(LoginStart, requestId, NullNumber, RpcResult, at);
      if safe.None? {
        return Some(EvidenceInvalid);
      }
      rpc := safe;
      state := WaitingForProviderCompletion;
      thrown := if callbackThrows then Some(CallbackFailed) else None;
    }

    method Observe(n: Notification) returns (thrown: Option<Error>)
      requires Valid()
      modifies this
      ensures Valid() && Reply(Value(), thrown) == Apply(old(Value()), ObserveNotification(n))
      ensures old(state).WaitingForProviderCompletion? ==>
                (Completing(state) <==> AcceptsCompletion(old(Value()), ObserveNotification(n)))
      ensures Forgets(old(Value()), ObserveNotification(n)) ==>
                thrown == Some(EvidenceInvalid) && login == NoLogin && state == old(state)
    {
      ObservationMeans(Value(), n);
      thrown := Consider(n);
    }

    /** The body of `observeNotification`. */
    method Consider(n: Notification) returns (thrown: Option<Error>)
      modifies this
      ensures Reply(Value(), thrown) == Apply(old(Value()), ObserveNotification(n))
    {
      if !state.WaitingForProviderCompletion? {
        return Some(OrderInvalid);
      }
      if !n.Completed? {
        return None;
      }
      if n.experiment != Some(experimentId) || n.operation != Some(operationId) || n.generation != generation || n.login != login
         || n.success.None? || n.at.NotATime? || (loginStartAt.Some? && n.at.ms < loginStartAt.value) {
        login := NoLogin;
        thrown := FinishWith(ProviderOutcomeUncertain, Some(OutcomeUncertain), n.at);
        return;
      }
      notifiedAt := Some(n.at.ms);
      login := NoLogin;
      if !n.success.value {
        thrown := FinishWith(ProviderLoginFailure, Some(LoginFailed), n.at);
        return;
      }
      state := LoginCompletionObserved;
      thrown := None;
    }

    method StartAccountRead(requestId: Number, at: Stamp) returns (thrown: Option<Error>)
      requires Valid()
      modifies this
      ensures Valid() && Reply(Value(), thrown) == Apply(old(Value()), BeginAccountRead(requestId, at))
      ensures thrown.Some? ==> Value() == old(Value())
    {
      ApplyKeepsInv(Value(), BeginAccountRead(requestId, at));
      if !state.LoginCompletionObserved? || accountReadCount != 0 || !IsRequestId(requestId) || at.NotATime? {
        return Some(OrderInvalid);
      }
      accountReadCount := 1;
      protocolMethods := protocolMethods + [AccountRead];
      state := AccountReadInFlight;
      accountReadRequestId := Some(requestId.value);
      thrown := None;
    }

    method AccountReadFailed(code: FailureCode, rpcCode: Number, requestId: Number, at: Stamp) returns (thrown: Option<Error>)
      requires Valid()
      modifies this
      ensures Valid() && Reply(Value(), thrown) == Apply(old(Value()), RecordAccountReadFailure(code, rpcCode, requestId, at))
      ensures thrown.Some? ==> Value() == old(Value())
    {
      ApplyKeepsInv(Value(), RecordAccountReadFailure(code, rpcCode, requestId, at));
      if !state.AccountReadInFlight? || !(code.AccountReadRpcError? || code.AccountReadTimeout? || code.AccountReadResultInvalid?) {
        return Some(OrderInvalid);
      }
      var kind := if code.AccountReadTimeout? then RpcTimeout else if code.AccountReadRpcError? then JsonRpcError else TransportError;
      var safe := SafeRpc(AccountRead, requestId, rpcCode, kind, at);
      if safe.None? {
        return Some(EvidenceInvalid);
      }
      rpc := safe;
      thrown := FinishWith(AccountReadFailure, Some(code), at);
    }

    method AccountReadReturned(requestId: Number, at: Stamp, accountState: AccountState, authenticated: Option<bool>)
      returns (thrown: Option<Error>)
      requires Valid()
      modifies this
      ensures Valid() && Reply(Value(), thrown) == Apply(old(Value()), RecordAccountReadResult(requestId, at, accountState, authenticated))
    {
      ApplyKeepsInv(Value(), RecordAccountReadResult(requestId, at, accountState, authenticated));
      if !state.AccountReadInFlight? || !requestId.Integer? || Some(requestId.value) != accountReadRequestId
         || at.NotATime? || accountState.NotAnAccountState? || authenticated.None? {
        return Some(EvidenceInvalid);
      }
      var safe := SafeRpc(AccountRead, requestId, NullNumber, RpcResult, at);
      if safe.None? {
        return Some(EvidenceInvalid);
      }
      rpc := safe;
      account := Some((accountState, authenticated.value));
      if authenticated.value && accountState.Present? {
        thrown := FinishWith(AccountReadSuccess, None, at);
      } else {
        thrown := FinishWith(AccountReadFailure, Some(AccountReadResultInvalid), at);
      }
    }

    method OutcomeIsUncertain(at: Stamp) returns (thrown: Option<Error>)
      requires Valid()
      modifies this
      ensures Valid() && Reply(Value(), thrown) == Apply(old(Value()), MarkProviderOutcomeUncertain(at))
      ensures thrown.Some? ==> Value() == old(Value())
    {
      ApplyKeepsInv(Value(), MarkProviderOutcomeUncertain(at));
      if !state.WaitingForProviderCompletion? || at.NotATime? {
        return Some(OrderInvalid);
      }
      login := NoLogin;
      thrown := FinishWith(ProviderOutcomeUncertain, Some(OutcomeUncertain), at);
    }

    method TornDown(containerRemoved: bool, homeDiscarded: bool, proxyRemoved: bool) returns (thrown: Option<Error>)
      requires Valid()
      modifies this
      ensures Valid() && Reply(Value(), thrown) == Apply(old(Value()), MarkTeardownVerified(containerRemoved, homeDiscarded, proxyRemoved))
    {
      ApplyKeepsInv(Value(), MarkTeardownVerified(containerRemoved, homeDiscarded, proxyRemoved));
      if outcome.None? || !containerRemoved || !homeDiscarded || !proxyRemoved {
        return Some(CleanupUnverified);
      }
      teardownVerified := true;
      state := TerminalDiscarded;
      thrown := None;
    }
  }
}
