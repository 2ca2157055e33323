/**
 The sequencer of the authenticated A/B probe: a baseline stage, then a candidate stage, each run
 against an adapter whose every call may throw, with a `finally` block that collects late
 diagnostics, tears the stage down and verifies that nothing of it is left.
 */
module AbSequencer {
  import opened Common

  datatype Stage = Baseline | Candidate

  datatype Code = RunFailed | EgressMismatch | OutputInvalid | DeviceAuthRpcError | OtherCode(name: string)

  datatype Rpc = Rpc(name: string, requestId: int, outcome: string, rpcCode: Option<int>)

  datatype Outcome = Observed | Failed(code: Code)

  /** Projected stage evidence; the flags stand for the shape tests of the two identifying strings. */
  datatype Evidence = Evidence(
    stage: Stage,
    outcome: Outcome,
    attemptIdValid: bool,
    observedAtKnown: bool,
    protocolMethods: seq<string>,
    rpc: Option<Rpc>,
    egress: Option<Egress>)

  datatype Egress = NotCapturedPriorRun | Correlated(id: nat)

  datatype Diagnostics = Diagnostics(stage: Stage, count: nat, id: nat)

  datatype Call =
    | AssertFresh
    | StartProxy(stage: Stage)
    | Capture(stage: Stage)
    | RunVersion(stage: Stage)
    | Correlate(stage: Stage)
    | CheckViolation(stage: Stage)
    | Teardown(stage: Stage)
    | VerifyDiscarded(stage: Stage)
    | MarkDiscarded(stage: Stage)

  /** A thrown value is an error of the probe with a code, or anything else. */
  datatype Answer =
    | Throws(code: Option<Code>)
    | Done
    | Snapshot(diagnostics: Option<Diagnostics>)
    | Output(evidence: Option<Evidence>)
    | Evaluated(egress: Option<Egress>)
    | Verdict(violation: bool)

  datatype Event = Event(call: Call, answer: Answer)

  type Trace = seq<Event>

  /** Any behaviour: what a call answers may depend on everything that happened before. */
  datatype Adapter = Adapter(answer: (Trace, Call) -> Answer, hasCorrelate: bool, hasMark: bool)

  datatype Error = Error(code: Code, results: seq<Evidence>)

  function Asked(a: Adapter, tr: Trace, call: Call): Trace {
    tr + [Event(call, a.answer(tr, call))]
  }

  function Reply(a: Adapter, tr: Trace, call: Call): Answer {
    a.answer(tr, call)
  }

  /** The adapter after earlier calls, which its answers may depend on too. */
  function Later(a: Adapter, past: Trace): Adapter {
    Adapter((tr, call) => a.answer(past + tr, call), a.hasCorrelate, a.hasMark)
  }

  function CodeOf(answer: Answer): Code {
    if answer.Throws? && answer.code.Some? then answer.code.value else RunFailed
  }

  /** The one baseline failure that still permits a comparison. */
  predicate AcceptedBaselineFailure(e: Evidence) {
    && e.stage == Baseline && e.outcome == Failed(DeviceAuthRpcError)
    && e.attemptIdValid && e.observedAtKnown
    && e.protocolMethods == ["initialize", "account/login/start"]
    && e.rpc == Some(Rpc("account/login/start", 302, "JSON_RPC_ERROR", Some(-32603)))
  }

  /** Evidence is projected for the stage that ran; other output is invalid. */
  function Projected(answer: Answer, stage: Stage): Option<Evidence> {
    if answer.Output? && answer.evidence.Some? && answer.evidence.value.stage == stage then answer.evidence else None
  }

  function DiagnosticsOf(answer: Answer): Option<Diagnostics> {
    if answer.Snapshot? then answer.diagnostics else None
  }

  function EgressOf(answer: Answer): Option<Egress> {
    if answer.Evaluated? then answer.egress else None
  }

  predicate Violates(answer: Answer) {
    answer.Verdict? && answer.violation
  }

  // ---- One stage ----

  /** The locals of one iteration. `pushed` says whether `result` was added to `completed`. */
  datatype Locals = Locals(
    trace: Trace,
    completed: seq<Evidence>,
    result: Option<Evidence>,
    pushed: bool,
    error: Option<Error>,
    accepted: bool,
    proxyStarted: bool,
    afterAttempted: bool,
    before: Option<Diagnostics>)

  function Results(l: Locals): seq<Evidence> {
    l.completed + if l.result.Some? && !l.pushed then [l.result.value] else []
  }

  function Caught(l: Locals, code: Code): Locals {
    l.(error := Some(Error(code, Results(l))))
  }

  /** Correlating two snapshots; an adapter without the method yields nothing. */
  function Correlation(a: Adapter, tr: Trace, stage: Stage): (Trace, Answer) {
    if a.hasCorrelate then (Asked(a, tr, Correlate(stage)), Reply(a, tr, Correlate(stage))) else (tr, Evaluated(None))
  }

  /** The verdict on a stage whose egress evidence is complete. */
  function Judged(a: Adapter, l: Locals, stage: Stage): Locals
    requires l.result.Some?
  {
    var check := Reply(a, l.trace, CheckViolation(stage));
    var m := l.(trace := Asked(a, l.trace, CheckViolation(stage)));
    var r := l.result.value;
    if check.Throws? then Caught(m, CodeOf(check))
    else if Violates(check) then Caught(m, EgressMismatch)
    else if r.outcome.Observed? then m.(completed := m.completed + [r], pushed := true)
    else if stage == Baseline && AcceptedBaselineFailure(r) then m.(completed := m.completed + [r], pushed := true, accepted := true)
    else Caught(m, r.outcome.code)
  }

  /** The second snapshot is correlated with the first; only the correlated evidence is judged. */
  function Correlating(a: Adapter, l: Locals, stage: Stage): Locals
    requires l.result.Some?
  {
    var (tr, correlation) := Correlation(a, l.trace, stage);
    var m := l.(trace := tr);
    if correlation.Throws? then Caught(m, CodeOf(correlation))
    else
      var n := m.(result := Some(m.result.value.(egress := EgressOf(correlation))));
      if EgressOf(correlation).None? then Caught(n, EgressMismatch) else Judged(a, n, stage)
  }

  function AfterRun(a: Adapter, l: Locals, stage: Stage): Locals
    requires l.result.Some?
  {
    var after := Reply(a, l.trace, Capture(stage));
    var m := l.(trace := Asked(a, l.trace, Capture(stage)), afterAttempted := true);
    if after.Throws? then Caught(m, CodeOf(after)) else Correlating(a, m, stage)
  }

  function RunOnce(a: Adapter, l: Locals, stage: Stage): Locals {
    var run := Reply(a, l.trace, RunVersion(stage));
    var m := l.(trace := Asked(a, l.trace, RunVersion(stage)));
    if run.Throws? then Caught(m, CodeOf(run))
    else if Projected(run, stage).None? then Caught(m, OutputInvalid)
    else AfterRun(a, m.(result := Projected(run, stage)), stage)
  }

  /** The `try` block with its `catch`. */
  function Tried(a: Adapter, l: Locals, stage: Stage): Locals {
    var start := Reply(a, l.trace, StartProxy(stage));
    var m := l.(trace := Asked(a, l.trace, StartProxy(stage)));
    if start.Throws? then Caught(m, CodeOf(start))
    else
      var n := m.(proxyStarted := true);
      var capture := Reply(a, n.trace, Capture(stage));
      var o := n.(trace := Asked(a, n.trace, Capture(stage)));
      if capture.Throws? then Caught(o, CodeOf(capture))
      else
        var p := o.(before := DiagnosticsOf(capture));
        if p.before.None? || p.before.value.stage != stage || p.before.value.count != 0 then Caught(p, EgressMismatch)
        else RunOnce(a, p, stage)
  }

  function CheckedLate(a: Adapter, l: Locals, stage: Stage): Locals {
    var check := Reply(a, l.trace, CheckViolation(stage));
    var m := l.(trace := Asked(a, l.trace, CheckViolation(stage)));
    if check.Throws? || Violates(check) then Caught(m, EgressMismatch) else m
  }

  /** The second snapshot, taken late, is correlated with the first and judged. */
  function CorrelatedLate(a: Adapter, l: Locals, stage: Stage): Locals {
    var (tr, correlation) := Correlation(a, l.trace, stage);
    var n := l.(trace := tr);
    if correlation.Throws? || EgressOf(correlation).None? then Caught(n, EgressMismatch)
    else CheckedLate(a, if n.result.Some? then n.(result := Some(n.result.value.(egress := EgressOf(correlation)))) else n, stage)
  }

  /** Late diagnostics, collected when the proxy ran but the stage did not get to its second snapshot. */
  function Collected(a: Adapter, l: Locals, stage: Stage): Locals {
    if !l.proxyStarted || l.afterAttempted then l
    else
      var after := Reply(a, l.trace, Capture(stage));
      var m := l.(trace := Asked(a, l.trace, Capture(stage)), afterAttempted := true);
      if after.Throws? then Caught(m, EgressMismatch)
      else if m.before.None? then m
      else CorrelatedLate(a, m, stage)
  }

  /** Tear down, verify, mark: each only after the one before it returned. */
  function Discard(a: Adapter, tr: Trace, stage: Stage): (r: (Trace, bool)) {
    var t1 := Asked(a, tr, Teardown(stage));
    if Reply(a, tr, Teardown(stage)).Throws? then (t1, false)
    else
      var t2 := Asked(a, t1, VerifyDiscarded(stage));
      if Reply(a, t1, VerifyDiscarded(stage)).Throws? then (t2, false)
      else if !a.hasMark then (t2, true)
      else (Asked(a, t2, MarkDiscarded(stage)), !Reply(a, t2, MarkDiscarded(stage)).Throws?)
  }

  function Discarded(a: Adapter, l: Locals, stage: Stage): Locals {
    var (tr, ok) := Discard(a, l.trace, stage);
    if ok then l.(trace := tr) else Caught(l.(trace := tr), RunFailed)
  }

  function Entered(tr: Trace, completed: seq<Evidence>): Locals {
    Locals(tr, completed, None, false, None, false, false, false, None)
  }

  function StageRun(a: Adapter, tr: Trace, completed: seq<Evidence>, stage: Stage): Locals {
    var l := Entered(tr, completed);
    Discarded(a, Collected(a, Tried(a, l, stage), stage), stage)
  }

  // ---- The whole run ----

  datatype Success = Pass | ComparisonComplete

  datatype End =
    | Returned(outcome: Success, stages: seq<Evidence>)
    | Threw(error: Error)

  /** The trace of a run, what is left in `completed`, and how the call ended. */
  datatype Execution = Execution(trace: Trace, completed: seq<Evidence>, end: End)

  function Rethrown(l: Locals): Error
    requires l.error.Some?
  {
    if l.error.value.results != [] then l.error.value else Error(l.error.value.code, l.completed)
  }

  function Running(a: Adapter): (Trace, seq<Evidence>, Stage) -> Locals {
    (tr, completed, stage) => StageRun(a, tr, completed, stage)
  }

  function Stages(run: (Trace, seq<Evidence>, Stage) -> Locals, tr: Trace, completed: seq<Evidence>, stages: seq<Stage>, comparative: bool): Execution
    decreases |stages|
  {
    if stages == [] then Execution(tr, completed, Returned(if comparative then ComparisonComplete else Pass, completed))
    else if stages[0] == Candidate && !(exists e :: e in completed && e.stage == Baseline) then
      Execution(tr, completed, Threw(Error(RunFailed, completed)))
    else
      var l := run(tr, completed, stages[0]);
      if l.error.Some? then Execution(l.trace, l.completed, Threw(Rethrown(l)))
      else Stages(run, l.trace, l.completed, stages[1..], comparative || l.accepted)
  }

  /** A run that takes its baseline from an earlier one, after reconciling what that one left behind. */
  function WithPrior(a: Adapter, tr: Trace, completed: seq<Evidence>, baseline: Evidence): Execution {
    if !AcceptedBaselineFailure(baseline) then Execution(tr, completed, Threw(Error(RunFailed, [baseline])))
    else
      var all := completed + [baseline.(egress := Some(NotCapturedPriorRun))];
      var (t, ok) := Discard(a, tr, Baseline);
      if !ok then Execution(t, all, Threw(Error(RunFailed, all)))
      else Stages(Running(a), t, all, [Candidate], true)
  }

  /** `None`: no prior baseline. `Some(None)`: one that does not project as baseline evidence. */
  function Execute(a: Adapter, completed: seq<Evidence>, prior: Option<Option<Evidence>>): Execution {
    var tr := Asked(a, [], AssertFresh);
    var first := Reply(a, [], AssertFresh);
    if first.Throws? then Execution(tr, completed, Threw(Error(CodeOf(first), [])))
    else if prior.None? then Stages(Running(a), tr, completed, [Baseline, Candidate], false)
    else if prior.value.None? || prior.value.value.stage != Baseline then Execution(tr, completed, Threw(Error(OutputInvalid, [])))
    else
      WithPrior(a, tr, completed, prior.value.value)
  }

  // ---- The protocol the adapter may rely on, as a monitor ----

  /**
   `current` is the stage last entered and `torn` whether its teardown was attempted; `down` holds
   once that teardown returned. `discarded` are the stages verified to be gone since they were last
   entered, `cleared` those whose egress was checked, `violated` whether a check failed.
   */
  datatype Monitor = Monitor(
    current: Option<Stage>, torn: bool, down: bool, discarded: set<Stage>, cleared: set<Stage>, violated: bool)

  const IDLE := Monitor(None, true, false, {}, {}, false)

  predicate Allowed(m: Monitor, call: Call) {
    match call
    case AssertFresh => m == IDLE
    case StartProxy(s) => m.torn && (s == Candidate ==> Baseline in m.discarded)
    case Teardown(s) => (m.current == Some(s) && !m.torn) || (m == IDLE && s == Baseline)
    case VerifyDiscarded(s) => m.current == Some(s) && m.down
    case MarkDiscarded(s) => m.current == Some(s) && s in m.discarded
    case _ => m.current == Some(call.stage) && !m.torn
  }

  function Moved(m: Monitor, e: Event): Monitor {
    match e.call
    case StartProxy(s) => m.(current := Some(s), torn := false, down := false, discarded := m.discarded - {s})
    case Teardown(s) => m.(current := Some(s), torn := true, down := !e.answer.Throws?)
    case VerifyDiscarded(s) => if e.answer.Throws? then m else m.(discarded := m.discarded + {s})
    case CheckViolation(s) =>
      if e.answer.Throws? || Violates(e.answer) then m.(violated := true) else m.(cleared := m.cleared + {s})
    case _ => m
  }

  function After(m: Monitor, tr: Trace): Monitor {
    if tr == [] then m else Moved(After(m, tr[..|tr| - 1]), tr[|tr| - 1])
  }

  predicate Accepts(m: Monitor, tr: Trace) {
    tr == [] || (Accepts(m, tr[..|tr| - 1]) && Allowed(After(m, tr[..|tr| - 1]), tr[|tr| - 1].call))
  }

  /** The monitor accepts the trace and has reached the given state. */
  predicate Reaches(tr: Trace, m: Monitor) {
    Accepts(IDLE, tr) && After(IDLE, tr) == m
  }

  lemma AskedMoves(a: Adapter, tr: Trace, call: Call, m: Monitor)
    requires Reaches(tr, m) && Allowed(m, call)
    ensures Reaches(Asked(a, tr, call), Moved(m, Event(call, Reply(a, tr, call))))
  {
    assert Asked(a, tr, call)[..|tr|] == tr;
  }

  predicate Inside(m: Monitor, stage: Stage) {
    m.current == Some(stage) && !m.torn && !m.down
  }

  /** Correlation calls nothing the monitor tracks. */
  lemma CorrelationMoves(a: Adapter, tr: Trace, stage: Stage, m: Monitor)
    requires Reaches(tr, m) && Inside(m, stage)
    ensures Reaches(Correlation(a, tr, stage).0, m)
  {
    if a.hasCorrelate {
      AskedMoves(a, tr, Correlate(stage), m);
    }
  }

  /** What the `try` block promises: only evidence of this stage that passed its check is added. */
  predicate StageResult(l: Locals, completed: seq<Evidence>, stage: Stage) {
    && (l.result.Some? ==> l.afterAttempted && l.result.value.stage == stage)
    && (l.accepted ==> l.pushed)
    && (l.error.None? ==> l.pushed)
    && (l.error.Some? ==> l.error.value.results == Results(l))
    && (if l.pushed then l.result.Some? && l.completed == completed + [l.result.value] else l.completed == completed)
    && (l.pushed ==> if l.accepted then stage == Baseline && AcceptedBaselineFailure(l.result.value)
                     else l.result.value.outcome.Observed?)
  }

  /** The monitor after the body of a stage entered in state `m`. */
  predicate StageTrace(l: Locals, m: Monitor, n: Monitor, stage: Stage) {
    && Reaches(l.trace, n) && Inside(n, stage) && n.discarded == m.discarded
    && (l.error.None? ==> stage in n.cleared && n.violated == m.violated)
    && m.cleared <= n.cleared
  }

  lemma JudgedStaysInside(a: Adapter, l: Locals, stage: Stage, m: Monitor) returns (n: Monitor)
    requires l.result.Some? && l.afterAttempted && l.result.value.stage == stage
    requires !l.pushed && !l.accepted && l.error.None? && Reaches(l.trace, m) && Inside(m, stage)
    ensures StageTrace(Judged(a, l, stage), m, n, stage) && StageResult(Judged(a, l, stage), l.completed, stage)
  {
    AskedMoves(a, l.trace, CheckViolation(stage), m);
    n := Moved(m, Event(CheckViolation(stage), Reply(a, l.trace, CheckViolation(stage))));
  }

  lemma CorrelatingStaysInside(a: Adapter, l: Locals, stage: Stage, m: Monitor) returns (n: Monitor)
    requires l.result.Some? && l.result.value.stage == stage && l.afterAttempted
    requires !l.pushed && !l.accepted && l.error.None? && Reaches(l.trace, m) && Inside(m, stage)
    ensures StageTrace(Correlating(a, l, stage), m, n, stage) && StageResult(Correlating(a, l, stage), l.completed, stage)
  {
    n := m;
    CorrelationMoves(a, l.trace, stage, m);
    var (tr, correlation) := Correlation(a, l.trace, stage);
    if !correlation.Throws? && EgressOf(correlation).Some? {
      n := JudgedStaysInside(a, l.(trace := tr, result := Some(l.result.value.(egress := EgressOf(correlation)))), stage, m);
    }
  }

  lemma AfterRunStaysInside(a: Adapter, l: Locals, stage: Stage, m: Monitor) returns (n: Monitor)
    requires l.result.Some? && l.result.value.stage == stage
    requires !l.pushed && !l.accepted && l.error.None? && Reaches(l.trace, m) && Inside(m, stage)
    ensures StageTrace(AfterRun(a, l, stage), m, n, stage) && StageResult(AfterRun(a, l, stage), l.completed, stage)
  {
    AskedMoves(a, l.trace, Capture(stage), m);
    n := m;
    if !Reply(a, l.trace, Capture(stage)).Throws? {
      n := CorrelatingStaysInside(a, l.(trace := Asked(a, l.trace, Capture(stage)), afterAttempted := true), stage, m);
    }
  }

  lemma RunOnceStaysInside(a: Adapter, l: Locals, stage: Stage, m: Monitor) returns (n: Monitor)
    requires l.result.None? && !l.pushed && !l.accepted && l.error.None? && Reaches(l.trace, m) && Inside(m, stage)
    ensures StageTrace(RunOnce(a, l, stage), m, n, stage) && StageResult(RunOnce(a, l, stage), l.completed, stage)
  {
    AskedMoves(a, l.trace, RunVersion(stage), m);
    n := m;
    var run := Reply(a, l.trace, RunVersion(stage));
    if !run.Throws? && Projected(run, stage).Some? {
      var k := l.(trace := Asked(a, l.trace, RunVersion(stage)));
      n := AfterRunStaysInside(a, k.(result := Projected(run, stage)), stage, m);
    }
  }

  lemma TriedStaysInside(a: Adapter, l: Locals, stage: Stage, before: Monitor) returns (n: Monitor)
    requires Reaches(l.trace, before) && Allowed(before, StartProxy(stage))
    requires l == Entered(l.trace, l.completed)
    ensures var m := before.(discarded := before.discarded - {stage});
            StageTrace(Tried(a, l, stage), m, n, stage) && StageResult(Tried(a, l, stage), l.completed, stage)
  {
    var m := Moved(before, Event(StartProxy(stage), Reply(a, l.trace, StartProxy(stage))));
    n := m;
    AskedMoves(a, l.trace, StartProxy(stage), before);
    var t1 := Asked(a, l.trace, StartProxy(stage));
    if !Reply(a, l.trace, StartProxy(stage)).Throws? {
      AskedMoves(a, t1, Capture(stage), m);
      var capture := Reply(a, t1, Capture(stage));
      var first := DiagnosticsOf(capture);
      if !capture.Throws? && first.Some? && first.value.stage == stage && first.value.count == 0 {
        n := RunOnceStaysInside(a, l.(trace := Asked(a, t1, Capture(stage)), proxyStarted := true, before := first), stage, m);
      }
    }
  }

  lemma CheckedLateStaysInside(a: Adapter, l: Locals, completed: seq<Evidence>, stage: Stage, m: Monitor, k: Monitor)
    returns (n: Monitor)
    requires StageTrace(l, m, k, stage) && StageResult(l, completed, stage)
    ensures StageTrace(CheckedLate(a, l, stage), m, n, stage) && StageResult(CheckedLate(a, l, stage), completed, stage)
  {
    AskedMoves(a, l.trace, CheckViolation(stage), k);
    n := Moved(k, Event(CheckViolation(stage), Reply(a, l.trace, CheckViolation(stage))));
  }

  lemma CollectedStaysInside(a: Adapter, l: Locals, completed: seq<Evidence>, stage: Stage, m: Monitor, k: Monitor)
    returns (n: Monitor)
    requires StageTrace(l, m, k, stage) && StageResult(l, completed, stage)
    ensures StageTrace(Collected(a, l, stage), m, n, stage) && StageResult(Collected(a, l, stage), completed, stage)
  {
    n := k;
    if l.proxyStarted && !l.afterAttempted {
      AskedMoves(a, l.trace, Capture(stage), k);
      var t1 := Asked(a, l.trace, Capture(stage));
      if !Reply(a, l.trace, Capture(stage)).Throws? && l.before.Some? {
        CorrelationMoves(a, t1, stage, k);
        var (t2, correlation) := Correlation(a, t1, stage);
        if !correlation.Throws? && EgressOf(correlation).Some? {
          n := CheckedLateStaysInside(a, l.(trace := t2, afterAttempted := true), completed, stage, m, k);
        }
      }
    }
  }

  /** A torn-down stage: `ok` means it was verified to be gone. */
  predicate Rests(tr: Trace, stage: Stage, m: Monitor, n: Monitor, ok: bool) {
    && Reaches(tr, n) && n.torn && n.current == Some(stage)
    && n.discarded == (if ok || stage in n.discarded then m.discarded + {stage} else m.discarded)
    && (ok ==> stage in n.discarded) && n.cleared == m.cleared && n.violated == m.violated
  }

  lemma DiscardRests(a: Adapter, tr: Trace, stage: Stage, m: Monitor) returns (n: Monitor)
    requires Reaches(tr, m) && Allowed(m, Teardown(stage))
    ensures Rests(Discard(a, tr, stage).0, stage, m, n, Discard(a, tr, stage).1)
  {
    AskedMoves(a, tr, Teardown(stage), m);
    n := Moved(m, Event(Teardown(stage), Reply(a, tr, Teardown(stage))));
    var t1 := Asked(a, tr, Teardown(stage));
    if !Reply(a, tr, Teardown(stage)).Throws? {
      AskedMoves(a, t1, VerifyDiscarded(stage), n);
      n := Moved(n, Event(VerifyDiscarded(stage), Reply(a, t1, VerifyDiscarded(stage))));
      var t2 := Asked(a, t1, VerifyDiscarded(stage));
      if !Reply(a, t1, VerifyDiscarded(stage)).Throws? && a.hasMark {
        AskedMoves(a, t2, MarkDiscarded(stage), n);
      }
    }
  }

  /** A stage that was entered in state `m` is over. */
  predicate StageEnds(l: Locals, completed: seq<Evidence>, stage: Stage, m: Monitor, n: Monitor) {
    && Reaches(l.trace, n) && n.torn && n.current == Some(stage)
    && n.discarded - {stage} == m.discarded - {stage}
    && StageResult(l, completed, stage)
    && (l.error.None? ==> stage in n.discarded && stage in n.cleared && m.cleared <= n.cleared && n.violated == m.violated)
  }

  /** One stage from its start to its teardown, whatever the adapter does. */
  lemma StageRests(a: Adapter, tr: Trace, completed: seq<Evidence>, stage: Stage, m: Monitor) returns (n: Monitor)
    requires Reaches(tr, m) && Allowed(m, StartProxy(stage))
    ensures StageEnds(StageRun(a, tr, completed, stage), completed, stage, m, n)
  {
    var l := Entered(tr, completed);
    var k := TriedStaysInside(a, l, stage, m);
    var entered := m.(discarded := m.discarded - {stage});
    k := CollectedStaysInside(a, Tried(a, l, stage), completed, stage, entered, k);
    n := DiscardRests(a, Collected(a, Tried(a, l, stage), stage).trace, stage, k);
  }

  ghost predicate Ends(run: (Trace, seq<Evidence>, Stage) -> Locals, tr: Trace, completed: seq<Evidence>, stage: Stage, m: Monitor) {
    exists n :: StageEnds(run(tr, completed, stage), completed, stage, m, n)
  }

  ghost predicate Sound(run: (Trace, seq<Evidence>, Stage) -> Locals) {
    forall tr, completed, stage, m :: Reaches(tr, m) && Allowed(m, StartProxy(stage)) ==> Ends(run, tr, completed, stage, m)
  }

  lemma RunningIsSound(a: Adapter)
    ensures Sound(Running(a))
  {
    var run := Running(a);
    forall tr, completed, stage, m | Reaches(tr, m) && Allowed(m, StartProxy(stage))
      ensures Ends(run, tr, completed, stage, m)
    {
      var n := StageRests(a, tr, completed, stage, m);
      assert StageEnds(run(tr, completed, stage), completed, stage, m, n) by {
        assert run(tr, completed, stage) == StageRun(a, tr, completed, stage);
      }
    }
  }

  // ---- What a run guarantees ----

  lemma CandidateRun(run: (Trace, seq<Evidence>, Stage) -> Locals, tr: Trace, completed: seq<Evidence>, comparative: bool,
                     m: Monitor) returns (n: Monitor)
    requires Sound(run) && Reaches(tr, m) && m.torn && Baseline in m.discarded
    requires exists e :: e in completed && e.stage == Baseline
    ensures var x := Stages(run, tr, completed, [Candidate], comparative);
            && Reaches(x.trace, n) && n.torn
            && (x.end.Threw? ==> x.completed <= x.end.error.results)
            && (x.end.Returned? ==>
                  && x.end == Returned(if comparative then ComparisonComplete else Pass, x.completed)
                  && |x.completed| == |completed| + 1 && completed <= x.completed
                  && x.completed[|completed|].stage == Candidate && x.completed[|completed|].outcome.Observed?
                  && {Baseline, Candidate} <= n.discarded && m.cleared + {Candidate} <= n.cleared && n.violated == m.violated)
  {
    var l := run(tr, completed, Candidate);
    assert Ends(run, tr, completed, Candidate, m);
    n :| StageEnds(l, completed, Candidate, m, n);
    assert Baseline in m.discarded - {Candidate};
    assert Stages(run, l.trace, l.completed, [Candidate][1..], comparative || l.accepted) ==
           Execution(l.trace, l.completed, Returned(if comparative || l.accepted then ComparisonComplete else Pass, l.completed));
  }

  lemma BothRun(run: (Trace, seq<Evidence>, Stage) -> Locals, tr: Trace, completed: seq<Evidence>) returns (n: Monitor)
    requires Sound(run) && Reaches(tr, IDLE)
    ensures var x := Stages(run, tr, completed, [Baseline, Candidate], false);
            && Reaches(x.trace, n) && n.torn
            && (x.end.Threw? ==> x.completed <= x.end.error.results)
            && (x.end.Returned? ==> Verified(x, completed, None, n))
  {
    var l := run(tr, completed, Baseline);
    assert Ends(run, tr, completed, Baseline, IDLE);
    n :| StageEnds(l, completed, Baseline, IDLE, n);
    if l.error.None? {
      assert l.completed[|completed|] == l.result.value;
      assert [Baseline, Candidate][1..] == [Candidate];
      n := CandidateRun(run, l.trace, l.completed, l.accepted, n);
    }
  }

  /**
   For every adapter, the calls of a run follow the protocol of the monitor and end at rest: each
   stage entered was torn down exactly once, before the next was entered and before the run ended.
   A run that throws reports all the evidence it collected.
   */
  lemma EveryRunIsTornDown(a: Adapter, completed: seq<Evidence>, prior: Option<Option<Evidence>>) returns (n: Monitor)
    ensures var x := Execute(a, completed, prior);
            Reaches(x.trace, n) && n.torn
    ensures var x := Execute(a, completed, prior);
            x.end.Threw? ==> x.completed == completed || x.completed <= x.end.error.results
    ensures var x := Execute(a, completed, prior);
            x.end.Returned? ==> Verified(x, completed, prior, n)
  {
    assert Reaches([], IDLE);
    AskedMoves(a, [], AssertFresh, IDLE);
    n := IDLE;
    var tr := Asked(a, [], AssertFresh);
    if !Reply(a, [], AssertFresh).Throws? {
      if prior.None? {
        RunningIsSound(a);
        n := BothRun(Running(a), tr, completed);
      } else if prior.value.Some? && prior.value.value.stage == Baseline {
        n := PriorRun(a, tr, completed, prior.value.value);
      }
    }
  }

  lemma PriorRun(a: Adapter, tr: Trace, completed: seq<Evidence>, baseline: Evidence) returns (n: Monitor)
    requires Reaches(tr, IDLE)
    ensures var x := WithPrior(a, tr, completed, baseline);
            && Reaches(x.trace, n) && n.torn
            && (x.end.Threw? ==> x.completed == completed || x.completed <= x.end.error.results)
            && (x.end.Returned? ==> Verified(x, completed, Some(Some(baseline)), n))
  {
    n := IDLE;
    if AcceptedBaselineFailure(baseline) {
      n := DiscardRests(a, tr, Baseline, IDLE);
      var all := completed + [baseline.(egress := Some(NotCapturedPriorRun))];
      assert all[|completed|].stage == Baseline;
      var (t, ok) := Discard(a, tr, Baseline);
      if ok {
        RunningIsSound(a);
        n := CandidateRun(Running(a), t, all, true, n);
      }
    }
  }

  /**
   A normal return: both stages were verified to be gone, the egress of every stage that ran was
   checked and no check failed, the candidate was observed, and the outcome is a pass exactly when
   the baseline ran and was observed too.
   */
  predicate Verified(x: Execution, completed: seq<Evidence>, prior: Option<Option<Evidence>>, n: Monitor)
    requires x.end.Returned?
  {
    && x.end.stages == x.completed && |x.completed| == |completed| + 2 && completed <= x.completed
    && var b, c := x.completed[|completed|], x.completed[|completed| + 1];
    && b.stage == Baseline && c.stage == Candidate && c.outcome.Observed?
    && (b.outcome.Observed? || AcceptedBaselineFailure(b))
    && (x.end.outcome == Pass <==> b.outcome.Observed?)
    && (prior.Some? ==> AcceptedBaselineFailure(b) && b.egress == Some(NotCapturedPriorRun))
    && {Baseline, Candidate} <= n.discarded && Candidate in n.cleared && (prior.None? ==> Baseline in n.cleared) && !n.violated
  }

  // ---- What acceptance by the monitor means ----

  lemma {:induction false} PrefixAccepted(tr: Trace, k: nat)
    requires Accepts(IDLE, tr) && k <= |tr|
    ensures Accepts(IDLE, tr[..k])
    ensures k < |tr| ==> Allowed(After(IDLE, tr[..k]), tr[k].call) && After(IDLE, tr[..k + 1]) == Moved(After(IDLE, tr[..k]), tr[k])
    decreases |tr|
  {
    if k == |tr| {
      assert tr[..k] == tr;
    } else if k == |tr| - 1 {
      assert tr[..k + 1] == tr;
    } else {
      PrefixAccepted(tr[..|tr| - 1], k);
      assert tr[..|tr| - 1][..k] == tr[..k] && tr[..|tr| - 1][..k + 1] == tr[..k + 1];
    }
  }

  /** From a start to the next teardown, every call belongs to the stage entered. */
  lemma {:induction false} TeardownFollows(tr: Trace, i: nat, end: nat) returns (k: nat)
    requires Accepts(IDLE, tr) && i < end <= |tr| && tr[i].call.StartProxy?
    requires After(IDLE, tr[..end]).torn
    ensures i < k < end && tr[k].call == Teardown(tr[i].call.stage)
    ensures forall j :: i < j < k ==> tr[j].call != AssertFresh && tr[j].call.stage == tr[i].call.stage
                                      && !tr[j].call.StartProxy? && !tr[j].call.Teardown?
  {
    PrefixAccepted(tr, i);
    k := i + 1;
    while k < end && !tr[k].call.Teardown?
      invariant i < k <= end
      invariant After(IDLE, tr[..k]).current == Some(tr[i].call.stage) && !After(IDLE, tr[..k]).torn
      invariant forall j :: i < j < k ==> tr[j].call != AssertFresh && tr[j].call.stage == tr[i].call.stage
                                          && !tr[j].call.StartProxy? && !tr[j].call.Teardown?
    {
      PrefixAccepted(tr, k);
      k := k + 1;
    }
    if k < end {
      PrefixAccepted(tr, k);
    }
  }

  /** After a teardown, no other one is attempted until some stage is entered. */
  lemma {:induction false} NoSecondTeardown(tr: Trace, k: nat, j: nat) returns (n: nat)
    requires Accepts(IDLE, tr) && k < j < |tr| && tr[k].call.Teardown? && tr[j].call.Teardown?
    ensures k < n < j && tr[n].call.StartProxy?
  {
    PrefixAccepted(tr, k);
    n := k + 1;
    while n < j && !tr[n].call.StartProxy?
      invariant k < n <= j
      invariant After(IDLE, tr[..n]).current.Some? && After(IDLE, tr[..n]).torn
      decreases j - n
    {
      PrefixAccepted(tr, n);
      n := n + 1;
    }
    PrefixAccepted(tr, n);
  }

  /** The candidate is entered only after the discard of the baseline was verified, and it has not been entered since. */
  lemma {:induction false} CandidateWaits(tr: Trace, i: nat) returns (v: nat)
    requires Accepts(IDLE, tr) && i < |tr| && tr[i].call == StartProxy(Candidate)
    ensures v < i && tr[v].call == VerifyDiscarded(Baseline) && !tr[v].answer.Throws?
    ensures forall j :: v < j < i ==> tr[j].call != StartProxy(Baseline)
  {
    PrefixAccepted(tr, i);
    v := i;
    while v > 0 && !(tr[v - 1].call == VerifyDiscarded(Baseline) && !tr[v - 1].answer.Throws?)
      invariant v <= i && Baseline in After(IDLE, tr[..v]).discarded
      invariant forall j :: v <= j < i ==> tr[j].call != StartProxy(Baseline)
    {
      v := v - 1;
      PrefixAccepted(tr, v);
    }
    v := v - 1;
  }

  /** The teardown at `k` is the only one between the start at `i` and the next start or the end. */
  predicate TornDownAt(tr: Trace, i: nat, k: nat)
    requires i < |tr| && tr[i].call.StartProxy?
  {
    && i < k < |tr| && tr[k].call == Teardown(tr[i].call.stage)
    && (forall j :: i < j < k ==> !tr[j].call.StartProxy? && !tr[j].call.Teardown?)
    && (forall j :: k < j < |tr| && tr[j].call.Teardown? ==> exists n :: k < n < j && tr[n].call.StartProxy?)
  }

  predicate BaselineDiscardedBefore(tr: Trace, i: nat)
    requires i < |tr|
  {
    exists v :: 0 <= v < i && tr[v].call == VerifyDiscarded(Baseline) && !tr[v].answer.Throws?
  }

  /**
   Over the calls of any run: each stage entered has exactly one teardown attempt, before another
   stage is entered and before the run ends, and the candidate is entered only after a verified
   discard of the baseline.
   */
  lemma EveryStageIsTornDownOnce(a: Adapter, completed: seq<Evidence>, prior: Option<Option<Evidence>>)
    ensures var tr := Execute(a, completed, prior).trace;
            forall i :: 0 <= i < |tr| && tr[i].call.StartProxy? ==>
              && (exists k :: TornDownAt(tr, i, k))
              && (tr[i].call.stage == Candidate ==> BaselineDiscardedBefore(tr, i))
  {
    var n := EveryRunIsTornDown(a, completed, prior);
    AcceptedIsTornDown(Execute(a, completed, prior).trace);
  }

  lemma AcceptedIsTornDown(tr: Trace)
    requires Accepts(IDLE, tr) && After(IDLE, tr).torn
    ensures forall i :: 0 <= i < |tr| && tr[i].call.StartProxy? ==>
      && (exists k :: TornDownAt(tr, i, k))
      && (tr[i].call.stage == Candidate ==> BaselineDiscardedBefore(tr, i))
  {
    forall i | 0 <= i < |tr| && tr[i].call.StartProxy?
      ensures exists k :: TornDownAt(tr, i, k)
      ensures tr[i].call.stage == Candidate ==> BaselineDiscardedBefore(tr, i)
    {
      assert tr[..|tr|] == tr;
      var k := TeardownFollows(tr, i, |tr|);
      forall j | k < j < |tr| && tr[j].call.Teardown?
        ensures exists n :: k < n < j && tr[n].call.StartProxy?
      {
        var s := NoSecondTeardown(tr, k, j);
      }
      assert TornDownAt(tr, i, k);
      if tr[i].call.stage == Candidate {
        var v := CandidateWaits(tr, i);
      }
    }
  }

  // ---- The sequencer object ----

  /** `trace` is what the adapter has seen; the adapter answers from it. */
  class AuthAbSequencer {
    const adapter: Adapter
    var activeStage: Option<Stage>
    var completed: seq<Evidence>
    var past: Trace
    var trace: Trace

    constructor (adapter: Adapter)
      ensures this.adapter == adapter && activeStage == None && completed == [] && past == [] && trace == []
    {
      this.adapter := adapter;
      activeStage, completed, past, trace := None, [], [], [];
    }

    /** The adapter as this run sees it: it remembers the earlier runs too. */
    ghost function Seen(): Adapter
      reads this`past
    {
      Later(adapter, past)
    }

    method Ask(call: Call) returns (answer: Answer)
      modifies this`trace
      ensures answer == Reply(Seen(), old(trace), call) && trace == Asked(Seen(), old(trace), call)
    {
      answer := adapter.answer(past + trace, call);
      trace := trace + [Event(call, answer)];
    }

    method CorrelateSnapshots(stage: Stage) returns (answer: Answer)
      modifies this`trace
      ensures (trace, answer) == Correlation(Seen(), old(trace), stage)
    {
      answer := Evaluated(None);
      if adapter.hasCorrelate {
        answer := Ask(Correlate(stage));
      }
    }

    method Failure(code: Code, result: Option<Evidence>, pushed: bool) returns (error: Option<Error>)
      ensures error == Some(Error(code, completed + if result.Some? && !pushed then [result.value] else []))
    {
      error := Some(Error(code, if result.Some? && !pushed then completed + [result.value] else completed + []));
    }

    /** The second half of the `try` block: the stage has run. */
    method Conclude(stage: Stage, evidence: Evidence, before: Option<Diagnostics>) returns (l: Locals)
      modifies this`trace, this`completed
      ensures l == AfterRun(Seen(), Locals(old(trace), old(completed), Some(evidence), false, None, false, true, false, before), stage)
      ensures trace == l.trace && completed == l.completed
    {
      var result := evidence;
      var pushed, accepted := false, false;
      var error: Option<Error> := None;
      var after := Ask(Capture(stage));
      if after.Throws? {
        error := Failure(CodeOf(after), Some(result), false);
      } else {
        var correlation := CorrelateSnapshots(stage);
        if correlation.Throws? {
          error := Failure(CodeOf(correlation), Some(result), false);
        } else {
          result := result.(egress := EgressOf(correlation));
          if result.egress.None? {
            error := Failure(EgressMismatch, Some(result), false);
          } else {
            var check := Ask(CheckViolation(stage));
            if check.Throws? {
              error := Failure(CodeOf(check), Some(result), false);
            } else if Violates(check) {
              error := Failure(EgressMismatch, Some(result), false);
            } else if result.outcome.Observed? {
              completed := completed + [result];
              pushed := true;
            } else if stage == Baseline && AcceptedBaselineFailure(result) {
              completed := completed + [result];
              pushed := true;
              accepted := true;
            } else {
              error := Failure(result.outcome.code, Some(result), false);
            }
          }
        }
      }
      l := Locals(trace, completed, Some(result), pushed, error, accepted, true, true, before);
    }

    /** The `try` block with its `catch`. */
    method Attempt(stage: Stage) returns (l: Locals)
      modifies this`trace, this`completed
      ensures l == Tried(Seen(), Entered(old(trace), old(completed)), stage)
      ensures trace == l.trace && completed == l.completed
    {
      var before: Option<Diagnostics> := None;
      var proxyStarted := false;
      var error: Option<Error> := None;
      var start := Ask(StartProxy(stage));
      if start.Throws? {
        error := Failure(CodeOf(start), None, false);
      } else {
        proxyStarted := true;
        var capture := Ask(Capture(stage));
        before := DiagnosticsOf(capture);
        if capture.Throws? {
          error := Failure(CodeOf(capture), None, false);
        } else if before.None? || before.value.stage != stage || before.value.count != 0 {
          error := Failure(EgressMismatch, None, false);
        } else {
          var run := Ask(RunVersion(stage));
          var result := Projected(run, stage);
          if run.Throws? {
            error := Failure(CodeOf(run), None, false);
          } else if result.None? {
            error := Failure(OutputInvalid, None, false);
          } else {
            l := Conclude(stage, result.value, before);
            return;
          }
        }
      }
      l := Locals(trace, completed, None, false, error, false, proxyStarted, false, before);
    }

    /** The first half of the `finally` block. */
    method CollectLate(stage: Stage, l: Locals) returns (m: Locals)
      requires trace == l.trace && completed == l.completed
      modifies this`trace
      ensures m == Collected(Seen(), l, stage) && trace == m.trace && completed == m.completed
    {
      m := l;
      if l.proxyStarted && !l.afterAttempted {
        var after := Ask(Capture(stage));
        m := m.(afterAttempted := true, trace := trace);
        if after.Throws? {
          var error := Failure(EgressMismatch, m.result, m.pushed);
          m := m.(error := error);
        } else if l.before.Some? {
          m := CorrelateLate(stage, m);
        }
      }
    }

    method CorrelateLate(stage: Stage, l: Locals) returns (m: Locals)
      requires trace == l.trace && completed == l.completed
      modifies this`trace
      ensures m == CorrelatedLate(Seen(), l, stage) && trace == m.trace && completed == m.completed
    {
      var correlation := CorrelateSnapshots(stage);
      m := l.(trace := trace);
      if correlation.Throws? || EgressOf(correlation).None? {
        var error := Failure(EgressMismatch, m.result, m.pushed);
        m := m.(error := error);
      } else {
        if m.result.Some? {
          m := m.(result := Some(m.result.value.(egress := EgressOf(correlation))));
        }
        m := CheckLate(stage, m);
      }
    }

    method CheckLate(stage: Stage, l: Locals) returns (m: Locals)
      requires trace == l.trace && completed == l.completed
      modifies this`trace
      ensures m == CheckedLate(Seen(), l, stage) && trace == m.trace && completed == m.completed
    {
      var check := Ask(CheckViolation(stage));
      m := l.(trace := trace);
      if check.Throws? || Violates(check) {
        var error := Failure(EgressMismatch, m.result, m.pushed);
        m := m.(error := error);
      }
    }

    /** The second half of the `finally` block, shared with the reconciliation of a prior run. */
    method DiscardStage(stage: Stage) returns (ok: bool)
      modifies this`trace
      ensures (trace, ok) == Discard(Seen(), old(trace), stage)
    {
      var teardown := Ask(Teardown(stage));
      if teardown.Throws? {
        return false;
      }
      var verify := Ask(VerifyDiscarded(stage));
      if verify.Throws? {
        return false;
      }
      ok := true;
      if adapter.hasMark {
        var mark := Ask(MarkDiscarded(stage));
        ok := !mark.Throws?;
      }
    }

    method RunStage(stage: Stage) returns (l: Locals)
      modifies this`activeStage, this`completed, this`trace
      ensures l == StageRun(Seen(), old(trace), old(completed), stage)
      ensures trace == l.trace && completed == l.completed && activeStage == None
    {
      activeStage := Some(stage);
      l := Attempt(stage);
      l := CollectLate(stage, l);
      var ok := DiscardStage(stage);
      l := l.(trace := trace);
      if !ok {
        var error := Failure(RunFailed, l.result, l.pushed);
        l := l.(error := error);
      }
      activeStage := None;
    }

    /** Every way out leaves no stage active, so a call starts with none active. */
    method RunStages(stages: seq<Stage>, prior: bool) returns (end: End)
      requires activeStage == None
      modifies this`activeStage, this`completed, this`trace
      ensures activeStage == None
      ensures Execution(trace, completed, end) == Stages(Running(Seen()), old(trace), old(completed), stages, prior)
    {
      var comparative := prior;
      ghost var goal := Stages(Running(Seen()), trace, completed, stages, prior);
      for i := 0 to |stages|
        invariant activeStage == None
        invariant goal == Stages(Running(Seen()), trace, completed, stages[i..], comparative)
      {
        assert stages[i..][1..] == stages[i + 1..];
        if stages[i] == Candidate && (!(exists e :: e in completed && e.stage == Baseline) || activeStage.Some?) {
          end := Threw(Error(RunFailed, completed));
          return;
        }
        var l := RunStage(stages[i]);
        if l.error.Some? {
          end := Threw(Rethrown(l));
          return;
        }
        comparative := comparative || l.accepted;
      }
      end := Returned(if comparative then ComparisonComplete else Pass, completed);
    }

    method Run(prior: Option<Option<Evidence>>) returns (end: End)
      requires activeStage == None
      modifies this
      ensures activeStage == None && past == old(past + trace)
      ensures Execution(trace, completed, end) == Execute(Seen(), old(completed), prior)
    {
      past, trace := past + trace, [];
      var first := Ask(AssertFresh);
      if first.Throws? {
        end := Threw(Error(CodeOf(first), []));
        return;
      }
      if prior.None? {
        end := RunStages([Baseline, Candidate], false);
        return;
      }
      if prior.value.None? || prior.value.value.stage != Baseline {
        end := Threw(Error(OutputInvalid, []));
        return;
      }
      var baseline := prior.value.value;
      if !AcceptedBaselineFailure(baseline) {
        end := Threw(Error(RunFailed, [baseline]));
        return;
      }
      completed := completed + [baseline.(egress := Some(NotCapturedPriorRun))];
      var ok := DiscardStage(Baseline);
      if !ok {
        end := Threw(Error(RunFailed, completed));
        return;
      }
      end := RunStages([Candidate], true);
    }
  }
}
