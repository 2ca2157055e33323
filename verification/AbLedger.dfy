/**
 What a run of the A/B sequencer does with the answers it gets, read off its trace. A ledger books every
 answer: how many snapshots a stage took, which evidence it produced, and which failure its last failing
 call stands for. The main results say that a run throws exactly the failure booked last, returns exactly
 the evidence booked, and takes two snapshots of every stage whose proxy started.
 */
module AbLedger {
  import opened Common
  import opened AbSequencer

  /**
   `proxied`, `captures`, `first`, `ran` and `fault` are about the stage entered last: whether its proxy
   started, the snapshots attempted, the first one, the evidence not yet accepted, and the failure to
   report. The rest is about the whole run: accepted evidence, whether a check found a violation,
   whether a discard failed, and whether every teardown found the right number of snapshots.
   */
  datatype Ledger = Ledger(
    proxied: bool, captures: nat, first: Option<Diagnostics>, ran: Option<Evidence>, fault: Option<Code>,
    evidence: seq<Evidence>, violation: bool, kept: bool, balanced: bool)

  const BLANK := Ledger(false, 0, None, None, None, [], false, false, true)

  function Faulty(g: Ledger, code: Code): Ledger {
    g.(fault := Some(code))
  }

  /** The failed device authentication of a baseline that still permits a comparison. */
  predicate IsDeviceAuthFailure(e: Evidence) {
    e == Evidence(Baseline, Failed(DeviceAuthRpcError), true, true, ["initialize", "account/login/start"],
                  Some(Rpc("account/login/start", 302, "JSON_RPC_ERROR", Some(-32603))), e.egress)
  }

  /** The probe's own code of a thrown error; any other error is a failed run. */
  function ThrownCode(answer: Answer): Code
    requires answer.Throws?
  {
    match answer.code
    case Some(code) => code
    case None => RunFailed
  }

  /** A snapshot: the first must be empty and of this stage, the second is taken after the run or late. */
  function BookCapture(g: Ledger, stage: Stage, answer: Answer, correlates: bool): Ledger {
    var counted := g.(captures := g.captures + 1);
    var taken := if answer.Snapshot? then answer.diagnostics else None;
    if g.captures == 0 then
      if answer.Throws? then Faulty(counted, ThrownCode(answer))
      else if taken.Some? && taken.value.stage == stage && taken.value.count == 0 then counted.(first := taken)
      else Faulty(counted.(first := taken), EgressMismatch)
    else if answer.Throws? then Faulty(counted, if g.ran.Some? then ThrownCode(answer) else EgressMismatch)
    else if !correlates && (g.ran.Some? || g.first.Some?) then Faulty(counted.(ran := if g.ran.Some? then Some(g.ran.value.(egress := None)) else None), EgressMismatch)
    else counted
  }

  function BookRun(g: Ledger, stage: Stage, answer: Answer): Ledger {
    if answer.Throws? then Faulty(g, ThrownCode(answer))
    else if answer.Output? && answer.evidence.Some? && answer.evidence.value.stage == stage then g.(ran := answer.evidence)
    else Faulty(g, OutputInvalid)
  }

  /** The correlated egress replaces whatever the evidence said of it. */
  function BookCorrelation(g: Ledger, answer: Answer): Ledger {
    var egress := if answer.Evaluated? then answer.egress else None;
    if answer.Throws? then Faulty(g, if g.ran.Some? then ThrownCode(answer) else EgressMismatch)
    else
      var seen := g.(ran := if g.ran.Some? then Some(g.ran.value.(egress := egress)) else None);
      if egress.None? then Faulty(seen, EgressMismatch) else seen
  }

  /** The check of the egress: after it the evidence of a run is accepted, or its own failure counts. */
  function BookCheck(g: Ledger, answer: Answer): Ledger {
    var seen := g.(violation := g.violation || answer == Verdict(true));
    if answer == Verdict(true) then Faulty(seen, EgressMismatch)
    else if answer.Throws? then Faulty(seen, if g.ran.Some? then ThrownCode(answer) else EgressMismatch)
    else if g.ran.None? then seen
    else if g.ran.value.outcome.Observed? || IsDeviceAuthFailure(g.ran.value) then
      seen.(evidence := g.evidence + [g.ran.value], ran := None)
    else Faulty(seen, g.ran.value.outcome.code)
  }

  function Booked(g: Ledger, e: Event, correlates: bool): Ledger {
    match e.call
    case AssertFresh => if e.answer.Throws? then Faulty(g, ThrownCode(e.answer)) else g
    case StartProxy(_) =>
      var entered := g.(proxied := !e.answer.Throws?, captures := 0, first := None, ran := None, fault := None);
      if e.answer.Throws? then Faulty(entered, ThrownCode(e.answer)) else entered
    case Capture(stage) => BookCapture(g, stage, e.answer, correlates)
    case RunVersion(stage) => BookRun(g, stage, e.answer)
    case Correlate(_) => BookCorrelation(g, e.answer)
    case CheckViolation(_) => BookCheck(g, e.answer)
    case Teardown(_) =>
      var closed := g.(balanced := g.balanced && g.captures == if g.proxied then 2 else 0);
      if e.answer.Throws? then Faulty(closed.(kept := true), RunFailed) else closed
    case _ => if e.answer.Throws? then Faulty(g.(kept := true), RunFailed) else g
  }

  type Clerk = (Ledger, Event) -> Ledger

  function Booker(correlates: bool): Clerk {
    (g, e) => Booked(g, e, correlates)
  }

  function BookWith(book: Clerk, tr: Trace): Ledger {
    if tr == [] then BLANK else book(BookWith(book, tr[..|tr| - 1]), tr[|tr| - 1])
  }

  /** The ledger of a trace. */
  function BookAll(tr: Trace, correlates: bool): Ledger {
    BookWith(Booker(correlates), tr)
  }

  lemma {:induction false} AskedBooks(a: Adapter, tr: Trace, call: Call)
    ensures BookAll(Asked(a, tr, call), a.hasCorrelate)
         == Booked(BookAll(tr, a.hasCorrelate), Event(call, Reply(a, tr, call)), a.hasCorrelate)
  {
    assert Asked(a, tr, call)[..|tr|] == tr;
  }

  // ---- The locals of a stage and the ledger ----

  function Of(a: Adapter, l: Locals): Ledger {
    BookAll(l.trace, a.hasCorrelate)
  }

  /** What the stage knows is what the ledger says; `base` is the evidence there was before the run. */
  predicate Fits(l: Locals, base: seq<Evidence>, g: Ledger) {
    && l.completed == base + g.evidence
    && l.proxyStarted == g.proxied && l.before == g.first
    && (l.error.None? ==> g.fault.None?)
    && (l.error.Some? ==> g.fault == Some(l.error.value.code) && l.error.value.results == Results(l))
    && g.ran == (if l.pushed then None else l.result)
    && (l.pushed ==> l.result.Some?)
  }

  /** What the middle of a stage may add to the ledger. */
  predicate Grows(g: Ledger, h: Ledger) {
    && h.kept == g.kept && h.balanced == g.balanced && g.evidence <= h.evidence
    && (h.violation ==> g.violation || h.fault == Some(EgressMismatch))
  }

  lemma {:induction false} CheckGrows(g: Ledger, answer: Answer)
    ensures Grows(g, BookCheck(g, answer)) && BookCheck(g, answer).captures == g.captures
  {
  }

  lemma {:induction false} CorrelationGrows(g: Ledger, answer: Answer)
    ensures Grows(g, BookCorrelation(g, answer)) && BookCorrelation(g, answer).captures == g.captures
  {
  }

  /** Catching a failure is booking it. */
  lemma {:induction false} CaughtFits(l: Locals, base: seq<Evidence>, g: Ledger, code: Code)
    requires Fits(l, base, g)
    ensures Fits(Caught(l, code), base, Faulty(g, code))
  {
  }

  /** Adding the evidence of a stage is booking it as accepted. */
  lemma {:induction false} PushedFits(l: Locals, base: seq<Evidence>, g: Ledger, accepted: bool)
    requires Fits(l, base, g) && l.result.Some? && !l.pushed && l.error.None?
    ensures Fits(l.(completed := l.completed + [l.result.value], pushed := true, accepted := accepted), base,
                 g.(evidence := g.evidence + [l.result.value], ran := None))
  {
    assert base + (g.evidence + [l.result.value]) == (base + g.evidence) + [l.result.value];
  }

  lemma {:induction false} TraceFits(l: Locals, base: seq<Evidence>, g: Ledger, tr: Trace, violation: bool)
    requires Fits(l, base, g)
    ensures Fits(l.(trace := tr), base, g.(violation := violation))
  {
  }

  lemma {:induction false} CheckFits(a: Adapter, l: Locals, stage: Stage, base: seq<Evidence>, g: Ledger)
    requires l.result.Some? && l.afterAttempted && !l.pushed && l.error.None? && l.result.value.stage == stage && Fits(l, base, g)
    ensures var m, h := Judged(a, l, stage), BookCheck(g, Reply(a, l.trace, CheckViolation(stage)));
            && m.trace == Asked(a, l.trace, CheckViolation(stage)) && m.afterAttempted && Fits(m, base, h)
  {
    var r, check := l.result.value, Reply(a, l.trace, CheckViolation(stage));
    DeviceAuthFailures(r);
    var m := l.(trace := Asked(a, l.trace, CheckViolation(stage)));
    var seen := g.(violation := g.violation || check == Verdict(true));
    TraceFits(l, base, g, m.trace, seen.violation);
    if check.Throws? {
      CaughtFits(m, base, seen, CodeOf(check));
    } else if Violates(check) {
      CaughtFits(m, base, seen, EgressMismatch);
    } else if r.outcome.Observed? {
      PushedFits(m, base, seen, m.accepted);
    } else if AcceptedBaselineFailure(r) {
      PushedFits(m, base, seen, true);
    } else {
      CaughtFits(m, base, seen, r.outcome.code);
    }
  }

  lemma {:induction false} DeviceAuthFailures(e: Evidence)
    ensures IsDeviceAuthFailure(e) <==> AcceptedBaselineFailure(e)
  {
  }

  lemma {:induction false} JudgedBooks(a: Adapter, l: Locals, stage: Stage, base: seq<Evidence>)
    requires l.result.Some? && l.afterAttempted && !l.pushed && l.error.None? && l.result.value.stage == stage && Fits(l, base, Of(a, l))
    ensures var m := Judged(a, l, stage);
            && Fits(m, base, Of(a, m)) && Grows(Of(a, l), Of(a, m))
            && m.afterAttempted && Of(a, m).captures == Of(a, l).captures
  {
    AskedBooks(a, l.trace, CheckViolation(stage));
    CheckFits(a, l, stage, base, Of(a, l));
    CheckGrows(Of(a, l), Reply(a, l.trace, CheckViolation(stage)));
  }

  lemma {:induction false} CorrelationFits(a: Adapter, l: Locals, stage: Stage, base: seq<Evidence>, g: Ledger)
    requires l.result.Some? && l.afterAttempted && !l.pushed && l.error.None? && l.result.value.stage == stage && Fits(l, base, g)
    requires a.hasCorrelate
    ensures var correlation := Reply(a, l.trace, Correlate(stage));
            var m := l.(trace := Asked(a, l.trace, Correlate(stage)));
            var h := BookCorrelation(g, correlation);
            if correlation.Throws? then Correlating(a, l, stage) == Caught(m, CodeOf(correlation)) && Fits(Caught(m, CodeOf(correlation)), base, h)
            else
              var n := m.(result := Some(l.result.value.(egress := EgressOf(correlation))));
              if EgressOf(correlation).None? then Correlating(a, l, stage) == Caught(n, EgressMismatch) && Fits(Caught(n, EgressMismatch), base, h)
              else Correlating(a, l, stage) == Judged(a, n, stage) && Fits(n, base, h)
  {
    var correlation := Reply(a, l.trace, Correlate(stage));
    var m := l.(trace := Asked(a, l.trace, Correlate(stage)));
    TraceFits(l, base, g, m.trace, g.violation);
    if correlation.Throws? {
      CaughtFits(m, base, g, CodeOf(correlation));
    } else {
      var n, seen := ResultFits(m, base, g, EgressOf(correlation));
      CaughtFits(n, base, seen, EgressMismatch);
    }
  }

  lemma {:induction false} ResultFits(l: Locals, base: seq<Evidence>, g: Ledger, egress: Option<Egress>) returns (m: Locals, h: Ledger)
    requires Fits(l, base, g) && l.result.Some? && !l.pushed && l.error.None?
    ensures m == l.(result := Some(l.result.value.(egress := egress))) && h == g.(ran := Some(g.ran.value.(egress := egress)))
    ensures Fits(m, base, h)
  {
    m := l.(result := Some(l.result.value.(egress := egress)));
    h := g.(ran := Some(g.ran.value.(egress := egress)));
  }

  lemma {:induction false} CorrelatingBooks(a: Adapter, l: Locals, stage: Stage, base: seq<Evidence>)
    requires l.result.Some? && l.afterAttempted && !l.pushed && l.error.None? && l.result.value.stage == stage
    requires a.hasCorrelate && Fits(l, base, Of(a, l))
    ensures var m := Correlating(a, l, stage);
            && Fits(m, base, Of(a, m)) && Grows(Of(a, l), Of(a, m))
            && m.afterAttempted && Of(a, m).captures == Of(a, l).captures
  {
    AskedBooks(a, l.trace, Correlate(stage));
    CorrelationFits(a, l, stage, base, Of(a, l));
    CorrelationGrows(Of(a, l), Reply(a, l.trace, Correlate(stage)));
    var correlation := Reply(a, l.trace, Correlate(stage));
    if !correlation.Throws? && EgressOf(correlation).Some? {
      JudgedBooks(a, l.(trace := Asked(a, l.trace, Correlate(stage)),
                        result := Some(l.result.value.(egress := EgressOf(correlation)))), stage, base);
    }
  }

  lemma {:induction false} AfterRunBooks(a: Adapter, l: Locals, stage: Stage, base: seq<Evidence>)
    requires l.result.Some? && !l.pushed && l.error.None? && l.result.value.stage == stage
    requires Fits(l, base, Of(a, l)) && Of(a, l).captures == 1
    ensures var m := AfterRun(a, l, stage);
            && Fits(m, base, Of(a, m)) && Grows(Of(a, l), Of(a, m)) && m.afterAttempted && Of(a, m).captures == 2
  {
    AskedBooks(a, l.trace, Capture(stage));
    var g, after := Of(a, l), Reply(a, l.trace, Capture(stage));
    var counted := g.(captures := 2);
    var m := l.(trace := Asked(a, l.trace, Capture(stage)), afterAttempted := true);
    AttemptFits(l, base, g, m.trace);
    if after.Throws? {
      CaughtFits(m, base, counted, CodeOf(after));
    } else if a.hasCorrelate {
      CorrelatingBooks(a, m, stage, base);
    } else {
      UncorrelatedBooks(a, m, stage, base, counted);
    }
  }

  /** An adapter that cannot correlate leaves the evidence without its egress. */
  lemma {:induction false} UncorrelatedBooks(a: Adapter, l: Locals, stage: Stage, base: seq<Evidence>, g: Ledger)
    requires Fits(l, base, g) && l.result.Some? && !l.pushed && l.error.None? && !a.hasCorrelate
    ensures var m, h := Correlating(a, l, stage), Faulty(g.(ran := Some(g.ran.value.(egress := None))), EgressMismatch);
            Fits(m, base, h) && m.trace == l.trace && m.afterAttempted == l.afterAttempted && m.error.Some?
  {
    var n, seen := ResultFits(l, base, g, None);
    CaughtFits(n, base, seen, EgressMismatch);
    assert Correlating(a, l, stage) == Caught(n, EgressMismatch);
  }

  lemma {:induction false} AttemptFits(l: Locals, base: seq<Evidence>, g: Ledger, tr: Trace)
    requires Fits(l, base, g)
    ensures Fits(l.(trace := tr, afterAttempted := true), base, g.(captures := 2))
  {
  }

  /** Where the `try` block leaves a stage: with no proxy no snapshot was taken, else one, or two after a run. */
  predicate Between(l: Locals, g: Ledger) {
    && g.captures == (if l.afterAttempted then 2 else if l.proxyStarted then 1 else 0)
    && (l.afterAttempted ==> l.proxyStarted)
    && (!l.afterAttempted ==> l.result.None? && !l.pushed && l.error.Some?)
  }

  lemma {:induction false} RunOnceBooks(a: Adapter, l: Locals, stage: Stage, base: seq<Evidence>)
    requires l.result.None? && !l.pushed && l.error.None? && !l.afterAttempted && l.proxyStarted
    requires Fits(l, base, Of(a, l)) && Of(a, l).captures == 1
    ensures var m := RunOnce(a, l, stage);
            && Fits(m, base, Of(a, m)) && Grows(Of(a, l), Of(a, m)) && Between(m, Of(a, m)) && m.proxyStarted
  {
    AskedBooks(a, l.trace, RunVersion(stage));
    var g, run := Of(a, l), Reply(a, l.trace, RunVersion(stage));
    var m := l.(trace := Asked(a, l.trace, RunVersion(stage)));
    TraceFits(l, base, g, m.trace, g.violation);
    if run.Throws? {
      CaughtFits(m, base, g, CodeOf(run));
    } else if Projected(run, stage).None? {
      CaughtFits(m, base, g, OutputInvalid);
    } else {
      AfterRunBooks(a, m.(result := Projected(run, stage)), stage, base);
      AfterRunKeepsProxy(a, m.(result := Projected(run, stage)), stage);
    }
  }

  lemma {:induction false} AfterRunKeepsProxy(a: Adapter, l: Locals, stage: Stage)
    requires l.result.Some?
    ensures AfterRun(a, l, stage).proxyStarted == l.proxyStarted
  {
  }

  lemma {:induction false} TriedBooks(a: Adapter, tr: Trace, completed: seq<Evidence>, stage: Stage, base: seq<Evidence>)
    requires completed == base + BookAll(tr, a.hasCorrelate).evidence
    ensures var m := Tried(a, Entered(tr, completed), stage);
            Fits(m, base, Of(a, m)) && Grows(BookAll(tr, a.hasCorrelate), Of(a, m)) && Between(m, Of(a, m))
  {
    var l, start := Entered(tr, completed), Reply(a, tr, StartProxy(stage));
    var t1 := Asked(a, tr, StartProxy(stage));
    AskedBooks(a, tr, StartProxy(stage));
    if !start.Throws? {
      ProxiedBooks(a, l.(trace := t1, proxyStarted := true), stage, base);
    }
  }

  /** The `try` block from the moment the proxy runs. */
  function Proxied(a: Adapter, l: Locals, stage: Stage): Locals {
    var capture := Reply(a, l.trace, Capture(stage));
    var o := l.(trace := Asked(a, l.trace, Capture(stage)));
    if capture.Throws? then Caught(o, CodeOf(capture))
    else
      var p := o.(before := DiagnosticsOf(capture));
      if p.before.None? || p.before.value.stage != stage || p.before.value.count != 0 then Caught(p, EgressMismatch)
      else RunOnce(a, p, stage)
  }

  lemma {:induction false} ProxiedBooks(a: Adapter, l: Locals, stage: Stage, base: seq<Evidence>)
    requires Fits(l, base, Of(a, l)) && Of(a, l).captures == 0 && l.proxyStarted && !l.afterAttempted
    requires l.result.None? && !l.pushed && l.error.None? && l.before.None?
    ensures var m := Proxied(a, l, stage);
            Fits(m, base, Of(a, m)) && Grows(Of(a, l), Of(a, m)) && Between(m, Of(a, m))
  {
    AskedBooks(a, l.trace, Capture(stage));
    var capture := Reply(a, l.trace, Capture(stage));
    FirstSnapshotBooks(a, l, stage, base, Of(a, l));
    var p := l.(trace := Asked(a, l.trace, Capture(stage)), before := DiagnosticsOf(capture));
    if !capture.Throws? && p.before.Some? && p.before.value.stage == stage && p.before.value.count == 0 {
      RunOnceBooks(a, p, stage, base);
    }
  }

  /** The first snapshot: refused when it throws, or is not the empty one of this stage. */
  lemma {:induction false} FirstSnapshotBooks(a: Adapter, l: Locals, stage: Stage, base: seq<Evidence>, g: Ledger)
    requires Fits(l, base, g) && g.captures == 0 && l.proxyStarted && !l.afterAttempted
    requires l.result.None? && !l.pushed && l.error.None? && l.before.None?
    ensures var capture := Reply(a, l.trace, Capture(stage));
            var h := BookCapture(g, stage, capture, a.hasCorrelate);
            var o := l.(trace := Asked(a, l.trace, Capture(stage)));
            var p := o.(before := DiagnosticsOf(capture));
            && Grows(g, h) && h.captures == 1
            && (if capture.Throws? then Fits(Caught(o, CodeOf(capture)), base, h)
                else if p.before.None? || p.before.value.stage != stage || p.before.value.count != 0 then Fits(Caught(p, EgressMismatch), base, h)
                else Fits(p, base, h))
  {
  }

  // ---- The late half of the stage ----

  /** Late diagnostics may turn any failure into an egress mismatch, and leave it as it was otherwise. */
  predicate GrowsLate(g: Ledger, h: Ledger) {
    Grows(g, h) && (h.fault == g.fault || h.fault == Some(EgressMismatch))
  }

  lemma {:induction false} CheckedLateBooks(a: Adapter, l: Locals, stage: Stage, base: seq<Evidence>)
    requires Fits(l, base, Of(a, l)) && Of(a, l).captures == 2 && l.result.None? && !l.pushed
    ensures var m := CheckedLate(a, l, stage);
            && Fits(m, base, Of(a, m)) && GrowsLate(Of(a, l), Of(a, m)) && Of(a, m).captures == 2 && m.proxyStarted == l.proxyStarted
  {
    AskedBooks(a, l.trace, CheckViolation(stage));
    var g, check := Of(a, l), Reply(a, l.trace, CheckViolation(stage));
    var m := l.(trace := Asked(a, l.trace, CheckViolation(stage)));
    var seen := g.(violation := g.violation || check == Verdict(true));
    TraceFits(l, base, g, m.trace, seen.violation);
    CaughtFits(m, base, seen, EgressMismatch);
  }

  lemma {:induction false} CorrelatedLateBooks(a: Adapter, l: Locals, stage: Stage, base: seq<Evidence>)
    requires Fits(l, base, Of(a, l)) && Of(a, l).captures == 2 && l.result.None? && !l.pushed && a.hasCorrelate
    ensures var m := CorrelatedLate(a, l, stage);
            && Fits(m, base, Of(a, m)) && GrowsLate(Of(a, l), Of(a, m)) && Of(a, m).captures == 2 && m.proxyStarted == l.proxyStarted
  {
    AskedBooks(a, l.trace, Correlate(stage));
    var g, correlation := Of(a, l), Reply(a, l.trace, Correlate(stage));
    var n := l.(trace := Asked(a, l.trace, Correlate(stage)));
    TraceFits(l, base, g, n.trace, g.violation);
    CaughtFits(n, base, g, EgressMismatch);
    if !correlation.Throws? && EgressOf(correlation).Some? {
      CheckedLateBooks(a, n, stage, base);
    }
  }

  lemma {:induction false} CollectedBooks(a: Adapter, l: Locals, stage: Stage, base: seq<Evidence>)
    requires Fits(l, base, Of(a, l)) && Between(l, Of(a, l))
    ensures var m := Collected(a, l, stage);
            && Fits(m, base, Of(a, m)) && GrowsLate(Of(a, l), Of(a, m))
            && Of(a, m).captures == (if m.proxyStarted then 2 else 0)
  {
    if l.proxyStarted && !l.afterAttempted {
      AskedBooks(a, l.trace, Capture(stage));
      var g, after := Of(a, l), Reply(a, l.trace, Capture(stage));
      var m := l.(trace := Asked(a, l.trace, Capture(stage)), afterAttempted := true);
      AttemptFits(l, base, g, m.trace);
      CaughtFits(m, base, g.(captures := 2), EgressMismatch);
      if !after.Throws? && m.before.Some? {
        if a.hasCorrelate {
          CorrelatedLateBooks(a, m, stage, base);
        } else {
          assert CorrelatedLate(a, m, stage) == Caught(m, EgressMismatch);
        }
      }
    }
  }

  // ---- The discard ----

  /** A discard keeps what was booked, unless one of its calls throws: that makes the run a failed one. */
  lemma {:induction false} DiscardBooks(a: Adapter, tr: Trace, stage: Stage)
    ensures var g, (t, ok) := BookAll(tr, a.hasCorrelate), Discard(a, tr, stage);
            var closed := g.(balanced := g.balanced && g.captures == if g.proxied then 2 else 0);
            BookAll(t, a.hasCorrelate) == if ok then closed else Faulty(closed.(kept := true), RunFailed)
  {
    AskedBooks(a, tr, Teardown(stage));
    var t1 := Asked(a, tr, Teardown(stage));
    AskedBooks(a, t1, VerifyDiscarded(stage));
    var t2 := Asked(a, t1, VerifyDiscarded(stage));
    AskedBooks(a, t2, MarkDiscarded(stage));
  }

  // ---- One stage ----

  /** A stage that raised nothing added the evidence it produced. */
  predicate Added(l: Locals, completed: seq<Evidence>, stage: Stage) {
    l.error.None? ==> l.pushed && l.result.Some? && l.result.value.stage == stage && l.completed == completed + [l.result.value]
  }

  lemma {:induction false} CorrelatingAdds(a: Adapter, l: Locals, stage: Stage)
    requires l.result.Some? && l.result.value.stage == stage
    ensures Added(Correlating(a, l, stage), l.completed, stage)
  {
  }

  lemma {:induction false} AfterRunAdds(a: Adapter, l: Locals, stage: Stage)
    requires l.result.Some? && l.result.value.stage == stage
    ensures Added(AfterRun(a, l, stage), l.completed, stage)
  {
    CorrelatingAdds(a, l.(trace := Asked(a, l.trace, Capture(stage)), afterAttempted := true), stage);
  }

  lemma {:induction false} RunOnceAdds(a: Adapter, l: Locals, stage: Stage)
    ensures Added(RunOnce(a, l, stage), l.completed, stage)
  {
    var run := Reply(a, l.trace, RunVersion(stage));
    if !run.Throws? && Projected(run, stage).Some? {
      AfterRunAdds(a, l.(trace := Asked(a, l.trace, RunVersion(stage)), result := Projected(run, stage)), stage);
    }
  }

  lemma {:induction false} TriedAdds(a: Adapter, tr: Trace, completed: seq<Evidence>, stage: Stage)
    ensures Added(Tried(a, Entered(tr, completed), stage), completed, stage)
  {
    var t1 := Asked(a, tr, StartProxy(stage));
    var n := Entered(tr, completed).(trace := t1, proxyStarted := true);
    RunOnceAdds(a, n.(trace := Asked(a, t1, Capture(stage)), before := DiagnosticsOf(Reply(a, t1, Capture(stage)))), stage);
  }

  /** What a whole stage does to the ledger `g` of the run before it. */
  predicate StageBooked(l: Locals, completed: seq<Evidence>, stage: Stage, base: seq<Evidence>, g: Ledger, h: Ledger) {
    && Fits(l, base, h) && Added(l, completed, stage) && h.balanced == g.balanced
    && (h.violation ==> g.violation || Reported(h))
  }

  /** A violation is reported as one, unless the discard failed after it. */
  predicate Reported(h: Ledger) {
    h.fault == Some(EgressMismatch) || (h.fault == Some(RunFailed) && h.kept)
  }

  lemma {:induction false} StageBooks(a: Adapter, tr: Trace, completed: seq<Evidence>, stage: Stage, base: seq<Evidence>)
    requires completed == base + BookAll(tr, a.hasCorrelate).evidence
    ensures var l := StageRun(a, tr, completed, stage);
            StageBooked(l, completed, stage, base, BookAll(tr, a.hasCorrelate), Of(a, l))
  {
    TriedBooks(a, tr, completed, stage, base);
    TriedAdds(a, tr, completed, stage);
    var tried := Tried(a, Entered(tr, completed), stage);
    CollectedBooks(a, tried, stage, base);
    CollectedKeepsError(a, tried, stage);
    var collected := Collected(a, tried, stage);
    DiscardedBooks(a, collected, stage, base);
    var over := Discarded(a, collected, stage);
    StageInThree(completed, stage, base, BookAll(tr, a.hasCorrelate), tried, Of(a, tried), collected, Of(a, collected), over, Of(a, over));
  }

  lemma {:induction false} StageInThree(completed: seq<Evidence>, stage: Stage, base: seq<Evidence>, g: Ledger,
                                        tried: Locals, h1: Ledger, collected: Locals, h2: Ledger, over: Locals, h3: Ledger)
    requires Added(tried, completed, stage) && Grows(g, h1) && GrowsLate(h1, h2)
    requires collected.error.None? ==> collected == tried
    requires Fits(over, base, h3) && h3.balanced == h2.balanced && h3.violation == h2.violation
    requires over.error.None? ==> collected.error.None? && over == collected.(trace := over.trace)
    requires h3.fault == h2.fault || (h3.fault == Some(RunFailed) && h3.kept)
    ensures StageBooked(over, completed, stage, base, g, h3)
  {
  }

  lemma {:induction false} CollectedKeepsError(a: Adapter, l: Locals, stage: Stage)
    requires !l.afterAttempted ==> l.error.Some?
    ensures Collected(a, l, stage).error.None? ==> Collected(a, l, stage) == l
  {
  }

  lemma {:induction false} DiscardedBooks(a: Adapter, l: Locals, stage: Stage, base: seq<Evidence>)
    requires Fits(l, base, Of(a, l)) && Of(a, l).captures == if l.proxyStarted then 2 else 0
    ensures var m := Discarded(a, l, stage);
            && Fits(m, base, Of(a, m)) && Of(a, m).balanced == Of(a, l).balanced
            && (m.error.None? ==> l.error.None? && m == l.(trace := m.trace))
            && Of(a, m).violation == Of(a, l).violation
            && (Of(a, m).fault == Of(a, l).fault || (Of(a, m).fault == Some(RunFailed) && Of(a, m).kept))
  {
    DiscardBooks(a, l.trace, stage);
    var (tr, ok) := Discard(a, l.trace, stage);
    var g := Of(a, l);
    TraceFits(l, base, g, tr, g.violation);
    CaughtFits(l.(trace := tr), base, g, RunFailed);
    KeptFits(Caught(l.(trace := tr), RunFailed), base, Faulty(g, RunFailed));
  }

  lemma {:induction false} KeptFits(l: Locals, base: seq<Evidence>, g: Ledger)
    requires Fits(l, base, g)
    ensures Fits(l, base, g.(kept := true))
  {
  }

  // ---- The whole run ----

  ghost predicate Books(run: (Trace, seq<Evidence>, Stage) -> Locals, correlates: bool) {
    forall tr, completed, stage, base :: completed == base + BookAll(tr, correlates).evidence ==>
      BooksStage(run, correlates, tr, completed, stage, base)
  }

  predicate BooksStage(run: (Trace, seq<Evidence>, Stage) -> Locals, correlates: bool,
                       tr: Trace, completed: seq<Evidence>, stage: Stage, base: seq<Evidence>) {
    var l := run(tr, completed, stage);
    StageBooked(l, completed, stage, base, BookAll(tr, correlates), BookAll(l.trace, correlates))
  }

  lemma {:induction false} RunningBooks(a: Adapter)
    ensures Books(Running(a), a.hasCorrelate)
  {
    forall tr, completed, stage, base | completed == base + BookAll(tr, a.hasCorrelate).evidence
      ensures BooksStage(Running(a), a.hasCorrelate, tr, completed, stage, base)
    {
      StageBooks(a, tr, completed, stage, base);
      assert Running(a)(tr, completed, stage) == StageRun(a, tr, completed, stage);
    }
  }

  /** The evidence a thrown error carries: what was accepted, and what the failing stage had produced. */
  function Reports(completed: seq<Evidence>, g: Ledger): seq<Evidence> {
    completed + if g.ran.Some? then [g.ran.value] else []
  }

  /** How a run that entered its stages ends, by its ledger. */
  predicate EndsAsBooked(x: Execution, base: seq<Evidence>, g: Ledger) {
    && x.completed == base + g.evidence && g.balanced
    && (match x.end
        case Returned(_, stages) => g.fault.None? && stages == x.completed && !g.violation
        case Threw(e) => g.fault == Some(e.code) && e.results == Reports(x.completed, g) && (g.violation ==> Reported(g)))
  }

  lemma {:induction false} StagesBook(run: (Trace, seq<Evidence>, Stage) -> Locals, correlates: bool, tr: Trace,
                                      completed: seq<Evidence>, stages: seq<Stage>, comparative: bool, base: seq<Evidence>)
    requires Books(run, correlates) && BookAll(tr, correlates).balanced
    requires BookAll(tr, correlates).fault.None? && !BookAll(tr, correlates).violation
    requires completed == base + BookAll(tr, correlates).evidence
    requires stages == [Baseline, Candidate] || stages == [] || (stages == [Candidate] && exists e :: e in completed && e.stage == Baseline)
    ensures var x := Stages(run, tr, completed, stages, comparative);
            EndsAsBooked(x, base, BookAll(x.trace, correlates))
    decreases |stages|
  {
    if stages != [] {
      var l := run(tr, completed, stages[0]);
      assert BooksStage(run, correlates, tr, completed, stages[0], base);
      if l.error.None? {
        assert l.completed[|completed|] == l.result.value;
        StagesBook(run, correlates, l.trace, l.completed, stages[1..], comparative || l.accepted, base);
      } else {
        StageThrows(l, base, BookAll(l.trace, correlates));
      }
    }
  }

  lemma {:induction false} StageThrows(l: Locals, base: seq<Evidence>, g: Ledger)
    requires Fits(l, base, g) && l.error.Some? && g.balanced && (g.violation ==> Reported(g))
    ensures EndsAsBooked(Execution(l.trace, l.completed, Threw(Rethrown(l))), base, g)
  {
  }

  /** A prior baseline that permits a comparison. */
  predicate Usable(prior: Option<Option<Evidence>>) {
    prior.Some? && prior.value.Some? && IsDeviceAuthFailure(prior.value.value)
  }

  /** The evidence there is before any stage: a usable prior baseline is added, without an egress. */
  function BaseOf(completed: seq<Evidence>, prior: Option<Option<Evidence>>): seq<Evidence> {
    completed + if Usable(prior) then [prior.value.value.(egress := Some(NotCapturedPriorRun))] else []
  }

  /**
   How every run ends, read off its trace. It throws before any stage when something is not fresh, or when a
   prior baseline is not one; else it throws exactly the failure booked last, with all evidence there is, and
   returns exactly when none is booked, with the accepted evidence.
   */
  lemma {:induction false} RunEndsAsBooked(a: Adapter, completed: seq<Evidence>, prior: Option<Option<Evidence>>)
    ensures var x := Execute(a, completed, prior);
            var first := a.answer([], AssertFresh);
            if first.Throws? then x == Execution([Event(AssertFresh, first)], completed, Threw(Error(ThrownCode(first), [])))
            else if prior.Some? && !Usable(prior) then
              && x.trace == [Event(AssertFresh, first)] && x.completed == completed
              && x.end == Threw(if prior.value.None? || prior.value.value.stage != Baseline then Error(OutputInvalid, [])
                                else Error(RunFailed, [prior.value.value]))
            else EndsAsBooked(x, BaseOf(completed, prior), BookAll(x.trace, a.hasCorrelate))
  {
    var first := a.answer([], AssertFresh);
    AskedBooks(a, [], AssertFresh);
    var tr := Asked(a, [], AssertFresh);
    assert tr == [Event(AssertFresh, first)];
    assert completed + [] == completed;
    if !first.Throws? {
      RunningBooks(a);
      if prior.None? {
        StagesBook(Running(a), a.hasCorrelate, tr, completed, [Baseline, Candidate], false, completed);
      } else if prior.value.Some? {
        DeviceAuthFailures(prior.value.value);
        if Usable(prior) {
          PriorBooks(a, tr, completed, prior.value.value);
        }
      }
    }
  }

  lemma {:induction false} PriorBooks(a: Adapter, tr: Trace, completed: seq<Evidence>, baseline: Evidence)
    requires BookAll(tr, a.hasCorrelate) == BLANK && AcceptedBaselineFailure(baseline) && Books(Running(a), a.hasCorrelate)
    ensures var x := WithPrior(a, tr, completed, baseline);
            EndsAsBooked(x, completed + [baseline.(egress := Some(NotCapturedPriorRun))], BookAll(x.trace, a.hasCorrelate))
  {
    var all := completed + [baseline.(egress := Some(NotCapturedPriorRun))];
    DiscardBooks(a, tr, Baseline);
    var (t, ok) := Discard(a, tr, Baseline);
    assert all + [] == all && all[|completed|].stage == Baseline;
    if ok {
      StagesBook(Running(a), a.hasCorrelate, t, all, [Candidate], true, all);
    }
  }

  // ---- Two laws over the trace ----

  predicate IsDiscard(call: Call) {
    call.Teardown? || call.VerifyDiscarded? || call.MarkDiscarded?
  }

  predicate FindsViolation(e: Event) {
    e.call.CheckViolation? && e.answer == Verdict(true)
  }

  predicate KeepsStage(e: Event) {
    IsDiscard(e.call) && e.answer.Throws?
  }

  /** What one event does to the counts and marks of the ledger. */
  predicate Marks(g: Ledger, e: Event, h: Ledger) {
    && (h.violation <==> g.violation || FindsViolation(e))
    && (h.kept <==> g.kept || KeepsStage(e))
    && (h.balanced ==> g.balanced)
    && (h.balanced && e.call.Teardown? ==> g.captures == if g.proxied then 2 else 0)
    && (if e.call.StartProxy? then h.captures == 0 && h.proxied == !e.answer.Throws?
        else h.captures == g.captures + (if e.call.Capture? then 1 else 0) && h.proxied == g.proxied)
  }

  ghost predicate MarksAll(book: Clerk) {
    forall g, e :: Marks(g, e, book(g, e))
  }

  lemma {:induction false} CaptureMarks(g: Ledger, stage: Stage, answer: Answer, correlates: bool)
    ensures Marks(g, Event(Capture(stage), answer), BookCapture(g, stage, answer, correlates))
  {
  }

  lemma {:induction false} RunMarks(g: Ledger, stage: Stage, answer: Answer)
    ensures Marks(g, Event(RunVersion(stage), answer), BookRun(g, stage, answer))
  {
  }

  lemma {:induction false} CorrelationMarks(g: Ledger, stage: Stage, answer: Answer)
    ensures Marks(g, Event(Correlate(stage), answer), BookCorrelation(g, answer))
  {
  }

  lemma {:induction false} CheckMarks(g: Ledger, stage: Stage, answer: Answer)
    ensures Marks(g, Event(CheckViolation(stage), answer), BookCheck(g, answer))
  {
  }

  lemma {:induction false} BookedMarks(g: Ledger, e: Event, correlates: bool)
    ensures Marks(g, e, Booked(g, e, correlates))
  {
    match e
    case Event(Capture(stage), answer) => CaptureMarks(g, stage, answer, correlates);
    case Event(RunVersion(stage), answer) => RunMarks(g, stage, answer);
    case Event(Correlate(stage), answer) => CorrelationMarks(g, stage, answer);
    case Event(CheckViolation(stage), answer) => CheckMarks(g, stage, answer);
    case _ =>
  }

  lemma {:induction false} BookerMarks(correlates: bool)
    ensures MarksAll(Booker(correlates))
  {
    forall g, e ensures Marks(g, e, Booker(correlates)(g, e)) {
      BookedMarks(g, e, correlates);
    }
  }

  lemma {:induction false} MarksAreFound(book: Clerk, tr: Trace)
    requires MarksAll(book)
    ensures BookWith(book, tr).violation <==> exists i :: 0 <= i < |tr| && FindsViolation(tr[i])
    ensures BookWith(book, tr).kept <==> exists i :: 0 <= i < |tr| && KeepsStage(tr[i])
  {
    if tr != [] {
      var n := |tr| - 1;
      MarksAreFound(book, tr[..n]);
      assert Marks(BookWith(book, tr[..n]), tr[n], book(BookWith(book, tr[..n]), tr[n]));
      assert forall i :: 0 <= i < n ==> tr[..n][i] == tr[i];
    }
  }

  /**
   A violation found by any check of the run, early or late, makes the run throw an egress mismatch, or a
   failed run where some call of a discard threw as well.
   */
  lemma {:induction false} ViolationIsReported(a: Adapter, completed: seq<Evidence>, prior: Option<Option<Evidence>>, i: nat)
    requires var tr := Execute(a, completed, prior).trace;
             i < |tr| && FindsViolation(tr[i])
    ensures var x := Execute(a, completed, prior);
            && x.end.Threw?
            && (x.end.error.code == EgressMismatch
                || (x.end.error.code == RunFailed
                    && exists j :: 0 <= j < |x.trace| && KeepsStage(x.trace[j])))
  {
    RunEndsAsBooked(a, completed, prior);
    BookerMarks(a.hasCorrelate);
    MarksAreFound(Booker(a.hasCorrelate), Execute(a, completed, prior).trace);
    FreshFindsNothing(a);
  }

  /** How many snapshots were attempted from place `i` up to place `k`. */
  function Captures(tr: Trace, i: nat, k: nat): nat
    requires i <= k <= |tr|
  {
    if i == k then 0 else Captures(tr, i, k - 1) + if tr[k - 1].call.Capture? then 1 else 0
  }

  lemma {:induction false} BookedPrefix(book: Clerk, tr: Trace, k: nat)
    requires MarksAll(book) && k < |tr|
    ensures Marks(BookWith(book, tr[..k]), tr[k], BookWith(book, tr[..k + 1]))
  {
    assert tr[..k + 1][..k] == tr[..k];
    assert Marks(BookWith(book, tr[..k]), tr[k], book(BookWith(book, tr[..k]), tr[k]));
  }

  lemma {:induction false} BalancedBefore(book: Clerk, tr: Trace, k: nat)
    requires MarksAll(book) && k <= |tr| && BookWith(book, tr).balanced
    ensures BookWith(book, tr[..k]).balanced
    decreases |tr| - k
  {
    if k == |tr| {
      assert tr[..k] == tr;
    } else {
      BalancedBefore(book, tr, k + 1);
      BookedPrefix(book, tr, k);
    }
  }

  /** From the start of a stage on, the ledger counts its snapshots and knows whether its proxy started. */
  lemma {:induction false} BookedSinceStart(book: Clerk, tr: Trace, i: nat, k: nat)
    requires MarksAll(book) && i < k <= |tr| && tr[i].call.StartProxy? && forall j :: i < j < k ==> !tr[j].call.StartProxy?
    ensures var g := BookWith(book, tr[..k]);
            g.captures == Captures(tr, i + 1, k) && g.proxied == !tr[i].answer.Throws?
    decreases k
  {
    if k == i + 1 {
      BookedPrefix(book, tr, i);
    } else {
      BookedSinceStart(book, tr, i, k - 1);
      BookedPrefix(book, tr, k - 1);
    }
  }

  lemma {:induction false} BalancedTeardown(book: Clerk, tr: Trace, k: nat)
    requires MarksAll(book) && k < |tr| && BookWith(book, tr).balanced && tr[k].call.Teardown?
    ensures var g := BookWith(book, tr[..k]); g.captures == if g.proxied then 2 else 0
  {
    BalancedBefore(book, tr, k + 1);
    BookedPrefix(book, tr, k);
  }

  lemma {:induction false} RunIsBalanced(a: Adapter, completed: seq<Evidence>, prior: Option<Option<Evidence>>)
    ensures BookAll(Execute(a, completed, prior).trace, a.hasCorrelate).balanced
  {
    RunEndsAsBooked(a, completed, prior);
    FreshFindsNothing(a);
  }

  lemma {:induction false} FreshFindsNothing(a: Adapter)
    ensures var g := BookAll([Event(AssertFresh, a.answer([], AssertFresh))], a.hasCorrelate);
            g.balanced && !g.violation
  {
    AskedBooks(a, [], AssertFresh);
    assert Asked(a, [], AssertFresh) == [Event(AssertFresh, a.answer([], AssertFresh))];
  }

  /**
   Between the start of a stage's proxy and the stage's one teardown there are exactly two snapshots of it,
   whatever else fails, and none where the proxy did not start.
   */
  lemma {:induction false} TwoSnapshotsOfEachStage(a: Adapter, completed: seq<Evidence>, prior: Option<Option<Evidence>>, i: nat)
    returns (k: nat)
    requires var tr := Execute(a, completed, prior).trace; i < |tr| && tr[i].call.StartProxy?
    ensures var tr := Execute(a, completed, prior).trace;
            && TornDownAt(tr, i, k)
            && Captures(tr, i + 1, k) == (if tr[i].answer.Throws? then 0 else 2)
            && forall j :: i < j < k && tr[j].call.Capture? ==> tr[j].call.stage == tr[i].call.stage
  {
    var tr := Execute(a, completed, prior).trace;
    EveryStageIsTornDownOnce(a, completed, prior);
    k :| TornDownAt(tr, i, k);
    RunIsBalanced(a, completed, prior);
    BookerMarks(a.hasCorrelate);
    BookedSinceStart(Booker(a.hasCorrelate), tr, i, k);
    BalancedTeardown(Booker(a.hasCorrelate), tr, k);
    var n := EveryRunIsTornDown(a, completed, prior);
    StageOfCaptures(tr, i, k);
  }

  lemma {:induction false} StageOfCaptures(tr: Trace, i: nat, k: nat)
    requires Accepts(IDLE, tr) && i < |tr| && tr[i].call.StartProxy? && TornDownAt(tr, i, k)
    ensures forall j :: i < j < k && tr[j].call.Capture? ==> tr[j].call.stage == tr[i].call.stage
  {
    PrefixAccepted(tr, k);
    var t := TeardownFollows(tr, i, k + 1);
    assert t == k;
  }
}
