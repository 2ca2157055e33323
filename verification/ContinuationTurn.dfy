/**
 How a finished provider turn of a resumed session is reported: the turn record is normalised,
 its message is read as one continuation result, and that result is checked against the
 invocation the gateway stored.
 */
module ContinuationTurn {
  import opened Text
  import opened Common
  import Json
  import P = ProviderTurns
  import R = ContinuationResult

  datatype Certainty = Unknown | Canceled | Acknowledged

  const UNKNOWN: Text := Ascii("UNKNOWN")
  const IN_PROGRESS: Text := Ascii("IN_PROGRESS")
  const REJECTED: Text := Ascii("REJECTED")
  const FAILED: Text := Ascii("FAILED")
  const CANCELED: Text := Ascii("CANCELED")
  const CANCELLED: Text := Ascii("CANCELLED")

  /** The record a waiter got; on a timeout its status is replaced and the flag set. */
  datatype Observed = Observed(turn: P.Turn, timeout: bool)

  datatype Failure = ProviderError | ModelIncompatible | ResultInvalid | ResultMismatch

  datatype Candidate = Candidate(message: Text, result: Option<R.Normalized>)

  datatype Normalized = Normalized(
    certainty: Certainty,
    terminalStatus: Text,
    failed: bool,
    failure: Option<Failure>,
    candidate: Option<Candidate>)

  /** The gateway's stored invocation; absent fields are null. */
  datatype Invocation = Invocation(
    effectId: Option<Text>, dispatchState: Option<Text>, outcomeCertainty: Option<Text>, runId: Option<Text>, denied: bool)

  datatype Report = Report(
    certainty: Certainty,
    terminalStatus: Text,
    failed: bool,
    failure: Option<Failure>,
    candidate: Option<Candidate>,
    invocations: seq<Invocation>,
    policyViolation: bool)

  // ---- Normalising the record ----

  function StatusText(o: Observed): Text {
    if o.timeout then UNKNOWN
    else match o.turn.status case InProgress => IN_PROGRESS case Ended(name) => name
  }

  predicate Ended(o: Observed) {
    !o.timeout && o.turn.status.Ended? && o.turn.status.name != UNKNOWN && o.turn.status.name != IN_PROGRESS
  }

  predicate Rejected(o: Observed, upper: Text -> Text) {
    upper(StatusText(o)) == REJECTED || upper(StatusText(o)) == FAILED || o.turn.error.Some?
  }

  predicate IsCanceled(o: Observed, upper: Text -> Text) {
    upper(StatusText(o)) == CANCELED || upper(StatusText(o)) == CANCELLED
  }

  predicate Differ(a: Option<Text>, b: Option<Text>) {
    a.Some? && b.Some? && a != b
  }

  /** Requested and observed model or effort are both known and differ. */
  predicate ModelDiffers(o: Observed, model: Option<Text>, effort: Option<Text>) {
    var requested := if o.turn.request.Some? then o.turn.request.value.model else None;
    var requestedEffort := if o.turn.request.Some? then o.turn.request.value.effort else None;
    || Differ(P.Or(requested, model), P.Or(o.turn.observedModel, model))
    || Differ(P.Or(requestedEffort, effort), o.turn.observedEffort)
  }

  function MessageOf(o: Observed): Text {
    o.turn.message.GetOr([])
  }

  /** `upper` is the upper-casing of a status, which the decision compares. */
  function Normalize(o: Observed, model: Option<Text>, effort: Option<Text>, upper: Text -> Text): Normalized {
    var rejected := Rejected(o, upper);
    var canceled := IsCanceled(o, upper);
    var uncertain := o.timeout || (!Ended(o) && !rejected && !canceled);
    var continuation := o.turn.continuation == Some(true);
    var incompatible := continuation && Ended(o) && !canceled && ModelDiffers(o, model, effort);
    var judged := continuation && Ended(o) && !rejected && !canceled;
    var parsed := R.ParseSingle(MessageOf(o), true);
    var invalid := judged && parsed.Failure?;
    Normalized(
      if uncertain then Unknown else if canceled then Canceled else if Ended(o) then Acknowledged else Unknown,
      if upper(StatusText(o)) == [] then UNKNOWN else upper(StatusText(o)),
      rejected || invalid || incompatible,
      if incompatible then Some(ModelIncompatible) else if invalid then Some(ResultInvalid)
      else if o.turn.error.Some? then Some(ProviderError) else None,
      if MessageOf(o) == [] then None
      else Some(Candidate(MessageOf(o), if judged && parsed.Success? then Some(parsed.value) else None)))
  }

  // ---- Checking it against the gateway ----

  /** The reported capability result is the one the gateway stored. */
  predicate Agrees(c: R.Capability, i: Invocation) {
    && c.ok == !i.denied && i.effectId == Some(c.effectId) && i.dispatchState == Some(c.dispatchState)
    && i.outcomeCertainty == Some(c.outcomeCertainty) && i.runId == Some(c.runId)
  }

  function Observe(n: Normalized, stored: Option<Invocation>): Report {
    var checked := n.candidate.Some? && n.candidate.value.result.Some? && !n.failed;
    var mismatch := checked && (stored.None? || !Agrees(n.candidate.value.result.value.capability, stored.value));
    var failed := n.failed || mismatch;
    var invocations := if stored.Some? then [stored.value] else [];
    Report(n.certainty, n.terminalStatus, failed, if mismatch then Some(ResultMismatch) else n.failure, n.candidate, invocations,
           n.terminalStatus == R.COMPLETED && !failed && n.certainty.Acknowledged? && |invocations| != 1)
  }

  function ReportOf(o: Observed, model: Option<Text>, effort: Option<Text>, upper: Text -> Text, stored: Option<Invocation>): Report {
    Observe(Normalize(o, model, effort, upper), stored)
  }

  predicate Accepted(r: Report) {
    r.certainty.Acknowledged? && !r.failed
  }

  // ---- What acceptance means ----

  /** What was asked for and what was observed are not known to differ. */
  predicate Unchanged(asked: Option<Text>, observed: Option<Text>) {
    asked.None? || observed.None? || asked.value == observed.value
  }

  predicate OnRequestedModel(t: P.Turn, model: Option<Text>, effort: Option<Text>) {
    var asked := if t.request.Some? && t.request.value.model.Some? then t.request.value.model else model;
    var askedEffort := if t.request.Some? && t.request.value.effort.Some? then t.request.value.effort else effort;
    && Unchanged(asked, if t.observedModel.Some? then t.observedModel else model)
    && Unchanged(askedEffort, t.observedEffort)
  }

  /** A turn that ended well: in time, with a final status, neither rejected nor canceled, on the requested model. */
  predicate EndedWell(o: Observed, model: Option<Text>, effort: Option<Text>, upper: Text -> Text) {
    && !o.timeout && o.turn.status.Ended? && o.turn.error.None?
    && o.turn.status.name !in {Ascii("IN_PROGRESS"), Ascii("UNKNOWN")}
    && upper(o.turn.status.name) !in {Ascii("REJECTED"), Ascii("FAILED"), Ascii("CANCELED"), Ascii("CANCELLED")}
    && OnRequestedModel(o.turn, model, effort)
  }

  /**
   The message is one JSON document that describes a successful result, and the gateway stored exactly
   that: not denied, completed, acknowledged, under the document's own effect and run ids.
   */
  ghost predicate Confirmed(message: Text, stored: Option<Invocation>) {
    && Json.Parse(message).Found? && stored.Some?
    && exists n :: R.Describes(Json.Parse(message).value, n) && R.ReportsSuccess(n)
                   && stored.value == Invocation(Some(n.capability.effectId), Some(Ascii("COMPLETED")), Some(Ascii("ACKNOWLEDGED")),
                                                 Some(n.capability.runId), false)
  }

  lemma EmptyIsNoResult()
    ensures R.ParseSingle([], true).Failure?
  {
  }

  lemma ValidResultIsSuccessful(v: Json.Json)
    requires R.Validate(v, true).Success?
    ensures var n := R.Validate(v, true).value;
            && n.capability.ok && n.capability.dispatchState == R.COMPLETED && n.capability.outcomeCertainty == R.ACKNOWLEDGED
            && !AllSpace(n.summary) && |n.summary| <= R.MAX_SUMMARY
  {
  }

  lemma EndedWellIff(o: Observed, model: Option<Text>, effort: Option<Text>, upper: Text -> Text)
    ensures EndedWell(o, model, effort, upper) <==>
              Ended(o) && !Rejected(o, upper) && !IsCanceled(o, upper) && !ModelDiffers(o, model, effort)
  {
  }

  lemma {:induction false} ConfirmedIff(message: Text, stored: Option<Invocation>)
    ensures Confirmed(message, stored) <==>
              && R.ParseSingle(message, true).Success? && stored.Some?
              && Agrees(R.ParseSingle(message, true).value.capability, stored.value)
  {
    if Json.Parse(message).Found? {
      var v := Json.Parse(message).value;
      assert R.ParseSingle(message, true) == R.Validate(v, true);
      VerdictIff(v, R.Validate(v, true), stored);
    }
  }

  lemma {:induction false} VerdictIff(v: Json.Json, verdict: Result<R.Normalized, R.Code>, stored: Option<Invocation>)
    requires verdict == R.Validate(v, true)
    ensures (verdict.Success? && stored.Some? && Agrees(verdict.value.capability, stored.value)) <==>
              && stored.Some?
              && exists n :: R.Describes(v, n) && R.ReportsSuccess(n)
                             && stored.value == Invocation(Some(n.capability.effectId), Some(Ascii("COMPLETED")),
                                                           Some(Ascii("ACKNOWLEDGED")), Some(n.capability.runId), false)
  {
    forall n ensures verdict == Success(n) <==> R.Describes(v, n) && R.ReportsSuccess(n) {
      R.ValidateIff(v, true, n);
    }
  }

  /**
   A continuation turn is reported acknowledged and without failure if and only if it ended well and its
   message is one document that the gateway's stored invocation confirms, id by id.
   */
  lemma AcceptedIff(o: Observed, model: Option<Text>, effort: Option<Text>, upper: Text -> Text, stored: Option<Invocation>)
    requires o.turn.continuation == Some(true)
    ensures Accepted(ReportOf(o, model, effort, upper, stored)) <==>
              EndedWell(o, model, effort, upper) && Confirmed(MessageOf(o), stored)
  {
    EmptyIsNoResult();
    EndedWellIff(o, model, effort, upper);
    ConfirmedIff(MessageOf(o), stored);
  }

  /**
   What acceptance guarantees: the one result in the message is the one that final selection picks,
   it reports success, the gateway's invocation completed, was acknowledged and not denied, carries
   the same four identities, is the only one reported, and no policy violation is raised.
   */
  lemma AcceptedMeansDispatched(o: Observed, model: Option<Text>, effort: Option<Text>, upper: Text -> Text, stored: Option<Invocation>)
    requires o.turn.continuation == Some(true) && Accepted(ReportOf(o, model, effort, upper, stored))
    ensures var r := ReportOf(o, model, effort, upper, stored);
            && stored.Some? && r.invocations == [stored.value] && !r.policyViolation && r.failure.None?
            && r.candidate.Some? && r.candidate.value.result.Some?
            && var n := r.candidate.value.result.value;
            && R.SelectFinal(MessageOf(o)).Selected? && R.SelectFinal(MessageOf(o)).normalized == n
            && R.SelectFinal(MessageOf(o)).valueCount == 1
            && n.capability.ok && !stored.value.denied && !AllSpace(n.summary)
            && stored.value == Invocation(Some(n.capability.effectId), Some(R.COMPLETED), Some(R.ACKNOWLEDGED),
                                          Some(n.capability.runId), false)
  {
    AcceptedIff(o, model, effort, upper, stored);
    EndedWellIff(o, model, effort, upper);
    ConfirmedIff(MessageOf(o), stored);
    R.SingleResultIsSelected(MessageOf(o));
    ValidResultIsSuccessful(Json.Parse(MessageOf(o)).value);
  }

  /** A policy violation is raised exactly when a turn passes as completed although no invocation is stored. */
  lemma ViolationIff(o: Observed, model: Option<Text>, effort: Option<Text>, upper: Text -> Text, stored: Option<Invocation>)
    ensures var r := ReportOf(o, model, effort, upper, stored);
            r.policyViolation <==> Accepted(r) && upper(StatusText(o)) == R.COMPLETED && stored.None?
    ensures o.turn.continuation == Some(true) ==> !ReportOf(o, model, effort, upper, stored).policyViolation
  {
    if o.turn.continuation == Some(true) {
      AcceptedIff(o, model, effort, upper, stored);
    }
    assert UNKNOWN[0] != R.COMPLETED[0];
  }

  /** The status words that end a turn badly. */
  predicate EndedBadly(o: Observed, upper: Text -> Text) {
    var word := upper(StatusText(o));
    o.turn.error.Some? || word in {Ascii("REJECTED"), Ascii("FAILED")}
  }

  predicate WasCanceled(o: Observed, upper: Text -> Text) {
    upper(StatusText(o)) in {Ascii("CANCELED"), Ascii("CANCELLED")}
  }

  predicate IsFinal(o: Observed) {
    !o.timeout && o.turn.status.Ended? && o.turn.status.name !in {Ascii("IN_PROGRESS"), Ascii("UNKNOWN")}
  }

  /** A continuation turn that came to a final status, and one of these that ended neither badly nor canceled. */
  predicate Continued(o: Observed, upper: Text -> Text) {
    o.turn.continuation == Some(true) && IsFinal(o) && !WasCanceled(o, upper)
  }

  predicate IsJudged(o: Observed, upper: Text -> Text) {
    Continued(o, upper) && !EndedBadly(o, upper)
  }

  /**
   What every turn is reported as: unknown when it timed out or nothing settled it, canceled by its word,
   and failed for exactly one of five reasons, the model before the result before the provider's error.
   */
  lemma {:induction false} ReportedAs(o: Observed, model: Option<Text>, effort: Option<Text>, upper: Text -> Text, stored: Option<Invocation>)
    ensures var r := ReportOf(o, model, effort, upper, stored);
            var onModel := OnRequestedModel(o.turn, model, effort);
            var parsed := R.ParseSingle(MessageOf(o), true);
            && (r.certainty.Unknown? <==> o.timeout || (!IsFinal(o) && !WasCanceled(o, upper)))
            && (r.certainty.Canceled? <==> !o.timeout && WasCanceled(o, upper))
            && (r.failure == Some(ModelIncompatible) <==> Continued(o, upper) && !onModel)
            && (r.failure == Some(ResultInvalid) <==> IsJudged(o, upper) && onModel && parsed.Failure?)
            && (r.failure == Some(ResultMismatch) <==>
                  IsJudged(o, upper) && onModel && parsed.Success? && !Confirmed(MessageOf(o), stored))
            && (r.failure == Some(ProviderError) <==> o.turn.error.Some? && !(Continued(o, upper) && !onModel))
            && (r.failed <==> EndedBadly(o, upper) || r.failure.Some?)
  {
    EmptyIsNoResult();
    ConfirmedIff(MessageOf(o), stored);
  }

  /** The report carries the status word and the invocation the gateway stored. */
  lemma {:induction false} ReportNames(o: Observed, model: Option<Text>, effort: Option<Text>, upper: Text -> Text, stored: Option<Invocation>)
    ensures var r := ReportOf(o, model, effort, upper, stored);
            && r.terminalStatus == (if upper(StatusText(o)) == [] then Ascii("UNKNOWN") else upper(StatusText(o)))
            && r.invocations == (if stored.Some? then [stored.value] else [])
  {
  }

  /** It carries the message, and the result exactly when it was judged and is valid. */
  lemma {:induction false} ReportCarries(o: Observed, model: Option<Text>, effort: Option<Text>, upper: Text -> Text, stored: Option<Invocation>)
    ensures var r := ReportOf(o, model, effort, upper, stored);
            var parsed := R.ParseSingle(MessageOf(o), true);
            && (r.candidate.None? <==> MessageOf(o) == [])
            && (r.candidate.Some? ==>
                  && r.candidate.value.message == MessageOf(o)
                  && r.candidate.value.result == if IsJudged(o, upper) && parsed.Success? then Some(parsed.value) else None)
  {
    EmptyIsNoResult();
  }
}
