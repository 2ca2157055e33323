/**
 The capability gateway: one shared context, overwritten by every bind, memoises a single dispatch
 of the bound capability. Calls attach to the memoised dispatch and, once it is settled, each of
 them stores the outcome in whatever context is bound by then.
 */
module McpGateway {
  import opened Common

  type EffectId = string
  type CallId = nat
  type DispatchId = nat

  /** What the control plane returns for a dispatched effect. */
  datatype Effect = Effect(effectId: EffectId, denied: bool, certainty: string)

  datatype Outcome = Succeeded(effect: Effect) | Failed(code: string)

  /** `bind` numbers the binds so far, so it names the one under which a dispatch was started. */
  datatype Dispatch = Dispatch(bind: nat, effectId: Option<EffectId>, outcome: Option<Outcome>)

  datatype Call = Call(bind: nat, dispatch: DispatchId, answer: Option<Outcome>)

  /** `source` says which dispatch the stored invocation came from. */
  datatype Stored = Stored(effect: Effect, source: DispatchId)

  datatype Gateway = Gateway(
    effectId: Option<EffectId>,
    dispatch: Option<DispatchId>,
    invocation: Option<Stored>,
    binds: nat,
    dispatches: seq<Dispatch>,
    calls: map<CallId, Call>)

  const UNBOUND := Gateway(None, None, None, 0, [], map[])

  const CONTEXT_REQUIRED := "CODEX_MANAGED_CAPABILITY_CONTEXT_REQUIRED"

  datatype Step =
    | Bind(effectId: EffectId)
    | ToolsCall(call: CallId)
    | Settle(id: DispatchId, outcome: Outcome)
    | Deliver(call: CallId)

  /** A context without an effect rejects its dispatch at once. */
  function Started(g: Gateway): Dispatch {
    Dispatch(g.binds, g.effectId, if g.effectId.None? then Some(Failed(CONTEXT_REQUIRED)) else None)
  }

  function Next(g: Gateway, s: Step): Gateway
    requires Enabled(g, s)
  {
    match s
    case Bind(effectId) => g.(effectId := Some(effectId), dispatch := None, invocation := None, binds := g.binds + 1)
    case ToolsCall(call) =>
      (match g.dispatch
       case Some(d) => g.(calls := g.calls[call := Call(g.binds, d, None)])
       case None =>
         g.(dispatch := Some(|g.dispatches|), dispatches := g.dispatches + [Started(g)],
         calls := g.calls[call := Call(g.binds, |g.dispatches|, None)]))
    case Settle(id, outcome) => g.(dispatches := g.dispatches[id := g.dispatches[id].(outcome := Some(outcome))])
    case Deliver(call) =>
      var d := g.calls[call].dispatch;
      var outcome := g.dispatches[d].outcome.value;
      var answered := g.(calls := g.calls[call := g.calls[call].(answer := Some(outcome))]);
      if outcome.Succeeded? then answered.(invocation := Some(Stored(outcome.effect, d))) else answered
  }

  /** Call ids are fresh, a dispatch settles once, and a call is answered once, after its dispatch. */
  predicate Enabled(g: Gateway, s: Step) {
    match s
    case Bind(_) => true
    case ToolsCall(call) => call !in g.calls
    case Settle(id, _) => id < |g.dispatches| && g.dispatches[id].outcome.None?
    case Deliver(call) =>
      && call in g.calls && g.calls[call].answer.None?
      && g.calls[call].dispatch < |g.dispatches| && g.dispatches[g.calls[call].dispatch].outcome.Some?
  }

  predicate IsRun(g: Gateway, steps: seq<Step>)
    decreases steps
  {
    steps == [] || (Enabled(g, steps[0]) && IsRun(Next(g, steps[0]), steps[1..]))
  }

  function Run(g: Gateway, steps: seq<Step>): Gateway
    requires IsRun(g, steps)
    decreases steps
  {
    if steps == [] then g else Run(Next(g, steps[0]), steps[1..])
  }

  // ---- The invariant ----

  predicate OneDispatchPerBind(g: Gateway) {
    && (forall i, j :: 0 <= i < j < |g.dispatches| ==> g.dispatches[i].bind < g.dispatches[j].bind)
    && (forall i :: 0 <= i < |g.dispatches| ==> g.dispatches[i].bind <= g.binds)
    && (forall i :: 0 <= i < |g.dispatches| ==> (g.dispatches[i].bind == g.binds <==> g.dispatch == Some(i)))
    && (g.dispatch.Some? ==> g.dispatch.value < |g.dispatches| && g.dispatches[g.dispatch.value].effectId == g.effectId)
  }

  predicate CallsFollowDispatches(g: Gateway) {
    forall c :: c in g.calls ==>
      && g.calls[c].dispatch < |g.dispatches| && g.dispatches[g.calls[c].dispatch].bind == g.calls[c].bind
      && (g.calls[c].answer.Some? ==> g.calls[c].answer == g.dispatches[g.calls[c].dispatch].outcome)
  }

  predicate InvocationHasSource(g: Gateway) {
    g.invocation.Some? ==>
      && g.invocation.value.source < |g.dispatches|
      && g.dispatches[g.invocation.value.source].outcome == Some(Succeeded(g.invocation.value.effect))
  }

  predicate Inv(g: Gateway) {
    OneDispatchPerBind(g) && CallsFollowDispatches(g) && InvocationHasSource(g)
  }

  lemma BindKeepsInv(g: Gateway, effectId: EffectId)
    requires Inv(g)
    ensures Inv(Next(g, Bind(effectId)))
  {
  }

  lemma StartKeepsDispatches(g: Gateway, call: CallId)
    requires Inv(g) && call !in g.calls
    ensures OneDispatchPerBind(Next(g, ToolsCall(call)))
  {
    var h := Next(g, ToolsCall(call));
    var n := |g.dispatches|;
    if g.dispatch.None? {
      assert forall i :: 0 <= i < n ==> h.dispatches[i] == g.dispatches[i] && g.dispatches[i].bind < g.binds;
      assert h.dispatches[n].bind == h.binds;
    }
  }

  lemma CallKeepsInv(g: Gateway, call: CallId)
    requires Inv(g) && call !in g.calls
    ensures Inv(Next(g, ToolsCall(call)))
  {
    StartKeepsDispatches(g, call);
    var h := Next(g, ToolsCall(call));
    assert forall i :: 0 <= i < |g.dispatches| ==> h.dispatches[i] == g.dispatches[i];
  }

  lemma SettleKeepsInv(g: Gateway, id: DispatchId, outcome: Outcome)
    requires Inv(g) && Enabled(g, Settle(id, outcome))
    ensures Inv(Next(g, Settle(id, outcome)))
  {
    var h := Next(g, Settle(id, outcome));
    assert forall i :: 0 <= i < |g.dispatches| && i != id ==> h.dispatches[i] == g.dispatches[i];
  }

  lemma DeliverKeepsInv(g: Gateway, call: CallId)
    requires Inv(g) && Enabled(g, Deliver(call))
    ensures Inv(Next(g, Deliver(call)))
  {
  }

  lemma NextKeepsInv(g: Gateway, s: Step)
    requires Inv(g) && Enabled(g, s)
    ensures Inv(Next(g, s))
  {
    match s
    case Bind(effectId) => BindKeepsInv(g, effectId);
    case ToolsCall(call) => CallKeepsInv(g, call);
    case Settle(id, outcome) => SettleKeepsInv(g, id, outcome);
    case Deliver(call) => DeliverKeepsInv(g, call);
  }

  lemma {:induction false} RunKeepsInv(g: Gateway, steps: seq<Step>)
    requires Inv(g) && IsRun(g, steps)
    ensures Inv(Run(g, steps))
    decreases steps
  {
    if steps != [] {
      NextKeepsInv(g, steps[0]);
      RunKeepsInv(Next(g, steps[0]), steps[1..]);
    }
  }

  // ---- No dispatch without a bound effect ----

  /** A dispatch of a context that was never bound fails for that reason. */
  predicate UnboundFails(g: Gateway) {
    forall i :: 0 <= i < |g.dispatches| && g.dispatches[i].effectId.None? ==>
      g.dispatches[i].outcome == Some(Failed("CODEX_MANAGED_CAPABILITY_CONTEXT_REQUIRED"))
  }

  lemma NextKeepsUnbound(g: Gateway, s: Step)
    requires UnboundFails(g) && Enabled(g, s)
    ensures UnboundFails(Next(g, s))
  {
  }

  /** In every run, only dispatches of a bound effect can succeed, and a call of an unbound context is refused. */
  lemma {:induction false} UnboundDispatchesFail(g: Gateway, steps: seq<Step>)
    requires UnboundFails(g) && IsRun(g, steps)
    ensures UnboundFails(Run(g, steps))
    decreases steps
  {
    if steps != [] {
      NextKeepsUnbound(g, steps[0]);
      UnboundDispatchesFail(Next(g, steps[0]), steps[1..]);
    }
  }

  // ---- One dispatch, one outcome ----

  /**
   Over every interleaving: each bind starts at most one dispatch, and any two calls made under
   the same bind attach to that dispatch and, when both are answered, get the same outcome.
   */
  lemma CallsOfABindAgree(steps: seq<Step>)
    requires IsRun(UNBOUND, steps)
    ensures var g := Run(UNBOUND, steps);
            && (forall i, j :: 0 <= i < j < |g.dispatches| ==> g.dispatches[i].bind != g.dispatches[j].bind)
            && (forall c, d :: c in g.calls && d in g.calls && g.calls[c].bind == g.calls[d].bind ==>
                  && g.calls[c].dispatch == g.calls[d].dispatch
                  && (g.calls[c].answer.Some? && g.calls[d].answer.Some? ==> g.calls[c].answer == g.calls[d].answer))
  {
    RunKeepsInv(UNBOUND, steps);
    var g := Run(UNBOUND, steps);
    forall c, d | c in g.calls && d in g.calls && g.calls[c].bind == g.calls[d].bind
      ensures g.calls[c].dispatch == g.calls[d].dispatch
    {
      var i, j := g.calls[c].dispatch, g.calls[d].dispatch;
      assert g.dispatches[i].bind == g.dispatches[j].bind;
    }
  }

  // ---- Whose invocation is stored ----

  /** The stored invocation comes from the dispatch of the effect that is bound now. */
  predicate Current(g: Gateway) {
    g.invocation.Some? ==> g.dispatch == Some(g.invocation.value.source)
  }

  /** No call of an earlier bind can still store anything: each was answered or its dispatch failed. */
  predicate Quiet(g: Gateway) {
    forall c :: c in g.calls && g.calls[c].bind < g.binds && g.calls[c].dispatch < |g.dispatches| && g.calls[c].answer.None? ==>
      g.dispatches[g.calls[c].dispatch].outcome.Some? && g.dispatches[g.calls[c].dispatch].outcome.value.Failed?
  }

  predicate NoBind(steps: seq<Step>) {
    forall i :: 0 <= i < |steps| ==> !steps[i].Bind?
  }

  lemma QuietStays(g: Gateway, s: Step)
    requires Inv(g) && Current(g) && Quiet(g) && Enabled(g, s) && !s.Bind?
    ensures Current(Next(g, s)) && Quiet(Next(g, s)) && Next(g, s).binds == g.binds
  {
  }

  lemma {:induction false} QuietRunsStayCurrent(g: Gateway, steps: seq<Step>)
    requires Inv(g) && Current(g) && Quiet(g) && IsRun(g, steps) && NoBind(steps)
    ensures Current(Run(g, steps))
    decreases steps
  {
    if steps != [] {
      NextKeepsInv(g, steps[0]);
      QuietStays(g, steps[0]);
      assert NoBind(steps[1..]) by {
        assert forall i :: 0 <= i < |steps| - 1 ==> steps[1..][i] == steps[i + 1];
      }
      QuietRunsStayCurrent(Next(g, steps[0]), steps[1..]);
    }
  }

  /** A rebind after which every continuation, up to the next one, stores only its own invocation. */
  ghost predicate SafeBind(g: Gateway, effectId: EffectId) {
    var h := Next(g, Bind(effectId));
    forall steps :: NoBind(steps) && IsRun(h, steps) ==> Current(Run(h, steps))
  }

  /** No dispatch in flight: whatever was called has been answered, or has failed. */
  predicate Settled(g: Gateway) {
    forall c :: c in g.calls && g.calls[c].answer.None? && g.calls[c].dispatch < |g.dispatches| ==>
      g.dispatches[g.calls[c].dispatch].outcome.Some? && g.dispatches[g.calls[c].dispatch].outcome.value.Failed?
  }

  /** A call in flight across a rebind stores the invocation of the effect bound before. */
  lemma RebindStoresForeignInvocation(g: Gateway, effectId: EffectId, c: CallId, effect: Effect) returns (steps: seq<Step>)
    requires Inv(g) && c in g.calls && g.calls[c].answer.None?
    requires var outcome := g.dispatches[g.calls[c].dispatch].outcome; outcome.None? || outcome.value.Succeeded?
    ensures var h := Next(g, Bind(effectId));
            && NoBind(steps) && IsRun(h, steps) && !Current(Run(h, steps))
            && Run(h, steps).invocation.value.source == g.calls[c].dispatch
            && g.dispatches[g.calls[c].dispatch].bind < Run(h, steps).binds
  {
    var h := Next(g, Bind(effectId));
    NextKeepsInv(g, Bind(effectId));
    var d := g.calls[c].dispatch;
    if g.dispatches[d].outcome.Some? {
      steps := [Deliver(c)];
      RunOne(h, Deliver(c));
    } else {
      var settle := Settle(d, Succeeded(effect));
      steps := [settle, Deliver(c)];
      assert steps[1..] == [Deliver(c)];
      RunOne(Next(h, settle), Deliver(c));
    }
  }

  lemma RunOne(g: Gateway, s: Step)
    requires Enabled(g, s)
    ensures IsRun(g, [s]) && Run(g, [s]) == Next(g, s)
  {
    assert [s][1..] == [];
    assert Run(Next(g, s), []) == Next(g, s);
  }

  /** A rebind is safe if and only if no call is in flight when it happens. */
  lemma BindIsSafeIff(g: Gateway, effectId: EffectId)
    requires Inv(g)
    ensures SafeBind(g, effectId) <==> Settled(g)
  {
    var h := Next(g, Bind(effectId));
    NextKeepsInv(g, Bind(effectId));
    if Settled(g) {
      assert Quiet(h);
      forall steps | NoBind(steps) && IsRun(h, steps)
        ensures Current(Run(h, steps))
      {
        QuietRunsStayCurrent(h, steps);
      }
    } else {
      var c :| c in g.calls && g.calls[c].answer.None? && g.calls[c].dispatch < |g.dispatches|
               && !(g.dispatches[g.calls[c].dispatch].outcome.Some? && g.dispatches[g.calls[c].dispatch].outcome.value.Failed?);
      var steps := RebindStoresForeignInvocation(g, effectId, c, Effect("", false, ""));
    }
  }

  /** Runs in which every rebind finds nothing in flight. */
  predicate Disciplined(g: Gateway, steps: seq<Step>)
    requires IsRun(g, steps)
    decreases steps
  {
    steps == [] || ((steps[0].Bind? ==> Settled(g)) && Disciplined(Next(g, steps[0]), steps[1..]))
  }

  /** In a disciplined run the stored invocation always answers the effect that is bound. */
  lemma {:induction false} DisciplinedRunsStoreTheBoundEffect(g: Gateway, steps: seq<Step>)
    requires Inv(g) && Current(g) && Quiet(g) && IsRun(g, steps) && Disciplined(g, steps)
    ensures var h := Run(g, steps);
            h.invocation.Some? ==>
              && h.dispatch == Some(h.invocation.value.source) && h.invocation.value.source < |h.dispatches|
              && h.dispatches[h.invocation.value.source].effectId == h.effectId
              && h.dispatches[h.invocation.value.source].bind == h.binds
    decreases steps
  {
    if steps != [] {
      NextKeepsInv(g, steps[0]);
      if steps[0].Bind? {
        assert Quiet(Next(g, steps[0]));
      } else {
        QuietStays(g, steps[0]);
      }
      DisciplinedRunsStoreTheBoundEffect(Next(g, steps[0]), steps[1..]);
    }
  }

  // ---- The context object ----

  datatype Reply = Disabled | Denied | Waiting

  /** The context and, beside it, the promises and handlers the event loop holds for it. */
  class Context {
    var effectId: Option<EffectId>
    var dispatchPromise: Option<DispatchId>
    var invocation: Option<Stored>
    var dispatches: seq<Dispatch>
    var calls: map<CallId, Call>
    var binds: nat

    ghost function Value(): Gateway
      reads this
    {
      Gateway(effectId, dispatchPromise, invocation, binds, dispatches, calls)
    }

    ghost predicate Valid()
      reads this
    {
      Inv(Value())
    }

    constructor ()
      ensures Valid() && Value() == UNBOUND
    {
      effectId, dispatchPromise, invocation, dispatches, calls, binds := None, None, None, [], map[], 0;
    }

    /** `POST /context/bind`; a malformed body changes nothing. */
    method BindContext(wellFormed: bool, id: EffectId) returns (ok: bool)
      requires Valid()
      modifies this
      ensures Valid() && ok == wellFormed
      ensures Value() == if ok then Next(old(Value()), Bind(id)) else old(Value())
    {
      if !wellFormed {
        return false;
      }
      NextKeepsInv(Value(), Bind(id));
      effectId := Some(id);
      invocation := None;
      dispatchPromise := None;
      binds := binds + 1;
      ok := true;
    }

    /** `tools/call`: only the exact registered call reaches the memoised dispatch. */
    method HandleToolsCall(enabled: bool, exact: bool, call: CallId) returns (reply: Reply)
      requires Valid() && call !in calls
      modifies this
      ensures Valid()
      ensures reply == if !enabled then Disabled else if !exact then Denied else Waiting
      ensures Value() == if reply.Waiting? then Next(old(Value()), ToolsCall(call)) else old(Value())
    {
      if !enabled {
        return Disabled;
      }
      if !exact {
        return Denied;
      }
      NextKeepsInv(Value(), ToolsCall(call));
      if dispatchPromise.None? {
        dispatchPromise := Some(|dispatches|);
        dispatches := dispatches + [Dispatch(binds, effectId, if effectId.None? then Some(Failed(CONTEXT_REQUIRED)) else None)];
      }
      calls := calls[call := Call(binds, dispatchPromise.value, None)];
      reply := Waiting;
    }

    /** The request of a dispatch came back. */
    method SettleDispatch(id: DispatchId, outcome: Outcome)
      requires Valid() && id < |dispatches| && dispatches[id].outcome.None?
      modifies this`dispatches
      ensures Valid() && Value() == Next(old(Value()), Settle(id, outcome))
    {
      NextKeepsInv(Value(), Settle(id, outcome));
      dispatches := dispatches[id := dispatches[id].(outcome := Some(outcome))];
    }

    /** The handler a call attached to its dispatch; it writes into the context as it is now. */
    method Answer(call: CallId) returns (outcome: Outcome)
      requires Valid() && Enabled(Value(), Deliver(call))
      modifies this`calls, this`invocation
      ensures Valid() && Value() == Next(old(Value()), Deliver(call)) && calls[call].answer == Some(outcome)
    {
      NextKeepsInv(Value(), Deliver(call));
      var id := calls[call].dispatch;
      outcome := dispatches[id].outcome.value;
      if outcome.Succeeded? {
        invocation := Some(Stored(outcome.effect, id));
      }
      calls := calls[call := calls[call].(answer := Some(outcome))];
    }
  }
}
