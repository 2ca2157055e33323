/**
 The phase journal as the egress proxy runs it: an object whose methods update its fields.
 A ghost world accompanies it, and each method is proved to take that world one step, so
 everything proved about runs of the world holds of this object under any interleaving.
 */
module EgressProxyJournal {
  import opened Common
  import opened J = PhaseJournal

  /** The `/diagnostics` body of the diagnostic mode. */
  datatype Snapshot = Snapshot(cursor: nat, pendingConnects: nat, count: nat, events: seq<Projected>)

  class AuthAbPhaseJournal {
    const maxEvents: int
    const key: Projector
    var events: seq<Event>
    var cursor: nat
    var pendingConnects: nat
    var active: Option<Boundary>
    var phaseCounts: map<Token, nat>
    var pendingByPhase: map<Token, nat>
    var waiters: map<Token, CallId>
    var calls: map<CallId, EndCall>
    ghost var world: World

    ghost function Value(): Journal
      reads this
    {
      Journal(maxEvents, key, events, cursor, pendingConnects, active, phaseCounts, pendingByPhase, waiters, calls)
    }

    ghost predicate Valid()
      reads this
    {
      world.j == Value() && Inv(world) && WaitersFit(world.j)
    }

    /** `None` stands for an option that is missing or not a safe integer. */
    constructor (maxEvents: Option<int>, key: Projector)
      ensures Valid() && world == InitialWorld(maxEvents.GetOr(80), key)
    {
      this.maxEvents := maxEvents.GetOr(80);
      this.key := key;
      events, cursor, pendingConnects, active := [], 0, 0, None;
      phaseCounts, pendingByPhase, waiters, calls := map[], map[], map[], map[];
      world := InitialWorld(maxEvents.GetOr(80), key);
      InvInitially(maxEvents.GetOr(80), key);
    }

    method BeginConnect(ghost c: Connection) returns (token: Option<Token>)
      requires Valid() && Enabled(world, Begin(c))
      modifies this
      ensures Valid() && world == Next(old(world), Begin(c))
      ensures token == world.begun[c]
      ensures token.Some? <==> active.Some?
    {
      StepKeepsInv(world, Begin(c));
      StepKeepsWaiters(world, Begin(c));
      world := Next(world, Begin(c));
      pendingConnects := pendingConnects + 1;
      token := if active.Some? then Some(active.value.token) else None;
      if token.Some? {
        pendingByPhase := pendingByPhase[token.value := GetOr(pendingByPhase, token.value, 0) + 1];
      }
    }

    method FinishConnect(ghost c: Connection, token: Option<Token>, verdict: Verdict) returns (event: Event)
      requires Valid() && Enabled(world, Finish(c, verdict)) && token == world.begun[c]
      modifies this
      ensures Valid() && world == Next(old(world), Finish(c, verdict))
      ensures world.log == old(world).log + [event] && event == Event(cursor, verdict, token)
      ensures forall call :: call in old(calls) && old(calls)[call].wake.Asleep? && old(active) == Some(old(calls)[call].boundary) ==>
                var t := old(calls)[call].boundary.token;
                IsDrained(Value(), call) <==>
                  token == Some(t) && InFlightOf(world, t) == {} && t in old(waiters) && old(waiters)[t] == call
    {
      StepKeepsInv(world, Finish(c, verdict));
      StepKeepsWaiters(world, Finish(c, verdict));
      WakesOf(world, c, verdict);
      world := Next(world, Finish(c, verdict));
      event := Record(token, verdict);
    }

    lemma WakesOf(w: World, c: Connection, verdict: Verdict)
      requires Inv(w) && WaitersFit(w.j) && Enabled(w, Finish(c, verdict))
      ensures forall call :: call in w.j.calls && w.j.calls[call].wake.Asleep? && w.j.active == Some(w.j.calls[call].boundary) ==>
                var t, after := w.j.calls[call].boundary.token, Next(w, Finish(c, verdict));
                IsDrained(after.j, call) <==>
                  w.begun[c] == Some(t) && InFlightOf(after, t) == {} && t in w.j.waiters && w.j.waiters[t] == call
    {
      forall call | call in w.j.calls && w.j.calls[call].wake.Asleep? && w.j.active == Some(w.j.calls[call].boundary)
        ensures var t, after := w.j.calls[call].boundary.token, Next(w, Finish(c, verdict));
                IsDrained(after.j, call) <==>
                  w.begun[c] == Some(t) && InFlightOf(after, t) == {} && t in w.j.waiters && w.j.waiters[t] == call
      {
        FinishWakes(w, c, verdict, call);
        if w.begun[c] != Some(w.j.calls[call].boundary.token) {
          ForeignFinishWakes(w, c, verdict, call);
        }
      }
    }

    /** The body of `finishConnect`, which consults neither the log nor the invariant. */
    method Record(token: Option<Token>, verdict: Verdict) returns (event: Event)
      modifies this`events, this`cursor, this`pendingConnects, this`phaseCounts, this`pendingByPhase, this`calls
      ensures (Value(), event) == J.FinishConnect(old(Value()), token, verdict)
    {
      pendingConnects := Max(0, pendingConnects - 1);
      cursor := cursor + 1;
      event := Event(cursor, verdict, token);
      events := events + [event];
      if |events| > maxEvents {
        events := events[1..];
      }
      if token.Some? {
        var t := token.value;
        phaseCounts := phaseCounts[t := GetOr(phaseCounts, t, 0) + 1];
        var pending := Decrement(GetOr(pendingByPhase, t, 1));
        pendingByPhase := pendingByPhase[t := pending];
        if pending == 0 && t in waiters {
          calls := Wakened(calls, waiters[t]);
        }
      }
    }

    method BeginPhase(phase: Phase, token: Token, ns: nat) returns (boundary: Option<Boundary>)
      requires Valid() && Enabled(world, Open(phase, token, ns))
      modifies this
      ensures Valid() && world == Next(old(world), Open(phase, token, ns))
      ensures boundary.None? <==> phase !in AUTH_AB_PHASES || old(active).Some?
      ensures boundary.Some? ==> active == boundary
      ensures boundary.Some? ==> boundary.value == Boundary(phase, token, ns, |world.log|, Min(|world.log|, Max(0, maxEvents)))
      ensures boundary.None? ==> Value() == old(Value())
    {
      JournalPhases(phase);
      StepKeepsInv(world, Open(phase, token, ns));
      StepKeepsWaiters(world, Open(phase, token, ns));
      world := Next(world, Open(phase, token, ns));
      if !IsJournalPhase(phase) || active.Some? {
        return None;
      }
      boundary := Some(Boundary(phase, token, ns, cursor, |events|));
      active := boundary;
      phaseCounts := phaseCounts[token := 0];
      pendingByPhase := pendingByPhase[token := 0];
    }

    /** `endPhase` up to the point where it waits. */
    method EndPhase(call: CallId, token: Token) returns (accepted: bool)
      requires Valid() && Enabled(world, Call(call, token))
      modifies this
      ensures Valid() && world == Next(old(world), Call(call, token))
      ensures accepted <==> old(active).Some? && old(active).value.token == token
      ensures accepted ==> call in calls && Some(calls[call].boundary) == old(active)
      ensures accepted ==> (calls[call].wake.Ready? <==> InFlightOf(world, token) == {})
      ensures accepted && !calls[call].wake.Ready? ==> calls[call].wake.Asleep? && token in waiters && waiters[token] == call
      ensures !accepted ==> Value() == old(Value())
    {
      StepKeepsInv(world, Call(call, token));
      StepKeepsWaiters(world, Call(call, token));
      world := Next(world, Call(call, token));
      if active.None? || active.value.token != token {
        return false;
      }
      accepted := true;
      if GetOr(pendingByPhase, token, 0) == 0 {
        calls := calls[call := EndCall(active.value, Ready)];
      } else {
        waiters := waiters[token := call];
        calls := calls[call := EndCall(active.value, Asleep)];
      }
    }

    method DrainTimeout(call: CallId)
      requires Valid() && Enabled(world, Timeout(call))
      modifies this
      ensures Valid() && world == Next(old(world), Timeout(call))
    {
      StepKeepsInv(world, Timeout(call));
      StepKeepsWaiters(world, Timeout(call));
      world := Next(world, Timeout(call));
      calls := calls[call := calls[call].(wake := TimedOut)];
    }

    /** `endPhase` from its wake-up to its return or throw. */
    method ResumeEndPhase(call: CallId, ns: nat) returns (r: Result<PhaseResult, EndError>)
      requires Valid() && Enabled(world, Resume(call, ns))
      modifies this
      ensures Valid() && world == Next(old(world), Resume(call, ns))
      ensures r == EndPhaseResume(old(Value()), call, ns).1
    {
      StepKeepsInv(world, Resume(call, ns));
      StepKeepsWaiters(world, Resume(call, ns));
      world := Next(world, Resume(call, ns));
      r := Conclude(call, ns);
    }

    /** The body of that turn, which consults neither the log nor the invariant. */
    method Conclude(call: CallId, ns: nat) returns (r: Result<PhaseResult, EndError>)
      requires call in calls && !calls[call].wake.Asleep?
      modifies this`calls, this`waiters, this`active, this`pendingByPhase, this`phaseCounts
      ensures (Value(), r) == EndPhaseResume(old(Value()), call, ns)
    {
      var EndCall(boundary, wake) := calls[call];
      var token := boundary.token;
      calls := calls - {call};
      if !wake.Ready? {
        waiters := waiters - {token};
      }
      if wake.TimedOut? {
        active := None;
        return Failure(NotDrained);
      }
      var afterCursor, afterCount := cursor, |events|;
      var raw := TokenEvents(events, token);
      var expected := GetOr(phaseCounts, token, 0);
      if |raw| != expected || expected > maxEvents || afterCursor - boundary.beforeCursor != |raw|
         || (|raw| > 0 && raw[0].cursor <= boundary.beforeCursor) {
        active := None;
        return Failure(Incomplete);
      }
      if exists i :: 0 <= i < |raw| && !Projectable(raw[i]) {
        return Failure(EventInvalid);
      }
      r := Success(PhaseResult(boundary.phase, boundary.startedNs, ns, boundary.beforeCursor, afterCursor,
                               boundary.beforeCount, afterCount, |raw|, ProjectAll(key, raw)));
      active := None;
      pendingByPhase := pendingByPhase - {token};
      phaseCounts := phaseCounts - {token};
      waiters := waiters - {token};
    }

    /** The snapshot, or nothing when some retained event cannot be projected. */
    method SafeSnapshot() returns (snapshot: Option<Snapshot>)
      requires Valid()
      ensures snapshot.None? <==> exists i :: 0 <= i < |events| && !Projectable(events[i])
      ensures snapshot.Some? ==>
                snapshot.value == Snapshot(|world.log|, |InFlight(world)|, Min(|world.log|, Max(0, maxEvents)),
                                           ProjectAll(key, LastN(world.log, Max(0, maxEvents))))
      ensures snapshot.Some? ==>
                var kept := LastN(world.log, Max(0, maxEvents));
                |snapshot.value.events| == |kept| && forall n :: 0 <= n < |kept| ==> Shows(snapshot.value.events[n], kept[n], key)
    {
      if exists i :: 0 <= i < |events| && !Projectable(events[i]) {
        return None;
      }
      snapshot := Some(Snapshot(cursor, pendingConnects, |events|, ProjectAll(key, events)));
    }
  }
}
