/**
 Waiting for the end of a provider turn, with the timer that bounds each wait. A wait captures the
 record object that the client holds at that moment. The end of the turn calls the one waiter noted
 in the record; the timer answers from the captured object, which a `turn/started` or a submission
 may meanwhile have replaced by another one.
 */
module TurnWaits {
  import opened Text
  import opened Common
  import opened ProviderTurns

  const UNKNOWN := Ended(Ascii("UNKNOWN"))

  /** A live timer: the turn waited for, and the captured record once another has taken its place. */
  datatype Watch = Watch(turn: TurnId, replaced: Option<Turn>)

  /** The client with its live timers, and the answers that timers gave. */
  datatype Waits = Waits(client: Client, watches: map<Waiter, Watch>, expired: map<Waiter, Turn>)

  datatype Event =
    | Notify(m: Notification)
    | Submit(r: Response)
    | Await(id: TurnId, w: Waiter)
    | Expire(w: Waiter)

  // ---- One event ----

  /** The object under `id` gives way to another one: whoever captured it keeps it. */
  function Replaced(ws: Waits, id: TurnId): map<Waiter, Watch> {
    map w | w in ws.watches ::
      if ws.watches[w].turn == id && ws.watches[w].replaced.None? && id in ws.client.turns
      then Watch(id, Some(ws.client.turns[id])) else ws.watches[w]
  }

  function Handle(ws: Waits, m: Notification): Waits {
    var after := ws.(client := Step(ws.client, m));
    if m.Started? && m.turn.Some? && m.thread.Some? then after.(watches := Replaced(ws, m.turn.value))
    else if m.Completed? && Known(ws.client, m.turn).Some? && ws.client.turns[m.turn.value].resolve.Some?
    then after.(watches := ws.watches - {ws.client.turns[m.turn.value].resolve.value})
    else after
  }

  function StartWait(ws: Waits, id: TurnId, w: Waiter): Waits {
    if id !in ws.client.turns then ws
    else
      ws.(client := Wait(ws.client, id, w),
      watches := if ws.client.turns[id].status == InProgress then ws.watches[w := Watch(id, None)] else ws.watches)
  }

  /** The answer of a timer. Nothing reads the open message of the record it copies, so the answer carries none. */
  function Unknown(t: Turn): Turn {
    t.(status := UNKNOWN, resolve := None, active := None)
  }

  /** The record object that a live timer captured, as it is now. */
  function Captured(ws: Waits, w: Waiter): Option<Turn> {
    if w !in ws.watches then None
    else if ws.watches[w].replaced.Some? then ws.watches[w].replaced
    else if ws.watches[w].turn in ws.client.turns then Some(ws.client.turns[ws.watches[w].turn])
    else None
  }

  function TimeOut(ws: Waits, w: Waiter): Waits {
    var t := Captured(ws, w);
    if t.None? then ws
    else
      var watch := ws.watches[w];
      var client := if watch.replaced.Some? then ws.client
                    else ws.client.(turns := ws.client.turns[watch.turn := t.value.(resolve := None)]);
      Waits(client, ws.watches - {w}, ws.expired[w := Unknown(t.value)])
  }

  predicate Fresh(ws: Waits, w: Waiter) {
    w !in ws.watches && w !in ws.expired && w !in ws.client.results
  }

  predicate Enabled(ws: Waits, e: Event) {
    match e
    case Await(_, w) => Fresh(ws, w)
    case Expire(w) => w in ws.watches
    case _ => true
  }

  function Next(ws: Waits, e: Event): Waits
    requires Enabled(ws, e)
  {
    match e
    case Notify(m) => Handle(ws, m)
    case Submit(r) => Waits(Accept(ws.client, r), Replaced(ws, r.turn), ws.expired)
    case Await(id, w) => StartWait(ws, id, w)
    case Expire(w) => TimeOut(ws, w)
  }

  predicate IsHistory(ws: Waits, es: seq<Event>)
    decreases es
  {
    es == [] || (Enabled(ws, es[0]) && IsHistory(Next(ws, es[0]), es[1..]))
  }

  function After(ws: Waits, es: seq<Event>): Waits
    requires IsHistory(ws, es)
    decreases es
  {
    if es == [] then ws else After(Next(ws, es[0]), es[1..])
  }

  /** A promise keeps the first answer it is given: that of its timer, once the timer has fired. */
  function Outcome(ws: Waits, w: Waiter): Option<Turn> {
    if w in ws.expired then Some(ws.expired[w])
    else if w in ws.client.results then Some(ws.client.results[w])
    else None
  }

  // ---- Every wait ends once ----

  /** A live timer has no answer yet, and a record names only waiters whose timer is live or has fired. */
  ghost predicate Inv(ws: Waits) {
    && (forall w :: w in ws.watches ==>
          ws.watches[w].turn in ws.client.turns && w !in ws.expired && w !in ws.client.results)
    && (forall id :: id in ws.client.turns && ws.client.turns[id].resolve.Some? ==>
          Named(ws, id, ws.client.turns[id].resolve.value))
  }

  predicate Named(ws: Waits, id: TurnId, w: Waiter) {
    (w in ws.watches && ws.watches[w].turn == id) || w in ws.expired
  }

  /** What a notification does to the waiters that the records name. */
  lemma StepResolves(c: Client, m: Notification)
    ensures c.turns.Keys <= Step(c, m).turns.Keys
    ensures forall id :: id in Step(c, m).turns ==>
              Step(c, m).turns[id].resolve ==
                (if id !in c.turns || CompletesTurn(m, id) then None else c.turns[id].resolve)
    ensures m.Completed? && Known(c, m.turn).Some? && c.turns[m.turn.value].resolve.Some? ==>
              Step(c, m).results == c.results[c.turns[m.turn.value].resolve.value := Step(c, m).turns[m.turn.value]]
    ensures !(m.Completed? && Known(c, m.turn).Some? && c.turns[m.turn.value].resolve.Some?) ==>
              Step(c, m).results == c.results
  {
    AddresseeIsKnown(c, m);
    var a := Addressee(c, m);
    if !m.Started? && a.Some? {
      UpdatedWaits(c.turns[a.value], m, c.latestError);
    }
  }

  lemma HandleKeepsInv(ws: Waits, m: Notification)
    requires Inv(ws)
    ensures Inv(Handle(ws, m))
  {
    StepResolves(ws.client, m);
    var after := Handle(ws, m);
    assert after.watches.Keys <= ws.watches.Keys;
    forall id | id in after.client.turns && after.client.turns[id].resolve.Some?
      ensures Named(after, id, after.client.turns[id].resolve.value)
    {
      assert Named(ws, id, ws.client.turns[id].resolve.value);
    }
  }

  lemma NextKeepsInv(ws: Waits, e: Event)
    requires Inv(ws) && Enabled(ws, e)
    ensures Inv(Next(ws, e))
  {
    if e.Notify? {
      HandleKeepsInv(ws, e.m);
    } else {
      var after := Next(ws, e);
      forall id | id in after.client.turns && after.client.turns[id].resolve.Some?
        ensures Named(after, id, after.client.turns[id].resolve.value)
      {
        assert id in ws.client.turns && ws.client.turns[id].resolve.Some? ==> Named(ws, id, ws.client.turns[id].resolve.value);
      }
    }
  }

  /** A waiter that has been answered keeps its answer, and one whose timer is live keeps it or is answered. */
  lemma NextKeepsOutcomes(ws: Waits, e: Event, w: Waiter)
    requires Inv(ws) && Enabled(ws, e)
    ensures Outcome(ws, w).Some? ==> Outcome(Next(ws, e), w) == Outcome(ws, w)
    ensures w in ws.watches ==> w in Next(ws, e).watches || Outcome(Next(ws, e), w).Some?
  {
    if e.Notify? {
      StepResolves(ws.client, e.m);
      if e.m.Completed? && Known(ws.client, e.m.turn).Some? && ws.client.turns[e.m.turn.value].resolve.Some? {
        assert Named(ws, e.m.turn.value, ws.client.turns[e.m.turn.value].resolve.value);
      }
    }
  }

  /** Over any history each wait has a live timer or an answer, never both, and its first answer is its last. */
  lemma {:induction false} EveryWaitEndsOnce(ws: Waits, es: seq<Event>, w: Waiter)
    requires Inv(ws) && IsHistory(ws, es)
    ensures Inv(After(ws, es))
    ensures Outcome(ws, w).Some? ==> Outcome(After(ws, es), w) == Outcome(ws, w)
    ensures !Fresh(ws, w) ==> (w in After(ws, es).watches <==> Outcome(After(ws, es), w).None?)
    decreases es
  {
    if es != [] {
      NextKeepsInv(ws, es[0]);
      NextKeepsOutcomes(ws, es[0], w);
      EveryWaitEndsOnce(Next(ws, es[0]), es[1..], w);
    }
  }

  // ---- What a timer answers ----

  predicate Replaces(e: Event, id: TurnId) {
    (e.Notify? && StartsTurn(e.m, id)) || (e.Submit? && e.r.turn == id)
  }

  /** The index of the first event that replaces the record object of a turn, or the number of events. */
  function FirstReplacement(es: seq<Event>, id: TurnId): (k: nat)
    ensures k <= |es|
    ensures k < |es| ==> Replaces(es[k], id)
    ensures forall i :: 0 <= i < k ==> !Replaces(es[i], id)
  {
    if es == [] || Replaces(es[0], id) then 0
    else
      var k := 1 + FirstReplacement(es[1..], id);
      assert forall i :: 0 < i < k ==> es[i] == es[1..][i - 1];
      k
  }

  /** A live timer loses its object only to a replacement of it. */
  lemma NextKeepsWatch(ws: Waits, e: Event, w: Waiter)
    requires Inv(ws) && Enabled(ws, e) && w in ws.watches && w in Next(ws, e).watches
    ensures var watch := ws.watches[w];
            Next(ws, e).watches[w] ==
              if watch.replaced.None? && Replaces(e, watch.turn) then Watch(watch.turn, Some(ws.client.turns[watch.turn]))
              else watch
  {
  }

  lemma {:induction false} WatchesOnlyEnd(ws: Waits, es: seq<Event>, w: Waiter)
    requires Inv(ws) && IsHistory(ws, es) && !Fresh(ws, w) && w !in ws.watches
    ensures w !in After(ws, es).watches
  {
    EveryWaitEndsOnce(ws, es, w);
  }

  lemma {:induction false} ReplacedStays(ws: Waits, es: seq<Event>, w: Waiter)
    requires Inv(ws) && IsHistory(ws, es) && w in ws.watches && ws.watches[w].replaced.Some?
    ensures w in After(ws, es).watches ==> After(ws, es).watches[w] == ws.watches[w]
    decreases es
  {
    if es != [] {
      NextKeepsInv(ws, es[0]);
      NextKeepsOutcomes(ws, es[0], w);
      if w in Next(ws, es[0]).watches {
        NextKeepsWatch(ws, es[0], w);
        ReplacedStays(Next(ws, es[0]), es[1..], w);
      } else {
        WatchesOnlyEnd(Next(ws, es[0]), es[1..], w);
      }
    }
  }

  /**
   What a timer captured: the record as it was when the object was first replaced after the wait
   began, and the record as it is now exactly as long as that has not happened.
   */
  lemma {:induction false} TimerAnswersFromCaptured(ws: Waits, es: seq<Event>, w: Waiter)
    requires Inv(ws) && IsHistory(ws, es) && w in ws.watches && ws.watches[w].replaced.None?
    requires w in After(ws, es).watches
    ensures var id := ws.watches[w].turn;
            var k := FirstReplacement(es, id);
            && IsHistory(ws, es[..k])
            && id in After(ws, es[..k]).client.turns
            && Captured(After(ws, es), w) == Some(After(ws, es[..k]).client.turns[id])
            && (After(ws, es).watches[w].replaced.None? <==> k == |es|)
    decreases es
  {
    if es != [] {
      var id, e := ws.watches[w].turn, es[0];
      var next := Next(ws, e);
      NextKeepsInv(ws, e);
      NextKeepsOutcomes(ws, e, w);
      if w !in next.watches {
        WatchesOnlyEnd(next, es[1..], w);
        assert false;
      } else {
        NextKeepsWatch(ws, e, w);
        if Replaces(e, id) {
          ReplacedStays(next, es[1..], w);
        } else {
          TimerAnswersFromCaptured(next, es[1..], w);
          var k := FirstReplacement(es, id);
          assert es[..k][1..] == es[1..][..k - 1] && es[..k][0] == e;
          EveryWaitEndsOnce(ws, es, w);
        }
      }
    }
  }

  // ---- Who hears of the end of the turn ----

  predicate CompletesNow(e: Event, id: TurnId) {
    e.Notify? && CompletesTurn(e.m, id)
  }

  /** An event that takes a waiter's place in the record of its turn, or ends its wait. */
  predicate Disturbs(ws: Waits, e: Event, id: TurnId, w: Waiter) {
    || (e.Await? && e.id == id)
    || (e.Expire? && e.w == w)
    || (e.Expire? && e.w in ws.watches && ws.watches[e.w] == Watch(id, None))
  }

  predicate Undisturbed(ws: Waits, es: seq<Event>, id: TurnId, w: Waiter)
    requires IsHistory(ws, es)
    decreases es
  {
    es == [] || (!Disturbs(ws, es[0], id, w) && Undisturbed(Next(ws, es[0]), es[1..], id, w))
  }

  predicate Waiting(ws: Waits, id: TurnId, w: Waiter) {
    && id in ws.client.turns && ws.client.turns[id].status == InProgress
    && !Fresh(ws, w) && (w in ws.watches ==> ws.watches[w].turn == id)
  }

  /** The end of the turn would be told to this waiter. */
  predicate Listening(ws: Waits, id: TurnId, w: Waiter)
    requires id in ws.client.turns
  {
    w in ws.watches && ws.client.turns[id].resolve == Some(w)
  }

  lemma StepKeepsInProgress(c: Client, m: Notification, id: TurnId)
    requires id in c.turns && c.turns[id].status == InProgress && !CompletesTurn(m, id)
    ensures id in Step(c, m).turns && Step(c, m).turns[id].status == InProgress
    ensures Step(c, m).turns[id].resolve == c.turns[id].resolve
  {
    AddresseeIsKnown(c, m);
    var a := Addressee(c, m);
    if !m.Started? && a.Some? {
      UpdatedWaits(c.turns[a.value], m, c.latestError);
    }
  }

  lemma NextListens(ws: Waits, e: Event, id: TurnId, w: Waiter)
    requires Inv(ws) && Enabled(ws, e) && Waiting(ws, id, w) && !CompletesNow(e, id)
    ensures Waiting(Next(ws, e), id, w)
    ensures Listening(Next(ws, e), id, w) <==> Listening(ws, id, w) && !Disturbs(ws, e, id, w)
  {
    NextKeepsOutcomes(ws, e, w);
    if e.Notify? {
      StepKeepsInProgress(ws.client, e.m, id);
      HandleListens(ws, e.m, id, w);
    }
  }

  lemma HandleListens(ws: Waits, m: Notification, id: TurnId, w: Waiter)
    requires Inv(ws) && Waiting(ws, id, w) && !CompletesTurn(m, id)
    ensures w in Handle(ws, m).watches ==> w in ws.watches && Handle(ws, m).watches[w].turn == ws.watches[w].turn
    ensures w in ws.watches && w !in Handle(ws, m).watches ==> ws.client.turns[id].resolve != Some(w)
  {
    if m.Completed? && Known(ws.client, m.turn).Some? && ws.client.turns[m.turn.value].resolve.Some? {
      assert Named(ws, m.turn.value, ws.client.turns[m.turn.value].resolve.value);
    }
  }

  lemma {:induction false} HistoryListens(ws: Waits, es: seq<Event>, id: TurnId, w: Waiter)
    requires Inv(ws) && IsHistory(ws, es) && Waiting(ws, id, w)
    requires forall i :: 0 <= i < |es| ==> !CompletesNow(es[i], id)
    ensures Inv(After(ws, es)) && Waiting(After(ws, es), id, w)
    ensures Listening(After(ws, es), id, w) <==> Listening(ws, id, w) && Undisturbed(ws, es, id, w)
    decreases es
  {
    if es != [] {
      NextKeepsInv(ws, es[0]);
      NextListens(ws, es[0], id, w);
      HistoryListens(Next(ws, es[0]), es[1..], id, w);
    }
  }

  lemma EndIsHeardByListener(ws: Waits, id: TurnId, w: Waiter, done: Notification)
    requires Inv(ws) && id in ws.client.turns && CompletesTurn(done, id)
    ensures var after := Handle(ws, done);
            && id in after.client.turns
            && (Listening(ws, id, w) ==> Outcome(ws, w).None? && Outcome(after, w) == Some(after.client.turns[id]))
            && (!Listening(ws, id, w) ==> Outcome(after, w) == Outcome(ws, w) && (w in after.watches <==> w in ws.watches))
  {
    StepResolves(ws.client, done);
    if ws.client.turns[id].resolve.Some? {
      assert Named(ws, id, ws.client.turns[id].resolve.value);
    }
  }

  /**
   Whom the end of a turn reaches: a waiter hears of it if and only if until then nobody else waited
   for the turn, its own timer did not fire, and neither did another one on the same record object.
   Otherwise the end leaves it as it was, with its timer live or with the answer of its timer.
   */
  lemma EndIsHeardIff(ws: Waits, id: TurnId, w: Waiter, es: seq<Event>, done: Notification)
    requires Inv(ws) && Fresh(ws, w) && id in ws.client.turns && ws.client.turns[id].status == InProgress
    requires IsHistory(Next(ws, Await(id, w)), es) && forall i :: 0 <= i < |es| ==> !CompletesNow(es[i], id)
    requires CompletesTurn(done, id)
    ensures var waiting := Next(ws, Await(id, w));
            var before := After(waiting, es);
            var after := Handle(before, done);
            && id in after.client.turns
            && (Undisturbed(waiting, es, id, w) ==> Outcome(before, w).None? && Outcome(after, w) == Some(after.client.turns[id]))
            && (!Undisturbed(waiting, es, id, w) ==>
                  Outcome(after, w) == Outcome(before, w) && (w in after.watches <==> w in before.watches))
  {
    var waiting := Next(ws, Await(id, w));
    NextKeepsInv(ws, Await(id, w));
    HistoryListens(waiting, es, id, w);
    EndIsHeardByListener(After(waiting, es), id, w, done);
  }

  // ---- When a wait is safe ----

  /** No live timer holds the record that the client has under `id` now. */
  ghost predicate NoTimerOn(ws: Waits, id: TurnId) {
    forall v :: v in ws.watches ==> ws.watches[v] != Watch(id, None)
  }

  /** Nobody else waits for the turn, it does not end, and the timer of `w` does not fire. */
  predicate Undecided(es: seq<Event>, id: TurnId, w: Waiter) {
    forall i :: 0 <= i < |es| ==> !(es[i].Await? && es[i].id == id) && es[i] != Expire(w) && !CompletesNow(es[i], id)
  }

  /** A wait that is told of the end of its turn whatever else happens, unless it times out or another one begins. */
  ghost predicate SafeWait(ws: Waits, id: TurnId, w: Waiter)
    requires Enabled(ws, Await(id, w))
  {
    var waiting := Next(ws, Await(id, w));
    forall es :: IsHistory(waiting, es) && Undecided(es, id, w) ==>
      id in After(waiting, es).client.turns && Listening(After(waiting, es), id, w)
  }

  /** Only a wait brings a timer onto the current record. */
  lemma NoTimerAppears(ws: Waits, e: Event, id: TurnId, w: Waiter)
    requires Inv(ws) && Enabled(ws, e) && !(e.Await? && e.id == id)
    requires forall v :: v in ws.watches && v != w ==> ws.watches[v] != Watch(id, None)
    ensures forall v :: v in Next(ws, e).watches && v != w ==> Next(ws, e).watches[v] != Watch(id, None)
  {
  }

  lemma {:induction false} QuietHistoryIsUndisturbed(ws: Waits, es: seq<Event>, id: TurnId, w: Waiter)
    requires Inv(ws) && IsHistory(ws, es) && Undecided(es, id, w)
    requires forall v :: v in ws.watches && v != w ==> ws.watches[v] != Watch(id, None)
    ensures Undisturbed(ws, es, id, w)
    decreases es
  {
    if es != [] {
      NextKeepsInv(ws, es[0]);
      NoTimerAppears(ws, es[0], id, w);
      assert Undecided(es[1..], id, w) by {
        assert forall i :: 0 <= i < |es| - 1 ==> es[1..][i] == es[i + 1];
      }
      QuietHistoryIsUndisturbed(Next(ws, es[0]), es[1..], id, w);
    }
  }

  lemma OneEvent(ws: Waits, e: Event)
    requires Enabled(ws, e)
    ensures IsHistory(ws, [e]) && After(ws, [e]) == Next(ws, e)
  {
    assert [e][1..] == [];
    assert After(Next(ws, e), []) == Next(ws, e);
  }

  lemma WaitBegins(ws: Waits, id: TurnId, w: Waiter)
    requires Inv(ws) && Fresh(ws, w) && id in ws.client.turns && ws.client.turns[id].status == InProgress
    ensures var waiting := Next(ws, Await(id, w));
            && Inv(waiting) && Waiting(waiting, id, w) && Listening(waiting, id, w)
            && waiting.watches == ws.watches[w := Watch(id, None)]
  {
    NextKeepsInv(ws, Await(id, w));
  }

  /** The timer of an earlier wait on the same record silences a later one. */
  lemma TimerSilencesWait(ws: Waits, id: TurnId, w: Waiter, v: Waiter, done: Notification)
    requires Inv(ws) && Fresh(ws, w) && id in ws.client.turns && ws.client.turns[id].status == InProgress
    requires v in ws.watches && ws.watches[v] == Watch(id, None) && CompletesTurn(done, id)
    ensures var waiting := Next(ws, Await(id, w));
            && Enabled(waiting, Expire(v))
            && var silenced := Next(waiting, Expire(v));
               && id in silenced.client.turns && !Listening(silenced, id, w)
               && Outcome(Handle(silenced, done), w).None? && w in Handle(silenced, done).watches
  {
    WaitBegins(ws, id, w);
    var waiting := Next(ws, Await(id, w));
    NextKeepsInv(waiting, Expire(v));
    NextListens(waiting, Expire(v), id, w);
    NextKeepsOutcomes(waiting, Expire(v), w);
    EndIsHeardByListener(Next(waiting, Expire(v)), id, w, done);
  }

  /** A later wait takes the place of an earlier one, which then hears of no end of the turn, however it goes on. */
  lemma SecondWaitDisplaces(ws: Waits, id: TurnId, w: Waiter, v: Waiter, es: seq<Event>, done: Notification)
    requires Inv(ws) && Fresh(ws, w) && Fresh(ws, v) && v != w
    requires id in ws.client.turns && ws.client.turns[id].status == InProgress && CompletesTurn(done, id)
    requires IsHistory(Next(Next(ws, Await(id, w)), Await(id, v)), es)
    requires forall i :: 0 <= i < |es| ==> !CompletesNow(es[i], id)
    ensures var displaced := Next(Next(ws, Await(id, w)), Await(id, v));
            && Listening(displaced, id, v) && !Listening(displaced, id, w)
            && var before := After(displaced, es);
               var after := Handle(before, done);
               Outcome(after, w) == Outcome(before, w) && (w in after.watches <==> w in before.watches)
  {
    WaitBegins(ws, id, w);
    var waiting := Next(ws, Await(id, w));
    WaitBegins(waiting, id, v);
    var displaced := Next(waiting, Await(id, v));
    HistoryListens(displaced, es, id, w);
    EndIsHeardByListener(After(displaced, es), id, w, done);
  }

  /**
   Exactly when a wait is safe, at the moment it begins: if and only if no live timer is on the record
   that the client holds for the turn.
   */
  lemma WaitIsSafeIff(ws: Waits, id: TurnId, w: Waiter)
    requires Inv(ws) && Fresh(ws, w) && id in ws.client.turns && ws.client.turns[id].status == InProgress
    ensures SafeWait(ws, id, w) <==> NoTimerOn(ws, id)
  {
    WaitBegins(ws, id, w);
    var waiting := Next(ws, Await(id, w));
    if NoTimerOn(ws, id) {
      forall es | IsHistory(waiting, es) && Undecided(es, id, w)
        ensures id in After(waiting, es).client.turns && Listening(After(waiting, es), id, w)
      {
        HistoryListens(waiting, es, id, w);
        QuietHistoryIsUndisturbed(waiting, es, id, w);
      }
    } else {
      var v :| v in ws.watches && ws.watches[v] == Watch(id, None);
      TimerSilencesWait(ws, id, w, v, Completed(Some(id), None, None, None, None, 0));
      OneEvent(waiting, Expire(v));
      assert Undecided([Expire(v)], id, w);
    }
  }

  const NOTHING := Waits(Client([], map[], None, None, map[]), map[], map[])

  lemma FirstTurn(id: TurnId, thread: ThreadId) returns (ws: Waits)
    ensures ws == Next(NOTHING, Notify(Started(Some(id), Some(thread), None, None, 0)))
    ensures Inv(ws) && id in ws.client.turns && ws.client.turns[id].status == InProgress
    ensures forall w :: Fresh(ws, w)
  {
    ws := Next(NOTHING, Notify(Started(Some(id), Some(thread), None, None, 0)));
    NextKeepsInv(NOTHING, Notify(Started(Some(id), Some(thread), None, None, 0)));
  }

  /** Of two waits for one turn the first one's timer answers UNKNOWN, and the second one misses the end. */
  lemma SecondWaitMissesEnd(ws: Waits, id: TurnId, done: Notification) returns (one: Waits, two: Waits, silenced: Waits)
    requires Inv(ws) && id in ws.client.turns && ws.client.turns[id].status == InProgress && Fresh(ws, 1) && Fresh(ws, 2)
    requires CompletesTurn(done, id)
    ensures one == Next(ws, Await(id, 1)) && Enabled(one, Await(id, 2)) && two == Next(one, Await(id, 2))
    ensures Enabled(two, Expire(1)) && silenced == Next(two, Expire(1))
    ensures var end := Handle(silenced, done);
            && Outcome(end, 1).Some? && Outcome(end, 1).value.status == UNKNOWN
            && Outcome(end, 2).None? && 2 in end.watches
  {
    WaitBegins(ws, id, 1);
    one := Next(ws, Await(id, 1));
    TimerSilencesWait(one, id, 2, 1, done);
    WaitBegins(one, id, 2);
    two := Next(one, Await(id, 2));
    NextKeepsInv(two, Expire(1));
    silenced := Next(two, Expire(1));
    NextKeepsOutcomes(silenced, Notify(done), 1);
  }

  /** The failing input, from an empty client: two waits for one turn, the first one's timer, and the end of the turn. */
  lemma TwoWaitsForOneTurn(id: TurnId, thread: ThreadId) returns (es: seq<Event>)
    ensures es == [Notify(Started(Some(id), Some(thread), None, None, 0)), Await(id, 1), Await(id, 2), Expire(1),
                   Notify(Completed(Some(id), None, None, None, None, 0))]
    ensures IsHistory(NOTHING, es)
    ensures var end := After(NOTHING, es);
            && id in end.client.turns && end.client.turns[id].status == COMPLETED
            && Outcome(end, 1).Some? && Outcome(end, 1).value.status == UNKNOWN
            && Outcome(end, 2).None? && 2 in end.watches
  {
    var done := Completed(Some(id), None, None, None, None, 0);
    var ws := FirstTurn(id, thread);
    var one, two, silenced := SecondWaitMissesEnd(ws, id, done);
    es := [Notify(Started(Some(id), Some(thread), None, None, 0)), Await(id, 1), Await(id, 2), Expire(1), Notify(done)];
    FiveEvents(NOTHING, es, ws, one, two, silenced);
    CompletedEnds(silenced.client, id, done);
  }

  lemma CompletedEnds(c: Client, id: TurnId, done: Notification)
    requires id in c.turns && CompletesTurn(done, id)
    ensures id in Step(c, done).turns && Step(c, done).turns[id].status == done.status.GetOr(COMPLETED)
  {
  }

  lemma FiveEvents(a: Waits, es: seq<Event>, b: Waits, c: Waits, d: Waits, e: Waits)
    requires |es| == 5 && Enabled(a, es[0]) && b == Next(a, es[0]) && Enabled(b, es[1]) && c == Next(b, es[1])
    requires Enabled(c, es[2]) && d == Next(c, es[2]) && Enabled(d, es[3]) && e == Next(d, es[3]) && Enabled(e, es[4])
    ensures IsHistory(a, es) && After(a, es) == Next(e, es[4])
  {
    OneEvent(e, es[4]);
    assert es[4..] == [es[4]] && es[3..][1..] == es[4..] && es[2..][1..] == es[3..] && es[1..][1..] == es[2..];
    assert IsHistory(d, es[3..]) && After(d, es[3..]) == Next(e, es[4]);
    assert IsHistory(c, es[2..]) && After(c, es[2..]) == Next(e, es[4]);
    assert IsHistory(b, es[1..]) && After(b, es[1..]) == Next(e, es[4]);
  }
}
