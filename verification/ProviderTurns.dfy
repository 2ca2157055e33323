/**
 The provider-turn records of the app-server client. Notifications build a record while the
 continuation of the `turn/start` request, and later the wait for the turn's end, are free to run
 between any two of them. A record field that a notification has not yet written is absent,
 which the code reads like its default; `None` models absence and `Some(None)` a stored null.
 */
module ProviderTurns {
  import opened Text
  import opened Common

  type TurnId = Text
  type ThreadId = Text
  type Time = int
  type Waiter = nat
  /** Sanitised payloads, which no decision here looks into. */
  type Usage = Text
  type ProviderError = Text

  const MESSAGE_LIMIT: nat := 16000
  const INVOCATION_LIMIT: nat := 8

  datatype Status = InProgress | Ended(name: Text)

  const COMPLETED := Ended(Ascii("COMPLETED"))

  datatype AgentMessage = AgentMessage(id: Option<Text>, text: Text)

  datatype Invocation = Invocation(server: Text, tool: Text, status: Option<Text>, result: Option<Text>)

  /** What the continuation of `turn/start` knows and no notification carries. */
  datatype Request = Request(session: Text, model: Option<Text>, effort: Option<Text>)

  datatype Turn = Turn(
    threadId: ThreadId,
    status: Status,
    startedAt: Time,
    observedModel: Option<Text>,
    observedEffort: Option<Text>,
    message: Option<Text>,
    active: Option<Option<AgentMessage>>,
    finalMessageId: Option<Option<Text>>,
    invocations: Option<seq<Invocation>>,
    usage: Option<Option<Usage>>,
    error: Option<ProviderError>,
    completedAt: Option<Time>,
    continuation: Option<bool>,
    request: Option<Request>,
    resolve: Option<Waiter>)

  /** `order` lists the keys of the map in insertion order, which two searches depend on. */
  datatype Client = Client(
    order: seq<TurnId>,
    turns: map<TurnId, Turn>,
    latestError: Option<ProviderError>,
    latestUsage: Option<Usage>,
    results: map<Waiter, Turn>)

  datatype Item =
    | Message(id: Option<Text>, text: Text)
    | ToolCall(invocation: Option<Invocation>)
    | OtherItem

  /** The notifications that touch a record, with their parameters already made safe. */
  datatype Notification =
    | Rerouted(turn: Option<TurnId>, thread: Option<ThreadId>, toModel: Option<Text>)
    | Error(turn: Option<TurnId>, error: Option<ProviderError>)
    | Started(turn: Option<TurnId>, thread: Option<ThreadId>, model: Option<Text>, effort: Option<Text>, at: Time)
    | Delta(turn: Option<TurnId>, text: Text, itemId: Option<Text>)
    | UsageUpdated(turn: Option<TurnId>, usage: Usage)
    | ItemStarted(turn: Option<TurnId>, item: Item)
    | ItemCompleted(turn: Option<TurnId>, item: Item)
    | Completed(turn: Option<TurnId>, status: Option<Status>, model: Option<Text>, effort: Option<Text>,
                error: Option<ProviderError>, at: Time)

  datatype Response = Response(turn: TurnId, thread: ThreadId, continuation: bool, request: Request, at: Time)

  // ---- One notification ----

  function Cut(t: Text): Text {
    if |t| <= MESSAGE_LIMIT then t else t[..MESSAGE_LIMIT]
  }

  function Or<T>(a: Option<T>, b: Option<T>): Option<T> {
    if a.Some? then a else b
  }

  function Flat<T>(o: Option<Option<T>>): Option<T> {
    o.GetOr(None)
  }

  function Put(c: Client, id: TurnId, turn: Turn): Client {
    c.(turns := c.turns[id := turn], order := if id in c.turns then c.order else c.order + [id])
  }

  /** The most recently inserted turn still in progress, of one thread when a thread is given. */
  function Newest(order: seq<TurnId>, turns: map<TurnId, Turn>, thread: Option<ThreadId>): Option<TurnId> {
    if order == [] then None
    else
      var id := order[|order| - 1];
      if id in turns && turns[id].status == InProgress && (thread.Some? ==> turns[id].threadId == thread.value) then Some(id)
      else Newest(order[..|order| - 1], turns, thread)
  }

  function Known(c: Client, turn: Option<TurnId>): Option<TurnId> {
    if turn.Some? && turn.value in c.turns then turn else None
  }

  /** The record a notification is about; only `model/rerouted` and `error` fall back to a search. */
  function Addressee(c: Client, m: Notification): Option<TurnId> {
    match m
    case Rerouted(turn, thread, _) =>
      if Known(c, turn).Some? || thread.None? then Known(c, turn) else Newest(c.order, c.turns, thread)
    case Error(turn, _) =>
      if Known(c, turn).Some? then turn else Newest(c.order, c.turns, None)
    case _ => Known(c, m.turn)
  }

  function StartedTurn(existing: Option<Turn>, m: Notification): Turn
    requires m.Started? && m.thread.Some?
  {
    match existing
    case None =>
      Turn(m.thread.value, InProgress, m.at, m.model, m.effort, None, None, None, None, None, None, None, None, None, None)
    case Some(t) =>
      t.(threadId := m.thread.value, status := InProgress, startedAt := m.at, observedModel := m.model, observedEffort := m.effort)
  }

  function WithDelta(t: Turn, text: Text, item: Option<Text>): Turn {
    var active := Flat(t.active);
    if text == [] then t
    else if active.Some? && (item.None? || active.value.id.None? || item == active.value.id) then
      t.(active := Some(Some(active.value.(text := Cut(active.value.text + text)))))
    else t.(message := Some(Cut(t.message.GetOr([]) + text)))
  }

  function ItemId(t: Turn, id: Option<Text>): Option<Text> {
    if id.Some? then id else if Flat(t.active).Some? then Flat(t.active).value.id else None
  }

  function CompletedText(t: Turn, id: Option<Text>, text: Text): Text {
    var active := Flat(t.active);
    if text != [] then text
    else if active.Some? && (id.None? || active.value.id.None? || id == active.value.id) then active.value.text
    else []
  }

  function WithItem(t: Turn, item: Item, completed: bool): Turn {
    match item
    case OtherItem => t
    case ToolCall(invocation) =>
      if invocation.None? then t
      else t.(invocations := Some(LastN(t.invocations.GetOr([]) + [invocation.value], INVOCATION_LIMIT)))
    case Message(givenId, text) =>
      var id := ItemId(t, givenId);
      if !completed then t.(active := Some(Some(AgentMessage(id, Cut(text)))))
      else
        var final := CompletedText(t, id, text);
        if final == [] then t.(active := Some(None))
        else t.(message := Some(Cut(final)), finalMessageId := Some(id), active := Some(None))
  }

  function CompletedTurn(t: Turn, m: Notification, latestError: Option<ProviderError>): Turn
    requires m.Completed?
  {
    t.(status := m.status.GetOr(COMPLETED),
    observedModel := Or(m.model, t.observedModel),
    observedEffort := Or(m.effort, t.observedEffort),
    completedAt := Some(m.at),
    error := Or(m.error, Or(t.error, latestError)),
    resolve := None)
  }

  /** The record after a notification about it. */
  function Updated(t: Turn, m: Notification, latestError: Option<ProviderError>): Turn
    requires !m.Started?
  {
    match m
    case Rerouted(_, _, model) => if model.Some? then t.(observedModel := model) else t
    case Error(_, error) => if error.Some? then t.(error := error) else t
    case Delta(_, text, item) => WithDelta(t, text, item)
    case UsageUpdated(_, usage) => t.(usage := Some(Some(usage)))
    case ItemStarted(_, item) => WithItem(t, item, false)
    case ItemCompleted(_, item) => WithItem(t, item, true)
    case Completed(_, _, _, _, _, _) => CompletedTurn(t, m, latestError)
  }

  /** The client-wide fields, which every notification of their kind overwrites. */
  function Noted(c: Client, m: Notification): Client {
    match m
    case Error(_, error) => c.(latestError := error)
    case UsageUpdated(_, usage) => c.(latestUsage := Some(usage))
    case _ => c
  }

  /** Keeping an updated record; the end of a turn settles its waiter. */
  function Stored(c: Client, m: Notification, id: TurnId, t: Turn): Client
    requires id in c.turns
  {
    var after := Noted(c, m).(turns := c.turns[id := t]);
    if m.Completed? && c.turns[id].resolve.Some? then after.(results := c.results[c.turns[id].resolve.value := t])
    else after
  }

  function Step(c: Client, m: Notification): Client {
    if m.Started? then
      if m.thread.None? || m.turn.None? then c
      else
        var id := m.turn.value;
        Put(c, id, StartedTurn(if id in c.turns then Some(c.turns[id]) else None, m)).(latestError := None)
    else
      match Addressee(c, m)
      case None => Noted(c, m)
      case Some(id) =>
        if id in c.turns then Stored(c, m, id, Updated(c.turns[id], m, c.latestError)) else Noted(c, m)
  }

  function Run(c: Client, ms: seq<Notification>): Client
    decreases ms
  {
    if ms == [] then c else Run(Step(c, ms[0]), ms[1..])
  }

  // ---- The continuation of `turn/start` and the wait ----

  /** Defaults, overlaid by what notifications recorded, overlaid by the request. */
  function AcceptedTurn(existing: Option<Turn>, r: Response): Turn {
    match existing
    case None =>
      Turn(r.thread, InProgress, r.at, None, None, Some([]), Some(None), Some(None), Some([]), Some(None), None, None,
           Some(r.continuation), Some(r.request), None)
    case Some(t) =>
      t.(message := Some(t.message.GetOr([])),
      active := Some(Flat(t.active)),
      finalMessageId := Some(Flat(t.finalMessageId)),
      invocations := Some(t.invocations.GetOr([])),
      usage := Some(Flat(t.usage)),
      continuation := Some(t.continuation.GetOr(r.continuation)),
      request := Some(r.request))
  }

  function Accept(c: Client, r: Response): Client {
    Put(c, r.turn, AcceptedTurn(if r.turn in c.turns then Some(c.turns[r.turn]) else None, r))
  }

  /** Waiting for a known turn: an ended one answers at once. */
  function Wait(c: Client, id: TurnId, w: Waiter): Client
    requires id in c.turns
  {
    if c.turns[id].status != InProgress then c.(results := c.results[w := c.turns[id]])
    else c.(turns := c.turns[id := c.turns[id].(resolve := Some(w))])
  }

  // ---- Confluence ----

  predicate StartsTurn(m: Notification, id: TurnId) {
    m.Started? && m.turn == Some(id) && m.thread.Some?
  }

  predicate CompletesTurn(m: Notification, id: TurnId) {
    m.Completed? && m.turn == Some(id)
  }

  /** Searches see only identities, threads and statuses. */
  lemma {:induction false} NewestSees(order: seq<TurnId>, a: map<TurnId, Turn>, b: map<TurnId, Turn>, thread: Option<ThreadId>)
    requires a.Keys == b.Keys
    requires forall id :: id in a ==> a[id].status == b[id].status && a[id].threadId == b[id].threadId
    ensures Newest(order, a, thread) == Newest(order, b, thread)
  {
    if order != [] {
      NewestSees(order[..|order| - 1], a, b, thread);
    }
  }

  lemma AddresseeSees(a: Client, b: Client, m: Notification)
    requires a.order == b.order && a.turns.Keys == b.turns.Keys
    requires forall id :: id in a.turns ==> a.turns[id].status == b.turns[id].status && a.turns[id].threadId == b.turns[id].threadId
    ensures Addressee(a, m) == Addressee(b, m)
  {
    if m.Rerouted? {
      NewestSees(a.order, a.turns, b.turns, m.thread);
    } else if m.Error? {
      NewestSees(a.order, a.turns, b.turns, None);
    }
  }

  lemma AcceptedThenUpdated(t: Turn, m: Notification, e: Option<ProviderError>, r: Response)
    requires !m.Started?
    ensures Updated(AcceptedTurn(Some(t), r), m, e) == AcceptedTurn(Some(Updated(t, m, e)), r)
  {
  }

  predicate NobodyWaits(c: Client, id: TurnId) {
    id in c.turns ==> c.turns[id].resolve.None?
  }

  lemma StoredThenAccepted(c: Client, m: Notification, id: TurnId, t: Turn, r: Response)
    requires r.turn in c.turns && id in c.turns && NobodyWaits(c, r.turn)
    requires id == r.turn ==> t.resolve.None?
    ensures var u := if id == r.turn then AcceptedTurn(Some(t), r) else t;
            Stored(Accept(c, r), m, id, u) == Accept(Stored(c, m, id, t), r)
    ensures NobodyWaits(Stored(c, m, id, t), r.turn)
  {
    var u := if id == r.turn then AcceptedTurn(Some(t), r) else t;
    assert Stored(Accept(c, r), m, id, u).turns == Accept(Stored(c, m, id, t), r).turns;
  }

  lemma StartedThenAccepted(c: Client, m: Notification, r: Response)
    requires m.Started? && m.turn.Some? && m.thread.Some?
    requires r.turn in c.turns || m.turn.value == r.turn
    ensures Step(Accept(c, r), m) == Accept(Step(c, m), r)
  {
    assert Step(Accept(c, r), m).turns == Accept(Step(c, m), r).turns;
  }

  lemma UpdatedWaits(t: Turn, m: Notification, e: Option<ProviderError>)
    requires !m.Started?
    ensures Updated(t, m, e).resolve == if m.Completed? then None else t.resolve
    ensures !m.Completed? ==> Updated(t, m, e).status == t.status
  {
  }

  /** The continuation commutes with every notification once the record exists, and with the one that creates it. */
  lemma AcceptCommutes(c: Client, r: Response, m: Notification)
    requires r.turn in c.turns || StartsTurn(m, r.turn)
    requires NobodyWaits(c, r.turn)
    ensures Step(Accept(c, r), m) == Accept(Step(c, m), r)
    ensures NobodyWaits(Step(c, m), r.turn) && r.turn in Step(c, m).turns
  {
    if m.Started? {
      if m.thread.Some? && m.turn.Some? {
        StartedThenAccepted(c, m, r);
      }
    } else {
      AddresseeSees(c, Accept(c, r), m);
      var a := Addressee(c, m);
      if a.Some? && a.value in c.turns {
        var t := Updated(c.turns[a.value], m, c.latestError);
        UpdatedWaits(c.turns[a.value], m, c.latestError);
        AcceptedThenUpdated(c.turns[r.turn], m, c.latestError, r);
        StoredThenAccepted(c, m, a.value, t, r);
      }
    }
  }

  lemma {:induction false} RunAppend(c: Client, a: seq<Notification>, b: seq<Notification>)
    ensures Run(c, a + b) == Run(Run(c, a), b)
    decreases a
  {
    if a == [] {
      assert a + b == b;
    } else {
      assert (a + b)[1..] == a[1..] + b;
      RunAppend(Step(c, a[0]), a[1..], b);
    }
  }

  lemma RunOne(c: Client, m: Notification)
    ensures Run(c, [m]) == Step(c, m)
  {
    assert Run(Step(c, m), [m][1..]) == Step(c, m);
  }

  lemma {:induction false} AcceptCommutesWithRun(c: Client, r: Response, ms: seq<Notification>)
    requires r.turn in c.turns || (ms != [] ==> StartsTurn(ms[0], r.turn))
    requires NobodyWaits(c, r.turn)
    ensures Run(Accept(c, r), ms) == Accept(Run(c, ms), r)
    ensures NobodyWaits(Run(c, ms), r.turn) && (ms != [] ==> r.turn in Run(c, ms).turns)
    decreases ms
  {
    if ms != [] {
      AcceptCommutes(c, r, ms[0]);
      AcceptCommutesWithRun(Step(c, ms[0]), r, ms[1..]);
    }
  }

  /**
   The race: the client ends in the same state wherever among the notifications the continuation
   of `turn/start` runs, given that the record exists or the first of them starts the turn.
   */
  lemma RaceIsConfluent(c: Client, r: Response, ms: seq<Notification>, k: nat)
    requires k <= |ms|
    requires r.turn in c.turns || (ms != [] ==> StartsTurn(ms[0], r.turn))
    requires NobodyWaits(c, r.turn)
    ensures Run(Accept(Run(c, ms[..k]), r), ms[k..]) == Run(Accept(c, r), ms)
  {
    assert ms == ms[..k] + ms[k..];
    AcceptCommutesWithRun(c, r, ms[..k]);
    RunAppend(Accept(c, r), ms[..k], ms[k..]);
  }

  // ---- What is lost when the record does not exist yet ----

  predicate CarriesNothing(item: Item, completed: bool) {
    match item
    case OtherItem => true
    case ToolCall(invocation) => invocation.None?
    case Message(_, text) => completed && text == []
  }

  /** A notification that would leave a fresh record as it is. */
  predicate Inert(m: Notification) {
    match m
    case Rerouted(_, _, model) => model.None?
    case Error(_, error) => error.None?
    case Started(_, thread, _, _, _) => thread.None?
    case Delta(_, text, _) => text == []
    case UsageUpdated(_, _) => false
    case ItemStarted(_, item) => CarriesNothing(item, false)
    case ItemCompleted(_, item) => CarriesNothing(item, true)
    case Completed(_, _, _, _, _, _) => false
  }

  /**
   Before the record of its turn exists, a notification may change places with the continuation
   if and only if it starts the turn or is inert; any other is lost when it comes first.
   */
  lemma NotificationBeforeRecordIff(c: Client, r: Response, m: Notification)
    requires r.turn !in c.turns && m.turn == Some(r.turn)
    ensures Step(Accept(c, r), m) == Accept(Step(c, m), r) <==> StartsTurn(m, r.turn) || Inert(m)
  {
    if StartsTurn(m, r.turn) {
      AcceptCommutes(c, r, m);
    } else if !m.Started? {
      EarlyNotification(c, r, m);
    }
  }

  lemma EarlyNotification(c: Client, r: Response, m: Notification)
    requires r.turn !in c.turns && m.turn == Some(r.turn) && !m.Started?
    ensures Step(Accept(c, r), m) == Accept(Step(c, m), r) <==> Inert(m)
  {
    var accepted := AcceptedTurn(None, r);
    FreshUpdated(r, m, c.latestError);
    var first, second := Accept(Step(c, m), r), Step(Accept(c, r), m);
    StepKeepsOthersOut(c, m, r.turn);
    assert first.turns[r.turn] == accepted;
    assert second.turns[r.turn] == Updated(accepted, m, c.latestError);
    if Inert(m) {
      InertOnUnknown(c, m);
      assert first.turns == second.turns;
    }
  }

  lemma FreshUpdated(r: Response, m: Notification, e: Option<ProviderError>)
    requires !m.Started?
    ensures Updated(AcceptedTurn(None, r), m, e) == AcceptedTurn(None, r) <==> Inert(m)
  {
    var accepted := AcceptedTurn(None, r);
    if m.Delta? && m.text != [] {
      assert Updated(accepted, m, e).message == Some(Cut([] + m.text)) && Cut([] + m.text) != [];
    } else if m.Completed? {
      assert Updated(accepted, m, e).completedAt.Some?;
    }
  }

  lemma {:induction false} NewestIsInProgress(order: seq<TurnId>, turns: map<TurnId, Turn>, thread: Option<ThreadId>)
    ensures var id := Newest(order, turns, thread); id.Some? ==> id.value in turns && turns[id.value].status == InProgress
  {
    if order != [] {
      NewestIsInProgress(order[..|order| - 1], turns, thread);
    }
  }

  lemma AddresseeIsKnown(c: Client, m: Notification)
    ensures var id := Addressee(c, m);
            id.Some? ==> id.value in c.turns && (id != m.turn ==> c.turns[id.value].status == InProgress)
  {
    if m.Rerouted? {
      NewestIsInProgress(c.order, c.turns, m.thread);
    } else if m.Error? {
      NewestIsInProgress(c.order, c.turns, None);
    }
  }

  /** Only the start of a turn creates its record. */
  lemma StepKeepsOthersOut(c: Client, m: Notification, id: TurnId)
    requires id !in c.turns && !StartsTurn(m, id)
    ensures id !in Step(c, m).turns
  {
    AddresseeIsKnown(c, m);
  }

  lemma InertOnUnknown(c: Client, m: Notification)
    requires Inert(m) && m.turn.Some? && m.turn.value !in c.turns
    ensures Step(c, m).turns == c.turns && Step(c, m) == Noted(c, m).(turns := c.turns)
  {
    AddresseeIsKnown(c, m);
  }

  // ---- The end of the turn reaches whoever waits for it ----

  lemma StoredThenWaited(c: Client, m: Notification, id: TurnId, t: Turn, turn: TurnId, w: Waiter)
    requires turn in c.turns && c.turns[turn].status == InProgress && c.turns[turn].resolve.None?
    requires id in c.turns && (id == turn ==> t.status == InProgress && !m.Completed?)
    ensures var u := if id == turn then t.(resolve := Some(w)) else t;
            Stored(Wait(c, turn, w), m, id, u) == Wait(Stored(c, m, id, t), turn, w)
  {
    var u := if id == turn then t.(resolve := Some(w)) else t;
    assert Stored(Wait(c, turn, w), m, id, u).turns == Wait(Stored(c, m, id, t), turn, w).turns;
  }

  lemma WaitedThenUpdated(t: Turn, m: Notification, e: Option<ProviderError>, w: Waiter)
    requires !m.Started? && !m.Completed?
    ensures Updated(t.(resolve := Some(w)), m, e) == Updated(t, m, e).(resolve := Some(w))
  {
  }

  lemma StartedThenWaited(c: Client, m: Notification, id: TurnId, w: Waiter)
    requires id in c.turns && c.turns[id].status == InProgress && c.turns[id].resolve.None?
    requires m.Started?
    ensures id in Step(c, m).turns && Step(c, m).turns[id].status == InProgress && Step(c, m).turns[id].resolve.None?
    ensures Step(Wait(c, id, w), m) == Wait(Step(c, m), id, w)
  {
    assert Step(Wait(c, id, w), m).turns == Wait(Step(c, m), id, w).turns;
  }

  lemma OtherThenWaited(c: Client, m: Notification, id: TurnId, w: Waiter, a: TurnId)
    requires id in c.turns && c.turns[id].status == InProgress && c.turns[id].resolve.None?
    requires !m.Started? && !CompletesTurn(m, id) && a in c.turns && (m.Completed? ==> m.turn == Some(a))
    ensures var d := Stored(c, m, a, Updated(c.turns[a], m, c.latestError));
            && id in d.turns && d.turns[id].status == InProgress && d.turns[id].resolve.None?
            && Stored(Wait(c, id, w), m, a, Updated(Wait(c, id, w).turns[a], m, c.latestError)) == Wait(d, id, w)
  {
    var t := Updated(c.turns[a], m, c.latestError);
    UpdatedWaits(c.turns[a], m, c.latestError);
    if a == id {
      WaitedThenUpdated(c.turns[id], m, c.latestError, w);
    }
    StoredThenWaited(c, m, a, t, id, w);
  }

  lemma WaitCommutes(c: Client, m: Notification, id: TurnId, w: Waiter)
    requires id in c.turns && c.turns[id].status == InProgress && c.turns[id].resolve.None?
    requires !CompletesTurn(m, id)
    ensures id in Step(c, m).turns && Step(c, m).turns[id].status == InProgress && Step(c, m).turns[id].resolve.None?
    ensures Step(Wait(c, id, w), m) == Wait(Step(c, m), id, w)
  {
    if m.Started? {
      StartedThenWaited(c, m, id, w);
    } else {
      AddresseeSees(c, Wait(c, id, w), m);
      var a := Addressee(c, m);
      if a.Some? && a.value in c.turns {
        OtherThenWaited(c, m, id, w, a.value);
      }
    }
  }

  lemma {:induction false} WaitCommutesWithRun(c: Client, ms: seq<Notification>, id: TurnId, w: Waiter)
    requires id in c.turns && c.turns[id].status == InProgress && c.turns[id].resolve.None?
    requires forall i :: 0 <= i < |ms| ==> !CompletesTurn(ms[i], id)
    ensures id in Run(c, ms).turns && Run(c, ms).turns[id].status == InProgress && Run(c, ms).turns[id].resolve.None?
    ensures Run(Wait(c, id, w), ms) == Wait(Run(c, ms), id, w)
    decreases ms
  {
    if ms != [] {
      WaitCommutes(c, ms[0], id, w);
      WaitCommutesWithRun(Step(c, ms[0]), ms[1..], id, w);
    }
  }

  /** Completion with and without somebody waiting leaves the same record, and hands it over. */
  lemma CompletionHandsOver(c: Client, m: Notification, id: TurnId, w: Waiter)
    requires id in c.turns && c.turns[id].status == InProgress && c.turns[id].resolve.None?
    requires CompletesTurn(m, id)
    ensures id in Step(c, m).turns
    ensures var d := Step(Wait(c, id, w), m);
            && id in d.turns && d.turns[id] == Step(c, m).turns[id]
            && w in d.results && d.results[w] == Step(c, m).turns[id]
  {
  }

  lemma SubmittedAndAwaitedAtOnce(c: Client, r: Response, ms: seq<Notification>, done: Notification, w: Waiter, k: nat)
    requires ms != [] && StartsTurn(ms[0], r.turn) && r.turn !in c.turns
    requires forall i :: 0 <= i < |ms| ==> !CompletesTurn(ms[i], r.turn)
    requires CompletesTurn(done, r.turn) && done.status != Some(InProgress)
    requires k <= |ms| + 1
    ensures var all := ms + [done];
            var after := Run(Accept(c, r), all);
            var accepted := Accept(Run(c, all[..k]), r);
            && r.turn in accepted.turns && r.turn in after.turns
            && w in Run(Wait(accepted, r.turn, w), all[k..]).results
            && Run(Wait(accepted, r.turn, w), all[k..]).results[w] == after.turns[r.turn]
  {
    var all := ms + [done];
    RaceIsConfluent(c, r, all, k);
    var accepted := Accept(Run(c, all[..k]), r);
    var after := Run(Accept(c, r), all);
    AcceptCommutesWithRun(c, r, all[..k]);
    InProgressUntilCompleted(c, r, ms);
    var last := Run(Accept(c, r), ms);
    RunAppend(Accept(c, r), ms, [done]);
    RunOne(last, done);
    if k == |ms| + 1 {
      assert all[..k] == all && all[k..] == [];
      assert accepted == after;
    } else {
      assert all[..k] == ms[..k] && all[k..] == ms[k..] + [done];
      RaceIsConfluent(c, r, ms, k);
      InProgressUntilCompleted(c, r, ms[..k]);
      WaitCommutesWithRun(accepted, ms[k..], r.turn, w);
      RunAppend(Wait(accepted, r.turn, w), ms[k..], [done]);
      CompletionHandsOver(last, done, r.turn, w);
      RunOne(Wait(last, r.turn, w), done);
    }
  }

  /**
   No completion is lost to the race. Take the notifications of a turn from the one that starts it
   to the one that completes it with a final status. Let the submission run at any point between
   them or after the last, and the wait at any point from there on: the waiter is given one and the
   same record.
   */
  lemma CompletionReachesTheWaiter(c: Client, r: Response, ms: seq<Notification>, done: Notification, w: Waiter,
                                   k: nat, k': nat)
    requires ms != [] && StartsTurn(ms[0], r.turn) && r.turn !in c.turns
    requires forall i :: 0 <= i < |ms| ==> !CompletesTurn(ms[i], r.turn)
    requires CompletesTurn(done, r.turn) && done.status != Some(InProgress)
    requires k <= k' <= |ms| + 1
    ensures var all := ms + [done];
            var after := Run(Accept(c, r), all);
            var accepted := Run(Accept(Run(c, all[..k]), r), all[k..k']);
            && r.turn in accepted.turns && r.turn in after.turns
            && w in Run(Wait(accepted, r.turn, w), all[k'..]).results
            && Run(Wait(accepted, r.turn, w), all[k'..]).results[w] == after.turns[r.turn]
  {
    var all := ms + [done];
    var seen := all[..k'];
    assert seen[..k] == all[..k] && seen[k..] == all[k..k'];
    assert seen != [] ==> seen[0] == ms[0];
    RaceIsConfluent(c, r, seen, k);
    AcceptCommutesWithRun(c, r, seen);
    SubmittedAndAwaitedAtOnce(c, r, ms, done, w, k');
  }

  lemma InProgressUntilCompleted(c: Client, r: Response, ms: seq<Notification>)
    requires ms == [] || StartsTurn(ms[0], r.turn)
    requires r.turn !in c.turns && forall i :: 0 <= i < |ms| ==> !CompletesTurn(ms[i], r.turn)
    ensures var d := Run(Accept(c, r), ms);
            r.turn in d.turns && d.turns[r.turn].status == InProgress && d.turns[r.turn].resolve.None?
  {
    WaitCommutesWithRun(Accept(c, r), ms, r.turn, 0);
  }

  /** Nobody has heard of this waiter. */
  predicate Unheard(c: Client, w: Waiter) {
    w !in c.results && forall id :: id in c.turns ==> c.turns[id].resolve != Some(w)
  }

  lemma StaysUnheard(c: Client, m: Notification, w: Waiter)
    requires Unheard(c, w)
    ensures Unheard(Step(c, m), w)
  {
    AddresseeIsKnown(c, m);
    var a := Addressee(c, m);
    if !m.Started? && a.Some? {
      UpdatedWaits(c.turns[a.value], m, c.latestError);
    }
  }

  lemma {:induction false} StaysUnheardInRun(c: Client, ms: seq<Notification>, w: Waiter)
    requires Unheard(c, w)
    ensures Unheard(Run(c, ms), w)
    decreases ms
  {
    if ms != [] {
      StaysUnheard(c, ms[0], w);
      StaysUnheardInRun(Step(c, ms[0]), ms[1..], w);
    }
  }

  /**
   The worst loss: when the end of a turn comes before its record exists, whoever waits for the turn
   afterwards is left waiting by every continuation in which the turn does not end once more.
   */
  lemma EarlyCompletionIsLost(c: Client, r: Response, done: Notification, w: Waiter, ms: seq<Notification>)
    requires r.turn !in c.turns && CompletesTurn(done, r.turn) && Unheard(c, w)
    requires forall i :: 0 <= i < |ms| ==> !CompletesTurn(ms[i], r.turn)
    ensures var accepted := Accept(Step(c, done), r);
            && r.turn in accepted.turns
            && var later := Run(Wait(accepted, r.turn, w), ms);
               && w !in later.results
               && r.turn in later.turns && later.turns[r.turn].status == InProgress && later.turns[r.turn].resolve == Some(w)
  {
    StepKeepsOthersOut(c, done, r.turn);
    StaysUnheard(c, done, w);
    var accepted := Accept(Step(c, done), r);
    WaitCommutesWithRun(accepted, ms, r.turn, w);
    StaysUnheardInRun(accepted, ms, w);
  }

  lemma EndedTurnIsPassedBy(c: Client, m: Notification, id: TurnId)
    requires id in c.turns && c.turns[id].status.Ended? && m.turn != Some(id)
    ensures id in Step(c, m).turns && Step(c, m).turns[id] == c.turns[id]
  {
    AddresseeIsKnown(c, m);
  }

  /**
   What a waiter is handed is the live record, and more lines may be handled before it looks. The
   record is still the one that completed unless some of them name the turn: once a turn has ended,
   the searches that errors and reroutings without a turn make pass it by.
   */
  lemma {:induction false} EndedTurnIsLeftAlone(c: Client, ms: seq<Notification>, id: TurnId)
    requires id in c.turns && c.turns[id].status.Ended?
    requires forall i :: 0 <= i < |ms| ==> ms[i].turn != Some(id)
    ensures id in Run(c, ms).turns && Run(c, ms).turns[id] == c.turns[id]
    decreases ms
  {
    if ms != [] {
      EndedTurnIsPassedBy(c, ms[0], id);
      EndedTurnIsLeftAlone(Step(c, ms[0]), ms[1..], id);
    }
  }

  // ---- No text is lost ----

  function Concatenation(texts: seq<Text>): Text {
    if texts == [] then [] else texts[0] + Concatenation(texts[1..])
  }

  function Deltas(id: TurnId, texts: seq<Text>): seq<Notification> {
    if texts == [] then [] else [Delta(Some(id), texts[0], None)] + Deltas(id, texts[1..])
  }

  function MessageOf(c: Client, id: TurnId): Text {
    if id in c.turns then c.turns[id].message.GetOr([]) else []
  }

  lemma CutOfCut(a: Text, b: Text)
    ensures Cut(Cut(a) + b) == Cut(a + b)
  {
    if |a| > MESSAGE_LIMIT {
      assert (a[..MESSAGE_LIMIT] + b)[..MESSAGE_LIMIT] == (a + b)[..MESSAGE_LIMIT];
    }
  }

  lemma DeltaAppends(c: Client, id: TurnId, text: Text) returns (d: Client)
    requires id in c.turns && Flat(c.turns[id].active).None?
    requires |MessageOf(c, id)| <= MESSAGE_LIMIT
    ensures d == Step(c, Delta(Some(id), text, None))
    ensures id in d.turns && Flat(d.turns[id].active).None?
    ensures MessageOf(d, id) == Cut(MessageOf(c, id) + text)
  {
    d := Step(c, Delta(Some(id), text, None));
    assert text == [] ==> MessageOf(c, id) + text == MessageOf(c, id);
  }

  lemma CutConcatenation(before: Text, texts: seq<Text>)
    requires texts != []
    ensures Cut(Cut(before + texts[0]) + Concatenation(texts[1..])) == Cut(before + Concatenation(texts))
  {
    CutOfCut(before + texts[0], Concatenation(texts[1..]));
    assert before + texts[0] + Concatenation(texts[1..]) == before + Concatenation(texts);
  }

  lemma RunHead(c: Client, id: TurnId, texts: seq<Text>)
    requires texts != []
    ensures Run(c, Deltas(id, texts)) == Run(Step(c, Delta(Some(id), texts[0], None)), Deltas(id, texts[1..]))
  {
    assert Deltas(id, texts)[1..] == Deltas(id, texts[1..]);
  }

  /** Deltas of a turn with no open agent message append to its text, up to the limit on the whole. */
  lemma {:induction false} DeltasAccumulate(c: Client, id: TurnId, texts: seq<Text>)
    requires id in c.turns && Flat(c.turns[id].active).None?
    requires |MessageOf(c, id)| <= MESSAGE_LIMIT
    ensures MessageOf(Run(c, Deltas(id, texts)), id) == Cut(MessageOf(c, id) + Concatenation(texts))
    decreases texts
  {
    if texts == [] {
      assert MessageOf(c, id) + Concatenation(texts) == MessageOf(c, id);
    } else {
      RunHead(c, id, texts);
      var d := DeltaAppends(c, id, texts[0]);
      DeltasAccumulate(d, id, texts[1..]);
      CutConcatenation(MessageOf(c, id), texts);
    }
  }

  function ActiveText(c: Client, id: TurnId): Option<Text> {
    if id in c.turns && Flat(c.turns[id].active).Some? then Some(Flat(c.turns[id].active).value.text) else None
  }

  lemma ActiveDeltaAppends(c: Client, id: TurnId, text: Text) returns (d: Client)
    requires id in c.turns && Flat(c.turns[id].active).Some? && |ActiveText(c, id).value| <= MESSAGE_LIMIT
    ensures d == Step(c, Delta(Some(id), text, None))
    ensures id in d.turns && ActiveText(d, id) == Some(Cut(ActiveText(c, id).value + text))
    ensures Flat(d.turns[id].active).value.id == Flat(c.turns[id].active).value.id
  {
    d := Step(c, Delta(Some(id), text, None));
    assert text == [] ==> ActiveText(c, id).value + text == ActiveText(c, id).value;
  }

  /** While an agent message is open, deltas collect in it. */
  lemma {:induction false} ActiveDeltasAccumulate(c: Client, id: TurnId, texts: seq<Text>) returns (d: Client)
    requires id in c.turns && Flat(c.turns[id].active).Some? && |ActiveText(c, id).value| <= MESSAGE_LIMIT
    ensures d == Run(c, Deltas(id, texts))
    ensures id in d.turns && ActiveText(d, id) == Some(Cut(ActiveText(c, id).value + Concatenation(texts)))
    ensures Flat(d.turns[id].active).value.id == Flat(c.turns[id].active).value.id
    decreases texts
  {
    if texts == [] {
      d := c;
      assert ActiveText(c, id).value + Concatenation(texts) == ActiveText(c, id).value;
    } else {
      RunHead(c, id, texts);
      var e := ActiveDeltaAppends(c, id, texts[0]);
      d := ActiveDeltasAccumulate(e, id, texts[1..]);
      CutConcatenation(ActiveText(c, id).value, texts);
    }
  }

  /**
   A streamed agent message becomes the turn's message: whatever it started with and every delta,
   in order and up to the limit, also when the completing item repeats no text.
   */
  lemma StreamedMessageIsKept(c: Client, id: TurnId, item: Option<Text>, first: Text, texts: seq<Text>) returns (d: Client)
    requires id in c.turns && first + Concatenation(texts) != []
    ensures d == Run(c, [ItemStarted(Some(id), Message(item, first))] + Deltas(id, texts) + [ItemCompleted(Some(id), Message(item, []))])
    ensures MessageOf(d, id) == Cut(first + Concatenation(texts))
    ensures id in d.turns && d.turns[id].active == Some(None)
  {
    var started := ItemStarted(Some(id), Message(item, first));
    var completed := ItemCompleted(Some(id), Message(item, []));
    var begun := MessageOpens(c, id, item, first);
    var streamed := ActiveDeltasAccumulate(begun, id, texts);
    CutOfCut(first, Concatenation(texts));
    RunOne(c, started);
    RunAppend(c, [started], Deltas(id, texts));
    RunAppend(c, [started] + Deltas(id, texts), [completed]);
    RunOne(streamed, completed);
    d := MessageCloses(streamed, id, item, Cut(first + Concatenation(texts)));
  }

  lemma MessageOpens(c: Client, id: TurnId, item: Option<Text>, first: Text) returns (d: Client)
    requires id in c.turns
    ensures d == Step(c, ItemStarted(Some(id), Message(item, first)))
    ensures id in d.turns && ActiveText(d, id) == Some(Cut(first))
    ensures item.Some? ==> Flat(d.turns[id].active).value.id == item
  {
    d := Step(c, ItemStarted(Some(id), Message(item, first)));
  }

  lemma MessageCloses(c: Client, id: TurnId, item: Option<Text>, text: Text) returns (d: Client)
    requires id in c.turns && ActiveText(c, id) == Some(text) && text != [] && |text| <= MESSAGE_LIMIT
    requires item.Some? ==> Flat(c.turns[id].active).value.id == item
    ensures d == Step(c, ItemCompleted(Some(id), Message(item, [])))
    ensures id in d.turns && MessageOf(d, id) == text && d.turns[id].active == Some(None)
  {
    d := Step(c, ItemCompleted(Some(id), Message(item, [])));
  }

  /** Of the tool calls of a turn, the last eight are kept. */
  lemma LastOfLast<T>(a: seq<T>, b: seq<T>, n: nat)
    ensures LastN(LastN(a, n) + b, n) == LastN(a + b, n)
  {
    if |a| > n {
      assert (LastN(a, n) + b)[|b|..] == (a + b)[|a| + |b| - n..];
    }
  }

  function ToolCalls(id: TurnId, invocations: seq<Invocation>): seq<Notification> {
    if invocations == [] then []
    else ToolCalls(id, invocations[..|invocations| - 1]) + [ItemCompleted(Some(id), ToolCall(Some(invocations[|invocations| - 1])))]
  }

  function InvocationsOf(c: Client, id: TurnId): seq<Invocation> {
    if id in c.turns then c.turns[id].invocations.GetOr([]) else []
  }

  lemma ToolCallAppends(c: Client, id: TurnId, invocation: Invocation) returns (d: Client)
    requires id in c.turns
    ensures d == Step(c, ItemCompleted(Some(id), ToolCall(Some(invocation))))
    ensures id in d.turns && InvocationsOf(d, id) == LastN(InvocationsOf(c, id) + [invocation], INVOCATION_LIMIT)
  {
    d := Step(c, ItemCompleted(Some(id), ToolCall(Some(invocation))));
  }

  lemma {:induction false} ToolCallsAreKept(c: Client, id: TurnId, invocations: seq<Invocation>) returns (d: Client)
    requires id in c.turns && |InvocationsOf(c, id)| <= INVOCATION_LIMIT
    ensures d == Run(c, ToolCalls(id, invocations))
    ensures id in d.turns && InvocationsOf(d, id) == LastN(InvocationsOf(c, id) + invocations, INVOCATION_LIMIT)
    decreases |invocations|
  {
    if invocations == [] {
      d := c;
      assert InvocationsOf(c, id) + invocations == InvocationsOf(c, id);
    } else {
      var n := |invocations| - 1;
      var before := ToolCallsAreKept(c, id, invocations[..n]);
      var last := ItemCompleted(Some(id), ToolCall(Some(invocations[n])));
      RunAppend(c, ToolCalls(id, invocations[..n]), [last]);
      RunOne(before, last);
      d := ToolCallAppends(before, id, invocations[n]);
      LastOfLast(InvocationsOf(c, id) + invocations[..n], [invocations[n]], INVOCATION_LIMIT);
      assert InvocationsOf(c, id) + invocations[..n] + [invocations[n]] == InvocationsOf(c, id) + invocations;
    }
  }

  // ---- What each field of a record says ----

  /** The place of a turn in the order of insertion, in progress and of the wanted thread. */
  predicate Candidate(order: seq<TurnId>, turns: map<TurnId, Turn>, thread: Option<ThreadId>, i: nat) {
    && i < |order| && order[i] in turns && turns[order[i]].status == InProgress
    && (thread.None? || turns[order[i]].threadId == thread.value)
  }

  /** The search finds the candidate that was inserted last. */
  lemma {:induction false} NewestIsLast(order: seq<TurnId>, turns: map<TurnId, Turn>, thread: Option<ThreadId>)
    ensures var found := Newest(order, turns, thread);
            && (found.None? <==> forall i :: 0 <= i < |order| ==> !Candidate(order, turns, thread, i))
            && (found.Some? ==> exists i :: 0 <= i < |order| && Candidate(order, turns, thread, i) && order[i] == found.value
                                            && forall j :: i < j < |order| ==> !Candidate(order, turns, thread, j))
  {
    if order != [] {
      var n := |order| - 1;
      if Candidate(order, turns, thread, n) {
        assert order[n] == Newest(order, turns, thread).value;
      } else {
        NewestIsLast(order[..n], turns, thread);
        assert forall i :: 0 <= i < n ==> (Candidate(order[..n], turns, thread, i) <==> Candidate(order, turns, thread, i));
        var found := Newest(order[..n], turns, thread);
        if found.Some? {
          var i :| 0 <= i < n && Candidate(order[..n], turns, thread, i) && order[..n][i] == found.value
                   && forall j :: i < j < n ==> !Candidate(order[..n], turns, thread, j);
          assert Candidate(order, turns, thread, i) && order[i] == found.value;
        }
      }
    }
  }

  /** The record that a notification is about: the turn it names, or for reroutings and errors the newest candidate. */
  lemma AddresseeIs(c: Client, m: Notification)
    ensures m.turn.Some? && m.turn.value in c.turns ==> Addressee(c, m) == m.turn
    ensures !(m.turn.Some? && m.turn.value in c.turns) ==>
              Addressee(c, m) == if m.Error? then Newest(c.order, c.turns, None)
                                 else if m.Rerouted? && m.thread.Some? then Newest(c.order, c.turns, m.thread)
                                 else None
  {
  }

  /** The open agent message takes text that names it, or where one of the two has no name. */
  predicate Takes(active: Option<AgentMessage>, item: Option<Text>) {
    active.Some? && (item.None? || active.value.id.None? || item.value == active.value.id.value)
  }

  /** The tool call that a notification reports, at its start and again at its end. */
  function Carried(m: Notification): Option<Invocation> {
    if (m.ItemStarted? || m.ItemCompleted?) && m.item.ToolCall? then m.item.invocation else None
  }

  /** Status, model, effort, error and end: only completions, reroutings and errors touch them. */
  predicate VerdictFields(t: Turn, m: Notification, latest: Option<ProviderError>, u: Turn) {
    && u.status == (if m.Completed? then (if m.status.Some? then m.status.value else Ended(Ascii("COMPLETED"))) else t.status)
    && u.observedModel == (if m.Completed? && m.model.Some? then m.model
                           else if m.Rerouted? && m.toModel.Some? then m.toModel else t.observedModel)
    && u.observedEffort == (if m.Completed? && m.effort.Some? then m.effort else t.observedEffort)
    && u.completedAt == (if m.Completed? then Some(m.at) else t.completedAt)
    && u.error == (if m.Error? && m.error.Some? then m.error
                   else if m.Completed? then (if m.error.Some? then m.error else if t.error.Some? then t.error else latest)
                   else t.error)
    && u.resolve == (if m.Completed? then None else t.resolve)
  }

  /** Usage, tool calls, and what no notification touches. */
  predicate OtherFields(t: Turn, m: Notification, u: Turn) {
    && u.usage == (if m.UsageUpdated? then Some(Some(m.usage)) else t.usage)
    && u.invocations == (if Carried(m).Some? then Some(LastN(t.invocations.GetOr([]) + [Carried(m).value], 8)) else t.invocations)
    && u.threadId == t.threadId && u.startedAt == t.startedAt && u.continuation == t.continuation && u.request == t.request
  }

  /** The text of the turn and the open agent message. */
  predicate TextFields(t: Turn, m: Notification, u: Turn) {
    var open := Flat(t.active);
    var text := t.message.GetOr([]);
    match m
    case Delta(_, more, item) =>
      && u.finalMessageId == t.finalMessageId
      && (more == [] ==> u.message == t.message && u.active == t.active)
      && (more != [] && Takes(open, item) ==>
            u.message == t.message && u.active == Some(Some(AgentMessage(open.value.id, Cut(open.value.text + more)))))
      && (more != [] && !Takes(open, item) ==> u.active == t.active && u.message == Some(Cut(text + more)))
    case ItemStarted(_, Message(id, first)) =>
      && u.message == t.message && u.finalMessageId == t.finalMessageId
      && u.active == Some(Some(AgentMessage(if id.Some? then id else if open.Some? then open.value.id else None, Cut(first))))
    case ItemCompleted(_, Message(id, full)) =>
      var name := if id.Some? then id else if open.Some? then open.value.id else None;
      var said := if full != [] then full else if Takes(open, name) then open.value.text else [];
      && u.active == Some(None)
      && (said == [] ==> u.message == t.message && u.finalMessageId == t.finalMessageId)
      && (said != [] ==> u.message == Some(Cut(said)) && u.finalMessageId == Some(name))
    case _ => u.message == t.message && u.active == t.active && u.finalMessageId == t.finalMessageId
  }

  /** A notification about a record changes exactly these of its fields. */
  lemma UpdatedFields(t: Turn, m: Notification, latest: Option<ProviderError>)
    requires !m.Started?
    ensures var u := Updated(t, m, latest);
            VerdictFields(t, m, latest, u) && OtherFields(t, m, u) && TextFields(t, m, u)
  {
  }

  /** What the start of a turn says of it, and what it keeps of a record that was there before. */
  predicate StartedFields(c: Client, m: Notification, d: Client)
    requires m.Started? && m.turn.Some? && m.thread.Some?
  {
    var id := m.turn.value;
    && id in d.turns && d.turns.Keys == c.turns.Keys + {id} && (forall k :: k in c.turns && k != id ==> d.turns[k] == c.turns[k])
    && d.latestError.None? && d.latestUsage == c.latestUsage && d.results == c.results
    && d.order == (if id in c.turns then c.order else c.order + [id])
    && var u := d.turns[id];
    && u.threadId == m.thread.value && u.status == InProgress && u.startedAt == m.at
    && u.observedModel == m.model && u.observedEffort == m.effort
    && (if id in c.turns then
          var t := c.turns[id];
          && u.message == t.message && u.active == t.active && u.finalMessageId == t.finalMessageId && u.invocations == t.invocations
          && u.usage == t.usage && u.error == t.error && u.completedAt == t.completedAt && u.continuation == t.continuation
          && u.request == t.request && u.resolve == t.resolve
        else
          && u.message.None? && u.active.None? && u.finalMessageId.None? && u.invocations.None? && u.usage.None? && u.error.None?
          && u.completedAt.None? && u.continuation.None? && u.request.None? && u.resolve.None?)
  }

  lemma StartedRecord(c: Client, m: Notification)
    requires m.Started? && m.turn.Some? && m.thread.Some?
    ensures StartedFields(c, m, Step(c, m))
  {
  }

  /** The client-wide fields after any other notification, and the records it is not about. */
  lemma StepElsewhere(c: Client, m: Notification)
    requires !m.Started?
    ensures var d, a := Step(c, m), Addressee(c, m);
            && d.order == c.order && d.turns.Keys == c.turns.Keys
            && (forall k :: k in c.turns && Some(k) != a ==> d.turns[k] == c.turns[k])
            && (a.Some? && a.value in c.turns ==> d.turns[a.value] == Updated(c.turns[a.value], m, c.latestError))
            && d.latestError == (if m.Error? then m.error else c.latestError)
            && d.latestUsage == (if m.UsageUpdated? then Some(m.usage) else c.latestUsage)
            && (forall w :: w in d.results && w !in c.results ==>
                  m.Completed? && a.Some? && a.value in c.turns && c.turns[a.value].resolve == Some(w) && d.results[w] == d.turns[a.value])
  {
    AddresseeIsKnown(c, m);
  }

  /** The submission's continuation: what it adds to a record, and the record it makes where there is none. */
  predicate AcceptedFields(c: Client, r: Response, u: Turn) {
    && u.request == Some(r.request)
    && (if r.turn in c.turns then
          var t := c.turns[r.turn];
          && u.threadId == t.threadId && u.status == t.status && u.startedAt == t.startedAt
          && u.observedModel == t.observedModel && u.observedEffort == t.observedEffort
          && u.error == t.error && u.completedAt == t.completedAt && u.resolve == t.resolve
          && u.message == Some(t.message.GetOr([])) && u.active == Some(t.active.GetOr(None))
          && u.finalMessageId == Some(t.finalMessageId.GetOr(None)) && u.invocations == Some(t.invocations.GetOr([]))
          && u.usage == Some(t.usage.GetOr(None)) && u.continuation == Some(t.continuation.GetOr(r.continuation))
        else
          && u.threadId == r.thread && u.status == InProgress && u.startedAt == r.at
          && u.observedModel.None? && u.observedEffort.None? && u.error.None? && u.completedAt.None? && u.resolve.None?
          && u.message == Some([]) && u.active == Some(None) && u.finalMessageId == Some(None) && u.invocations == Some([])
          && u.usage == Some(None) && u.continuation == Some(r.continuation))
  }

  lemma AcceptedRecord(c: Client, r: Response)
    ensures var d := Accept(c, r);
            && r.turn in d.turns && AcceptedFields(c, r, d.turns[r.turn])
            && (forall k :: k in c.turns && k != r.turn ==> k in d.turns && d.turns[k] == c.turns[k])
            && d.turns.Keys == c.turns.Keys + {r.turn}
            && d.latestError == c.latestError && d.latestUsage == c.latestUsage && d.results == c.results
  {
  }

  // ---- The observed model over a whole run ----

  /** The model that some notifications about a turn name last; a start of the turn forgets the ones before it. */
  function LastModel(ms: seq<Notification>, id: TurnId, before: Option<Text>): Option<Text>
    decreases ms
  {
    if ms == [] then before
    else
      var m, n := ms[|ms| - 1], |ms| - 1;
      if StartsTurn(m, id) then m.model
      else if m.turn == Some(id) && m.Completed? && m.model.Some? then m.model
      else if m.turn == Some(id) && m.Rerouted? && m.toModel.Some? then m.toModel
      else LastModel(ms[..n], id, before)
  }

  /** Whatever else arrives, the observed model is the one named last, by a start, a rerouting or a completion of the turn. */
  lemma {:induction false} ModelIsLastNamed(c: Client, ms: seq<Notification>, id: TurnId)
    requires id in c.turns && forall i :: 0 <= i < |ms| && ms[i].Rerouted? ==> ms[i].turn == Some(id) || ms[i].thread.None?
    ensures id in Run(c, ms).turns && Run(c, ms).turns[id].observedModel == LastModel(ms, id, c.turns[id].observedModel)
    decreases |ms|
  {
    if ms != [] {
      var n := |ms| - 1;
      assert ms == ms[..n] + [ms[n]];
      ModelIsLastNamed(c, ms[..n], id);
      RunAppend(c, ms[..n], [ms[n]]);
      RunOne(Run(c, ms[..n]), ms[n]);
      ModelStep(Run(c, ms[..n]), ms[n], id);
    }
  }

  lemma ModelStep(c: Client, m: Notification, id: TurnId)
    requires id in c.turns && (m.Rerouted? ==> m.turn == Some(id) || m.thread.None?)
    ensures id in Step(c, m).turns
    ensures Step(c, m).turns[id].observedModel ==
              if StartsTurn(m, id) then m.model
              else if m.turn == Some(id) && m.Completed? && m.model.Some? then m.model
              else if m.turn == Some(id) && m.Rerouted? && m.toModel.Some? then m.toModel
              else c.turns[id].observedModel
  {
    if m.Started? {
      if m.turn.Some? && m.thread.Some? {
        StartedRecord(c, m);
      }
    } else {
      StepElsewhere(c, m);
      AddresseeIs(c, m);
      if Addressee(c, m).Some? && Addressee(c, m).value in c.turns {
        UpdatedFields(c.turns[Addressee(c, m).value], m, c.latestError);
      }
    }
  }
}
