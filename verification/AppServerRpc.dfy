/**
 The JSON-RPC multiplexer of the app-server client: requests with increasing ids, a map of
 pending ones with a timer each, replies matched by the printed id, and transport failures that
 reject everything pending. Each callback of the event loop is one step.
 */
module AppServerRpc {
  import opened Text
  import opened Common
  import opened LineFraming

  datatype Code =
    | RpcTimeout | WriteFailed | ProcessExited | StartFailed | BufferLimit | InvalidJson
    | MethodNotAllowed | NotInitialized | Offline

  /** A message with an id, already printed as `String(id)`; `failed` when its error is truthy. */
  datatype Reply = Reply(key: Text, failed: bool, content: Text)

  datatype Outcome = Resolved(reply: Reply) | Refused(reply: Reply) | Rejected(code: Code)

  datatype Pending = Pending(id: nat, name: Text)

  datatype Settlement = Settlement(id: nat, outcome: Outcome)

  /**
   `pending` lists the entries of the map in insertion order. `issued` and `settled` are the
   history: the methods of all requests, and every call of a request's resolve or reject.
   */
  datatype Client = Client(
    alive: bool,
    initialized: bool,
    nextId: nat,
    pending: seq<Pending>,
    timers: set<nat>,
    issued: seq<Text>,
    settled: seq<Settlement>)

  const INITIALIZE: Text := Ascii("initialize")

  const INITIAL := Client(false, false, 1, [], {}, [], [])

  datatype Incoming = Answer(reply: Reply) | Notice | Malformed

  datatype Step =
    | Spawn
    | Initialize
    | Issue(name: Text, listed: bool, early: bool, writeThrows: bool)
    | Receive(message: Incoming)
    | Expire(id: nat)
    | Fail(code: Code)
    | Exit

  // ---- Steps ----

  function Lookup(pending: seq<Pending>, key: Text): Option<Pending> {
    if pending == [] then None
    else if Decimal(pending[0].id) == key then Some(pending[0])
    else Lookup(pending[1..], key)
  }

  function Without(pending: seq<Pending>, key: Text): seq<Pending> {
    if pending == [] then []
    else if Decimal(pending[0].id) == key then pending[1..]
    else [pending[0]] + Without(pending[1..], key)
  }

  function Rejections(pending: seq<Pending>, code: Code): seq<Settlement> {
    seq(|pending|, i requires 0 <= i < |pending| => Settlement(pending[i].id, Rejected(code)))
  }

  function PendingIds(pending: seq<Pending>): set<nat> {
    set p | p in pending :: p.id
  }

  function FailPending(c: Client, code: Code): Client {
    c.(pending := [], timers := c.timers - PendingIds(c.pending), settled := c.settled + Rejections(c.pending, code))
  }

  /** Why a request is refused before it gets an id. */
  function Refusal(c: Client, s: Step): Option<Code>
    requires s.Issue?
  {
    if !s.listed && !(s.early && s.name == INITIALIZE) then Some(MethodNotAllowed)
    else if !s.early && !c.initialized then Some(NotInitialized)
    else if !c.alive then Some(Offline)
    else None
  }

  function Settle(c: Client, p: Pending, outcome: Outcome): Client {
    c.(pending := Without(c.pending, Decimal(p.id)), timers := c.timers - {p.id},
    settled := c.settled + [Settlement(p.id, outcome)])
  }

  function Next(c: Client, s: Step): Client {
    match s
    case Spawn => c.(alive := true)
    case Initialize => c.(initialized := true)
    case Issue(name, _, _, writeThrows) =>
      if Refusal(c, s).Some? then c
      else
        var p := Pending(c.nextId, name);
        var d := c.(nextId := c.nextId + 1, issued := c.issued + [name],
                 pending := c.pending + [p], timers := c.timers + {p.id});
        if writeThrows then Settle(d, p, Rejected(WriteFailed)) else d
    case Receive(Answer(reply)) =>
      (match Lookup(c.pending, reply.key)
       case None => c
       case Some(p) => Settle(c, p, if reply.failed then Refused(reply) else Resolved(reply)))
    case Receive(Notice) => c
    case Receive(Malformed) => FailPending(c, InvalidJson)
    case Expire(id) =>
      c.(pending := Without(c.pending, Decimal(id)), timers := c.timers - {id},
      settled := c.settled + [Settlement(id, Rejected(RpcTimeout))])
    case Fail(code) => FailPending(c, code)
    case Exit => FailPending(c.(alive := false, initialized := false), ProcessExited)
  }

  /** Only a live timer fires; everything else may happen at any time. */
  predicate Enabled(c: Client, s: Step) {
    s.Expire? ==> s.id in c.timers
  }

  predicate IsRun(c: Client, steps: seq<Step>)
    decreases steps
  {
    steps == [] || (Enabled(c, steps[0]) && IsRun(Next(c, steps[0]), steps[1..]))
  }

  function Run(c: Client, steps: seq<Step>): Client
    decreases steps
  {
    if steps == [] then c else Run(Next(c, steps[0]), steps[1..])
  }

  // ---- The invariant ----

  predicate IsSettled(c: Client, id: nat) {
    exists i :: 0 <= i < |c.settled| && c.settled[i].id == id
  }

  predicate IsPending(c: Client, id: nat) {
    exists i :: 0 <= i < |c.pending| && c.pending[i].id == id
  }

  predicate Once(c: Client) {
    && (forall i, j :: 0 <= i < j < |c.pending| ==> c.pending[i].id != c.pending[j].id)
    && (forall i, j :: 0 <= i < j < |c.settled| ==> c.settled[i].id != c.settled[j].id)
    && (forall i, j :: 0 <= i < |c.pending| && 0 <= j < |c.settled| ==> c.pending[i].id != c.settled[j].id)
  }

  /** Issued requests are the pending and the settled ones, and no other id is known. */
  ghost predicate Accounted(c: Client) {
    && c.nextId == |c.issued| + 1
    && (forall id: nat :: 1 <= id < c.nextId <==> IsPending(c, id) || IsSettled(c, id))
    && (forall i :: 0 <= i < |c.pending| ==> 1 <= c.pending[i].id < c.nextId && c.pending[i].name == c.issued[c.pending[i].id - 1])
  }

  ghost predicate Timed(c: Client) {
    forall id :: id in c.timers <==> IsPending(c, id)
  }

  predicate OwnReplies(c: Client) {
    forall i :: 0 <= i < |c.settled| && !c.settled[i].outcome.Rejected? ==>
      c.settled[i].outcome.reply.key == Decimal(c.settled[i].id)
  }

  ghost predicate Inv(c: Client) {
    Once(c) && Accounted(c) && Timed(c) && OwnReplies(c)
  }

  lemma {:induction false} LookupFinds(pending: seq<Pending>, key: Text)
    ensures Lookup(pending, key).Some? ==> Lookup(pending, key).value in pending && Decimal(Lookup(pending, key).value.id) == key
    ensures Lookup(pending, key).None? ==> forall i :: 0 <= i < |pending| ==> Decimal(pending[i].id) != key
  {
    if pending != [] && Decimal(pending[0].id) != key {
      LookupFinds(pending[1..], key);
      assert forall i :: 1 <= i < |pending| ==> pending[i] == pending[1..][i - 1];
    }
  }

  lemma {:induction false} LookupFirst(pending: seq<Pending>, key: Text, i: nat)
    requires i < |pending| && Decimal(pending[i].id) == key
    requires forall j :: 0 <= j < i ==> Decimal(pending[j].id) != key
    ensures Lookup(pending, key) == Some(pending[i])
    decreases i
  {
    if i > 0 {
      assert pending[1..][i - 1] == pending[i];
      LookupFirst(pending[1..], key, i - 1);
    }
  }

  lemma {:induction false} WithoutFirst(pending: seq<Pending>, key: Text, i: nat)
    requires i < |pending| && Decimal(pending[i].id) == key
    requires forall j :: 0 <= j < i ==> Decimal(pending[j].id) != key
    ensures Without(pending, key) == pending[..i] + pending[i + 1..]
    decreases i
  {
    if i > 0 {
      var rest := pending[1..];
      assert rest[i - 1] == pending[i];
      WithoutFirst(rest, key, i - 1);
      assert pending[..i] + pending[i + 1..] == [pending[0]] + (rest[..i - 1] + rest[i..]);
    }
  }

  lemma {:induction false} NoMatch(pending: seq<Pending>, key: Text)
    requires forall j :: 0 <= j < |pending| ==> Decimal(pending[j].id) != key
    ensures Lookup(pending, key) == None && Without(pending, key) == pending
  {
    if pending != [] {
      NoMatch(pending[1..], key);
    }
  }

  /** Deleting an entry keeps the others, in order. */
  predicate UniqueIds(pending: seq<Pending>) {
    forall i, j :: 0 <= i < j < |pending| ==> pending[i].id != pending[j].id
  }

  lemma UniqueTail(pending: seq<Pending>)
    requires UniqueIds(pending) && pending != []
    ensures UniqueIds(pending[1..]) && forall p :: p in pending[1..] ==> p.id != pending[0].id
  {
  }

  lemma UniqueCons(first: Pending, rest: seq<Pending>)
    requires UniqueIds(rest) && forall p :: p in rest ==> p.id != first.id
    ensures UniqueIds([first] + rest)
  {
  }

  lemma {:induction false} WithoutRemoves(pending: seq<Pending>, id: nat)
    requires UniqueIds(pending)
    ensures var rest := Without(pending, Decimal(id));
            UniqueIds(rest) && forall p :: p in rest <==> p in pending && p.id != id
  {
    if pending != [] {
      var rest := Without(pending[1..], Decimal(id));
      UniqueTail(pending);
      assert pending == [pending[0]] + pending[1..];
      if Decimal(pending[0].id) == Decimal(id) {
        DecimalInjective(pending[0].id, id);
      } else {
        WithoutRemoves(pending[1..], id);
        UniqueCons(pending[0], rest);
        assert pending[0].id != id;
      }
    }
  }

  lemma SettledPending(c: Client, p: Pending, outcome: Outcome)
    requires Once(c) && p in c.pending
    ensures var d := Settle(c, p, outcome);
            && (forall i :: 0 <= i < |d.pending| ==> d.pending[i] in c.pending && d.pending[i].id != p.id)
            && (forall i, j :: 0 <= i < j < |d.pending| ==> d.pending[i].id != d.pending[j].id)
            && (forall id :: IsPending(d, id) <==> IsPending(c, id) && id != p.id)
  {
    var d := Settle(c, p, outcome);
    WithoutRemoves(c.pending, p.id);
    assert forall i :: 0 <= i < |d.pending| ==> d.pending[i] in d.pending;
    forall id
      ensures IsPending(d, id) <==> IsPending(c, id) && id != p.id
    {
      if IsPending(c, id) && id != p.id {
        var i :| 0 <= i < |c.pending| && c.pending[i].id == id;
        assert c.pending[i] in d.pending;
      }
    }
  }

  lemma SettledOneMore(c: Client, p: Pending, outcome: Outcome)
    ensures var d := Settle(c, p, outcome);
            forall id :: IsSettled(d, id) <==> IsSettled(c, id) || id == p.id
  {
    var d := Settle(c, p, outcome);
    forall id
      ensures IsSettled(d, id) <==> IsSettled(c, id) || id == p.id
    {
      if IsSettled(c, id) {
        var i :| 0 <= i < |c.settled| && c.settled[i].id == id;
        assert d.settled[i].id == id;
      }
      assert d.settled[|c.settled|].id == p.id;
    }
  }

  lemma SettleKeepsOnce(c: Client, p: Pending, outcome: Outcome)
    requires Once(c) && p in c.pending
    ensures Once(Settle(c, p, outcome))
  {
    var d := Settle(c, p, outcome);
    SettledPending(c, p, outcome);
    var n := |c.settled|;
    assert d.settled == c.settled + [Settlement(p.id, outcome)];
    var k :| 0 <= k < |c.pending| && c.pending[k] == p;
    forall i, j | 0 <= i < |d.pending| && 0 <= j < |d.settled|
      ensures d.pending[i].id != d.settled[j].id
    {
      assert d.pending[i] in c.pending;
      var i' :| 0 <= i' < |c.pending| && c.pending[i'] == d.pending[i];
    }
  }

  lemma SettleKeepsInv(c: Client, p: Pending, outcome: Outcome)
    requires Inv(c) && p in c.pending
    requires !outcome.Rejected? ==> outcome.reply.key == Decimal(p.id)
    ensures Inv(Settle(c, p, outcome))
  {
    SettleKeepsOnce(c, p, outcome);
    SettledPending(c, p, outcome);
    SettledOneMore(c, p, outcome);
    assert IsPending(c, p.id) by {
      var k :| 0 <= k < |c.pending| && c.pending[k] == p;
    }
  }

  lemma FailSettles(c: Client, code: Code)
    ensures var d := FailPending(c, code);
            forall id :: IsSettled(d, id) <==> IsSettled(c, id) || IsPending(c, id)
  {
    var d := FailPending(c, code);
    var n := |c.settled|;
    forall id
      ensures IsSettled(d, id) <==> IsSettled(c, id) || IsPending(c, id)
    {
      if IsSettled(c, id) {
        var i :| 0 <= i < |c.settled| && c.settled[i].id == id;
        assert d.settled[i].id == id;
      }
      if IsPending(c, id) {
        var i :| 0 <= i < |c.pending| && c.pending[i].id == id;
        assert d.settled[n + i].id == id;
      }
      if IsSettled(d, id) {
        var j :| 0 <= j < |d.settled| && d.settled[j].id == id;
        assert if j < n then c.settled[j].id == id else c.pending[j - n].id == id;
      }
    }
  }

  lemma FailKeepsOnce(c: Client, code: Code)
    requires Once(c)
    ensures Once(FailPending(c, code))
  {
    var d := FailPending(c, code);
    var n := |c.settled|;
    forall i, j | 0 <= i < j < |d.settled|
      ensures d.settled[i].id != d.settled[j].id
    {
      if j >= n {
        assert d.settled[j].id == c.pending[j - n].id;
        assert i >= n ==> d.settled[i].id == c.pending[i - n].id;
      }
    }
  }

  lemma FailKeepsInv(c: Client, code: Code)
    requires Inv(c)
    ensures Inv(FailPending(c, code))
    ensures FailPending(c, code).pending == [] && FailPending(c, code).timers == {}
  {
    FailKeepsOnce(c, code);
    FailSettles(c, code);
    var d := FailPending(c, code);
    assert forall id :: !IsPending(d, id);
    forall id | id in c.timers
      ensures id in PendingIds(c.pending)
    {
      assert IsPending(c, id);
      var i :| 0 <= i < |c.pending| && c.pending[i].id == id;
      assert c.pending[i] in c.pending;
    }
  }

  lemma IssueKeepsInv(c: Client, name: Text)
    requires Inv(c)
    ensures var p := Pending(c.nextId, name);
            Inv(c.(nextId := c.nextId + 1, issued := c.issued + [name],
                pending := c.pending + [p], timers := c.timers + {p.id}))
  {
    var p := Pending(c.nextId, name);
    var d := c.(nextId := c.nextId + 1, issued := c.issued + [name],
             pending := c.pending + [p], timers := c.timers + {p.id});
    forall id
      ensures IsPending(d, id) <==> IsPending(c, id) || id == c.nextId
      ensures IsSettled(d, id) <==> IsSettled(c, id)
    {
      if IsPending(c, id) {
        var i :| 0 <= i < |c.pending| && c.pending[i].id == id;
        assert d.pending[i].id == id;
      }
      assert d.pending[|c.pending|].id == c.nextId;
    }
    assert forall j :: 0 <= j < |c.settled| ==> c.settled[j].id != c.nextId by {
      forall j | 0 <= j < |c.settled| ensures c.settled[j].id != c.nextId { assert IsSettled(c, c.settled[j].id); }
    }
  }

  lemma TimerMeansPending(c: Client, id: nat) returns (p: Pending)
    requires Inv(c) && id in c.timers
    ensures p in c.pending && p.id == id
  {
    assert IsPending(c, id);
    var i :| 0 <= i < |c.pending| && c.pending[i].id == id;
    p := c.pending[i];
  }

  lemma StepKeepsInv(c: Client, s: Step)
    requires Inv(c) && Enabled(c, s)
    ensures Inv(Next(c, s))
  {
    match s {
      case Spawn => Unrelated(c, Next(c, s));
      case Initialize => Unrelated(c, Next(c, s));
      case Issue(name, _, _, writeThrows) =>
        if Refusal(c, s).None? {
          IssueKeepsInv(c, name);
          if writeThrows {
            var p := Pending(c.nextId, name);
            var d := c.(nextId := c.nextId + 1, issued := c.issued + [name],
                     pending := c.pending + [p], timers := c.timers + {p.id});
            assert d.pending[|c.pending|] == p;
            SettleKeepsInv(d, p, Rejected(WriteFailed));
          }
        }
      case Receive(Answer(reply)) =>
        LookupFinds(c.pending, reply.key);
        var p := Lookup(c.pending, reply.key);
        if p.Some? {
          SettleKeepsInv(c, p.value, if reply.failed then Refused(reply) else Resolved(reply));
        }
      case Receive(Notice) =>
      case Receive(Malformed) => FailKeepsInv(c, InvalidJson);
      case Expire(id) =>
        var p := TimerMeansPending(c, id);
        SettleKeepsInv(c, p, Rejected(RpcTimeout));
      case Fail(code) => FailKeepsInv(c, code);
      case Exit =>
        Unrelated(c, c.(alive := false, initialized := false));
        FailKeepsInv(c.(alive := false, initialized := false), ProcessExited);
    }
  }

  lemma Unrelated(c: Client, d: Client)
    requires Inv(c) && d == c.(alive := d.alive, initialized := d.initialized)
    ensures Inv(d)
  {
    assert forall id :: IsPending(d, id) == IsPending(c, id) && IsSettled(d, id) == IsSettled(c, id);
  }

  lemma {:induction false} RunKeepsInv(c: Client, steps: seq<Step>)
    requires Inv(c) && IsRun(c, steps)
    ensures Inv(Run(c, steps))
    decreases steps
  {
    if steps != [] {
      StepKeepsInv(c, steps[0]);
      RunKeepsInv(Next(c, steps[0]), steps[1..]);
    }
  }

  lemma InitiallyInv()
    ensures Inv(INITIAL)
  {
    assert forall id :: !IsPending(INITIAL, id) && !IsSettled(INITIAL, id);
  }

  // ---- What callers rely on ----

  /**
   After any run, every request ever issued has its own id, is either pending with a live timer
   or settled, never both, and was settled at most once.
   */
  lemma EveryRequestIsAccounted(steps: seq<Step>)
    requires IsRun(INITIAL, steps)
    ensures var c := Run(INITIAL, steps);
            && (forall id: nat :: 1 <= id <= |c.issued| <==> IsPending(c, id) || IsSettled(c, id))
            && (forall id :: IsPending(c, id) ==> !IsSettled(c, id))
            && (forall id :: IsPending(c, id) <==> id in c.timers)
            && (forall i, j :: 0 <= i < j < |c.settled| ==> c.settled[i].id != c.settled[j].id)
            && |c.pending| + |c.settled| == |c.issued|
  {
    InitiallyInv();
    RunKeepsInv(INITIAL, steps);
    var c := Run(INITIAL, steps);
    Counting(c);
  }

  /** Distinct numbers that cover 1 to n are n numbers. */
  lemma Counting(c: Client)
    requires Inv(c)
    ensures |c.pending| + |c.settled| == |c.issued|
  {
    var ids := seq(|c.pending| + |c.settled|, i requires 0 <= i < |c.pending| + |c.settled| =>
      if i < |c.pending| then c.pending[i].id else c.settled[i - |c.pending|].id);
    forall i | 0 <= i < |ids|
      ensures 1 <= ids[i] <= |c.issued|
    {
      if i < |c.pending| {
        assert IsPending(c, c.pending[i].id);
      } else {
        assert IsSettled(c, c.settled[i - |c.pending|].id);
      }
    }
    forall id: nat | 1 <= id <= |c.issued|
      ensures id in ids
    {
      if IsPending(c, id) {
        var i :| 0 <= i < |c.pending| && c.pending[i].id == id;
        assert ids[i] == id;
      } else {
        var i :| 0 <= i < |c.settled| && c.settled[i].id == id;
        assert ids[|c.pending| + i] == id;
      }
    }
    DistinctCover(ids, |c.issued|);
  }

  lemma FirstIsElement(ids: seq<nat>)
    requires ids != []
    ensures ids[0] in ids
  {
  }

  lemma {:induction false} DistinctCover(ids: seq<nat>, n: nat)
    requires Distinct(ids)
    requires forall i :: 0 <= i < |ids| ==> 1 <= ids[i] <= n
    requires forall id: nat :: 1 <= id <= n ==> id in ids
    ensures |ids| == n
    decreases n
  {
    if n == 0 {
      if ids != [] {
        FirstIsElement(ids);
      }
    } else {
      assert n in ids;
      var k :| 0 <= k < |ids| && ids[k] == n;
      var rest := ids[..k] + ids[k + 1..];
      forall id: nat | 1 <= id <= n - 1
        ensures id in rest
      {
        assert id in ids;
        var i :| 0 <= i < |ids| && ids[i] == id;
        assert id == if i < k then rest[i] else rest[i - 1];
      }
      DistinctCover(rest, n - 1);
    }
  }

  lemma {:induction false} RunAppend(c: Client, a: seq<Step>, b: seq<Step>)
    ensures Run(c, a + b) == Run(Run(c, a), b)
    ensures IsRun(c, a + b) <==> IsRun(c, a) && IsRun(Run(c, a), b)
    decreases a
  {
    if a == [] {
      assert a + b == b;
    } else {
      assert (a + b)[1..] == a[1..] + b;
      RunAppend(Next(c, a[0]), a[1..], b);
    }
  }

  lemma HistoryExtends(c: Client, s: Step)
    ensures c.issued <= Next(c, s).issued && c.settled <= Next(c, s).settled
  {
  }

  /** Settlements are permanent: whatever happens later, a settled request keeps its one outcome. */
  lemma {:induction false} OutcomesArePermanent(c: Client, steps: seq<Step>, i: nat)
    requires Inv(c) && IsRun(c, steps) && i < |c.settled|
    ensures var d := Run(c, steps);
            && |c.settled| <= |d.settled| && d.settled[i] == c.settled[i]
            && forall j :: 0 <= j < |d.settled| && d.settled[j].id == c.settled[i].id ==> j == i
    decreases steps
  {
    if steps != [] {
      StepKeepsInv(c, steps[0]);
      HistoryExtends(c, steps[0]);
      OutcomesArePermanent(Next(c, steps[0]), steps[1..], i);
    }
  }

  /** A reply settles the pending request that printed its id and nothing else; any other reply is ignored. */
  lemma ReplySettlesItsRequest(c: Client, reply: Reply, id: nat)
    requires Inv(c) && reply.key == Decimal(id)
    ensures var d := Next(c, Receive(Answer(reply)));
            if IsPending(c, id) then
              && d.settled == c.settled + [Settlement(id, if reply.failed then Refused(reply) else Resolved(reply))]
              && forall other :: IsPending(d, other) <==> IsPending(c, other) && other != id
            else d == c
  {
    var d := Next(c, Receive(Answer(reply)));
    LookupFinds(c.pending, reply.key);
    var p := Lookup(c.pending, reply.key);
    if p.Some? {
      DecimalInjective(p.value.id, id);
      SettleKeepsInv(c, p.value, if reply.failed then Refused(reply) else Resolved(reply));
      WithoutRemoves(c.pending, id);
      assert forall i :: 0 <= i < |d.pending| ==> d.pending[i] in d.pending;
      forall other
        ensures IsPending(d, other) <==> IsPending(c, other) && other != id
      {
        if IsPending(c, other) && other != id {
          var i :| 0 <= i < |c.pending| && c.pending[i].id == other;
          assert c.pending[i] in d.pending;
        }
      }
    }
  }

  /** The step that settled a request, found again in the run. */
  lemma {:induction false} SettledByAStep(steps: seq<Step>, i: nat) returns (k: nat)
    requires IsRun(INITIAL, steps) && i < |Run(INITIAL, steps).settled|
    ensures k < |steps| && |Run(INITIAL, steps[..k]).settled| <= i < |Run(INITIAL, steps[..k + 1]).settled|
    ensures Run(INITIAL, steps).settled[i] == Run(INITIAL, steps[..k + 1]).settled[i]
    ensures IsRun(INITIAL, steps[..k])
    ensures Run(INITIAL, steps[..k + 1]) == Next(Run(INITIAL, steps[..k]), steps[k])
    decreases |steps|
  {
    var n := |steps| - 1;
    var before := steps[..n];
    assert steps == before + [steps[n]];
    RunAppend(INITIAL, before, [steps[n]]);
    RunSingle(Run(INITIAL, before), steps[n]);
    if i < |Run(INITIAL, before).settled| {
      HistoryExtends(Run(INITIAL, before), steps[n]);
      k := SettledByAStep(before, i);
      assert steps[..k] == before[..k] && steps[..k + 1] == before[..k + 1];
    } else {
      k := n;
      assert steps[..k + 1] == steps;
    }
  }

  lemma RunSingle(c: Client, s: Step)
    ensures Run(c, [s]) == Next(c, s)
  {
    assert Run(Next(c, s), [s][1..]) == Next(c, s);
  }

  /**
   A request that was resolved (or refused with the server's error) got a reply that arrived in
   the run, carried the request's own printed id, and arrived while the request was pending.
   */
  lemma ResolvedByItsOwnReply(steps: seq<Step>, i: nat) returns (k: nat)
    requires IsRun(INITIAL, steps) && i < |Run(INITIAL, steps).settled|
    requires !Run(INITIAL, steps).settled[i].outcome.Rejected?
    ensures var s := Run(INITIAL, steps).settled[i];
            && k < |steps| && steps[k] == Receive(Answer(s.outcome.reply))
            && s.outcome.reply.key == Decimal(s.id)
            && IsPending(Run(INITIAL, steps[..k]), s.id)
            && (s.outcome.Resolved? <==> !s.outcome.reply.failed)
  {
    var s := Run(INITIAL, steps).settled[i];
    k := SettledByAStep(steps, i);
    var c := Run(INITIAL, steps[..k]);
    InitiallyInv();
    RunKeepsInv(INITIAL, steps[..k]);
    NewSettlement(c, steps[k], i);
  }

  lemma NewSettlement(c: Client, step: Step, i: nat)
    requires Inv(c) && |c.settled| <= i < |Next(c, step).settled|
    requires !Next(c, step).settled[i].outcome.Rejected?
    ensures var s := Next(c, step).settled[i];
            && step == Receive(Answer(s.outcome.reply)) && s.outcome.reply.key == Decimal(s.id)
            && IsPending(c, s.id) && (s.outcome.Resolved? <==> !s.outcome.reply.failed)
  {
    if step.Receive? && step.message.Answer? {
      LookupFinds(c.pending, step.message.reply.key);
      var p := Lookup(c.pending, step.message.reply.key);
      assert IsPending(c, p.value.id) by {
        var j :| 0 <= j < |c.pending| && c.pending[j] == p.value;
      }
    }
  }

  // ---- Which requests are issued, and why they are rejected ----

  /** A request of the allow-list, or the early initialization, of a client that is ready for it. */
  predicate MayIssue(c: Client, name: Text, listed: bool, early: bool) {
    (listed || (early && name == Ascii("initialize"))) && (early || c.initialized) && c.alive
  }

  lemma IssuedByAStep(c: Client, s: Step)
    ensures |Next(c, s).issued| > |c.issued| ==>
              && s.Issue? && MayIssue(c, s.name, s.listed, s.early)
              && Next(c, s).issued == c.issued + [s.name]
    ensures s.Issue? && MayIssue(c, s.name, s.listed, s.early) ==> |Next(c, s).issued| == |c.issued| + 1
  {
  }

  /** Every issued request was allowed: listed, or the early initialization, on a live client, initialized unless early. */
  lemma {:induction false} IssuedWasAllowed(steps: seq<Step>, id: nat) returns (k: nat)
    requires IsRun(INITIAL, steps) && 1 <= id <= |Run(INITIAL, steps).issued|
    ensures k < |steps| && steps[k].Issue? && IsRun(INITIAL, steps[..k])
    ensures var c, s := Run(INITIAL, steps[..k]), steps[k];
            MayIssue(c, s.name, s.listed, s.early) && |c.issued| == id - 1 && Run(INITIAL, steps).issued[id - 1] == s.name
    decreases |steps|
  {
    var n := |steps| - 1;
    var before := steps[..n];
    assert steps == before + [steps[n]];
    RunAppend(INITIAL, before, [steps[n]]);
    RunSingle(Run(INITIAL, before), steps[n]);
    IssuedByAStep(Run(INITIAL, before), steps[n]);
    if id <= |Run(INITIAL, before).issued| {
      HistoryExtends(Run(INITIAL, before), steps[n]);
      k := IssuedWasAllowed(before, id);
      assert steps[..k] == before[..k];
    } else {
      k := n;
    }
  }

  /** The step that a rejection stands for. */
  predicate Causes(c: Client, s: Step, id: nat, code: Code) {
    match s
    case Issue(_, _, _, writeThrows) => writeThrows && id == c.nextId && code == WriteFailed
    case Expire(timer) => id == timer && code == RpcTimeout
    case Receive(message) => message.Malformed? && IsPending(c, id) && code == InvalidJson
    case Fail(reason) => IsPending(c, id) && code == reason
    case Exit => IsPending(c, id) && code == ProcessExited
    case _ => false
  }

  /** A rejected request was rejected for its own reason: its write, its timer, or a failure while it was pending. */
  lemma RejectedForItsReason(steps: seq<Step>, i: nat) returns (k: nat)
    requires IsRun(INITIAL, steps) && i < |Run(INITIAL, steps).settled| && Run(INITIAL, steps).settled[i].outcome.Rejected?
    ensures k < |steps| && IsRun(INITIAL, steps[..k])
    ensures var s := Run(INITIAL, steps).settled[i]; Causes(Run(INITIAL, steps[..k]), steps[k], s.id, s.outcome.code)
  {
    k := SettledByAStep(steps, i);
    NewRejection(Run(INITIAL, steps[..k]), steps[k], i);
  }

  lemma NewRejection(c: Client, step: Step, i: nat)
    requires |c.settled| <= i < |Next(c, step).settled| && Next(c, step).settled[i].outcome.Rejected?
    ensures var s := Next(c, step).settled[i]; Causes(c, step, s.id, s.outcome.code)
  {
    var s := Next(c, step).settled[i];
    if step.Fail? || step.Exit? || step == Receive(Malformed) {
      assert s.id == c.pending[i - |c.settled|].id;
      assert IsPending(c, s.id);
    }
  }

  /** After the process has exited no request is issued until it is spawned again. */
  lemma {:induction false} OfflineIssuesNothing(c: Client, steps: seq<Step>)
    requires !c.alive && forall i :: 0 <= i < |steps| ==> steps[i] != Spawn
    ensures Run(c, steps).issued == c.issued && !Run(c, steps).alive
    decreases steps
  {
    if steps != [] {
      OfflineIssuesNothing(Next(c, steps[0]), steps[1..]);
    }
  }

  /** When the transport goes away nothing stays pending and no timer is left to fire. */
  lemma FailureSettlesEverything(c: Client, s: Step)
    requires Inv(c) && (s.Fail? || s.Exit? || s == Receive(Malformed))
    ensures var d := Next(c, s);
            && d.pending == [] && d.timers == {} && (forall id: nat :: 1 <= id <= |c.issued| ==> IsSettled(d, id))
            && (s.Exit? ==> !d.alive && !d.initialized)
  {
    Unrelated(c, c.(alive := false, initialized := false));
    FailKeepsInv(c.(alive := false, initialized := false), ProcessExited);
    FailKeepsInv(c, if s.Fail? then s.code else InvalidJson);
    StepKeepsInv(c, s);
    var d := Next(c, s);
    assert forall id :: !IsPending(d, id);
  }

  // ---- The client object ----

  function Frame(line: Text, read: Text -> Incoming): Step {
    Receive(read(line))
  }

  function FrameSteps(lines: seq<Text>, read: Text -> Incoming): seq<Step> {
    seq(|lines|, i requires 0 <= i < |lines| => Frame(lines[i], read))
  }

  function Line(c: Client, raw: Text, read: Text -> Incoming): Client {
    if Trim(raw) == [] then c else Next(c, Receive(read(Trim(raw))))
  }

  /** The client once every line of a text has been handled. */
  function AfterLines(c: Client, t: Text, read: Text -> Incoming): Client {
    Run(c, FrameSteps(Frames(t), read))
  }

  lemma FirstLine(c: Client, t: Text, n: nat, read: Text -> Incoming)
    requires n < |t| && t[n] == NEWLINE && NoNewline(t[..n])
    ensures AfterLines(c, t, read) == AfterLines(Line(c, t[..n], read), t[n + 1..], read)
  {
    FrameAtNewline(t, n);
    var line := Trim(t[..n]);
    assert Handled([t[..n]]) == if line == [] then [] else [line];
    if line == [] {
      assert Frames(t) == Frames(t[n + 1..]);
    } else {
      var steps := FrameSteps(Frames(t), read);
      assert steps[0] == Receive(read(line)) && steps[1..] == FrameSteps(Frames(t[n + 1..]), read);
    }
  }

  /** Two chunks leave the client as one: what the first left in the buffer joins the second. */
  lemma TwoChunks(c: Client, a: Text, b: Text, read: Text -> Incoming)
    ensures AfterLines(c, a + b, read) == AfterLines(AfterLines(c, a, read), Rest(a) + b, read)
  {
    FramesAppend(a, b);
    var x, y := Frames(a), Frames(Rest(a) + b);
    assert FrameSteps(x + y, read) == FrameSteps(x, read) + FrameSteps(y, read);
    RunAppend(c, FrameSteps(x, read), FrameSteps(y, read));
  }

  /** The client with its input buffer. */
  datatype Wire = Wire(client: Client, framer: Framer)

  /** One chunk of output: its lines are handled, or it crosses the limit and everything pending fails. */
  function Consumed(w: Wire, chunk: Text, read: Text -> Incoming): Wire {
    var framer := Feed(w.framer, chunk);
    Wire(if framer.crossings == w.framer.crossings then AfterLines(w.client, w.framer.buffer + chunk, read)
         else Next(w.client, Fail(BufferLimit)),
         framer)
  }

  function ConsumedAll(c: Client, chunks: seq<Text>, read: Text -> Incoming): Wire {
    if chunks == [] then Wire(c, START)
    else Consumed(ConsumedAll(c, chunks[..|chunks| - 1], read), chunks[|chunks| - 1], read)
  }

  lemma {:induction false} ConsumedFramer(c: Client, chunks: seq<Text>, read: Text -> Incoming)
    ensures ConsumedAll(c, chunks, read).framer == FeedAll(START, chunks)
  {
    if chunks != [] {
      ConsumedFramer(c, chunks[..|chunks| - 1], read);
    }
  }

  /** The client that chunks leave behind, of which the first `n` arrived before the limit was crossed. */
  function Survivor(c: Client, chunks: seq<Text>, n: nat, read: Text -> Incoming): Client
    requires n <= |chunks|
  {
    var heard := AfterLines(c, Concatenated(chunks[..n]), read);
    if n == |chunks| then heard else Next(heard, Fail(BufferLimit))
  }

  lemma FailedTwice(c: Client, code: Code)
    ensures Next(Next(c, Fail(code)), Fail(code)) == Next(c, Fail(code))
  {
    var d := FailPending(c, code);
    assert Rejections(d.pending, code) == [] && PendingIds(d.pending) == {};
    assert d.settled + [] == d.settled;
  }

  lemma OneMoreConsumed(c: Client, chunks: seq<Text>, chunk: Text, read: Text -> Incoming)
    requires ConsumedAll(c, chunks, read).client == Survivor(c, chunks, Admitted(chunks), read)
    ensures var all := chunks + [chunk];
            ConsumedAll(c, all, read).client == Survivor(c, all, Admitted(all), read)
  {
    var all, n := chunks + [chunk], Admitted(chunks);
    assert all[..|all| - 1] == chunks && all[..|all|] == all && all[..n] == chunks[..n] && chunks[..|chunks|] == chunks;
    ConsumedFramer(c, chunks, read);
    FramingIsSplitting(chunks);
    var w := ConsumedAll(c, chunks, read);
    if n < |chunks| {
      Utf8LengthGrows(w.framer.buffer, chunk);
      FailedTwice(AfterLines(c, Concatenated(chunks[..n]), read), BufferLimit);
    } else {
      TwoChunks(c, Concatenated(chunks), chunk, read);
      assert Concatenated(all) == Concatenated(chunks) + chunk;
    }
  }

  /**
   Where the output is cut matters only for the limit: the client has handled the lines of the whole
   text that arrived before the buffer first crossed it, and, if it did, has failed what was pending
   then and handled nothing since.
   */
  lemma {:induction false} CutAnywhere(c: Client, chunks: seq<Text>, read: Text -> Incoming)
    ensures ConsumedAll(c, chunks, read).client == Survivor(c, chunks, Admitted(chunks), read)
  {
    if chunks == [] {
      assert Concatenated(chunks[..0]) == [] && Pieces([]) == [[]] && ButLast([[]]) == [];
      assert FrameSteps(Frames([]), read) == [];
    } else {
      var last := |chunks| - 1;
      CutAnywhere(c, chunks[..last], read);
      assert chunks == chunks[..last] + [chunks[last]];
      OneMoreConsumed(c, chunks[..last], chunks[last], read);
    }
  }

  /** So two ways of cutting one text leave the same client, unless one of them crosses the limit. */
  lemma SameTextSameClient(c: Client, a: seq<Text>, b: seq<Text>, read: Text -> Incoming)
    requires Concatenated(a) == Concatenated(b) && Admitted(a) == |a| && Admitted(b) == |b|
    ensures ConsumedAll(c, a, read) == ConsumedAll(c, b, read)
  {
    CutAnywhere(c, a, read);
    CutAnywhere(c, b, read);
    ConsumedFramer(c, a, read);
    ConsumedFramer(c, b, read);
    FramingIsSplitting(a);
    FramingIsSplitting(b);
    assert a[..|a|] == a && b[..|b|] == b;
  }

  lemma FirstLineFramed(t: Text, n: nat, handled: seq<Text>)
    requires n < |t| && t[n] == NEWLINE && NoNewline(t[..n])
    ensures handled + Handled([t[..n]]) + Frames(t[n + 1..]) == handled + Frames(t) && Rest(t) == Rest(t[n + 1..])
  {
    FrameAtNewline(t, n);
    assert handled + Handled([t[..n]]) + Frames(t[n + 1..]) == handled + (Handled([t[..n]]) + Frames(t[n + 1..]));
  }

  class AppServerClient {
    var alive: bool
    var initialized: bool
    var nextId: nat
    var pending: seq<Pending>
    var timers: set<nat>
    var buffer: Text
    ghost var issued: seq<Text>
    ghost var settled: seq<Settlement>
    ghost var handled: seq<Text>
    ghost var crossings: nat

    ghost function Value(): Client
      reads this
    {
      Client(alive, initialized, nextId, pending, timers, issued, settled)
    }

    ghost function Framing(): Framer
      reads this
    {
      Framer(buffer, handled, crossings)
    }

    ghost predicate Valid()
      reads this
    {
      Inv(Value())
    }

    constructor ()
      ensures Valid() && Value() == INITIAL && Framing() == START
    {
      alive, initialized, nextId, pending, timers, buffer := false, false, 1, [], {}, [];
      issued, settled, handled, crossings := [], [], [], 0;
      new;
      InitiallyInv();
    }

    /** Map lookup followed by deletion. */
    method Take(key: Text) returns (found: Option<Pending>)
      modifies this`pending
      ensures found == Lookup(old(pending), key) && pending == Without(old(pending), key)
    {
      var i := 0;
      while i < |pending| && Decimal(pending[i].id) != key
        invariant 0 <= i <= |pending|
        invariant forall j :: 0 <= j < i ==> Decimal(pending[j].id) != key
      {
        i := i + 1;
      }
      if i < |pending| {
        LookupFirst(pending, key, i);
        WithoutFirst(pending, key, i);
        found := Some(pending[i]);
        pending := pending[..i] + pending[i + 1..];
      } else {
        NoMatch(pending, key);
        found := None;
      }
    }

    method FailAll(code: Code)
      requires Valid()
      modifies this`pending, this`timers, this`settled
      ensures Valid() && Value() == FailPending(old(Value()), code)
    {
      FailKeepsInv(Value(), code);
      ghost var all := pending;
      ghost var k := 0;
      while pending != []
        invariant 0 <= k <= |all| && pending == all[k..]
        invariant settled == old(settled) + Rejections(all[..k], code)
        invariant timers == old(timers) - PendingIds(all[..k])
        decreases |pending|
      {
        var entry := pending[0];
        assert all[..k + 1] == all[..k] + [entry];
        timers := timers - {entry.id};
        settled := settled + [Settlement(entry.id, Rejected(code))];
        pending := pending[1..];
        k := k + 1;
      }
      assert all[..k] == all;
    }

    /** `#rpc`; `written` says whether the write to the process went through. */
    method Rpc(name: Text, listed: bool, early: bool, written: bool) returns (id: Option<nat>, refusal: Option<Code>)
      requires Valid()
      modifies this
      ensures Valid() && Value() == Next(old(Value()), Issue(name, listed, early, !written))
      ensures refusal.None? <==> MayIssue(old(Value()), name, listed, early)
      ensures refusal == Some(MethodNotAllowed) <==> !listed && !(early && name == Ascii("initialize"))
      ensures refusal == Some(NotInitialized) ==> !early && !old(initialized)
      ensures refusal == Some(Offline) ==> !old(alive) && (early || old(initialized))
      ensures id == (if refusal.None? then Some(old(nextId)) else None) && Framing() == old(Framing())
    {
      StepKeepsInv(Value(), Issue(name, listed, early, !written));
      if !listed && !(early && name == INITIALIZE) {
        return None, Some(MethodNotAllowed);
      }
      if !early && !initialized {
        return None, Some(NotInitialized);
      }
      if !alive {
        return None, Some(Offline);
      }
      id, refusal := Some(nextId), None;
      Register(name, listed, early, written);
    }

    method Register(name: Text, ghost listed: bool, ghost early: bool, written: bool)
      requires Valid() && Refusal(Value(), Issue(name, listed, early, !written)).None?
      modifies this`nextId, this`issued, this`timers, this`pending, this`settled
      ensures Value() == Next(old(Value()), Issue(name, listed, early, !written))
    {
      var id := nextId;
      nextId := nextId + 1;
      issued := issued + [name];
      timers := timers + {id};
      pending := pending + [Pending(id, name)];
      if !written {
        timers := timers - {id};
        var _ := Take(Decimal(id));
        settled := settled + [Settlement(id, Rejected(WriteFailed))];
      }
    }

    method OnTimeout(id: nat)
      requires Valid() && id in timers
      modifies this`pending, this`timers, this`settled
      ensures Valid() && Value() == Next(old(Value()), Expire(id))
    {
      StepKeepsInv(Value(), Expire(id));
      timers := timers - {id};
      var _ := Take(Decimal(id));
      settled := settled + [Settlement(id, Rejected(RpcTimeout))];
    }

    method OnExit()
      requires Valid()
      modifies this
      ensures Valid() && Value() == Next(old(Value()), Exit) && Framing() == old(Framing())
    {
      StepKeepsInv(Value(), Exit);
      Unrelated(Value(), Value().(alive := false, initialized := false));
      initialized := false;
      alive := false;
      FailAll(ProcessExited);
    }

    method HandleMessage(message: Incoming)
      requires Valid()
      modifies this`pending, this`timers, this`settled
      ensures Valid() && Value() == Next(old(Value()), Receive(message))
    {
      StepKeepsInv(Value(), Receive(message));
      match message {
        case Answer(reply) =>
          LookupFinds(pending, reply.key);
          var entry := Take(reply.key);
          if entry.Some? {
            timers := timers - {entry.value.id};
            settled := settled + [Settlement(entry.value.id, if reply.failed then Refused(reply) else Resolved(reply))];
          } else {
            NoMatch(old(pending), reply.key);
          }
        case Notice =>
        case Malformed => FailAll(InvalidJson);
      }
    }

    /** One line: trimmed, dropped when blank, parsed and handled. */
    method HandleLine(raw: Text, read: Text -> Incoming)
      requires Valid()
      modifies this`pending, this`timers, this`settled, this`handled
      ensures Valid() && handled == old(handled) + Handled([raw])
      ensures Value() == Line(old(Value()), raw, read)
    {
      var line := Trim(raw);
      assert Handled([raw]) == if line == [] then [] else [line];
      if line != [] {
        HandleMessage(read(line));
        handled := handled + [line];
      }
    }

    method HandleFirstLine(newline: nat, read: Text -> Incoming)
      requires Valid() && newline < |buffer| && buffer[newline] == NEWLINE && NoNewline(buffer[..newline])
      modifies this`pending, this`timers, this`settled, this`handled, this`buffer
      ensures Valid() && buffer == old(buffer)[newline + 1..] && Rest(buffer) == Rest(old(buffer))
      ensures handled + Frames(buffer) == old(handled) + Frames(old(buffer))
      ensures AfterLines(Value(), buffer, read) == AfterLines(old(Value()), old(buffer), read)
    {
      FirstLineFramed(buffer, newline, handled);
      FirstLine(Value(), buffer, newline, read);
      var raw := buffer[..newline];
      buffer := buffer[newline + 1..];
      HandleLine(raw, read);
    }

    method HandleLines(read: Text -> Incoming)
      requires Valid()
      modifies this`pending, this`timers, this`settled, this`handled, this`buffer
      ensures Valid() && buffer == Rest(old(buffer)) && handled == old(handled) + Frames(old(buffer))
      ensures Value() == AfterLines(old(Value()), old(buffer), read)
    {
      ghost var goal, all, rest := AfterLines(Value(), buffer, read), handled + Frames(buffer), Rest(buffer);
      var newline := IndexOfNewline(buffer);
      while newline < |buffer|
        invariant Valid()
        invariant 0 <= newline <= |buffer| && NoNewline(buffer[..newline]) && (newline < |buffer| ==> buffer[newline] == NEWLINE)
        invariant rest == Rest(buffer) && all == handled + Frames(buffer) && goal == AfterLines(Value(), buffer, read)
        decreases |buffer|
      {
        HandleFirstLine(newline, read);
        newline := IndexOfNewline(buffer);
      }
      assert buffer[..newline] == buffer;
      NoMoreFrames(buffer);
      assert handled + [] == handled;
    }

    /** `#consume`: one chunk of output; `read` parses a line and classifies the message. */
    method Consume(chunk: Text, read: Text -> Incoming)
      requires Valid()
      modifies this
      ensures Valid() && Wire(Value(), Framing()) == Consumed(Wire(old(Value()), old(Framing())), chunk, read)
    {
      buffer := buffer + chunk;
      if Utf8Length(buffer) > BUFFER_LIMIT {
        crossings := crossings + 1;
        FailAll(BufferLimit);
        return;
      }
      HandleLines(read);
    }
  }

  method IndexOfNewline(t: Text) returns (n: nat)
    ensures n <= |t| && NoNewline(t[..n]) && (n < |t| ==> t[n] == NEWLINE)
  {
    n := 0;
    while n < |t| && t[n] != NEWLINE
      invariant n <= |t| && NoNewline(t[..n])
    {
      n := n + 1;
    }
  }
}
