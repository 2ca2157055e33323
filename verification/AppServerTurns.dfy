/**
 The provider-turn records as the app-server client keeps them: a map that the notification handler,
 the submission of a turn and the wait for its end update in place, with one timer for each wait.
 Each method is proved to perform one event of `TurnWaits`.
 */
module AppServerTurns {
  import opened Text
  import opened Common
  import opened ProviderTurns
  import opened TurnWaits

  class TurnRecords {
    var order: seq<TurnId>
    var turns: map<TurnId, Turn>
    var latestProviderError: Option<ProviderError>
    var latestUsage: Option<Usage>
    var watches: map<Waiter, Watch>
    ghost var results: map<Waiter, Turn>
    ghost var expired: map<Waiter, Turn>

    ghost function Records(): Client
      reads this
    {
      Client(order, turns, latestProviderError, latestUsage, results)
    }

    ghost function Value(): Waits
      reads this
    {
      Waits(Records(), watches, expired)
    }

    /** The listed order is that of a JavaScript Map: every key once. */
    ghost predicate Ordered()
      reads this
    {
      Distinct(order) && forall id :: id in order <==> id in turns
    }

    ghost predicate Valid()
      reads this
    {
      Ordered() && Inv(Value())
    }

    constructor ()
      ensures Valid() && Value() == Waits(Client([], map[], None, None, map[]), map[], map[])
    {
      order, turns, latestProviderError, latestUsage, watches := [], map[], None, None, map[];
      results, expired := map[], map[];
    }

    /** A new object takes the place of the one under `id`, which the timers that captured it keep. */
    method Set(id: TurnId, turn: Turn)
      requires Ordered()
      modifies this`order, this`turns, this`watches
      ensures Ordered() && Records() == Put(old(Records()), id, turn) && watches == Replaced(old(Value()), id)
    {
      watches := map w | w in watches ::
        if watches[w].turn == id && watches[w].replaced.None? && id in turns then Watch(id, Some(turns[id])) else watches[w];
      if id !in turns {
        order := order + [id];
      }
      turns := turns[id := turn];
    }

    method OnStarted(id: TurnId, m: Notification)
      requires Ordered() && m.Started? && m.thread.Some? && m.turn == Some(id)
      modifies this
      ensures Ordered() && Value() == Handle(old(Value()), m)
    {
      if id in turns {
        Set(id, turns[id].(threadId := m.thread.value, status := InProgress, startedAt := m.at,
            observedModel := m.model, observedEffort := m.effort));
      } else {
        Set(id, Turn(m.thread.value, InProgress, m.at, m.model, m.effort,
                     None, None, None, None, None, None, None, None, None, None));
      }
      latestProviderError := None;
    }

    method OnDelta(id: TurnId, delta: Text, itemId: Option<Text>)
      requires Ordered() && id in turns
      modifies this`turns
      ensures Ordered() && turns == old(turns)[id := WithDelta(old(turns)[id], delta, itemId)]
    {
      var state := turns[id];
      if delta != [] {
        var active := Flat(state.active);
        if active.Some? && (itemId.None? || active.value.id.None? || itemId == active.value.id) {
          state := state.(active := Some(Some(AgentMessage(active.value.id, Cut(active.value.text + delta)))));
        } else {
          state := state.(message := Some(Cut(state.message.GetOr([]) + delta)));
        }
      }
      turns := turns[id := state];
    }

    method OnItem(id: TurnId, item: Item, completed: bool)
      requires Ordered() && id in turns
      modifies this`turns
      ensures Ordered() && turns == old(turns)[id := WithItem(old(turns)[id], item, completed)]
    {
      var state := turns[id];
      if item.Message? {
        var itemId := if item.id.None? && Flat(state.active).Some? then Flat(state.active).value.id else item.id;
        if !completed {
          state := state.(active := Some(Some(AgentMessage(itemId, Cut(item.text)))));
        } else {
          var completedText := item.text;
          var active := Flat(state.active);
          if completedText == [] && active.Some? && (itemId.None? || active.value.id.None? || itemId == active.value.id) {
            completedText := active.value.text;
          }
          if completedText != [] {
            state := state.(message := Some(Cut(completedText)));
            state := state.(finalMessageId := Some(itemId));
          }
          state := state.(active := Some(None));
        }
      } else if item.ToolCall? && item.invocation.Some? {
        state := state.(invocations := Some(LastN(state.invocations.GetOr([]) + [item.invocation.value], INVOCATION_LIMIT)));
      }
      turns := turns[id := state];
    }

    method OnCompleted(id: TurnId, m: Notification)
      requires Ordered() && id in turns && m.Completed? && m.turn == Some(id)
      modifies this
      ensures Ordered() && Value() == Handle(old(Value()), m)
    {
      var state := turns[id];
      var waiter := state.resolve;
      state := state.(status := if m.status.Some? then m.status.value else COMPLETED);
      state := state.(observedModel := Or(m.model, state.observedModel));
      state := state.(observedEffort := Or(m.effort, state.observedEffort));
      state := state.(completedAt := Some(m.at));
      state := state.(error := Or(m.error, Or(state.error, latestProviderError)));
      state := state.(resolve := None);
      turns := turns[id := state];
      if waiter.Some? {
        watches := watches - {waiter.value};
        results := results[waiter.value := state];
      }
    }

    /** The backwards search for a turn in progress. */
    method FindNewest(thread: Option<ThreadId>) returns (found: Option<TurnId>)
      ensures found == Newest(order, turns, thread)
    {
      var k := |order|;
      assert order[..k] == order;
      while k > 0
        invariant 0 <= k <= |order| && Newest(order, turns, thread) == Newest(order[..k], turns, thread)
      {
        k := k - 1;
        var id := order[k];
        assert order[..k + 1][..k] == order[..k];
        if id in turns && turns[id].status == InProgress && (thread.Some? ==> turns[id].threadId == thread.value) {
          return Some(id);
        }
      }
      found := None;
    }

    method OnRerouted(m: Notification)
      requires Ordered() && m.Rerouted?
      modifies this`turns
      ensures Ordered() && Records() == Step(old(Records()), m)
    {
      var id := if m.turn.Some? && m.turn.value in turns then m.turn else None;
      if id.None? && m.thread.Some? {
        id := FindNewest(m.thread);
      }
      if id.Some? && id.value in turns {
        if m.toModel.Some? {
          turns := turns[id.value := turns[id.value].(observedModel := m.toModel)];
        }
        assert old(turns)[id.value := old(turns)[id.value]] == old(turns);
      }
    }

    method OnError(m: Notification)
      requires Ordered() && m.Error?
      modifies this`turns, this`latestProviderError
      ensures Ordered() && Records() == Step(old(Records()), m)
    {
      var id := if m.turn.Some? && m.turn.value in turns then m.turn else None;
      if id.None? {
        id := FindNewest(None);
      }
      if id.Some? && id.value in turns {
        if m.error.Some? {
          turns := turns[id.value := turns[id.value].(error := m.error)];
        }
        assert old(turns)[id.value := old(turns)[id.value]] == old(turns);
      }
      latestProviderError := m.error;
    }

    method HandleNotification(m: Notification)
      requires Valid()
      modifies this
      ensures Valid() && Value() == Next(old(Value()), Notify(m))
    {
      NextKeepsInv(Value(), Notify(m));
      Dispatch(m);
    }

    /** Its body, which does not depend on the invariant of the timers. */
    method Dispatch(m: Notification)
      requires Ordered()
      modifies this
      ensures Ordered() && Value() == Handle(old(Value()), m)
    {
      match m {
        case Started(turn, thread, _, _, _) =>
          if thread.Some? && turn.Some? {
            OnStarted(turn.value, m);
          }
        case Rerouted(_, _, _) =>
          OnRerouted(m);
        case Error(_, _) =>
          OnError(m);
        case Delta(turn, text, itemId) =>
          if turn.Some? && turn.value in turns {
            OnDelta(turn.value, text, itemId);
          }
        case UsageUpdated(turn, usage) =>
          latestUsage := Some(usage);
          if turn.Some? && turn.value in turns {
            turns := turns[turn.value := turns[turn.value].(usage := Some(latestUsage))];
          }
        case ItemStarted(turn, item) =>
          if turn.Some? && turn.value in turns {
            OnItem(turn.value, item, false);
          }
        case ItemCompleted(turn, item) =>
          if turn.Some? && turn.value in turns {
            OnItem(turn.value, item, true);
          }
        case Completed(turn, _, _, _, _, _) =>
          if turn.Some? && turn.value in turns {
            OnCompleted(turn.value, m);
          }
      }
    }

    /** `submitManagedTurn` after its request was answered with a turn reference. */
    method AcceptTurn(r: Response)
      requires Valid()
      modifies this
      ensures Valid() && Value() == Next(old(Value()), Submit(r))
    {
      NextKeepsInv(Value(), Submit(r));
      var state := Turn(r.thread, InProgress, r.at, None, None, Some([]), Some(None), Some(None), Some([]), Some(None),
                        None, None, Some(r.continuation), None, None);
      if r.turn in turns {
        var existing := turns[r.turn];
        state := existing.(
        message := Or(existing.message, state.message),
        active := Or(existing.active, state.active),
        finalMessageId := Or(existing.finalMessageId, state.finalMessageId),
        invocations := Or(existing.invocations, state.invocations),
        usage := Or(existing.usage, state.usage),
        continuation := Or(existing.continuation, state.continuation));
      }
      state := state.(request := Some(r.request));
      Set(r.turn, state);
    }

    /** `waitForManagedTurn`: an unknown turn is an error, an ended one answers at once, else a timer is set. */
    method AwaitTurn(id: TurnId, w: Waiter) returns (known: bool)
      requires Valid() && Fresh(Value(), w)
      modifies this
      ensures Valid() && Value() == Next(old(Value()), Await(id, w))
      ensures known <==> id in old(turns)
      ensures known ==> (w in watches <==> old(turns)[id].status == InProgress)
      ensures known && w !in watches ==> Outcome(Value(), w) == Some(old(turns)[id])
      ensures !known ==> Value() == old(Value())
    {
      NextKeepsInv(Value(), Await(id, w));
      if id !in turns {
        return false;
      }
      known := true;
      if turns[id].status != InProgress {
        results := results[w := turns[id]];
      } else {
        watches := watches[w := Watch(id, None)];
        turns := turns[id := turns[id].(resolve := Some(w))];
      }
    }

    /** The timer of a wait fires: it forgets the waiter in the record it captured and answers from that record. */
    method OnWaitTimeout(w: Waiter) returns (answer: Turn)
      requires Valid() && w in watches
      modifies this
      ensures Valid() && Value() == Next(old(Value()), Expire(w))
      ensures Captured(old(Value()), w).Some? && answer == Unknown(Captured(old(Value()), w).value)
      ensures Outcome(Value(), w) == Some(answer)
    {
      NextKeepsInv(Value(), Expire(w));
      var watch := watches[w];
      var state := if watch.replaced.Some? then watch.replaced.value else turns[watch.turn];
      if watch.replaced.None? {
        turns := turns[watch.turn := state.(resolve := None)];
      }
      watches := watches - {w};
      answer := Unknown(state);
      expired := expired[w := answer];
    }
  }
}
