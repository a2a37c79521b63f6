/** The thread state objects and their manager, updated in place; every method is one step of Subscriptions. */
module ThreadStates {
  import opened Seqs
  import opened Subscriptions

  class ThreadState {
    var cancelTx: Option<ListenerId>
    var listenerCommandTx: Option<ListenerId>
    var listenerThread: Option<ConversationId>
    var experimentalRawEvents: bool
    var subscribedConnections: set<ConnectionId>

    function View(): Thread
      reads this
    {
      Thread(subscribedConnections, experimentalRawEvents, cancelTx, listenerCommandTx, listenerThread)
    }

    constructor ()
      ensures View() == NEW_THREAD
    {
      cancelTx, listenerCommandTx, listenerThread := None, None, None;
      experimentalRawEvents := false;
      subscribedConnections := {};
    }

    /** Returns the cancel signals it sends. */
    method SetListener(listener: ListenerId, conversation: ConversationId) returns (signalled: set<ListenerId>)
      modifies this
      ensures signalled == Held(old(cancelTx))
      ensures View() == old(View()).(cancel := Some(listener), command := Some(listener),
                                     conversation := Some(conversation))
    {
      signalled := Held(cancelTx);
      cancelTx := Some(listener);
      listenerCommandTx := Some(listener);
      listenerThread := Some(conversation);
    }

    method ClearListener() returns (signalled: set<ListenerId>)
      modifies this
      ensures signalled == Held(old(cancelTx)) && View() == old(View()).WithoutListener()
    {
      signalled := Held(cancelTx);
      cancelTx := None;
      listenerCommandTx := None;
      listenerThread := None;
    }

    method AddConnection(c: ConnectionId)
      modifies this
      ensures View() == old(View()).(subscribed := old(subscribedConnections) + {c})
    {
      subscribedConnections := subscribedConnections + {c};
    }

    method RemoveConnection(c: ConnectionId)
      modifies this
      ensures View() == old(View()).(subscribed := old(subscribedConnections) - {c})
    {
      subscribedConnections := subscribedConnections - {c};
    }

    method SetExperimentalRawEvents(enabled: bool)
      modifies this
      ensures View() == old(View()).(rawEvents := enabled)
    {
      experimentalRawEvents := enabled;
    }

    /** Removes a connection and, when nobody is left, the listener. */
    method Unsubscribe(c: ConnectionId) returns (signalled: set<ListenerId>)
      modifies this
      ensures View() == old(View()).Without(c) && signalled == Signalled(old(View()), View())
    {
      RemoveConnection(c);
      signalled := {};
      if subscribedConnections == {} {
        signalled := ClearListener();
      }
    }
  }

  class ThreadStateManager {
    var threadStates: map<ThreadId, ThreadState>
    var subscriptionStateById: map<SubscriptionId, Subscription>
    var threadIdsByConnection: map<ConnectionId, set<ThreadId>>
    ghost var cancelled: set<ListenerId>

    /** Different threads have different state objects. */
    ghost predicate Valid()
      reads this
    {
      forall t, t' | t in threadStates && t' in threadStates && t != t' :: threadStates[t] != threadStates[t']
    }

    ghost function Threads(): map<ThreadId, Thread>
      reads this, threadStates.Values
    {
      map t | t in threadStates :: threadStates[t].View()
    }

    ghost function View(): Manager
      reads this, threadStates.Values
    {
      Manager(Threads(), subscriptionStateById, threadIdsByConnection, cancelled)
    }

    constructor ()
      ensures Valid() && View() == EMPTY
    {
      threadStates, subscriptionStateById, threadIdsByConnection, cancelled := map[], map[], map[], {};
    }

    /** Views of the threads other than t are as they were. */
    twostate predicate OthersKept(t: ThreadId)
      reads this, threadStates.Values
    {
      && old(threadStates).Keys + {t} == threadStates.Keys
      && forall t' | t' in old(threadStates) && t' != t :: threadStates[t'].View() == old(threadStates[t'].View())
    }

    /** Only the state object of t, old or new, was touched. */
    twostate lemma KeptExcept(t: ThreadId)
      requires old(Valid()) && t in threadStates
      requires threadStates == old(threadStates)[t := threadStates[t]]
      requires if t in old(threadStates) then threadStates[t] == old(threadStates)[t]
               else threadStates[t] !in old(threadStates.Values)
      requires forall t' | t' in old(threadStates) && old(threadStates)[t'] != threadStates[t] ::
        unchanged(old(threadStates)[t'])
      ensures OthersKept(t)
    {
    }

    twostate lemma OneThreadChanged(t: ThreadId)
      requires t in threadStates && OthersKept(t)
      ensures Threads() == old(Threads())[t := threadStates[t].View()]
    {
    }

    method ThreadStateOf(t: ThreadId) returns (state: ThreadState)
      requires Valid()
      modifies `threadStates
      ensures Valid() && threadStates == old(threadStates)[t := state]
      ensures state.View() == old(View()).ThreadOf(t)
      ensures if t in old(threadStates) then state == old(threadStates)[t] else fresh(state)
      ensures View() == Touch(old(View()), t)
      ensures fresh(threadStates.Values - old(threadStates.Values))
    {
      if t !in threadStates {
        var s := new ThreadState();
        threadStates := threadStates[t := s];
      }
      state := threadStates[t];
      KeptExcept(t);
      OneThreadChanged(t);
    }

    method AddToIndex(t: ThreadId, c: ConnectionId)
      modifies `threadIdsByConnection
      ensures threadIdsByConnection
           == old(threadIdsByConnection)[c :=
                (if c in old(threadIdsByConnection) then old(threadIdsByConnection)[c] else {}) + {t}]
    {
      var ids := if c in threadIdsByConnection then threadIdsByConnection[c] else {};
      threadIdsByConnection := threadIdsByConnection[c := ids + {t}];
    }

    /** Adds a connection to a thread's state and sets its raw-event flag when asked to. */
    method AddSubscriber(t: ThreadId, c: ConnectionId, raw: Option<bool>) returns (state: ThreadState)
      requires Valid()
      modifies `threadStates, threadStates.Values
      ensures Valid() && t in threadStates && state == threadStates[t]
      ensures fresh(threadStates.Values - old(threadStates.Values))
      ensures var th := if t in old(threadStates) then old(threadStates[t].View()) else NEW_THREAD;
              Threads() == old(Threads())[t :=
                th.(subscribed := th.subscribed + {c}, rawEvents := raw.GetOr(th.rawEvents))]
    {
      state := ThreadStateOf(t);
      state.AddConnection(c);
      if raw.Some? {
        state.SetExperimentalRawEvents(raw.value);
      }
      KeptExcept(t);
      OneThreadChanged(t);
    }

    method SetListener(u: SubscriptionId, t: ThreadId, c: ConnectionId, raw: bool) returns (state: ThreadState)
      requires Valid()
      modifies this, threadStates.Values
      ensures Valid() && t in threadStates && state == threadStates[t]
      ensures fresh(threadStates.Values - old(threadStates.Values))
      ensures View() == AddSubscription(old(View()), u, t, c, raw)
    {
      subscriptionStateById := subscriptionStateById[u := Subscription(t, c)];
      AddToIndex(t, c);
      assert Threads() == old(Threads());
      state := AddSubscriber(t, c, Some(raw));
    }

    method EnsureConnectionSubscribed(t: ThreadId, c: ConnectionId, raw: bool) returns (state: ThreadState)
      requires Valid()
      modifies this, threadStates.Values
      ensures Valid() && t in threadStates && state == threadStates[t]
      ensures fresh(threadStates.Values - old(threadStates.Values))
      ensures View() == Subscribe(old(View()), t, c, raw || old(View()).ThreadOf(t).rawEvents)
    {
      AddToIndex(t, c);
      assert Threads() == old(Threads());
      state := AddSubscriber(t, c, if raw then Some(true) else None);
    }

    /** The listener part of ensure_listener_task_running, on the thread's own state object. */
    method EnsureListenerTask(t: ThreadId, conversation: ConversationId, listener: ListenerId) returns (started: bool)
      requires Valid()
      modifies this, threadStates.Values
      ensures Valid() && fresh(threadStates.Values - old(threadStates.Values))
      ensures View() == StartListener(old(View()), t, conversation, listener)
      ensures started <==> old(View()).ThreadOf(t).conversation != Some(conversation)
    {
      var state := ThreadStateOf(t);
      ghost var th := state.View();
      assert th == old(View()).ThreadOf(t);
      started := state.listenerThread != Some(conversation);
      if started {
        var signalled := state.SetListener(listener, conversation);
        cancelled := cancelled + signalled;
      }
      KeptExcept(t);
      OneThreadChanged(t);
    }

    /** The last step of resuming a running thread: adds the connection to the thread's state, and to no index. */
    method AddResumedConnection(t: ThreadId, c: ConnectionId)
      requires Valid()
      modifies threadStates.Values
      ensures Valid() && View() == Step(old(View()), ResumeAdd(t, c))
    {
      if t in threadStates {
        threadStates[t].AddConnection(c);
        KeptExcept(t);
        OneThreadChanged(t);
      } else {
        assert Threads() == old(Threads());
      }
    }

    method RemoveListener(u: SubscriptionId) returns (r: Option<ThreadId>)
      requires Valid()
      modifies this, threadStates.Values
      ensures Valid() && threadStates == old(threadStates)
      ensures View() == if u in old(subscriptionStateById) then Drop(old(View()), u) else old(View())
      ensures r == if u in old(subscriptionStateById) then Some(old(subscriptionStateById)[u].thread) else None
    {
      if u !in subscriptionStateById { return None; }
      var s := subscriptionStateById[u];
      subscriptionStateById := subscriptionStateById - {u};
      var still := StillSubscribed(subscriptionStateById, s);
      if !still {
        threadIdsByConnection := Unindex(threadIdsByConnection, s.connection, s.thread);
      }
      if s.thread in threadStates {
        var state := threadStates[s.thread];
        var signalled := {};
        if !still {
          signalled := state.Unsubscribe(s.connection);
        } else if state.subscribedConnections == {} {
          signalled := state.ClearListener();
        }
        cancelled := cancelled + signalled;
      }
      if s.thread in threadStates {
        OneThreadChanged(s.thread);
      } else {
        assert Threads() == old(Threads());
      }
      r := Some(s.thread);
    }

    method RemoveThreadState(t: ThreadId)
      requires Valid()
      modifies this, threadStates.Values
      ensures Valid() && threadStates == old(threadStates) - {t}
      ensures View() == ForgetThread(old(View()), t)
    {
      if t in threadStates {
        var state := threadStates[t];
        threadStates := threadStates - {t};
        var signalled := state.ClearListener();
        cancelled := cancelled + signalled;
      }
      subscriptionStateById :=
        map u | u in subscriptionStateById && subscriptionStateById[u].thread != t :: subscriptionStateById[u];
      threadIdsByConnection :=
        map c | c in threadIdsByConnection && threadIdsByConnection[c] - {t} != {} :: threadIdsByConnection[c] - {t};
      assert Threads() == old(Threads()) - {t};
    }

    method RemoveConnection(c: ConnectionId)
      requires Valid()
      modifies this, threadStates.Values
      ensures Valid() && threadStates == old(threadStates)
      ensures View() == Close(old(View()), c)
    {
      var ids := if c in threadIdsByConnection then threadIdsByConnection[c] else {};
      threadIdsByConnection := threadIdsByConnection - {c};
      subscriptionStateById :=
        map u | u in subscriptionStateById && subscriptionStateById[u].connection != c :: subscriptionStateById[u];
      assert Threads() == old(Threads()) && Threads().Keys == threadStates.Keys;
      var visited := if ids == {} then threadStates.Keys else ids;
      assert visited == Visited(old(View()), c);
      UnsubscribeAll(visited, c);
    }

    method UnsubscribeOne(t: ThreadId, c: ConnectionId)
      requires Valid()
      modifies `cancelled, threadStates.Values
      ensures Threads()
           == if t in old(Threads()) then old(Threads())[t := old(Threads())[t].Without(c)] else old(Threads())
      ensures cancelled
           == old(cancelled)
              + if t in old(Threads()) then Signalled(old(Threads())[t], old(Threads())[t].Without(c)) else {}
    {
      if t in threadStates {
        var signalled := threadStates[t].Unsubscribe(c);
        OneThreadChanged(t);
        cancelled := cancelled + signalled;
      }
    }

    /** The loop over the threads that a closing connection visits. */
    method UnsubscribeAll(ids: set<ThreadId>, c: ConnectionId)
      requires Valid()
      modifies `cancelled, threadStates.Values
      ensures Threads() == DropFrom(old(Threads()), ids, c)
      ensures cancelled == old(cancelled) + SignalsFrom(old(Threads()), ids, c)
    {
      ghost var before, sent := Threads(), cancelled;
      ghost var done := {};
      var left := ids;
      NothingDropped(before, c);
      while left != {}
        invariant done == ids - left
        invariant Threads() == DropFrom(before, done, c) && cancelled == sent + SignalsFrom(before, done, c)
        decreases left
      {
        var t :| t in left;
        UnsubscribeOne(t, c);
        OneMoreDropped(before, done, t, c);
        left, done := left - {t}, done + {t};
      }
      assert done == ids;
    }

    static lemma NothingDropped(threads: map<ThreadId, Thread>, c: ConnectionId)
      ensures DropFrom(threads, {}, c) == threads && SignalsFrom(threads, {}, c) == {}
    {
    }

    static lemma OneMoreDropped(threads: map<ThreadId, Thread>, ids: set<ThreadId>, t: ThreadId, c: ConnectionId)
      requires t !in ids
      ensures DropFrom(threads, ids + {t}, c)
           == if t in threads then DropFrom(threads, ids, c)[t := threads[t].Without(c)] else DropFrom(threads, ids, c)
      ensures SignalsFrom(threads, ids + {t}, c)
           == SignalsFrom(threads, ids, c) + if t in threads then Signalled(threads[t], threads[t].Without(c)) else {}
    {
      if t in threads {
        var l, r := SignalsFrom(threads, ids + {t}, c), SignalsFrom(threads, ids, c);
        var s := Signalled(threads[t], threads[t].Without(c));
        forall x | x in r + s ensures x in l {
          if x in s {
            assert t in ids + {t};
          }
        }
      }
    }
  }
}
