/**
 Which connections listen to which threads: the manager's three indexes as values, every operation as a step, and
 what holds over all runs. ThreadStates.dfy has the objects that carry these values.
 */
module Subscriptions {
  import opened Seqs

  type ThreadId = nat
  type ConnectionId = nat
  type SubscriptionId = nat

  /** Identifies one cancel channel, and with it the listener task that waits on it. */
  type ListenerId = nat

  type ConversationId = nat

  datatype Subscription = Subscription(thread: ThreadId, connection: ConnectionId)

  datatype Thread = Thread(
    subscribed: set<ConnectionId>,
    rawEvents: bool,
    cancel: Option<ListenerId>,
    command: Option<ListenerId>,
    conversation: Option<ConversationId>)
  {
    function WithoutListener(): Thread {
      this.(cancel := None, command := None, conversation := None)
    }

    /** Drops a connection; a thread left without subscribers loses its listener. */
    function Without(c: ConnectionId): Thread {
      var left := this.(subscribed := subscribed - {c});
      if left.subscribed == {} then left.WithoutListener() else left
    }
  }

  const NEW_THREAD := Thread({}, false, None, None, None)

  /** cancelled: the cancel signals sent so far. */
  datatype Manager = Manager(
    threads: map<ThreadId, Thread>,
    subscriptions: map<SubscriptionId, Subscription>,
    index: map<ConnectionId, set<ThreadId>>,
    cancelled: set<ListenerId>)
  {
    function ThreadOf(t: ThreadId): Thread {
      if t in threads then threads[t] else NEW_THREAD
    }

    function Indexed(c: ConnectionId): set<ThreadId> {
      if c in index then index[c] else {}
    }

    predicate Subscribed(t: ThreadId, c: ConnectionId) {
      t in threads && c in threads[t].subscribed
    }
  }

  const EMPTY := Manager(map[], map[], map[], {})

  datatype Operation =
    | TouchThread(t: ThreadId)
    | SetListener(u: SubscriptionId, t: ThreadId, c: ConnectionId, raw: bool)
    | EnsureSubscribed(t: ThreadId, c: ConnectionId, raw: bool)
    | RemoveListener(u: SubscriptionId)
    | RemoveThread(t: ThreadId)
    | RemoveConnection(c: ConnectionId)
    | EnsureListener(t: ThreadId, conversation: ConversationId, listener: ListenerId)
    | ResumeAdd(t: ThreadId, c: ConnectionId)

  function Held(o: Option<ListenerId>): set<ListenerId> {
    if o.Some? then {o.value} else {}
  }

  /** The cancel signals sent when thread a turns into thread b. */
  function Signalled(a: Thread, b: Thread): set<ListenerId> {
    if b.cancel == a.cancel then {} else Held(a.cancel)
  }

  function Unindex(index: map<ConnectionId, set<ThreadId>>, c: ConnectionId, t: ThreadId)
    : map<ConnectionId, set<ThreadId>>
  {
    if c !in index then index
    else if index[c] - {t} == {} then index - {c}
    else index[c := index[c] - {t}]
  }

  function Subscribe(m: Manager, t: ThreadId, c: ConnectionId, raw: bool): Manager {
    var th := m.ThreadOf(t);
    m.(index := m.index[c := m.Indexed(c) + {t}],
       threads := m.threads[t := th.(subscribed := th.subscribed + {c}, rawEvents := raw)])
  }

  predicate StillSubscribed(subscriptions: map<SubscriptionId, Subscription>, s: Subscription) {
    exists u | u in subscriptions :: subscriptions[u] == s
  }

  function Drop(m: Manager, u: SubscriptionId): Manager
    requires u in m.subscriptions
  {
    var s := m.subscriptions[u];
    var rest := m.subscriptions - {u};
    var still := StillSubscribed(rest, s);
    var m1 := m.(subscriptions := rest, index := if still then m.index else Unindex(m.index, s.connection, s.thread));
    if s.thread !in m.threads then m1
    else
      var th := m.threads[s.thread];
      var th' := if still then (if th.subscribed == {} then th.WithoutListener() else th) else th.Without(s.connection);
      m1.(threads := m.threads[s.thread := th'], cancelled := m.cancelled + Signalled(th, th'))
  }

  /** The threads that remove_connection visits: those indexed, or all of them when none is. */
  function Visited(m: Manager, c: ConnectionId): set<ThreadId> {
    if m.Indexed(c) == {} then m.threads.Keys else m.Indexed(c)
  }

  function Touch(m: Manager, t: ThreadId): Manager {
    m.(threads := m.threads[t := m.ThreadOf(t)])
  }

  function AddSubscription(m: Manager, u: SubscriptionId, t: ThreadId, c: ConnectionId, raw: bool): Manager {
    Subscribe(m.(subscriptions := m.subscriptions[u := Subscription(t, c)]), t, c, raw)
  }

  function ForgetThread(m: Manager, t: ThreadId): Manager {
    Manager(m.threads - {t},
            map u | u in m.subscriptions && m.subscriptions[u].thread != t :: m.subscriptions[u],
            map c | c in m.index && m.index[c] - {t} != {} :: m.index[c] - {t},
            m.cancelled + Held(m.ThreadOf(t).cancel))
  }

  /** Drops the connection from the given threads. */
  function DropFrom(threads: map<ThreadId, Thread>, ids: set<ThreadId>, c: ConnectionId): map<ThreadId, Thread> {
    map t | t in threads :: if t in ids then threads[t].Without(c) else threads[t]
  }

  function SignalsFrom(threads: map<ThreadId, Thread>, ids: set<ThreadId>, c: ConnectionId): set<ListenerId> {
    set t, l | t in threads && t in ids && l in Signalled(threads[t], threads[t].Without(c)) :: l
  }

  function Close(m: Manager, c: ConnectionId): Manager {
    Manager(DropFrom(m.threads, Visited(m, c), c),
            map u | u in m.subscriptions && m.subscriptions[u].connection != c :: m.subscriptions[u],
            m.index - {c},
            m.cancelled + SignalsFrom(m.threads, Visited(m, c), c))
  }

  function StartListener(m: Manager, t: ThreadId, conversation: ConversationId, listener: ListenerId): Manager {
    var th := m.ThreadOf(t);
    if th.conversation == Some(conversation) then Touch(m, t)
    else
      m.(threads := m.threads[t := th.(cancel := Some(listener), command := Some(listener),
                                       conversation := Some(conversation))],
         cancelled := m.cancelled + Held(th.cancel))
  }

  function Step(m: Manager, op: Operation): Manager {
    match op
    case TouchThread(t) => Touch(m, t)
    case SetListener(u, t, c, raw) => AddSubscription(m, u, t, c, raw)
    case EnsureSubscribed(t, c, raw) => Subscribe(m, t, c, raw || m.ThreadOf(t).rawEvents)
    case RemoveListener(u) => if u in m.subscriptions then Drop(m, u) else m
    case RemoveThread(t) => ForgetThread(m, t)
    case RemoveConnection(c) => Close(m, c)
    case EnsureListener(t, conversation, listener) => StartListener(m, t, conversation, listener)
    case ResumeAdd(t, c) =>
      if t in m.threads
      then m.(threads := m.threads[t := m.threads[t].(subscribed := m.threads[t].subscribed + {c})])
      else m
  }

  function Run(m: Manager, ops: seq<Operation>): Manager
    decreases |ops|
  {
    if ops == [] then m else Run(Step(m, ops[0]), ops[1..])
  }

  // Agreement of the indexes

  ghost predicate IndexImpliesSubscribed(m: Manager) {
    && (forall c, t | c in m.index && t in m.index[c] :: m.Subscribed(t, c))
    && (forall c | c in m.index :: m.index[c] != {})
    && (forall u | u in m.subscriptions ::
          var s := m.subscriptions[u]; m.Subscribed(s.thread, s.connection) && s.thread in m.Indexed(s.connection))
  }

  ghost predicate SubscribedImpliesIndex(m: Manager) {
    forall t, c | t in m.threads && c in m.threads[t].subscribed :: c in m.index && t in m.index[c]
  }

  /** Indexed and subscribed are the same relation, every subscription's pair is in it, no index entry is empty. */
  ghost predicate Agreement(m: Manager) {
    IndexImpliesSubscribed(m) && SubscribedImpliesIndex(m)
  }

  lemma SubscribeKeeps(m: Manager, t: ThreadId, c: ConnectionId, raw: bool)
    requires IndexImpliesSubscribed(m)
    ensures IndexImpliesSubscribed(Subscribe(m, t, c, raw))
    ensures SubscribedImpliesIndex(m) ==> SubscribedImpliesIndex(Subscribe(m, t, c, raw))
    ensures var m' := Subscribe(m, t, c, raw); m'.Subscribed(t, c) && t in m'.Indexed(c)
  {
  }

  /** What dropping a subscription does to one pair. */
  predicate Dropped(m: Manager, u: SubscriptionId, t: ThreadId, c: ConnectionId)
    requires u in m.subscriptions
  {
    Subscription(t, c) == m.subscriptions[u] && !StillSubscribed(m.subscriptions - {u}, m.subscriptions[u])
  }

  lemma DropChangesOnePair(m: Manager, u: SubscriptionId, t: ThreadId, c: ConnectionId)
    requires u in m.subscriptions
    ensures Drop(m, u).Subscribed(t, c) <==> m.Subscribed(t, c) && !Dropped(m, u, t, c)
    ensures t in Drop(m, u).Indexed(c) <==> t in m.Indexed(c) && !Dropped(m, u, t, c)
  {
    var s := m.subscriptions[u];
    if c == s.connection && t != s.thread && c in m.index && t in m.index[c] {
      assert t in m.index[c] - {s.thread};
    }
  }

  lemma DropLeavesNoEmptyEntry(m: Manager, u: SubscriptionId)
    requires u in m.subscriptions && forall c | c in m.index :: m.index[c] != {}
    ensures forall c | c in Drop(m, u).index :: Drop(m, u).index[c] != {}
  {
  }

  lemma DropKeepsCover(m: Manager, u: SubscriptionId)
    requires SubscribedImpliesIndex(m) && u in m.subscriptions
    ensures SubscribedImpliesIndex(Drop(m, u))
  {
    var m' := Drop(m, u);
    forall t, c | t in m'.threads && c in m'.threads[t].subscribed ensures c in m'.index && t in m'.index[c] {
      assert m'.Subscribed(t, c);
      DropChangesOnePair(m, u, t, c);
      assert t in m'.Indexed(c);
    }
  }

  lemma DropKeeps(m: Manager, u: SubscriptionId)
    requires IndexImpliesSubscribed(m) && u in m.subscriptions
    ensures IndexImpliesSubscribed(Drop(m, u))
    ensures SubscribedImpliesIndex(m) ==> SubscribedImpliesIndex(Drop(m, u))
  {
    var m' := Drop(m, u);
    DropLeavesNoEmptyEntry(m, u);
    forall c, t | t in m'.Indexed(c) ensures m'.Subscribed(t, c) {
      DropChangesOnePair(m, u, t, c);
    }
    forall v | v in m'.subscriptions
      ensures var q := m'.subscriptions[v];
        m'.Subscribed(q.thread, q.connection) && q.thread in m'.Indexed(q.connection)
    {
      var q := m.subscriptions[v];
      assert v in m.subscriptions - {u} && (m.subscriptions - {u})[v] == q;
      DropChangesOnePair(m, u, q.thread, q.connection);
    }
    if SubscribedImpliesIndex(m) {
      DropKeepsCover(m, u);
    }
  }

  /** The one-directional agreement survives every operation, the direct add of the resume path included. */
  lemma {:induction false} StepKeepsInclusion(m: Manager, op: Operation)
    requires IndexImpliesSubscribed(m)
    ensures IndexImpliesSubscribed(Step(m, op))
  {
    match op
    case SetListener(u, t, c, raw) => SetListenerKeeps(m, u, t, c, raw);
    case EnsureSubscribed(t, c, raw) => SubscribeKeeps(m, t, c, raw || m.ThreadOf(t).rawEvents);
    case RemoveListener(u) => if u in m.subscriptions { DropKeeps(m, u); }
    case RemoveThread(t) => RemoveThreadKeeps(m, t);
    case RemoveConnection(c) => RemoveConnectionKeeps(m, c);
    case _ =>
  }

  lemma SetListenerKeeps(m: Manager, u: SubscriptionId, t: ThreadId, c: ConnectionId, raw: bool)
    requires IndexImpliesSubscribed(m)
    ensures IndexImpliesSubscribed(Step(m, SetListener(u, t, c, raw)))
    ensures SubscribedImpliesIndex(m) ==> SubscribedImpliesIndex(Step(m, SetListener(u, t, c, raw)))
  {
    SubscribeKeeps(m, t, c, raw);
  }

  lemma RemoveThreadKeeps(m: Manager, t: ThreadId)
    requires IndexImpliesSubscribed(m)
    ensures IndexImpliesSubscribed(Step(m, RemoveThread(t)))
    ensures SubscribedImpliesIndex(m) ==> SubscribedImpliesIndex(Step(m, RemoveThread(t)))
  {
    var m' := Step(m, RemoveThread(t));
    forall c, t' | c in m.index && t' in m.index[c] && t' != t ensures c in m'.index && t' in m'.index[c] {
      assert t' in m.index[c] - {t};
    }
  }

  lemma RemoveConnectionKeeps(m: Manager, c: ConnectionId)
    requires IndexImpliesSubscribed(m)
    ensures IndexImpliesSubscribed(Step(m, RemoveConnection(c)))
    ensures SubscribedImpliesIndex(m) ==> SubscribedImpliesIndex(Step(m, RemoveConnection(c)))
  {
    var m' := Step(m, RemoveConnection(c));
    forall t, d | m.Subscribed(t, d) && d != c ensures m'.Subscribed(t, d) {
    }
  }

  /** Exact agreement survives every operation of the manager itself. */
  lemma StepKeepsAgreement(m: Manager, op: Operation)
    requires Agreement(m) && !op.ResumeAdd?
    ensures Agreement(Step(m, op))
  {
    StepKeepsInclusion(m, op);
    match op
    case SetListener(u, t, c, raw) => SetListenerKeeps(m, u, t, c, raw);
    case EnsureSubscribed(t, c, raw) => SubscribeKeeps(m, t, c, raw || m.ThreadOf(t).rawEvents);
    case RemoveListener(u) => if u in m.subscriptions { DropKeeps(m, u); }
    case RemoveThread(t) => RemoveThreadKeeps(m, t);
    case RemoveConnection(c) => RemoveConnectionKeeps(m, c);
    case _ =>
  }

  lemma {:induction false} RunsAgree(m: Manager, ops: seq<Operation>)
    requires Agreement(m) && forall i | 0 <= i < |ops| :: !ops[i].ResumeAdd?
    ensures Agreement(Run(m, ops))
    decreases |ops|
  {
    if ops != [] {
      StepKeepsAgreement(m, ops[0]);
      RunsAgree(Step(m, ops[0]), ops[1..]);
    }
  }

  lemma {:induction false} RunsKeepInclusion(m: Manager, ops: seq<Operation>)
    requires IndexImpliesSubscribed(m)
    ensures IndexImpliesSubscribed(Run(m, ops))
    decreases |ops|
  {
    if ops != [] {
      StepKeepsInclusion(m, ops[0]);
      RunsKeepInclusion(Step(m, ops[0]), ops[1..]);
    }
  }

  /** Over every run of the manager's own operations, a thread is indexed under exactly its subscribers. */
  lemma IndexAgreesOverRuns(ops: seq<Operation>, t: ThreadId, c: ConnectionId)
    requires forall i | 0 <= i < |ops| :: !ops[i].ResumeAdd?
    ensures var m := Run(EMPTY, ops); t in m.Indexed(c) <==> m.Subscribed(t, c)
  {
    RunsAgree(EMPTY, ops);
  }

  /** The direct add keeps exact agreement exactly when it adds nothing: the thread is unknown or already indexed. */
  lemma ResumeAddKeepsAgreementExactly(m: Manager, t: ThreadId, c: ConnectionId)
    requires Agreement(m)
    ensures Agreement(Step(m, ResumeAdd(t, c))) <==> t !in m.threads || t in m.Indexed(c)
  {
    var m' := Step(m, ResumeAdd(t, c));
    if t in m.threads {
      assert m'.Subscribed(t, c);
      if t in m.Indexed(c) {
        assert m.Subscribed(t, c) && m.threads[t].subscribed + {c} == m.threads[t].subscribed;
        assert m'.threads == m.threads;
      }
    }
  }

  // Closing a connection

  /** The connection is in no index, subscription or subscriber set. */
  ghost predicate Forgotten(m: Manager, c: ConnectionId) {
    && c !in m.index
    && (forall u | u in m.subscriptions :: m.subscriptions[u].connection != c)
    && (forall t | t in m.threads :: c !in m.threads[t].subscribed)
  }

  /** Every thread the connection is subscribed to is indexed under it, unless none is. */
  ghost predicate IndexCovers(m: Manager, c: ConnectionId) {
    m.Indexed(c) == {} || forall t | m.Subscribed(t, c) :: t in m.Indexed(c)
  }

  /** Closing a connection removes every trace of it exactly when its index is empty or complete. */
  lemma RemoveConnectionForgets(m: Manager, c: ConnectionId)
    ensures Forgotten(Step(m, RemoveConnection(c)), c) <==> IndexCovers(m, c)
  {
    var m' := Step(m, RemoveConnection(c));
    forall t | t in m.threads ensures m'.Subscribed(t, c) <==> m.Subscribed(t, c) && t !in Visited(m, c) {
    }
  }

  /** Over runs of the manager's own operations the closed connection is always forgotten. */
  lemma ClosedConnectionIsForgotten(ops: seq<Operation>, c: ConnectionId)
    requires forall i | 0 <= i < |ops| :: !ops[i].ResumeAdd?
    ensures Forgotten(Step(Run(EMPTY, ops), RemoveConnection(c)), c)
  {
    RunsAgree(EMPTY, ops);
    RemoveConnectionForgets(Run(EMPTY, ops), c);
  }

  /** The resume path can leave a closed connection subscribed. */
  lemma ResumeAddCanOutliveConnection()
    ensures var ops := [EnsureSubscribed(0, 7, false), TouchThread(1), ResumeAdd(1, 7)];
            Step(Run(EMPTY, ops), RemoveConnection(7)).Subscribed(1, 7)
  {
    var ops := [EnsureSubscribed(0, 7, false), TouchThread(1), ResumeAdd(1, 7)];
    assert ops[1..] == [TouchThread(1), ResumeAdd(1, 7)] && ops[1..][1..] == [ResumeAdd(1, 7)];
    var m := Step(Step(Step(EMPTY, ops[0]), ops[1]), ops[2]);
    assert Run(m, []) == m;
    assert m.Indexed(7) == {0};
  }

  /** A thread that a closing connection leaves without subscribers has no listener left. */
  lemma EmptiedThreadsLoseListeners(m: Manager, c: ConnectionId, t: ThreadId)
    requires m.Subscribed(t, c)
    ensures var th := Step(m, RemoveConnection(c)).threads[t];
            th.subscribed == {} ==> th.cancel.None? && th.command.None? && th.conversation.None?
  {
  }

  // Listeners without subscribers

  /** The thread has a listener, and nobody is subscribed to it. */
  predicate Unheard(m: Manager, t: ThreadId) {
    t in m.threads && m.threads[t].cancel.Some? && m.threads[t].subscribed == {}
  }

  /** The operation starts a listener for the thread while nobody is subscribed to it. */
  predicate StartsUnheard(m: Manager, op: Operation, t: ThreadId) {
    op.EnsureListener? && op.t == t && Started(m, op) != {} && m.ThreadOf(t).subscribed == {}
  }

  /** The operation subscribes somebody to the thread, removes it, or looks whether it still has subscribers. */
  predicate Mends(m: Manager, op: Operation, t: ThreadId) {
    match op
    case SetListener(_, t', _, _) => t' == t
    case EnsureSubscribed(t', _, _) => t' == t
    case ResumeAdd(t', _) => t' == t
    case RemoveThread(t') => t' == t
    case RemoveConnection(c) => t in Visited(m, c)
    case RemoveListener(u) => u in m.subscriptions && m.subscriptions[u].thread == t
    case TouchThread(_) => false
    case EnsureListener(_, _, _) => false
  }

  lemma UnheardStep(m: Manager, op: Operation, t: ThreadId)
    ensures Unheard(Step(m, op), t) <==> StartsUnheard(m, op, t) || (Unheard(m, t) && !Mends(m, op, t))
  {
  }

  /** At step i a listener was started for the thread without subscribers, and no later step mended that. */
  predicate LeftUnheardAt(m: Manager, ops: seq<Operation>, t: ThreadId, i: nat)
    requires i < |ops|
  {
    && StartsUnheard(Run(m, ops[..i]), ops[i], t)
    && forall j | i < j < |ops| :: !Mends(Run(m, ops[..j]), ops[j], t)
  }

  predicate LeftUnheard(m: Manager, ops: seq<Operation>, t: ThreadId) {
    exists i | 0 <= i < |ops| :: LeftUnheardAt(m, ops, t, i)
  }

  lemma {:induction false} RunLast(m: Manager, ops: seq<Operation>)
    requires ops != []
    ensures Run(m, ops) == Step(Run(m, ops[..|ops| - 1]), ops[|ops| - 1])
    decreases |ops|
  {
    var n := |ops| - 1;
    if n > 0 {
      assert ops[1..][..n - 1] == ops[..n][1..];
      RunLast(Step(m, ops[0]), ops[1..]);
    } else {
      assert ops[1..] == [] && ops[..0] == [];
    }
  }

  lemma LeftUnheardStep(m: Manager, ops: seq<Operation>, t: ThreadId)
    requires ops != []
    ensures var n := |ops| - 1;
      LeftUnheard(m, ops, t)
      <==> StartsUnheard(Run(m, ops[..n]), ops[n], t)
           || (LeftUnheard(m, ops[..n], t) && !Mends(Run(m, ops[..n]), ops[n], t))
  {
    var n := |ops| - 1;
    var before := ops[..n];
    assert forall j | 0 <= j < n :: before[..j] == ops[..j];
    forall i | 0 <= i < n
      ensures LeftUnheardAt(m, ops, t, i) <==> LeftUnheardAt(m, before, t, i) && !Mends(Run(m, before), ops[n], t)
    {
      assert forall j | i < j < n :: before[..j] == ops[..j] && before[j] == ops[j];
      assert before[..i] == ops[..i];
    }
    if StartsUnheard(Run(m, before), ops[n], t) {
      assert LeftUnheardAt(m, ops, t, n);
    }
  }

  /**
   After any run a thread has a listener and no subscriber exactly when some step started a listener for it without
   subscribers and no later step mended that.
   */
  lemma {:induction false} UnheardExactly(m: Manager, ops: seq<Operation>, t: ThreadId)
    requires !Unheard(m, t)
    ensures Unheard(Run(m, ops), t) <==> LeftUnheard(m, ops, t)
    decreases |ops|
  {
    if ops != [] {
      var n := |ops| - 1;
      UnheardExactly(m, ops[..n], t);
      RunLast(m, ops);
      UnheardStep(Run(m, ops[..n]), ops[n], t);
      LeftUnheardStep(m, ops, t);
    }
  }

  /** The resume of a running thread can start a listener that nobody is subscribed to. */
  lemma ListenerWithoutSubscribers()
    ensures var ops :=
        [EnsureSubscribed(0, 7, false), EnsureListener(0, 1, 0), RemoveConnection(7), EnsureListener(0, 1, 1)];
      Unheard(Run(EMPTY, ops), 0)
  {
    var a, b := EnsureSubscribed(0, 7, false), EnsureListener(0, 1, 0);
    var c, d := RemoveConnection(7), EnsureListener(0, 1, 1);
    assert [a, b, c, d] == [a] + ([b] + ([c] + ([d] + [])));
    var m := Step(Step(EMPTY, a), b);
    RunFirst(EMPTY, a, [b] + ([c] + ([d] + [])));
    RunFirst(Step(EMPTY, a), b, [c] + ([d] + []));
    RunFirst(m, c, [d] + []);
    RunFirst(Step(m, c), d, []);
    assert Step(m, c).threads[0].subscribed == {} && Step(m, c).threads[0].conversation.None?;
  }

  lemma RunFirst(m: Manager, op: Operation, rest: seq<Operation>)
    ensures Run(m, [op] + rest) == Run(Step(m, op), rest)
  {
    assert ([op] + rest)[1..] == rest;
  }

  /** Only threads with subscribers have listeners. */
  ghost predicate ListenersAreHeard(m: Manager) {
    forall t | t in m.threads && m.threads[t].cancel.Some? :: m.threads[t].subscribed != {}
  }

  /** Listeners are started only for threads with subscribers. */
  ghost predicate StartsHeard(m: Manager, ops: seq<Operation>) {
    forall i, t | 0 <= i < |ops| :: !StartsUnheard(Run(m, ops[..i]), ops[i], t)
  }

  /** Then no listener outlives the last subscriber of its thread, however that one leaves. */
  lemma ListenersNeverOutliveSubscribers(m: Manager, ops: seq<Operation>)
    requires ListenersAreHeard(m) && StartsHeard(m, ops)
    ensures ListenersAreHeard(Run(m, ops))
  {
    forall t ensures !Unheard(Run(m, ops), t) {
      UnheardExactly(m, ops, t);
    }
    var r := Run(m, ops);
    forall t | t in r.threads && r.threads[t].cancel.Some? ensures r.threads[t].subscribed != {} {
      assert !Unheard(r, t);
    }
  }

  // Listener tasks

  /** Every started listener was cancelled, or exactly one thread holds it. */
  ghost predicate ListenersTracked(m: Manager, started: set<ListenerId>) {
    && (forall l | l in started ::
          l in m.cancelled || exists t | t in m.threads :: m.threads[t].cancel == Some(l))
    && (forall t | t in m.threads && m.threads[t].cancel.Some? ::
          m.threads[t].cancel.value in started && m.threads[t].cancel.value !in m.cancelled)
    && (forall t, t' | t in m.threads && t' in m.threads && t != t' && m.threads[t].cancel.Some? ::
          m.threads[t].cancel != m.threads[t'].cancel)
    && m.cancelled <= started
  }

  /** The listener tasks started by an operation. */
  function Started(m: Manager, op: Operation): set<ListenerId> {
    if op.EnsureListener? && m.ThreadOf(op.t).conversation != Some(op.conversation) then {op.listener} else {}
  }

  /** What a step may do to threads and signals: threads keep their listener or have it cancelled. */
  ghost predicate OnlyCancels(m: Manager, m': Manager) {
    && (forall t | t in m'.threads && m'.threads[t].cancel.Some? ::
          t in m.threads && m.threads[t].cancel == m'.threads[t].cancel)
    && m.cancelled <= m'.cancelled
    && (forall l | l in m'.cancelled && l !in m.cancelled ::
          exists t | t in m.threads ::
            m.threads[t].cancel == Some(l) && (t in m'.threads ==> m'.threads[t].cancel.None?))
    && (forall t | t in m.threads && m.threads[t].cancel.Some? ::
          (t in m'.threads && m'.threads[t].cancel == m.threads[t].cancel) || m.threads[t].cancel.value in m'.cancelled)
  }

  lemma OnlyCancelsKeepsTracked(m: Manager, m': Manager, started: set<ListenerId>)
    requires ListenersTracked(m, started) && OnlyCancels(m, m')
    ensures ListenersTracked(m', started)
  {
    forall l | l in started && l !in m'.cancelled
      ensures exists t | t in m'.threads :: m'.threads[t].cancel == Some(l)
    {
      var t :| t in m.threads && m.threads[t].cancel == Some(l);
      assert t in m'.threads && m'.threads[t].cancel == Some(l);
    }
    forall t | t in m'.threads && m'.threads[t].cancel.Some? ensures m'.threads[t].cancel.value !in m'.cancelled {
      assert m.threads[t].cancel == m'.threads[t].cancel;
    }
  }

  lemma CloseOnlyCancels(m: Manager, c: ConnectionId)
    ensures OnlyCancels(m, Close(m, c))
  {
    var m' := Close(m, c);
    forall t | t in m.threads && m.threads[t].cancel.Some?
      ensures m'.threads[t].cancel == m.threads[t].cancel || m.threads[t].cancel.value in m'.cancelled
    {
      if t in Visited(m, c) && m.threads[t].Without(c).cancel != m.threads[t].cancel {
        assert m.threads[t].cancel.value in Signalled(m.threads[t], m.threads[t].Without(c));
      }
    }
  }

  lemma OtherStepsOnlyCancel(m: Manager, op: Operation)
    requires !op.EnsureListener?
    ensures OnlyCancels(m, Step(m, op))
  {
    if op.RemoveConnection? {
      CloseOnlyCancels(m, op.c);
    }
  }

  /** The listener that a thread held is cancelled before it gets a new one. */
  function Freed(m: Manager, t: ThreadId): Manager {
    m.(threads := m.threads[t := m.ThreadOf(t).(cancel := None)], cancelled := m.cancelled + Held(m.ThreadOf(t).cancel))
  }

  lemma FreeingKeepsTracked(m: Manager, t: ThreadId, started: set<ListenerId>)
    requires ListenersTracked(m, started)
    ensures ListenersTracked(Freed(m, t), started)
  {
    OnlyCancelsKeepsTracked(m, Freed(m, t), started);
  }

  /** A thread without listener gets one that was never started before. */
  lemma NewListenerTracked(m: Manager, m': Manager, t: ThreadId, l: ListenerId, started: set<ListenerId>)
    requires ListenersTracked(m, started) && l !in started
    requires t in m.threads && m.threads[t].cancel.None?
    requires m'.threads.Keys == m.threads.Keys && m'.cancelled == m.cancelled && m'.threads[t].cancel == Some(l)
    requires forall t' | t' in m.threads && t' != t :: m'.threads[t'].cancel == m.threads[t'].cancel
    ensures ListenersTracked(m', started + {l})
  {
    forall k | k in started + {l} && k !in m'.cancelled
      ensures exists t' | t' in m'.threads :: m'.threads[t'].cancel == Some(k)
    {
      if k == l {
        assert m'.threads[t].cancel == Some(k);
      } else {
        var t' :| t' in m.threads && m.threads[t'].cancel == Some(k);
        assert m'.threads[t'].cancel == Some(k);
      }
    }
  }

  lemma StartKeepsTracked(m: Manager, op: Operation, started: set<ListenerId>)
    requires ListenersTracked(m, started) && op.EnsureListener? && op.listener !in started
    ensures ListenersTracked(Step(m, op), started + Started(m, op))
  {
    if Started(m, op) == {} {
      OnlyCancelsKeepsTracked(m, Step(m, op), started);
      assert started + {} == started;
    } else {
      FreeingKeepsTracked(m, op.t, started);
      NewListenerTracked(Freed(m, op.t), Step(m, op), op.t, op.listener, started);
    }
  }

  function StartedBy(m: Manager, ops: seq<Operation>): set<ListenerId>
    decreases |ops|
  {
    if ops == [] then {} else Started(m, ops[0]) + StartedBy(Step(m, ops[0]), ops[1..])
  }

  /** Listener ids are new channels: none repeats, none was started before. */
  ghost predicate NewChannels(ops: seq<Operation>, started: set<ListenerId>) {
    && (forall i | 0 <= i < |ops| && ops[i].EnsureListener? :: ops[i].listener !in started)
    && (forall i, j | 0 <= i < j < |ops| && ops[i].EnsureListener? && ops[j].EnsureListener? ::
          ops[i].listener != ops[j].listener)
  }

  lemma {:induction false} RunsTrackListeners(m: Manager, ops: seq<Operation>, started: set<ListenerId>)
    requires ListenersTracked(m, started) && NewChannels(ops, started)
    ensures ListenersTracked(Run(m, ops), started + StartedBy(m, ops))
    decreases |ops|
  {
    if ops != [] {
      var m' := Step(m, ops[0]);
      var started' := started + Started(m, ops[0]);
      if ops[0].EnsureListener? {
        StartKeepsTracked(m, ops[0], started);
      } else {
        OtherStepsOnlyCancel(m, ops[0]);
        OnlyCancelsKeepsTracked(m, m', started);
      }
      RunsTrackListeners(m', ops[1..], started');
      assert started' + StartedBy(m', ops[1..]) == started + StartedBy(m, ops);
    }
  }

  /** Over every run, each listener task ever started was cancelled or is the one its thread still holds. */
  lemma OneListenerPerThread(ops: seq<Operation>)
    requires NewChannels(ops, {})
    ensures ListenersTracked(Run(EMPTY, ops), StartedBy(EMPTY, ops))
  {
    RunsTrackListeners(EMPTY, ops, {});
  }
}
