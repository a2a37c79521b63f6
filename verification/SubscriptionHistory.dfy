/**
 Who listens to what, from the history of operations alone: which pairs are subscribed, which subscriptions live, which
 threads report raw events, and which conversation a thread's listener follows.
 */
module SubscriptionHistory {
  import opened Seqs
  import opened Subscriptions

  // One operation

  /** The operation subscribes the connection to the thread; the resume path only when the thread is known. */
  predicate Joins(m: Manager, op: Operation, t: ThreadId, c: ConnectionId) {
    match op
    case SetListener(_, t', c', _) => t' == t && c' == c
    case EnsureSubscribed(t', c', _) => t' == t && c' == c
    case ResumeAdd(t', c') => t' == t && c' == c && t in m.threads
    case _ => false
  }

  predicate Leaves(m: Manager, op: Operation, t: ThreadId, c: ConnectionId) {
    match op
    case RemoveListener(u) => u in m.subscriptions && Dropped(m, u, t, c)
    case RemoveThread(t') => t' == t
    case RemoveConnection(c') => c' == c && t in Visited(m, c)
    case _ => false
  }

  lemma SubscriberStep(m: Manager, op: Operation, t: ThreadId, c: ConnectionId)
    ensures Step(m, op).Subscribed(t, c) <==> Joins(m, op, t, c) || (m.Subscribed(t, c) && !Leaves(m, op, t, c))
  {
    if op.RemoveListener? && op.u in m.subscriptions {
      DropChangesOnePair(m, op.u, t, c);
    }
  }

  /** The index follows the subscribers; but the resume path adds nothing, and a closed connection has no entry. */
  lemma IndexStep(m: Manager, op: Operation, t: ThreadId, c: ConnectionId)
    ensures t in Step(m, op).Indexed(c)
       <==> (Joins(m, op, t, c) && !op.ResumeAdd?)
            || (t in m.Indexed(c) && !Leaves(m, op, t, c) && op != RemoveConnection(c))
  {
    match op
    case RemoveListener(u) => if u in m.subscriptions { DropChangesOnePair(m, u, t, c); }
    case RemoveThread(t') => IndexWithout(m, t', t, c);
    case _ =>
  }

  lemma IndexWithout(m: Manager, gone: ThreadId, t: ThreadId, c: ConnectionId)
    ensures t in ForgetThread(m, gone).Indexed(c) <==> t in m.Indexed(c) && t != gone
  {
    if t in m.Indexed(c) && t != gone {
      assert t in m.index[c] - {gone};
    }
  }

  /** The subscription is live: it is registered under this id. */
  predicate Live(m: Manager, u: SubscriptionId, s: Subscription) {
    u in m.subscriptions && m.subscriptions[u] == s
  }

  predicate Ends(op: Operation, u: SubscriptionId, s: Subscription) {
    match op
    case SetListener(u', _, _, _) => u' == u
    case RemoveListener(u') => u' == u
    case RemoveThread(t) => t == s.thread
    case RemoveConnection(c) => c == s.connection
    case _ => false
  }

  predicate Opens(op: Operation, u: SubscriptionId, s: Subscription) {
    op.SetListener? && op.u == u && s == Subscription(op.t, op.c)
  }

  lemma SubscriptionStep(m: Manager, op: Operation, u: SubscriptionId, s: Subscription)
    ensures Live(Step(m, op), u, s) <==> Opens(op, u, s) || (Live(m, u, s) && !Ends(op, u, s))
  {
  }

  /** A new subscription sets what the thread reports; a mere subscriber can only switch raw events on. */
  lemma RawEventsStep(m: Manager, op: Operation, t: ThreadId)
    ensures Step(m, op).ThreadOf(t).rawEvents
         == match op
            case SetListener(_, t', _, raw) => if t' == t then raw else m.ThreadOf(t).rawEvents
            case EnsureSubscribed(t', _, raw) => (t' == t && raw) || m.ThreadOf(t).rawEvents
            case RemoveThread(t') => t' != t && m.ThreadOf(t).rawEvents
            case _ => m.ThreadOf(t).rawEvents
  {
  }

  // Runs

  /** The subscription registered under an id. */
  function Registered(ops: seq<Operation>, u: SubscriptionId): Option<Subscription> {
    if ops == [] then None
    else
      var before, op := Registered(ops[..|ops| - 1], u), ops[|ops| - 1];
      if op.SetListener? && op.u == u then Some(Subscription(op.t, op.c))
      else if before.Some? && Ends(op, u, before.value) then None
      else before
  }

  /** Another subscription stands for the same pair. */
  ghost predicate StandsToo(ops: seq<Operation>, u: SubscriptionId) {
    exists v :: v != u && Registered(ops, v) == Registered(ops, u)
  }

  /**
   The connection was subscribed to the thread, and since then neither was closed or removed and no unsubscription took
   away the last subscription for the pair.
   */
  ghost predicate IsSubscribed(ops: seq<Operation>, t: ThreadId, c: ConnectionId) {
    ops != [] && (
      var before, op := ops[..|ops| - 1], ops[|ops| - 1];
      match op
      case SetListener(_, t', c', _) => (t' == t && c' == c) || IsSubscribed(before, t, c)
      case EnsureSubscribed(t', c', _) => (t' == t && c' == c) || IsSubscribed(before, t, c)
      case RemoveThread(t') => t' != t && IsSubscribed(before, t, c)
      case RemoveConnection(c') => c' != c && IsSubscribed(before, t, c)
      case RemoveListener(u) =>
        IsSubscribed(before, t, c) && (Registered(before, u) == Some(Subscription(t, c)) ==> StandsToo(before, u))
      case _ => IsSubscribed(before, t, c))
  }

  function LastRaw(ops: seq<Operation>, t: ThreadId): bool {
    ops != [] && (
      var before, op := ops[..|ops| - 1], ops[|ops| - 1];
      match op
      case SetListener(_, t', _, raw) => if t' == t then raw else LastRaw(before, t)
      case EnsureSubscribed(t', _, raw) => (t' == t && raw) || LastRaw(before, t)
      case RemoveThread(t') => t' != t && LastRaw(before, t)
      case _ => LastRaw(before, t))
  }

  lemma {:induction false} RegisteredExactly(ops: seq<Operation>, u: SubscriptionId, s: Subscription)
    ensures Live(Run(EMPTY, ops), u, s) <==> Registered(ops, u) == Some(s)
    decreases |ops|
  {
    if ops != [] {
      var before := ops[..|ops| - 1];
      RunLast(EMPTY, ops);
      RegisteredExactly(before, u, s);
      SubscriptionStep(Run(EMPTY, before), ops[|ops| - 1], u, s);
    }
  }

  lemma DroppedExactly(ops: seq<Operation>, u: SubscriptionId, t: ThreadId, c: ConnectionId)
    ensures var m := Run(EMPTY, ops);
      u in m.subscriptions && Dropped(m, u, t, c)
      <==> Registered(ops, u) == Some(Subscription(t, c)) && !StandsToo(ops, u)
  {
    var m, s := Run(EMPTY, ops), Subscription(t, c);
    RegisteredExactly(ops, u, s);
    forall v ensures Live(m, v, s) <==> Registered(ops, v) == Some(s) {
      RegisteredExactly(ops, v, s);
    }
    if Live(m, u, s) {
      var rest := m.subscriptions - {u};
      if v :| v in rest && rest[v] == s {
        assert Live(m, v, s);
      }
      if v :| v != u && Registered(ops, v) == Some(s) {
        assert Live(m, v, s) && v in rest;
      }
    }
  }

  predicate OwnOperations(ops: seq<Operation>) {
    forall i | 0 <= i < |ops| :: !ops[i].ResumeAdd?
  }

  lemma SubscribedStep(ops: seq<Operation>, t: ThreadId, c: ConnectionId)
    requires ops != [] && OwnOperations(ops)
    requires var before := ops[..|ops| - 1];
      Run(EMPTY, before).Subscribed(t, c) <==> IsSubscribed(before, t, c)
    ensures Run(EMPTY, ops).Subscribed(t, c) <==> IsSubscribed(ops, t, c)
  {
    var before, op := ops[..|ops| - 1], ops[|ops| - 1];
    var m := Run(EMPTY, before);
    RunLast(EMPTY, ops);
    SubscriberStep(m, op, t, c);
    match op
    case RemoveListener(u) => DroppedExactly(before, u, t, c);
    case RemoveConnection(c') =>
      RunsAgree(EMPTY, before);
      assert m.Subscribed(t, c) ==> t in Visited(m, c);
    case _ =>
  }

  /** Over runs of the manager's own operations, the subscribed pairs are exactly those that history says. */
  lemma {:induction false} SubscribedExactly(ops: seq<Operation>, t: ThreadId, c: ConnectionId)
    requires OwnOperations(ops)
    ensures Run(EMPTY, ops).Subscribed(t, c) <==> IsSubscribed(ops, t, c)
    decreases |ops|
  {
    if ops != [] {
      SubscribedExactly(ops[..|ops| - 1], t, c);
      SubscribedStep(ops, t, c);
    }
  }

  /** A thread reports raw events as its last subscription said, or because a later subscriber switched them on. */
  lemma {:induction false} RawEventsExactly(ops: seq<Operation>, t: ThreadId)
    ensures Run(EMPTY, ops).ThreadOf(t).rawEvents == LastRaw(ops, t)
    decreases |ops|
  {
    if ops != [] {
      var before := ops[..|ops| - 1];
      RawEventsExactly(before, t);
      RunLast(EMPTY, ops);
      RawEventsStep(Run(EMPTY, before), ops[|ops| - 1], t);
    }
  }

  // Listeners

  /** Cancel channel, command channel and conversation come and go together. */
  predicate WholeListener(th: Thread) {
    th.command == th.cancel && (th.conversation.Some? <==> th.cancel.Some?)
  }

  ghost predicate WholeListeners(m: Manager) {
    forall t | t in m.threads :: WholeListener(m.threads[t])
  }

  lemma StepKeepsWhole(m: Manager, op: Operation)
    requires WholeListeners(m)
    ensures WholeListeners(Step(m, op))
  {
  }

  lemma {:induction false} ListenersAreWhole(m: Manager, ops: seq<Operation>)
    requires WholeListeners(m)
    ensures WholeListeners(Run(m, ops))
    decreases |ops|
  {
    if ops != [] {
      StepKeepsWhole(m, ops[0]);
      ListenersAreWhole(Step(m, ops[0]), ops[1..]);
    }
  }

  /**
   A thread whose listener is ensured follows that conversation: with the listener it had if that one did already, and
   otherwise with the new one, after the old one was told to stop. No other thread is touched.
   */
  lemma {:induction false} ListenerIsEnsured(
    m: Manager, t: ThreadId, conversation: ConversationId, listener: ListenerId)
    ensures var before, m' := m.ThreadOf(t), Step(m, EnsureListener(t, conversation, listener));
      var after := m'.ThreadOf(t);
      && after.conversation == Some(conversation)
      && after.subscribed == before.subscribed && after.rawEvents == before.rawEvents
      && (before.conversation == Some(conversation) ==> after == before && m'.cancelled == m.cancelled)
      && (before.conversation != Some(conversation) ==>
            && after.cancel == after.command == Some(listener)
            && m'.cancelled == m.cancelled + (if before.cancel.Some? then {before.cancel.value} else {}))
      && forall t' | t' != t :: m'.ThreadOf(t') == m.ThreadOf(t')
  {
  }
}
