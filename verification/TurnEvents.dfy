/**
 The per-thread event handlers: file-change items, turn outcomes, and the replies to interrupt and rollback requests.
 Every handler is one step; the log holds the messages handed to the thread's sender, in order.
 */
module TurnEvents {
  import opened Seqs

  // Identifiers and errors are only compared and passed on, so numbers stand for them
  type ItemId = nat
  type RequestId = nat
  type TurnError = nat

  datatype ApiVersion = V1 | V2

  datatype TurnOutcome = Completed | Failed(error: TurnError) | Interrupted

  datatype Message =
    | ItemStarted(item: ItemId)
    | ItemCompleted(item: ItemId)
    | TurnCompleted(outcome: TurnOutcome)
    | ErrorNotice(error: TurnError, willRetry: bool)
    | InterruptReply(request: RequestId, version: ApiVersion)
    | RollbackReply(request: RequestId, ok: bool)
    | RollbackRefused(request: RequestId)

  /** submitting: the accepted rollback whose submission to the agent has not returned yet. */
  datatype Thread = Thread(
    pendingInterrupts: seq<(RequestId, ApiVersion)>,
    pendingRollback: Option<RequestId>,
    submitting: Option<RequestId>,
    fileChangeStarted: set<ItemId>,
    lastError: Option<TurnError>,
    log: seq<Message>)

  const IDLE := Thread([], None, None, {}, None, [])

  datatype Event =
    | PatchApprovalRequested(item: ItemId, version: ApiVersion)
    | PatchBegun(item: ItemId)
    | PatchEnded(item: ItemId)
    | ApprovalCompletesItem(item: ItemId)
    | ErrorEvent(error: TurnError, affectsTurn: bool)
    | StreamError(error: TurnError)
    | TurnComplete
    | TurnAborted
    | RollbackFailed
    | RolledBack(ok: bool)
    | InterruptRequested(request: RequestId, version: ApiVersion)
    | RollbackRequested(request: RequestId)
    | RollbackSubmitted(ok: bool)

  // The handlers

  function OutcomeFrom(lastError: Option<TurnError>): TurnOutcome {
    if lastError.Some? then Failed(lastError.value) else Completed
  }

  function InterruptReplies(pending: seq<(RequestId, ApiVersion)>): seq<Message> {
    seq(|pending|, i requires 0 <= i < |pending| => InterruptReply(pending[i].0, pending[i].1))
  }

  function FirstStart(s: Thread, item: ItemId): seq<Message> {
    if item in s.fileChangeStarted then [] else [ItemStarted(item)]
  }

  function RollbackAnswer(s: Thread, ok: bool): seq<Message> {
    if s.pendingRollback.Some? then [RollbackReply(s.pendingRollback.value, ok)] else []
  }

  /** The messages a handler sends. */
  function Sent(s: Thread, ev: Event): seq<Message> {
    match ev
    case PatchApprovalRequested(item, version) => if version == V2 then FirstStart(s, item) else []
    case PatchBegun(item) => FirstStart(s, item)
    case PatchEnded(item) => [ItemCompleted(item)]
    case ApprovalCompletesItem(item) => [ItemCompleted(item)]
    case ErrorEvent(error, affectsTurn) => if affectsTurn then [ErrorNotice(error, false)] else []
    case StreamError(error) => [ErrorNotice(error, true)]
    case TurnComplete => [TurnCompleted(OutcomeFrom(s.lastError))]
    case TurnAborted => InterruptReplies(s.pendingInterrupts) + [TurnCompleted(Interrupted)]
    case RollbackFailed => RollbackAnswer(s, false)
    case RolledBack(ok) => RollbackAnswer(s, ok)
    case InterruptRequested(_, _) => []
    case RollbackRequested(request) => if s.pendingRollback.Some? then [RollbackRefused(request)] else []
    case RollbackSubmitted(ok) => if s.submitting.Some? && !ok then [RollbackReply(s.submitting.value, false)] else []
  }

  /** The state a handler leaves, apart from the log. */
  function Next(s: Thread, ev: Event): Thread {
    match ev
    case PatchApprovalRequested(item, version) =>
      if version == V2 then s.(fileChangeStarted := s.fileChangeStarted + {item}) else s
    case PatchBegun(item) => s.(fileChangeStarted := s.fileChangeStarted + {item})
    case PatchEnded(item) => s.(fileChangeStarted := s.fileChangeStarted - {item})
    case ApprovalCompletesItem(item) => s.(fileChangeStarted := s.fileChangeStarted - {item})
    case ErrorEvent(error, affectsTurn) => if affectsTurn then s.(lastError := Some(error)) else s
    case StreamError(_) => s
    case TurnComplete => s.(fileChangeStarted := {}, lastError := None)
    case TurnAborted => s.(pendingInterrupts := [], fileChangeStarted := {}, lastError := None)
    case RollbackFailed => s.(pendingRollback := None)
    case RolledBack(_) => s.(pendingRollback := None)
    case InterruptRequested(request, version) => s.(pendingInterrupts := s.pendingInterrupts + [(request, version)])
    case RollbackRequested(request) =>
      if s.pendingRollback.Some? then s else s.(pendingRollback := Some(request), submitting := Some(request))
    case RollbackSubmitted(ok) =>
      if s.submitting.None? then s
      else s.(pendingRollback := if ok then s.pendingRollback else None, submitting := None)
  }

  function Step(s: Thread, ev: Event): Thread {
    Next(s, ev).(log := s.log + Sent(s, ev))
  }

  function Run(evs: seq<Event>): Thread {
    if evs == [] then IDLE else Step(Run(evs[..|evs| - 1]), evs[|evs| - 1])
  }

  // File-change items

  predicate Touches(m: Message, item: ItemId) {
    m == ItemStarted(item) || m == ItemCompleted(item) || m.TurnCompleted?
  }

  /** The last start or completion of the item, or turn end. */
  function LastTouch(log: seq<Message>, item: ItemId): Option<Message> {
    if log == [] then None
    else if Touches(log[|log| - 1], item) then Some(log[|log| - 1])
    else LastTouch(log[..|log| - 1], item)
  }

  lemma LastTouchOne(log: seq<Message>, m: Message, item: ItemId)
    ensures LastTouch(log + [m], item) == if Touches(m, item) then Some(m) else LastTouch(log, item)
  {
    assert (log + [m])[..|log|] == log;
  }

  /** Every handler but the one for an aborted turn sends at most one message. */
  lemma SendsAtMostOne(s: Thread, ev: Event)
    requires !ev.TurnAborted?
    ensures |Sent(s, ev)| <= 1
    ensures Sent(s, ev) == [] ==> Step(s, ev).log == s.log
    ensures |Sent(s, ev)| == 1 ==> Step(s, ev).log == s.log + [Sent(s, ev)[0]]
  {
  }

  lemma AbortSends(s: Thread)
    ensures Step(s, TurnAborted).log
         == (s.log + InterruptReplies(s.pendingInterrupts)) + [TurnCompleted(Interrupted)]
  {
  }

  lemma StartedStep(s: Thread, ev: Event, item: ItemId)
    requires !ev.TurnAborted?
    ensures item in Next(s, ev).fileChangeStarted
       <==> if |Sent(s, ev)| == 1 && Touches(Sent(s, ev)[0], item) then Sent(s, ev)[0] == ItemStarted(item)
            else item in s.fileChangeStarted
  {
  }

  /** The started set is what the log says: an item is in it when it was started and not completed or ended since. */
  lemma {:induction false} StartedMatchesLog(evs: seq<Event>, item: ItemId)
    ensures item in Run(evs).fileChangeStarted <==> LastTouch(Run(evs).log, item) == Some(ItemStarted(item))
  {
    if evs != [] {
      var s, ev := Run(evs[..|evs| - 1]), evs[|evs| - 1];
      StartedMatchesLog(evs[..|evs| - 1], item);
      if ev.TurnAborted? {
        AbortSends(s);
        LastTouchOne(s.log + InterruptReplies(s.pendingInterrupts), TurnCompleted(Interrupted), item);
      } else {
        SendsAtMostOne(s, ev);
        StartedStep(s, ev, item);
        if |Sent(s, ev)| == 1 {
          LastTouchOne(s.log, Sent(s, ev)[0], item);
        }
      }
    }
  }

  /** Between two starts of one item lies its completion or a turn end. */
  ghost predicate NoDoubleStart(log: seq<Message>, item: ItemId) {
    forall i, j | 0 <= i < j < |log| && log[i] == log[j] == ItemStarted(item) ::
      exists k | i < k < j :: log[k] == ItemCompleted(item) || log[k].TurnCompleted?
  }

  lemma {:induction false} LastTouchBetween(log: seq<Message>, i: nat, item: ItemId)
    requires i < |log| && log[i] == ItemStarted(item) && LastTouch(log, item) != Some(ItemStarted(item))
    ensures exists k | i < k < |log| :: log[k] == ItemCompleted(item) || log[k].TurnCompleted?
  {
    var n := |log| - 1;
    if !Touches(log[n], item) {
      LastTouchBetween(log[..n], i, item);
      var k :| i < k < n && (log[..n][k] == ItemCompleted(item) || log[..n][k].TurnCompleted?);
      assert log[k] == log[..n][k];
    }
  }

  lemma AppendNoDoubleStart(log: seq<Message>, m: Message, item: ItemId)
    requires NoDoubleStart(log, item)
    requires m == ItemStarted(item) ==> LastTouch(log, item) != Some(ItemStarted(item))
    ensures NoDoubleStart(log + [m], item)
  {
    var l := log + [m];
    forall i, j | 0 <= i < j < |l| && l[i] == l[j] == ItemStarted(item)
      ensures exists k | i < k < j :: l[k] == ItemCompleted(item) || l[k].TurnCompleted?
    {
      if j == |log| {
        LastTouchBetween(log, i, item);
        var k :| i < k < |log| && (log[k] == ItemCompleted(item) || log[k].TurnCompleted?);
        assert l[k] == log[k];
      } else {
        var k :| i < k < j && (log[k] == ItemCompleted(item) || log[k].TurnCompleted?);
        assert l[k] == log[k];
      }
    }
  }

  lemma {:induction false} AppendRepliesNoDoubleStart(
    log: seq<Message>, pending: seq<(RequestId, ApiVersion)>, item: ItemId)
    requires NoDoubleStart(log, item)
    ensures NoDoubleStart(log + InterruptReplies(pending), item)
    decreases |pending|
  {
    if pending == [] {
      assert log + InterruptReplies(pending) == log;
    } else {
      var n := |pending| - 1;
      AppendRepliesNoDoubleStart(log, pending[..n], item);
      AppendNoDoubleStart(log + InterruptReplies(pending[..n]), InterruptReply(pending[n].0, pending[n].1), item);
      assert InterruptReplies(pending) == InterruptReplies(pending[..n]) + [InterruptReply(pending[n].0, pending[n].1)];
      assert log + InterruptReplies(pending)
          == (log + InterruptReplies(pending[..n])) + [InterruptReply(pending[n].0, pending[n].1)];
    }
  }

  /** In every run, no file-change start is sent twice without the item's completion or a turn end in between. */
  lemma {:induction false} StartsAreNotRepeated(evs: seq<Event>, item: ItemId)
    ensures NoDoubleStart(Run(evs).log, item)
  {
    if evs != [] {
      var s, ev := Run(evs[..|evs| - 1]), evs[|evs| - 1];
      StartsAreNotRepeated(evs[..|evs| - 1], item);
      StartedMatchesLog(evs[..|evs| - 1], item);
      if ev.TurnAborted? {
        AbortSends(s);
        AppendRepliesNoDoubleStart(s.log, s.pendingInterrupts, item);
        AppendNoDoubleStart(s.log + InterruptReplies(s.pendingInterrupts), TurnCompleted(Interrupted), item);
      } else {
        SendsAtMostOne(s, ev);
        if |Sent(s, ev)| == 1 {
          AppendNoDoubleStart(s.log, Sent(s, ev)[0], item);
        }
      }
    }
  }

  // Turn outcomes

  /** The last turn-affecting error since the previous turn end. */
  function LastErrorSince(evs: seq<Event>): Option<TurnError> {
    if evs == [] then None
    else
      var ev := evs[|evs| - 1];
      if ev.TurnComplete? || ev.TurnAborted? then None
      else if ev.ErrorEvent? && ev.affectsTurn then Some(ev.error)
      else LastErrorSince(evs[..|evs| - 1])
  }

  /** The outcomes of the turns that ended, in order. */
  function TurnOutcomes(evs: seq<Event>): seq<TurnOutcome> {
    if evs == [] then []
    else
      var before, ev := evs[..|evs| - 1], evs[|evs| - 1];
      TurnOutcomes(before)
      + (if ev.TurnComplete? then [OutcomeFrom(LastErrorSince(before))]
         else if ev.TurnAborted? then [Interrupted] else [])
  }

  function OutcomesIn(log: seq<Message>): seq<TurnOutcome> {
    if log == [] then []
    else
      OutcomesIn(log[..|log| - 1])
      + (if log[|log| - 1].TurnCompleted? then [log[|log| - 1].outcome] else [])
  }

  lemma {:induction false} OutcomesAppend(log: seq<Message>, more: seq<Message>)
    ensures OutcomesIn(log + more) == OutcomesIn(log) + OutcomesIn(more)
    decreases |more|
  {
    if more == [] {
      assert log + more == log;
    } else {
      assert (log + more)[..|log + more| - 1] == log + more[..|more| - 1];
      OutcomesAppend(log, more[..|more| - 1]);
    }
  }

  lemma {:induction false} RepliesHaveNoOutcome(pending: seq<(RequestId, ApiVersion)>)
    ensures OutcomesIn(InterruptReplies(pending)) == []
    decreases |pending|
  {
    if pending != [] {
      var n := |pending| - 1;
      assert InterruptReplies(pending)[..n] == InterruptReplies(pending[..n]);
      RepliesHaveNoOutcome(pending[..n]);
    }
  }

  lemma {:induction false} LastErrorMatches(evs: seq<Event>)
    ensures Run(evs).lastError == LastErrorSince(evs)
  {
    if evs != [] {
      LastErrorMatches(evs[..|evs| - 1]);
    }
  }

  /**
   In every run, the turn completions sent are exactly one per ended turn, in order: failed with the last
   turn-affecting error since the previous turn end if there is one, else completed; interrupted for aborted turns.
   */
  lemma {:induction false} TurnsEndAsTheyShould(evs: seq<Event>)
    ensures OutcomesIn(Run(evs).log) == TurnOutcomes(evs)
  {
    if evs != [] {
      var before, ev := evs[..|evs| - 1], evs[|evs| - 1];
      TurnsEndAsTheyShould(before);
      LastErrorMatches(before);
      OutcomesAppend(Run(before).log, Sent(Run(before), ev));
      SentOutcomes(Run(before), ev);
    }
  }

  lemma OutcomesOne(log: seq<Message>, m: Message)
    ensures OutcomesIn(log + [m]) == OutcomesIn(log) + (if m.TurnCompleted? then [m.outcome] else [])
  {
    assert (log + [m])[..|log|] == log;
  }

  lemma AbortOutcomes(s: Thread)
    ensures OutcomesIn(Sent(s, TurnAborted)) == [Interrupted]
  {
    RepliesHaveNoOutcome(s.pendingInterrupts);
    OutcomesOne(InterruptReplies(s.pendingInterrupts), TurnCompleted(Interrupted));
  }

  /** Of the other events only a turn's completion sends an outcome. */
  lemma OneSentOutcome(s: Thread, ev: Event)
    requires !ev.TurnAborted?
    ensures var ms := Sent(s, ev);
      && |ms| <= 1
      && (ev.TurnComplete? ==> ms == [TurnCompleted(OutcomeFrom(s.lastError))])
      && (!ev.TurnComplete? && ms != [] ==> !ms[0].TurnCompleted?)
  {
  }

  lemma OutcomesOfOne(ms: seq<Message>)
    requires |ms| <= 1
    ensures OutcomesIn(ms) == if ms != [] && ms[0].TurnCompleted? then [ms[0].outcome] else []
  {
    if ms != [] {
      OutcomesOne([], ms[0]);
      assert [] + [ms[0]] == ms;
    }
  }

  lemma SentOutcomes(s: Thread, ev: Event)
    ensures OutcomesIn(Sent(s, ev))
         == if ev.TurnComplete? then [OutcomeFrom(s.lastError)] else if ev.TurnAborted? then [Interrupted] else []
  {
    if ev.TurnAborted? {
      AbortOutcomes(s);
    } else {
      OneSentOutcome(s, ev);
      OutcomesOfOne(Sent(s, ev));
    }
  }

  // Interrupt requests

  function InterruptRequests(evs: seq<Event>): seq<(RequestId, ApiVersion)> {
    if evs == [] then []
    else
      var ev := evs[|evs| - 1];
      InterruptRequests(evs[..|evs| - 1]) + (if ev.InterruptRequested? then [(ev.request, ev.version)] else [])
  }

  function InterruptsAnswered(log: seq<Message>): seq<(RequestId, ApiVersion)> {
    if log == [] then []
    else
      var m := log[|log| - 1];
      InterruptsAnswered(log[..|log| - 1]) + (if m.InterruptReply? then [(m.request, m.version)] else [])
  }

  lemma InterruptsAnsweredOne(log: seq<Message>, m: Message)
    ensures InterruptsAnswered(log + [m])
         == InterruptsAnswered(log) + (if m.InterruptReply? then [(m.request, m.version)] else [])
  {
    assert (log + [m])[..|log|] == log;
  }

  lemma RepliesSnoc(log: seq<Message>, pending: seq<(RequestId, ApiVersion)>)
    requires pending != []
    ensures var n := |pending| - 1;
      log + InterruptReplies(pending)
      == (log + InterruptReplies(pending[..n])) + [InterruptReply(pending[n].0, pending[n].1)]
  {
  }

  lemma {:induction false} RepliesAnswer(log: seq<Message>, pending: seq<(RequestId, ApiVersion)>)
    ensures InterruptsAnswered(log + InterruptReplies(pending)) == InterruptsAnswered(log) + pending
    decreases |pending|
  {
    if pending == [] {
      assert log + InterruptReplies(pending) == log;
    } else {
      var n := |pending| - 1;
      RepliesAnswer(log, pending[..n]);
      var last := InterruptReply(pending[n].0, pending[n].1);
      RepliesSnoc(log, pending);
      InterruptsAnsweredOne(log + InterruptReplies(pending[..n]), last);
      assert pending == pending[..n] + [pending[n]];
    }
  }

  lemma OnlyAbortAnswersInterrupts(s: Thread, ev: Event)
    requires !ev.TurnAborted?
    ensures forall i | 0 <= i < |Sent(s, ev)| :: !Sent(s, ev)[i].InterruptReply?
  {
  }

  lemma InterruptStep(s: Thread, ev: Event)
    requires !ev.TurnAborted?
    ensures InterruptsAnswered(s.log + Sent(s, ev)) == InterruptsAnswered(s.log)
  {
    SendsAtMostOne(s, ev);
    OnlyAbortAnswersInterrupts(s, ev);
    if |Sent(s, ev)| == 1 {
      InterruptsAnsweredOne(s.log, Sent(s, ev)[0]);
    }
  }

  lemma PendingStep(s: Thread, ev: Event)
    requires !ev.TurnAborted?
    ensures Next(s, ev).pendingInterrupts
         == s.pendingInterrupts + (if ev.InterruptRequested? then [(ev.request, ev.version)] else [])
  {
  }

  lemma AbortAnswers(s: Thread)
    ensures InterruptsAnswered(Step(s, TurnAborted).log) == InterruptsAnswered(s.log) + s.pendingInterrupts
  {
    AbortSends(s);
    RepliesAnswer(s.log, s.pendingInterrupts);
    InterruptsAnsweredOne(s.log + InterruptReplies(s.pendingInterrupts), TurnCompleted(Interrupted));
  }

  /** In every run, the interrupt requests are those answered so far followed by those pending, in arrival order. */
  lemma {:induction false} InterruptsInOrder(evs: seq<Event>)
    ensures InterruptsAnswered(Run(evs).log) + Run(evs).pendingInterrupts == InterruptRequests(evs)
  {
    if evs != [] {
      var s, ev := Run(evs[..|evs| - 1]), evs[|evs| - 1];
      InterruptsInOrder(evs[..|evs| - 1]);
      if ev.TurnAborted? {
        AbortAnswers(s);
      } else {
        InterruptStep(s, ev);
        PendingStep(s, ev);
      }
    }
  }

  /** After a turn is aborted, every interrupt request so far has been answered exactly once, in arrival order. */
  lemma {:induction false} AbortAnswersAllInterrupts(evs: seq<Event>)
    ensures InterruptsAnswered(Run(evs + [TurnAborted]).log) == InterruptRequests(evs)
  {
    var all := evs + [TurnAborted];
    assert all[..|evs|] == evs;
    InterruptsInOrder(all);
    assert Run(all).pendingInterrupts == [];
    assert InterruptRequests(all) == InterruptRequests(evs) + [] == InterruptRequests(evs);
    assert InterruptsAnswered(Run(all).log) + [] == InterruptsAnswered(Run(all).log);
  }

  // The whole log, from the history alone

  predicate Starts(ev: Event, item: ItemId) {
    ev == PatchApprovalRequested(item, V2) || ev == PatchBegun(item)
  }

  predicate Finishes(ev: Event, item: ItemId) {
    ev == PatchEnded(item) || ev == ApprovalCompletesItem(item) || ev.TurnComplete? || ev.TurnAborted?
  }

  /** The item was started, and neither completed nor cut off by a turn end since. */
  predicate IsStarted(evs: seq<Event>, item: ItemId) {
    evs != [] && (
      var ev := evs[|evs| - 1];
      Starts(ev, item) || (!Finishes(ev, item) && IsStarted(evs[..|evs| - 1], item)))
  }

  /** The accepted rollback request whose submission has not returned. */
  function InSubmission(evs: seq<Event>): Option<RequestId> {
    if evs == [] then None
    else
      var before, ev := evs[..|evs| - 1], evs[|evs| - 1];
      if ev.RollbackSubmitted? then None
      else if ev.RollbackRequested? && Unanswered(before).None? then Some(ev.request)
      else InSubmission(before)
  }

  /** The accepted rollback request that neither a rollback event nor a failed submission has ended. */
  function Unanswered(evs: seq<Event>): Option<RequestId> {
    if evs == [] then None
    else
      var before, ev := evs[..|evs| - 1], evs[|evs| - 1];
      if ev.RollbackFailed? || ev.RolledBack? then None
      else if ev == RollbackSubmitted(false) && InSubmission(before).Some? then None
      else if ev.RollbackRequested? && Unanswered(before).None? then Some(ev.request)
      else Unanswered(before)
  }

  function RollbackAnswered(request: Option<RequestId>, ok: bool): seq<Message> {
    if request.Some? then [RollbackReply(request.value, ok)] else []
  }

  /** What an event calls for after this history, replies to interrupts aside. */
  function CalledFor(before: seq<Event>, ev: Event): seq<Message> {
    match ev
    case PatchApprovalRequested(item, version) =>
      if version == V2 && !IsStarted(before, item) then [ItemStarted(item)] else []
    case PatchBegun(item) => if IsStarted(before, item) then [] else [ItemStarted(item)]
    case PatchEnded(item) => [ItemCompleted(item)]
    case ApprovalCompletesItem(item) => [ItemCompleted(item)]
    case ErrorEvent(error, affectsTurn) => if affectsTurn then [ErrorNotice(error, false)] else []
    case StreamError(error) => [ErrorNotice(error, true)]
    case TurnComplete => [TurnCompleted(OutcomeFrom(LastErrorSince(before)))]
    case TurnAborted => [TurnCompleted(Interrupted)]
    case RollbackFailed => RollbackAnswered(Unanswered(before), false)
    case RolledBack(ok) => RollbackAnswered(Unanswered(before), ok)
    case InterruptRequested(_, _) => []
    case RollbackRequested(request) => if Unanswered(before).Some? then [RollbackRefused(request)] else []
    case RollbackSubmitted(ok) => if ok then [] else RollbackAnswered(InSubmission(before), false)
  }

  function AllCalledFor(evs: seq<Event>): seq<Message> {
    if evs == [] then [] else AllCalledFor(evs[..|evs| - 1]) + CalledFor(evs[..|evs| - 1], evs[|evs| - 1])
  }

  function WithoutInterruptReplies(log: seq<Message>): seq<Message> {
    if log == [] then []
    else
      WithoutInterruptReplies(log[..|log| - 1])
      + (if log[|log| - 1].InterruptReply? then [] else [log[|log| - 1]])
  }

  lemma OtherMessagesOne(log: seq<Message>, m: Message)
    ensures WithoutInterruptReplies(log + [m]) == WithoutInterruptReplies(log) + if m.InterruptReply? then [] else [m]
  {
    assert (log + [m])[..|log|] == log;
  }

  lemma {:induction false} InterruptRepliesAreDropped(log: seq<Message>, pending: seq<(RequestId, ApiVersion)>)
    ensures WithoutInterruptReplies(log + InterruptReplies(pending)) == WithoutInterruptReplies(log)
    decreases |pending|
  {
    if pending == [] {
      assert log + InterruptReplies(pending) == log;
    } else {
      var n := |pending| - 1;
      InterruptRepliesAreDropped(log, pending[..n]);
      RepliesSnoc(log, pending);
      OtherMessagesOne(log + InterruptReplies(pending[..n]), InterruptReply(pending[n].0, pending[n].1));
    }
  }

  /** A thread's state is what its history says. */
  ghost predicate Reflects(s: Thread, evs: seq<Event>) {
    && (forall item :: item in s.fileChangeStarted <==> IsStarted(evs, item))
    && s.lastError == LastErrorSince(evs) && RollbackReflects(s, evs)
  }

  predicate RollbackReflects(s: Thread, evs: seq<Event>) {
    s.pendingRollback == Unanswered(evs) && s.submitting == InSubmission(evs)
  }

  lemma IsStartedStep(s: Thread, before: seq<Event>, evs: seq<Event>, item: ItemId)
    requires evs != [] && before == evs[..|evs| - 1]
    requires item in s.fileChangeStarted <==> IsStarted(before, item)
    ensures item in Step(s, evs[|evs| - 1]).fileChangeStarted <==> IsStarted(evs, item)
  {
  }

  lemma RollbackReflectsStep(s: Thread, before: seq<Event>, evs: seq<Event>)
    requires evs != [] && before == evs[..|evs| - 1] && RollbackReflects(s, before)
    ensures RollbackReflects(Step(s, evs[|evs| - 1]), evs)
  {
  }

  lemma {:induction false} StateReflectsHistory(evs: seq<Event>)
    ensures Reflects(Run(evs), evs)
  {
    LastErrorMatches(evs);
    if evs != [] {
      var before := evs[..|evs| - 1];
      StateReflectsHistory(before);
      forall item ensures item in Run(evs).fileChangeStarted <==> IsStarted(evs, item) {
        IsStartedStep(Run(before), before, evs, item);
      }
      RollbackReflectsStep(Run(before), before, evs);
    }
  }

  lemma SentIsCalledFor(s: Thread, before: seq<Event>, ev: Event)
    requires Reflects(s, before) && !ev.TurnAborted?
    ensures Sent(s, ev) == CalledFor(before, ev)
  {
  }

  lemma OtherMessagesStep(s: Thread, ev: Event)
    requires !ev.TurnAborted?
    ensures WithoutInterruptReplies(Step(s, ev).log) == WithoutInterruptReplies(s.log) + Sent(s, ev)
  {
    SendsAtMostOne(s, ev);
    OnlyAbortAnswersInterrupts(s, ev);
    if |Sent(s, ev)| == 1 {
      OtherMessagesOne(s.log, Sent(s, ev)[0]);
    }
  }

  lemma OtherMessagesAbort(s: Thread)
    ensures WithoutInterruptReplies(Step(s, TurnAborted).log)
         == WithoutInterruptReplies(s.log) + [TurnCompleted(Interrupted)]
  {
    AbortSends(s);
    InterruptRepliesAreDropped(s.log, s.pendingInterrupts);
    OtherMessagesOne(s.log + InterruptReplies(s.pendingInterrupts), TurnCompleted(Interrupted));
  }

  /** In every run, the log is, replies to interrupts aside, message by message what the events called for. */
  lemma {:induction false} LogIsCalledFor(evs: seq<Event>)
    ensures WithoutInterruptReplies(Run(evs).log) == AllCalledFor(evs)
  {
    if evs != [] {
      var before, ev := evs[..|evs| - 1], evs[|evs| - 1];
      LogIsCalledFor(before);
      if ev.TurnAborted? {
        OtherMessagesAbort(Run(before));
      } else {
        StateReflectsHistory(before);
        SentIsCalledFor(Run(before), before, ev);
        OtherMessagesStep(Run(before), ev);
      }
    }
  }

  // Rollback requests

  /** Client requests are handled one at a time: none arrives while a rollback is being submitted. */
  ghost predicate Feasible(evs: seq<Event>) {
    evs == [] || (
      var before, ev := evs[..|evs| - 1], evs[|evs| - 1];
      && Feasible(before)
      && (ev.RollbackRequested? || ev.InterruptRequested? ==> Run(before).submitting.None?)
      && (ev.RollbackSubmitted? ==> Run(before).submitting.Some?))
  }

  /** How often a request was accepted for rollback. */
  function Accepted(evs: seq<Event>, r: RequestId): nat {
    if evs == [] then 0
    else
      var before, ev := evs[..|evs| - 1], evs[|evs| - 1];
      Accepted(before, r) + (if ev == RollbackRequested(r) && Run(before).pendingRollback.None? then 1 else 0)
  }

  /** How often the submission of a request failed after a rollback event had already answered it. */
  function AnsweredEarly(evs: seq<Event>, r: RequestId): nat {
    if evs == [] then 0
    else
      var before, ev := evs[..|evs| - 1], evs[|evs| - 1];
      AnsweredEarly(before, r)
      + (if ev == RollbackSubmitted(false) && Run(before).submitting == Some(r) && Run(before).pendingRollback.None?
         then 1 else 0)
  }

  function IsReplyTo(m: Message, r: RequestId): nat {
    if m.RollbackReply? && m.request == r then 1 else 0
  }

  function RollbackReplies(log: seq<Message>, r: RequestId): nat {
    if log == [] then 0 else RollbackReplies(log[..|log| - 1], r) + IsReplyTo(log[|log| - 1], r)
  }

  function Waiting(pending: Option<RequestId>, r: RequestId): nat {
    if pending == Some(r) then 1 else 0
  }

  lemma RollbackRepliesOne(log: seq<Message>, m: Message, r: RequestId)
    ensures RollbackReplies(log + [m], r) == RollbackReplies(log, r) + IsReplyTo(m, r)
  {
    assert (log + [m])[..|log|] == log;
  }

  lemma {:induction false} InterruptRepliesAreNoRollbacks(
    log: seq<Message>, pending: seq<(RequestId, ApiVersion)>, r: RequestId)
    ensures RollbackReplies(log + InterruptReplies(pending), r) == RollbackReplies(log, r)
    decreases |pending|
  {
    if pending == [] {
      assert log + InterruptReplies(pending) == log;
    } else {
      var n := |pending| - 1;
      InterruptRepliesAreNoRollbacks(log, pending[..n], r);
      var last := InterruptReply(pending[n].0, pending[n].1);
      RepliesSnoc(log, pending);
      RollbackRepliesOne(log + InterruptReplies(pending[..n]), last, r);
    }
  }

  /** While a submission is under way, the pending rollback can only be the one being submitted. */
  lemma {:induction false} SubmittingIsPending(evs: seq<Event>)
    requires Feasible(evs)
    ensures var s := Run(evs); s.submitting.Some? && s.pendingRollback.Some? ==> s.pendingRollback == s.submitting
  {
    if evs != [] {
      SubmittingIsPending(evs[..|evs| - 1]);
    }
  }

  function ReplySent(s: Thread, ev: Event, r: RequestId): nat
    requires !ev.TurnAborted?
  {
    if |Sent(s, ev)| == 1 then IsReplyTo(Sent(s, ev)[0], r) else 0
  }

  lemma RollbackStep(s: Thread, ev: Event, r: RequestId)
    requires !ev.TurnAborted?
    requires s.submitting.Some? && s.pendingRollback.Some? ==> s.pendingRollback == s.submitting
    requires ev.RollbackSubmitted? ==> s.submitting.Some?
    ensures ReplySent(s, ev, r) + Waiting(Next(s, ev).pendingRollback, r)
         == Waiting(s.pendingRollback, r)
            + (if ev == RollbackRequested(r) && s.pendingRollback.None? then 1 else 0)
            + (if ev == RollbackSubmitted(false) && s.submitting == Some(r) && s.pendingRollback.None? then 1 else 0)
  {
  }

  lemma AbortSendsNoRollbackReply(s: Thread, r: RequestId)
    ensures RollbackReplies(Step(s, TurnAborted).log, r) == RollbackReplies(s.log, r)
  {
    AbortSends(s);
    InterruptRepliesAreNoRollbacks(s.log, s.pendingInterrupts, r);
    RollbackRepliesOne(s.log + InterruptReplies(s.pendingInterrupts), TurnCompleted(Interrupted), r);
  }

  lemma OtherStepSends(s: Thread, ev: Event, r: RequestId)
    requires !ev.TurnAborted?
    ensures RollbackReplies(Step(s, ev).log, r) == RollbackReplies(s.log, r) + ReplySent(s, ev, r)
  {
    SendsAtMostOne(s, ev);
    if |Sent(s, ev)| == 1 {
      RollbackRepliesOne(s.log, Sent(s, ev)[0], r);
    }
  }

  /**
   In every run, the replies to a rollback request, and the request itself while it is pending, account for each of
   its acceptances once, plus once more for each time it was answered before its submission failed.
   */
  lemma {:induction false} RollbackAccount(evs: seq<Event>, r: RequestId)
    requires Feasible(evs)
    ensures RollbackReplies(Run(evs).log, r) + Waiting(Run(evs).pendingRollback, r)
         == Accepted(evs, r) + AnsweredEarly(evs, r)
  {
    if evs != [] {
      var s, ev := Run(evs[..|evs| - 1]), evs[|evs| - 1];
      RollbackAccount(evs[..|evs| - 1], r);
      SubmittingIsPending(evs[..|evs| - 1]);
      if ev.TurnAborted? {
        AbortSendsNoRollbackReply(s, r);
      } else {
        OtherStepSends(s, ev, r);
        RollbackStep(s, ev, r);
      }
    }
  }

  /**
   Each acceptance of a rollback request has one reply or is still pending, exactly when no rollback event came
   between an acceptance and its failed submission.
   */
  lemma {:induction false} RollbacksAnsweredOnce(evs: seq<Event>, r: RequestId)
    requires Feasible(evs)
    ensures RollbackReplies(Run(evs).log, r) + Waiting(Run(evs).pendingRollback, r) == Accepted(evs, r)
       <==> AnsweredEarly(evs, r) == 0
  {
    RollbackAccount(evs, r);
  }

  /** A rollback event that overtakes the failed submission gets the request a second reply. */
  lemma EarlyEventRepliesTwice()
    ensures var evs := [RollbackRequested(7), RolledBack(true), RollbackSubmitted(false)];
            Feasible(evs) && Run(evs).log == [RollbackReply(7, true), RollbackReply(7, false)]
  {
    var evs := [RollbackRequested(7), RolledBack(true), RollbackSubmitted(false)];
    RunAppend([], evs[0]);
    RunAppend([] + [evs[0]], evs[1]);
    RunAppend([] + [evs[0]] + [evs[1]], evs[2]);
    assert evs == [] + [evs[0]] + [evs[1]] + [evs[2]];
  }

  lemma RunAppend(evs: seq<Event>, ev: Event)
    ensures Run(evs + [ev]) == Step(Run(evs), ev)
    ensures Feasible(evs + [ev])
       <==> && Feasible(evs)
            && (ev.RollbackRequested? || ev.InterruptRequested? ==> Run(evs).submitting.None?)
            && (ev.RollbackSubmitted? ==> Run(evs).submitting.Some?)
  {
    assert (evs + [ev])[..|evs|] == evs;
  }

  // The code itself

  class ThreadState {
    var pendingInterrupts: seq<(RequestId, ApiVersion)>
    var pendingRollbacks: Option<RequestId>
    var fileChangeStarted: set<ItemId>
    var lastError: Option<TurnError>
    ghost var submitting: Option<RequestId>
    var sent: seq<Message>

    ghost function View(): Thread
      reads this
    {
      Thread(pendingInterrupts, pendingRollbacks, submitting, fileChangeStarted, lastError, sent)
    }

    constructor ()
      ensures View() == IDLE
    {
      pendingInterrupts, pendingRollbacks, fileChangeStarted, lastError := [], None, {}, None;
      submitting, sent := None, [];
    }

    method Send(m: Message)
      modifies `sent
      ensures sent == old(sent) + [m]
    {
      sent := sent + [m];
    }

    method StartItem(item: ItemId)
      modifies `fileChangeStarted, `sent
      ensures fileChangeStarted == old(fileChangeStarted) + {item}
      ensures sent == old(sent) + FirstStart(old(View()), item)
    {
      var firstStart := item !in fileChangeStarted;
      fileChangeStarted := fileChangeStarted + {item};
      if firstStart {
        Send(ItemStarted(item));
      }
    }

    method OnApplyPatchApprovalRequest(item: ItemId, version: ApiVersion)
      modifies this
      ensures View() == Step(old(View()), PatchApprovalRequested(item, version))
    {
      if version == V2 {
        StartItem(item);
      }
    }

    method OnPatchApplyBegin(item: ItemId)
      modifies this
      ensures View() == Step(old(View()), PatchBegun(item))
    {
      StartItem(item);
    }

    /** After the patch ends, or when its approval is declined or fails. */
    method CompleteFileChangeItem(item: ItemId)
      modifies this
      ensures View() == Step(old(View()), PatchEnded(item)) == Step(old(View()), ApprovalCompletesItem(item))
    {
      fileChangeStarted := fileChangeStarted - {item};
      Send(ItemCompleted(item));
    }

    method OnError(error: TurnError, affectsTurn: bool)
      modifies this
      ensures View() == Step(old(View()), ErrorEvent(error, affectsTurn))
    {
      if !affectsTurn { return; }
      lastError := Some(error);
      Send(ErrorNotice(error, false));
    }

    method OnStreamError(error: TurnError)
      modifies this
      ensures View() == Step(old(View()), StreamError(error))
    {
      Send(ErrorNotice(error, true));
    }

    method TakeTurnSummary() returns (error: Option<TurnError>)
      modifies `fileChangeStarted, `lastError
      ensures error == old(lastError) && fileChangeStarted == {} && lastError == None
    {
      error := lastError;
      fileChangeStarted, lastError := {}, None;
    }

    method OnTurnComplete()
      modifies this
      ensures View() == Step(old(View()), TurnComplete)
    {
      var error := TakeTurnSummary();
      Send(TurnCompleted(if error.Some? then Failed(error.value) else Completed));
    }

    method OnTurnAborted()
      modifies this
      ensures View() == Step(old(View()), TurnAborted)
    {
      var pending := pendingInterrupts;
      pendingInterrupts := [];
      for i := 0 to |pending|
        invariant sent == old(sent) + InterruptReplies(pending[..i])
        invariant unchanged(`pendingRollbacks, `fileChangeStarted, `lastError, `submitting) && pendingInterrupts == []
      {
        Send(InterruptReply(pending[i].0, pending[i].1));
        assert InterruptReplies(pending[..i + 1])
            == InterruptReplies(pending[..i]) + [InterruptReply(pending[i].0, pending[i].1)];
      }
      assert pending[..|pending|] == pending;
      var _ := TakeTurnSummary();
      Send(TurnCompleted(Interrupted));
    }

    method AnswerRollback(ok: bool)
      modifies `pendingRollbacks, `sent
      ensures pendingRollbacks == None && sent == old(sent) + RollbackAnswer(old(View()), ok)
    {
      var pending := pendingRollbacks;
      pendingRollbacks := None;
      if pending.Some? {
        Send(RollbackReply(pending.value, ok));
      }
    }

    /** The reply is an error when the rolled-back thread cannot be read back. */
    method OnThreadRolledBack(ok: bool)
      modifies this
      ensures View() == Step(old(View()), RolledBack(ok))
    {
      AnswerRollback(ok);
    }

    method OnThreadRollbackFailed()
      modifies this
      ensures View() == Step(old(View()), RollbackFailed)
    {
      AnswerRollback(false);
    }

    method RequestInterrupt(request: RequestId, version: ApiVersion)
      modifies this
      ensures View() == Step(old(View()), InterruptRequested(request, version))
    {
      pendingInterrupts := pendingInterrupts + [(request, version)];
    }

    /** The part of thread_rollback before the submission to the agent. */
    method RequestRollback(request: RequestId) returns (accepted: bool)
      modifies this
      ensures View() == Step(old(View()), RollbackRequested(request)) && accepted == old(pendingRollbacks).None?
    {
      accepted := pendingRollbacks.None?;
      if accepted {
        pendingRollbacks := Some(request);
        submitting := Some(request);
      } else {
        Send(RollbackRefused(request));
      }
    }

    /** The part of thread_rollback after the submission has returned. */
    method FinishRollbackRequest(request: RequestId, ok: bool)
      requires submitting == Some(request)
      modifies this
      ensures View() == Step(old(View()), RollbackSubmitted(ok))
    {
      if !ok {
        pendingRollbacks := None;
        Send(RollbackReply(request, false));
      }
      submitting := None;
    }
  }
}
