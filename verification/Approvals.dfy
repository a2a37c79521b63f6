/**
 Approval requests end to end: a request goes out, its callback resolves one way or another, and the waiting task
 submits its decision to the agent.
 */
module Approvals {
  import opened Seqs
  import opened Outgoing

  type ItemId = string

  datatype ReviewDecision =
    | Approved
    | ApprovedExecpolicyAmendment(amendment: string)
    | ApprovedForSession
    | Denied
    | Abort
  {
    predicate IsApproval() {
      Approved? || ApprovedExecpolicyAmendment? || ApprovedForSession?
    }
  }

  datatype FileChangeDecision = Accept | AcceptForSession | Decline | Cancel

  datatype CommandDecision =
    | AcceptCommand
    | AcceptCommandForSession
    | AcceptWithExecpolicyAmendment(amendment: string)
    | DeclineCommand
    | CancelCommand

  /** How response payloads deserialize; None is a deserialization failure. */
  datatype Decoders = Decoders(
    fileChange: Payload -> Option<FileChangeDecision>,
    command: Payload -> Option<CommandDecision>,
    review: Payload -> Option<ReviewDecision>)

  datatype Kind =
    | PatchV1(call: ItemId)
    | ExecV1(approval: ItemId)
    | FileChangeV2(item: ItemId)
    | CommandV2(item: ItemId, approvalId: Option<ItemId>)

  datatype Op = PatchApproval(id: ItemId, decision: ReviewDecision) | ExecApproval(id: ItemId, decision: ReviewDecision)

  /** What the waiting task receives: an answer, or the news that the sender is gone. */
  datatype Outcome = Replied(reply: Reply) | Dropped

  datatype CompletionStatus = Declined | Failed

  /** What the task does: at most one completed item, then at most one op. */
  datatype Response = Response(completed: Option<CompletionStatus>, op: Option<Op>)

  // The handlers

  function MapFileChangeDecision(d: FileChangeDecision): (ReviewDecision, Option<CompletionStatus>) {
    match d
    case Accept => (Approved, None)
    case AcceptForSession => (ApprovedForSession, None)
    case Decline => (Denied, Some(Declined))
    case Cancel => (Abort, Some(Declined))
  }

  function MapCommandDecision(d: CommandDecision): (ReviewDecision, Option<CompletionStatus>) {
    match d
    case AcceptCommand => (Approved, None)
    case AcceptCommandForSession => (ApprovedForSession, None)
    case AcceptWithExecpolicyAmendment(a) => (ApprovedExecpolicyAmendment(a), None)
    case DeclineCommand => (Denied, Some(Declined))
    case CancelCommand => (Abort, Some(Declined))
  }

  function FileChangeResponse(item: ItemId, outcome: Outcome, d: Decoders): Response {
    var (decision, completed) :=
      if outcome.Replied? && outcome.reply.Result?
      then MapFileChangeDecision(d.fileChange(outcome.reply.value).GetOr(Decline))
      else (Denied, Some(Failed));
    Response(completed, Some(PatchApproval(item, decision)))
  }

  /** parentRunning: the item's own command item has been started. */
  function CommandResponse(
    item: ItemId, approvalId: Option<ItemId>, outcome: Outcome, parentRunning: bool, d: Decoders): Response
  {
    var (decision, completed) :=
      if outcome.Replied? && outcome.reply.Result?
      then MapCommandDecision(d.command(outcome.reply.value).GetOr(DeclineCommand))
      else (Denied, Some(Failed));
    var suppressed := approvalId.Some? && parentRunning;
    Response(if suppressed then None else completed, Some(ExecApproval(approvalId.GetOr(item), decision)))
  }

  function PatchResponse(call: ItemId, outcome: Outcome, d: Decoders): Response {
    var decision :=
      if outcome.Replied? && outcome.reply.Result? then d.review(outcome.reply.value).GetOr(Denied) else Denied;
    Response(None, Some(PatchApproval(call, decision)))
  }

  /** The V1 exec handler gives up on a client error or a dropped sender: it submits nothing. */
  function ExecResponse(approval: ItemId, outcome: Outcome, d: Decoders): Response {
    if outcome.Replied? && outcome.reply.Result?
    then Response(None, Some(ExecApproval(approval, d.review(outcome.reply.value).GetOr(Denied))))
    else Response(None, None)
  }

  function Respond(kind: Kind, outcome: Outcome, parentRunning: bool, d: Decoders): Response {
    match kind
    case PatchV1(call) => PatchResponse(call, outcome, d)
    case ExecV1(approval) => ExecResponse(approval, outcome, d)
    case FileChangeV2(item) => FileChangeResponse(item, outcome, d)
    case CommandV2(item, approvalId) => CommandResponse(item, approvalId, outcome, parentRunning, d)
  }

  /** The payload deserializes, for this kind of request, to a decision that accepts. */
  ghost predicate DecodesToAccept(kind: Kind, payload: Payload, d: Decoders) {
    match kind
    case FileChangeV2(_) =>
      var x := d.fileChange(payload); x == Some(Accept) || x == Some(AcceptForSession)
    case CommandV2(_, _) =>
      var x := d.command(payload);
      x == Some(AcceptCommand) || x == Some(AcceptCommandForSession)
      || (x.Some? && x.value.AcceptWithExecpolicyAmendment?)
    case _ => var x := d.review(payload); x.Some? && x.value.IsApproval()
  }

  // Runs of the whole protocol

  /**
   A task waiting for the answer to one request; no ticket when no connection was there to be asked. parentRunning is
   what its handler saw of the item's own command.
   */
  datatype Task = Task(kind: Kind, ticket: Option<nat>, done: bool, parentRunning: bool)

  datatype System = System(
    requests: Requests,
    tasks: seq<Task>,
    ops: seq<(nat, Op)>,
    completions: seq<(nat, CompletionStatus)>)

  const IDLE := System(NO_REQUESTS, [], [], [])

  datatype Happening =
    | Ask(kind: Kind, connected: bool)
    | Transport(ev: Outgoing.Event)
    | Wake(task: nat, parentRunning: bool)

  function OutcomeOf(r: Requests, ticket: Option<nat>): Option<Outcome> {
    if ticket.None? then Some(Dropped)
    else if ticket.value !in r.fates then None
    else if r.fates[ticket.value].Answered? then Some(Replied(r.fates[ticket.value].reply))
    else Some(Dropped)
  }

  function Step(s: System, h: Happening, d: Decoders): System {
    match h
    case Ask(kind, connected) =>
      if connected
      then s.(requests := Outgoing.Step(s.requests, Issue),
              tasks := s.tasks + [Task(kind, Some(s.requests.issued), false, false)])
      else s.(tasks := s.tasks + [Task(kind, None, false, false)])
    case Transport(ev) => s.(requests := Outgoing.Step(s.requests, ev))
    case Wake(k, parentRunning) =>
      if k < |s.tasks| && !s.tasks[k].done && OutcomeOf(s.requests, s.tasks[k].ticket).Some? then
        var r := Respond(s.tasks[k].kind, OutcomeOf(s.requests, s.tasks[k].ticket).value, parentRunning, d);
        s.(tasks := s.tasks[k := s.tasks[k].(done := true, parentRunning := parentRunning)],
           ops := s.ops + (if r.op.Some? then [(k, r.op.value)] else []),
           completions := s.completions + (if r.completed.Some? then [(k, r.completed.value)] else []))
      else s
  }

  function Run(hs: seq<Happening>, d: Decoders): System {
    if hs == [] then IDLE else Step(Run(hs[..|hs| - 1], d), hs[|hs| - 1], d)
  }

  /** The transport's view of a run. */
  function Traffic(hs: seq<Happening>): seq<Outgoing.Event> {
    if hs == [] then []
    else
      var h := hs[|hs| - 1];
      Traffic(hs[..|hs| - 1])
      + (if h.Ask? && h.connected then [Issue] else if h.Transport? then [h.ev] else [])
  }

  lemma {:induction false} RequestsFollowTraffic(hs: seq<Happening>, d: Decoders)
    ensures Run(hs, d).requests == Outgoing.Run(Traffic(hs))
  {
    if hs != [] {
      RequestsFollowTraffic(hs[..|hs| - 1], d);
      var before, h := Traffic(hs[..|hs| - 1]), hs[|hs| - 1];
      if h.Ask? && h.connected {
        assert (before + [Issue])[..|before|] == before;
      } else if h.Transport? {
        assert (before + [h.ev])[..|before|] == before;
      } else {
        assert before + [] == before;
      }
    }
  }

  /** Happening n is the reply to the pending request k. */
  ghost predicate AnsweredAt(hs: seq<Happening>, d: Decoders, n: nat, k: nat, reply: Reply)
    requires n < |hs|
  {
    hs[n] == Transport(Receive(IdOf(k), reply)) && Pending(Run(hs[..n], d).requests, k)
  }

  lemma AnsweredStep(r: Requests, ev: Outgoing.Event, k: nat)
    requires Partition(r)
    requires k in Outgoing.Step(r, ev).fates && Outgoing.Step(r, ev).fates[k].Answered?
    ensures var reply := Outgoing.Step(r, ev).fates[k].reply;
      if k in r.fates then r.fates[k] == Answered(reply) else ev == Receive(IdOf(k), reply) && Pending(r, k)
  {
    if k in r.fates {
      StepKeepsFates(r, ev, k);
    }
  }

  lemma {:induction false} AnsweredWhilePending(hs: seq<Happening>, d: Decoders, k: nat) returns (n: nat)
    requires k in Run(hs, d).requests.fates && Run(hs, d).requests.fates[k].Answered?
    ensures n < |hs| && AnsweredAt(hs, d, n, k, Run(hs, d).requests.fates[k].reply)
  {
    var before, h := hs[..|hs| - 1], hs[|hs| - 1];
    var r := Run(before, d).requests;
    RequestsFollowTraffic(before, d);
    RunsPartition(Traffic(before));
    if h.Ask? && h.connected {
      AnsweredStep(r, Issue, k);
    } else if h.Transport? {
      AnsweredStep(r, h.ev, k);
    }
    if k in r.fates {
      n := AnsweredWhilePending(before, d, k);
      assert before[..n] == hs[..n];
    } else {
      n := |hs| - 1;
    }
  }

  // Exactly one op

  /** The entries of one task. */
  function ByTask<T>(log: seq<(nat, T)>, k: nat): seq<T> {
    if log == [] then []
    else ByTask(log[..|log| - 1], k) + (if log[|log| - 1].0 == k then [log[|log| - 1].1] else [])
  }

  function OpsOf(s: System, k: nat): seq<Op> {
    ByTask(s.ops, k)
  }

  function CompletionsOf(s: System, k: nat): seq<CompletionStatus> {
    ByTask(s.completions, k)
  }

  function AtMostOne<T>(o: Option<T>): seq<T> {
    if o.Some? then [o.value] else []
  }

  lemma ByTaskAppend<T>(log: seq<(nat, T)>, j: nat, o: Option<T>, k: nat)
    ensures ByTask(log + (if o.Some? then [(j, o.value)] else []), k)
         == ByTask(log, k) + (if j == k then AtMostOne(o) else [])
  {
    if o.Some? {
      assert (log + [(j, o.value)])[..|log|] == log;
    } else {
      assert log + [] == log;
    }
  }

  /** What a task's own outcome makes of it: op and completion are the handler's answer to that outcome. */
  ghost predicate OpsMatch(s: System, d: Decoders, k: nat) {
    if k >= |s.tasks| || !s.tasks[k].done then OpsOf(s, k) == [] && CompletionsOf(s, k) == []
    else
      var outcome := OutcomeOf(s.requests, s.tasks[k].ticket);
      outcome.Some? && DidRespond(s, k, outcome.value, d)
  }

  predicate DidRespond(s: System, k: nat, outcome: Outcome, d: Decoders)
    requires k < |s.tasks|
  {
    var r := Respond(s.tasks[k].kind, outcome, s.tasks[k].parentRunning, d);
    OpsOf(s, k) == AtMostOne(r.op) && CompletionsOf(s, k) == AtMostOne(r.completed)
  }

  lemma OutcomeIsFinal(r: Requests, ev: Outgoing.Event, ticket: Option<nat>)
    requires Partition(r) && OutcomeOf(r, ticket).Some?
    ensures OutcomeOf(Outgoing.Step(r, ev), ticket) == OutcomeOf(r, ticket)
  {
    if ticket.Some? {
      StepKeepsFates(r, ev, ticket.value);
    }
  }

  /** A step that leaves the task, its entries and its outcome alone leaves the match alone. */
  lemma UntouchedStillMatches(s: System, s': System, d: Decoders, k: nat)
    requires OpsMatch(s, d, k) && k < |s.tasks| && k < |s'.tasks| && s'.tasks[k] == s.tasks[k]
    requires OpsOf(s', k) == OpsOf(s, k) && CompletionsOf(s', k) == CompletionsOf(s, k)
    requires s.tasks[k].done ==> OutcomeOf(s'.requests, s.tasks[k].ticket) == OutcomeOf(s.requests, s.tasks[k].ticket)
    ensures OpsMatch(s', d, k)
  {
  }

  /** What waking a task that can run adds to the entries of any task. */
  lemma WakeEntries(s: System, j: nat, parentRunning: bool, d: Decoders, k: nat)
    requires j < |s.tasks| && !s.tasks[j].done && OutcomeOf(s.requests, s.tasks[j].ticket).Some?
    ensures var s' := Step(s, Wake(j, parentRunning), d);
      var r := Respond(s.tasks[j].kind, OutcomeOf(s.requests, s.tasks[j].ticket).value, parentRunning, d);
      && OpsOf(s', k) == OpsOf(s, k) + (if j == k then AtMostOne(r.op) else [])
      && CompletionsOf(s', k) == CompletionsOf(s, k) + (if j == k then AtMostOne(r.completed) else [])
      && s'.tasks == s.tasks[j := s.tasks[j].(done := true, parentRunning := parentRunning)]
      && s'.requests == s.requests
  {
    var r := Respond(s.tasks[j].kind, OutcomeOf(s.requests, s.tasks[j].ticket).value, parentRunning, d);
    ByTaskAppend(s.ops, j, r.op, k);
    ByTaskAppend(s.completions, j, r.completed, k);
  }

  lemma WakeOpsMatch(s: System, j: nat, parentRunning: bool, d: Decoders, k: nat)
    requires OpsMatch(s, d, k)
    ensures OpsMatch(Step(s, Wake(j, parentRunning), d), d, k)
  {
    var s' := Step(s, Wake(j, parentRunning), d);
    if j < |s.tasks| && !s.tasks[j].done && OutcomeOf(s.requests, s.tasks[j].ticket).Some? {
      WakeEntries(s, j, parentRunning, d, k);
      if j != k && k < |s.tasks| {
        UntouchedStillMatches(s, s', d, k);
      }
    } else {
      assert s' == s;
    }
  }

  lemma StepOpsMatch(s: System, h: Happening, d: Decoders, k: nat)
    requires Partition(s.requests) && OpsMatch(s, d, k)
    ensures OpsMatch(Step(s, h, d), d, k)
  {
    match h
    case Wake(j, parentRunning) => WakeOpsMatch(s, j, parentRunning, d, k);
    case Transport(ev) =>
      if k < |s.tasks| {
        if s.tasks[k].done {
          OutcomeIsFinal(s.requests, ev, s.tasks[k].ticket);
        }
        UntouchedStillMatches(s, Step(s, h, d), d, k);
      }
    case Ask(_, connected) =>
      if k < |s.tasks| {
        if s.tasks[k].done && connected {
          OutcomeIsFinal(s.requests, Issue, s.tasks[k].ticket);
        }
        UntouchedStillMatches(s, Step(s, h, d), d, k);
      }
  }

  lemma {:induction false} RunsMatch(hs: seq<Happening>, d: Decoders, k: nat)
    ensures OpsMatch(Run(hs, d), d, k)
  {
    if hs != [] {
      RunsMatch(hs[..|hs| - 1], d, k);
      RequestsFollowTraffic(hs[..|hs| - 1], d);
      RunsPartition(Traffic(hs[..|hs| - 1]));
      StepOpsMatch(Run(hs[..|hs| - 1], d), hs[|hs| - 1], d, k);
    }
  }

  /**
   In every run, an approval task submits nothing before its callback resolves and its handler runs, and exactly one
   op then, except that a V1 exec approval submits only when a client answered with a result.
   */
  lemma ExactlyOneOp(hs: seq<Happening>, d: Decoders, k: nat)
    ensures var s := Run(hs, d);
      if k >= |s.tasks| || !s.tasks[k].done then OpsOf(s, k) == []
      else
        var outcome := OutcomeOf(s.requests, s.tasks[k].ticket);
        && outcome.Some?
        && (|OpsOf(s, k)| == 1
            <==> !s.tasks[k].kind.ExecV1? || (outcome.value.Replied? && outcome.value.reply.Result?))
        && |OpsOf(s, k)| <= 1
  {
    RunsMatch(hs, d, k);
  }

  /** Once its callback has resolved, a waiting task can always run its handler. */
  lemma ResolvedTasksCanRun(s: System, d: Decoders, k: nat, parentRunning: bool)
    requires k < |s.tasks| && OutcomeOf(s.requests, s.tasks[k].ticket).Some?
    ensures Step(s, Wake(k, parentRunning), d).tasks[k].done
  {
  }

  // Approval needs an accepting reply to this very request

  lemma ApprovalNeedsAccept(kind: Kind, outcome: Outcome, parentRunning: bool, d: Decoders)
    ensures var op := Respond(kind, outcome, parentRunning, d).op;
      op.Some? && op.value.decision.IsApproval()
      <==> outcome.Replied? && outcome.reply.Result? && DecodesToAccept(kind, outcome.reply.value, d)
  {
  }

  /** A client's accepting result with the id of this request came while the request was pending. */
  ghost predicate Granted(hs: seq<Happening>, d: Decoders, kind: Kind, ticket: Option<nat>) {
    ticket.Some? && exists n, payload ::
      0 <= n < |hs| && AnsweredAt(hs, d, n, ticket.value, Result(payload)) && DecodesToAccept(kind, payload, d)
  }

  lemma {:induction false} ReplyArrives(hs: seq<Happening>, d: Decoders, n: nat, k: nat, reply: Reply)
    requires n < |hs| && AnsweredAt(hs, d, n, k, reply)
    ensures var r := Run(hs, d).requests;
      k in r.fates && r.fates[k] == Answered(reply)
  {
    var before, h := hs[..|hs| - 1], hs[|hs| - 1];
    if n < |before| {
      assert before[..n] == hs[..n];
      ReplyArrives(before, d, n, k, reply);
      RequestsFollowTraffic(before, d);
      RunsPartition(Traffic(before));
      FateStays(Run(before, d), h, d, k);
    }
  }

  lemma FateStays(s: System, h: Happening, d: Decoders, k: nat)
    requires Partition(s.requests) && k in s.requests.fates
    ensures var r := Step(s, h, d).requests;
      k in r.fates && r.fates[k] == s.requests.fates[k]
  {
    if h.Ask? && h.connected {
      StepKeepsFates(s.requests, Issue, k);
    } else if h.Transport? {
      StepKeepsFates(s.requests, h.ev, k);
    }
  }

  lemma ApprovingOpIsGranted(hs: seq<Happening>, d: Decoders, k: nat, op: Op)
    requires op in OpsOf(Run(hs, d), k) && op.decision.IsApproval()
    ensures k < |Run(hs, d).tasks|
    ensures Granted(hs, d, Run(hs, d).tasks[k].kind, Run(hs, d).tasks[k].ticket)
  {
    var s := Run(hs, d);
    RunsMatch(hs, d, k);
    var task := s.tasks[k];
    var outcome := OutcomeOf(s.requests, task.ticket).value;
    ApprovalNeedsAccept(task.kind, outcome, task.parentRunning, d);
    var n := AnsweredWhilePending(hs, d, task.ticket.value);
    assert AnsweredAt(hs, d, n, task.ticket.value, Result(outcome.reply.value));
  }

  lemma GrantedTaskApproves(hs: seq<Happening>, d: Decoders, k: nat)
    requires k < |Run(hs, d).tasks| && Run(hs, d).tasks[k].done
    requires Granted(hs, d, Run(hs, d).tasks[k].kind, Run(hs, d).tasks[k].ticket)
    ensures |OpsOf(Run(hs, d), k)| == 1 && OpsOf(Run(hs, d), k)[0].decision.IsApproval()
  {
    var s := Run(hs, d);
    var task := s.tasks[k];
    var n, payload :| 0 <= n < |hs| && AnsweredAt(hs, d, n, task.ticket.value, Result(payload))
      && DecodesToAccept(task.kind, payload, d);
    ReplyArrives(hs, d, n, task.ticket.value, Result(payload));
    RunsMatch(hs, d, k);
    ApprovalNeedsAccept(task.kind, Replied(Result(payload)), task.parentRunning, d);
  }

  /**
   In every run, a task has approved exactly when it is done, its request went out and, while the request was pending,
   a client's reply with that request's own id came that decoded to an accepting decision.
   */
  lemma {:induction false} ApprovalsAreGranted(hs: seq<Happening>, d: Decoders, k: nat)
    ensures var s := Run(hs, d);
      (exists op :: op in OpsOf(s, k) && op.decision.IsApproval())
      <==> k < |s.tasks| && s.tasks[k].done && Granted(hs, d, s.tasks[k].kind, s.tasks[k].ticket)
  {
    var s := Run(hs, d);
    if op :| op in OpsOf(s, k) && op.decision.IsApproval() {
      ApprovingOpIsGranted(hs, d, k, op);
      RunsMatch(hs, d, k);
    }
    if k < |s.tasks| && s.tasks[k].done && Granted(hs, d, s.tasks[k].kind, s.tasks[k].ticket) {
      GrantedTaskApproves(hs, d, k);
      assert OpsOf(s, k)[0] in OpsOf(s, k);
    }
  }

  lemma RunOneMore(hs: seq<Happening>, d: Decoders, h: Happening)
    ensures Run(hs + [h], d) == Step(Run(hs, d), h, d)
  {
    assert (hs + [h])[..|hs|] == hs;
  }

  /** Asking with someone connected leaves a waiting task and its pending request. */
  lemma AskedIsPending(hs: seq<Happening>, d: Decoders, kind: Kind)
    ensures var s, s' := Run(hs, d), Run(hs + [Ask(kind, true)], d);
      && s'.tasks == s.tasks + [Task(kind, Some(s.requests.issued), false, false)]
      && Pending(s'.requests, s.requests.issued)
  {
    RunOneMore(hs, d, Ask(kind, true));
  }

  /**
   The whole way: an accepting result for a pending request, then its task runs. That submits exactly one op, which
   approves what was asked about.
   */
  lemma {:induction false} AcceptanceIsPassedOn(
    hs: seq<Happening>, d: Decoders, k: nat, payload: Payload, parentRunning: bool) returns (decision: ReviewDecision)
    requires k < |Run(hs, d).tasks| && !Run(hs, d).tasks[k].done && Run(hs, d).tasks[k].ticket.Some?
    requires Pending(Run(hs, d).requests, Run(hs, d).tasks[k].ticket.value)
    requires DecodesToAccept(Run(hs, d).tasks[k].kind, payload, d)
    ensures var s := Run(hs, d);
      var reply := Transport(Receive(IdOf(s.tasks[k].ticket.value), Result(payload)));
      && decision.IsApproval()
      && Run(hs + [reply] + [Wake(k, parentRunning)], d).ops == s.ops + [(k, Addressed(s.tasks[k].kind, decision))]
  {
    var s := Run(hs, d);
    var task := s.tasks[k];
    var reply := Transport(Receive(IdOf(task.ticket.value), Result(payload)));
    RunOneMore(hs, d, reply);
    RunOneMore(hs + [reply], d, Wake(k, parentRunning));
    var answered := Step(s, reply, d);
    assert OutcomeOf(answered.requests, task.ticket) == Some(Replied(Result(payload)));
    var op := Respond(task.kind, Replied(Result(payload)), parentRunning, d).op;
    ApprovalNeedsAccept(task.kind, Replied(Result(payload)), parentRunning, d);
    decision := op.value.decision;
  }

  // What else a task tells the agent and the clients

  /** Whom a decision about a request of this kind goes to. */
  function Addressed(kind: Kind, decision: ReviewDecision): Op {
    match kind
    case PatchV1(call) => PatchApproval(call, decision)
    case ExecV1(approval) => ExecApproval(approval, decision)
    case FileChangeV2(item) => PatchApproval(item, decision)
    case CommandV2(item, approvalId) => ExecApproval(approvalId.GetOr(item), decision)
  }

  /** The op goes to the call that was asked about. */
  lemma OpsAreAddressed(hs: seq<Happening>, d: Decoders, k: nat, op: Op)
    requires op in OpsOf(Run(hs, d), k)
    ensures k < |Run(hs, d).tasks|
    ensures op == Addressed(Run(hs, d).tasks[k].kind, op.decision)
  {
    RunsMatch(hs, d, k);
  }

  /**
   In every run, a V2 file-change task completes its item itself exactly when it did not approve, so an approved
   change is left to the agent to complete; it says failed exactly when no client answered with a result.
   */
  lemma FileChangeCompletion(hs: seq<Happening>, d: Decoders, k: nat)
    requires k < |Run(hs, d).tasks| && Run(hs, d).tasks[k].done && Run(hs, d).tasks[k].kind.FileChangeV2?
    ensures var s := Run(hs, d);
      var outcome := OutcomeOf(s.requests, s.tasks[k].ticket);
      && |OpsOf(s, k)| == 1 && outcome.Some?
      && |CompletionsOf(s, k)| == (if OpsOf(s, k)[0].decision.IsApproval() then 0 else 1)
      && (CompletionsOf(s, k) == [Failed] <==> !(outcome.value.Replied? && outcome.value.reply.Result?))
  {
    RunsMatch(hs, d, k);
  }

  /**
   In every run, a command task completes its item itself exactly when it neither approved nor was about a subcommand
   whose parent command is running; as failed exactly when, besides, no client answered with a result.
   */
  lemma CommandCompletion(hs: seq<Happening>, d: Decoders, k: nat)
    requires k < |Run(hs, d).tasks| && Run(hs, d).tasks[k].done && Run(hs, d).tasks[k].kind.CommandV2?
    ensures CommandCompletes(Run(hs, d), k)
  {
    RunsMatch(hs, d, k);
    CommandCompletesOnce(Run(hs, d), d, k);
  }

  predicate CommandCompletes(s: System, k: nat)
    requires k < |s.tasks| && s.tasks[k].kind.CommandV2?
  {
    var task, outcome := s.tasks[k], OutcomeOf(s.requests, s.tasks[k].ticket);
    var suppressed := task.kind.approvalId.Some? && task.parentRunning;
    && outcome.Some? && |OpsOf(s, k)| == 1
    && |CompletionsOf(s, k)| == (if OpsOf(s, k)[0].decision.IsApproval() || suppressed then 0 else 1)
    && (CompletionsOf(s, k) == [Failed] <==> !suppressed && !(outcome.value.Replied? && outcome.value.reply.Result?))
  }

  lemma CommandCompletesOnce(s: System, d: Decoders, k: nat)
    requires OpsMatch(s, d, k) && k < |s.tasks| && s.tasks[k].done && s.tasks[k].kind.CommandV2?
    ensures CommandCompletes(s, k)
  {
  }

  /** The decision says what the client's answer says: abort, for the session, and with which amendment. */
  predicate PassedOn(kind: Kind, payload: Payload, d: Decoders, decision: ReviewDecision) {
    match kind
    case FileChangeV2(_) => FileChangePassedOn(d.fileChange(payload), decision)
    case CommandV2(_, _) => CommandPassedOn(d.command(payload), decision)
    case _ => decision == d.review(payload).GetOr(Denied)
  }

  predicate FileChangePassedOn(answer: Option<FileChangeDecision>, decision: ReviewDecision) {
    && (decision == Abort <==> answer == Some(FileChangeDecision.Cancel))
    && (decision == ApprovedForSession <==> answer == Some(AcceptForSession))
    && (decision == Approved <==> answer == Some(Accept))
  }

  predicate CommandPassedOn(answer: Option<CommandDecision>, decision: ReviewDecision) {
    && (decision == Abort <==> answer == Some(CancelCommand))
    && (decision == ApprovedForSession <==> answer == Some(AcceptCommandForSession))
    && (decision == Approved <==> answer == Some(AcceptCommand))
    && (decision.ApprovedExecpolicyAmendment? <==> answer.Some? && answer.value.AcceptWithExecpolicyAmendment?)
    && (decision.ApprovedExecpolicyAmendment? ==> decision.amendment == answer.value.amendment)
  }

  lemma FileChangeWord(answer: Option<FileChangeDecision>)
    ensures FileChangePassedOn(answer, MapFileChangeDecision(answer.GetOr(Decline)).0)
  {
  }

  lemma CommandWord(answer: Option<CommandDecision>)
    ensures CommandPassedOn(answer, MapCommandDecision(answer.GetOr(DeclineCommand)).0)
  {
  }

  lemma AnswerIsPassedOn(kind: Kind, payload: Payload, parentRunning: bool, d: Decoders)
    ensures var op := Respond(kind, Replied(Result(payload)), parentRunning, d).op;
      op.Some? && PassedOn(kind, payload, d, op.value.decision)
  {
    match kind
    case FileChangeV2(_) => FileChangeWord(d.fileChange(payload));
    case CommandV2(_, _) => CommandWord(d.command(payload));
    case _ =>
  }

  /**
   In every run, a task whose request was answered aborts the turn, approves, approves for the session or amends the
   policy exactly when the client said so.
   */
  lemma ClientsWordIsPassedOn(hs: seq<Happening>, d: Decoders, k: nat, payload: Payload)
    requires k < |Run(hs, d).tasks| && Run(hs, d).tasks[k].done
    requires OutcomeOf(Run(hs, d).requests, Run(hs, d).tasks[k].ticket) == Some(Replied(Result(payload)))
    ensures var s := Run(hs, d);
      |OpsOf(s, k)| == 1 && PassedOn(s.tasks[k].kind, payload, d, OpsOf(s, k)[0].decision)
  {
    RunsMatch(hs, d, k);
    var task := Run(hs, d).tasks[k];
    AnswerIsPassedOn(task.kind, payload, task.parentRunning, d);
  }

  // Requests that come to nothing

  /**
   A request that was cancelled, could not be sent, was answered with an error or whose answer does not deserialize is
   denied as soon as its task runs; a V1 exec task is silent, unless there was a result.
   */
  lemma {:induction false} LostRequestsAreDenied(
    hs: seq<Happening>, d: Decoders, k: nat, fate: Fate, parentRunning: bool)
    requires k < |Run(hs, d).tasks| && !Run(hs, d).tasks[k].done && Run(hs, d).tasks[k].ticket.Some?
    requires var r, t := Run(hs, d).requests, Run(hs, d).tasks[k].ticket.value;
      t in r.fates && r.fates[t] == fate
    requires fate.Answered? && fate.reply.Result? ==> Undecodable(Run(hs, d).tasks[k].kind, fate.reply.value, d)
    ensures var s := Run(hs, d);
      var silent := s.tasks[k].kind.ExecV1? && !(fate.Answered? && fate.reply.Result?);
      Run(hs + [Wake(k, parentRunning)], d).ops
      == s.ops + if silent then [] else [(k, Addressed(s.tasks[k].kind, Denied))]
  {
    RunOneMore(hs, d, Wake(k, parentRunning));
  }

  predicate Undecodable(kind: Kind, payload: Payload, d: Decoders) {
    match kind
    case FileChangeV2(_) => d.fileChange(payload).None?
    case CommandV2(_, _) => d.command(payload).None?
    case _ => d.review(payload).None?
  }

  // Requests that nobody sees

  /**
   Asking with nobody connected is denied: the task sees a dropped sender and can run at once. Only a V1 exec task stays
   silent.
   */
  lemma NobodyConnectedIsDenied(s: System, d: Decoders, kind: Kind, parentRunning: bool)
    ensures var asked := Step(s, Ask(kind, false), d);
      Step(asked, Wake(|s.tasks|, parentRunning), d).ops
      == s.ops + if kind.ExecV1? then [] else [(|s.tasks|, Addressed(kind, Denied))]
  {
  }

  /** A run in which a V1 exec task is done and has submitted nothing. */
  lemma SilentExecApproval(d: Decoders, approval: ItemId)
    ensures var s := Run([Ask(ExecV1(approval), false), Wake(0, false)], d);
      |s.tasks| == 1 && s.tasks[0].kind == ExecV1(approval) && s.tasks[0].done && s.ops == []
  {
    var ask, wake := Ask(ExecV1(approval), false), Wake(0, false);
    assert [ask, wake][..1] == [ask] && [ask][..0] == [];
    NobodyConnectedIsDenied(IDLE, d, ExecV1(approval), false);
    assert Run([ask], d) == Step(IDLE, ask, d);
  }

  // The handlers as the code runs them

  /** What the handlers of a thread have submitted to the agent and completed, and the commands that are running. */
  class Handlers {
    var submitted: seq<Op>
    var completed: seq<CompletionStatus>
    var commandExecutionStarted: set<ItemId>

    constructor ()
      ensures submitted == [] && completed == []
    {
      submitted, completed, commandExecutionStarted := [], [], {};
    }

    method Submit(op: Op)
      modifies `submitted
      ensures submitted == old(submitted) + [op]
    {
      submitted := submitted + [op];
    }

    method CompleteItem(status: CompletionStatus)
      modifies `completed
      ensures completed == old(completed) + [status]
    {
      completed := completed + [status];
    }

    /** What the handler added is the response. */
    twostate predicate Responded(r: Response)
      reads this
    {
      && submitted == old(submitted) + AtMostOne(r.op)
      && completed == old(completed) + AtMostOne(r.completed)
      && commandExecutionStarted == old(commandExecutionStarted)
    }

    method OnPatchApprovalResponse(call: ItemId, outcome: Outcome, d: Decoders)
      modifies this
      ensures Responded(Respond(PatchV1(call), outcome, false, d))
    {
      if outcome.Dropped? {
        Submit(PatchApproval(call, Denied));
        return;
      }
      if outcome.reply.ClientError? {
        Submit(PatchApproval(call, Denied));
        return;
      }
      var decision := d.review(outcome.reply.value).GetOr(Denied);
      Submit(PatchApproval(call, decision));
    }

    method OnExecApprovalResponse(approval: ItemId, outcome: Outcome, d: Decoders)
      modifies this
      ensures Responded(Respond(ExecV1(approval), outcome, false, d))
    {
      if outcome.Dropped? {
        return;
      }
      if outcome.reply.ClientError? {
        return;
      }
      var decision := d.review(outcome.reply.value).GetOr(Denied);
      Submit(ExecApproval(approval, decision));
    }

    method OnFileChangeRequestApprovalResponse(item: ItemId, outcome: Outcome, d: Decoders)
      modifies this
      ensures Responded(Respond(FileChangeV2(item), outcome, false, d))
    {
      var decision, status := Denied, Some(Failed);
      if outcome.Replied? && outcome.reply.Result? {
        var response := d.fileChange(outcome.reply.value).GetOr(Decline);
        var mapped := MapFileChangeDecision(response);
        decision, status := mapped.0, mapped.1;
      }
      if status.Some? {
        CompleteItem(status.value);
      }
      Submit(PatchApproval(item, decision));
    }

    method OnCommandExecutionRequestApprovalResponse(
      item: ItemId, approvalId: Option<ItemId>, outcome: Outcome, d: Decoders)
      modifies this
      ensures Responded(Respond(CommandV2(item, approvalId), outcome, item in old(commandExecutionStarted), d))
    {
      var decision, status := Denied, Some(Failed);
      if outcome.Replied? && outcome.reply.Result? {
        var response := d.command(outcome.reply.value).GetOr(DeclineCommand);
        var mapped := MapCommandDecision(response);
        decision, status := mapped.0, mapped.1;
      }
      var suppress := false;
      if approvalId.Some? {
        suppress := item in commandExecutionStarted;
      }
      if status.Some? && !suppress {
        CompleteItem(status.value);
      }
      Submit(ExecApproval(approvalId.GetOr(item), decision));
    }
  }
}
