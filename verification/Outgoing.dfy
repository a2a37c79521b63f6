/**
 Server requests to clients: id allocation, the callback map, and what becomes of every request. Replies are matched
 by id (section 5 of the JSON-RPC 2.0 Specification).
 */
module Outgoing {
  type Payload = string

  type ConnectionId = nat

  datatype RequestId = Integer(i: int) | Text(s: string)

  datatype Reply = Result(value: Payload) | ClientError

  /** What finally happened to a request; Replaced only when the id counter has wrapped around. */
  datatype Fate = Answered(reply: Reply) | Cancelled | SendFailed | Replaced

  const TWO_63: nat := 0x8000_0000_0000_0000
  const TWO_64: nat := 0x1_0000_0000_0000_0000

  /** Two's-complement wrap-around of a 64-bit integer. */
  function Wrap(n: int): int {
    (n + TWO_63) % TWO_64 - TWO_63
  }

  /** The id of the k-th request. */
  function IdOf(k: nat): RequestId {
    Integer(Wrap(k))
  }

  lemma SameIdExactly(j: nat, k: nat)
    ensures IdOf(j) == IdOf(k) <==> (j - k) % TWO_64 == 0
  {
    var a, b := (j + TWO_63) % TWO_64, (k + TWO_63) % TWO_64;
    var p, q := (j + TWO_63) / TWO_64, (k + TWO_63) / TWO_64;
    assert j - k == (p - q) * TWO_64 + (a - b);
    if a == b {
      ModMultiple(p - q);
    }
  }

  lemma ModMultiple(n: int)
    ensures (n * TWO_64) % TWO_64 == 0
  {
  }

  /** Until the counter wraps, ids are not reused. */
  lemma IdsAreUnique(j: nat, k: nat)
    requires j < TWO_64 && k < TWO_64 && j != k
    ensures IdOf(j) != IdOf(k)
  {
    SameIdExactly(j, k);
  }

  /** Requests are numbered in the order they were issued; callbacks maps an id to the request waiting under it. */
  datatype Requests = Requests(issued: nat, callbacks: map<RequestId, nat>, fates: map<nat, Fate>)

  const NO_REQUESTS := Requests(0, map[], map[])

  datatype Event =
    | Issue
    | Receive(id: RequestId, reply: Reply)
    | Cancel(id: RequestId)
    | FailSend(id: RequestId)

  /** Takes the callback waiting under an id, if any, and settles its request. */
  function Settle(r: Requests, id: RequestId, fate: Fate): Requests {
    if id in r.callbacks
    then r.(callbacks := r.callbacks - {id}, fates := r.fates[r.callbacks[id] := fate])
    else r
  }

  function Step(r: Requests, ev: Event): Requests {
    match ev
    case Issue =>
      var id := IdOf(r.issued);
      var freed := Settle(r, id, Replaced);
      freed.(issued := r.issued + 1, callbacks := freed.callbacks[id := r.issued])
    case Receive(id, reply) => Settle(r, id, Answered(reply))
    case Cancel(id) => Settle(r, id, Cancelled)
    case FailSend(id) => Settle(r, id, SendFailed)
  }

  function Run(evs: seq<Event>): Requests {
    if evs == [] then NO_REQUESTS else Step(Run(evs[..|evs| - 1]), evs[|evs| - 1])
  }

  // Every request is pending or settled, once

  /** The issued requests are the disjoint union of the pending and the settled ones; each waits under its own id. */
  ghost predicate Partition(r: Requests) {
    && (forall id | id in r.callbacks :: r.callbacks[id] < r.issued && IdOf(r.callbacks[id]) == id)
    && (forall k | k in r.fates :: k < r.issued)
    && (forall k: nat | k < r.issued :: k in r.fates <==> !Pending(r, k))
  }

  predicate Pending(r: Requests, k: nat) {
    IdOf(k) in r.callbacks && r.callbacks[IdOf(k)] == k
  }

  lemma SettleKeepsPartition(r: Requests, id: RequestId, fate: Fate)
    requires Partition(r)
    ensures Partition(Settle(r, id, fate))
  {
    if id in r.callbacks {
      var r' := Settle(r, id, fate);
      forall k: nat | k < r.issued ensures k in r'.fates <==> !Pending(r', k) {
        assert k in r.fates <==> !Pending(r, k);
      }
    }
  }

  lemma StepKeepsPartition(r: Requests, ev: Event)
    requires Partition(r)
    ensures Partition(Step(r, ev))
  {
    match ev
    case Issue =>
      var id := IdOf(r.issued);
      var freed, r' := Settle(r, id, Replaced), Step(r, ev);
      SettleKeepsPartition(r, id, Replaced);
      forall k: nat | k < r'.issued ensures k in r'.fates <==> !Pending(r', k) {
        if k < r.issued {
          assert k in freed.fates <==> !Pending(freed, k);
          assert IdOf(k) == id ==> !Pending(freed, k);
        } else {
          assert k !in freed.fates;
        }
      }
    case Receive(id, reply) => SettleKeepsPartition(r, id, Answered(reply));
    case Cancel(id) => SettleKeepsPartition(r, id, Cancelled);
    case FailSend(id) => SettleKeepsPartition(r, id, SendFailed);
  }

  /** At all times the requests issued so far are pending, answered, cancelled, send-failed or replaced: exactly one. */
  lemma {:induction false} RunsPartition(evs: seq<Event>)
    ensures Partition(Run(evs))
  {
    if evs != [] {
      RunsPartition(evs[..|evs| - 1]);
      StepKeepsPartition(Run(evs[..|evs| - 1]), evs[|evs| - 1]);
    }
  }

  lemma {:induction false} IssuedIsCount(evs: seq<Event>)
    ensures Run(evs).issued <= |evs|
  {
    if evs != [] {
      IssuedIsCount(evs[..|evs| - 1]);
    }
  }

  lemma StepReplacesNone(r: Requests, ev: Event, k: nat)
    requires Partition(r) && (ev.Issue? ==> r.issued < TWO_64)
    requires k in Step(r, ev).fates && Step(r, ev).fates[k].Replaced?
    ensures k in r.fates && r.fates[k].Replaced?
  {
    if ev.Issue? && IdOf(r.issued) in r.callbacks {
      SameIdExactly(r.callbacks[IdOf(r.issued)], r.issued);
    }
  }

  /** Until the counter wraps, no request is replaced: every one is pending, answered, cancelled or send-failed. */
  lemma {:induction false} NoneReplaced(evs: seq<Event>, k: nat)
    requires Run(evs).issued <= TWO_64 && k in Run(evs).fates
    ensures !Run(evs).fates[k].Replaced?
  {
    if evs != [] {
      var before, ev := evs[..|evs| - 1], evs[|evs| - 1];
      RunsPartition(before);
      if Run(evs).fates[k].Replaced? {
        StepReplacesNone(Run(before), ev, k);
        NoneReplaced(before, k);
      }
    }
  }

  /** So it is in every run of at most 2^64 events. */
  lemma NoneReplacedInTime(evs: seq<Event>, k: nat)
    requires |evs| <= TWO_64 && k in Run(evs).fates
    ensures !Run(evs).fates[k].Replaced?
  {
    IssuedIsCount(evs);
    NoneReplaced(evs, k);
  }

  // A settled request stays settled: the first reply wins

  lemma StepKeepsFates(r: Requests, ev: Event, k: nat)
    requires Partition(r) && k in r.fates
    ensures k in Step(r, ev).fates && Step(r, ev).fates[k] == r.fates[k]
  {
    assert !Pending(r, k);
  }

  lemma {:induction false} FatesAreFinal(evs: seq<Event>, n: nat, k: nat)
    requires n <= |evs| && k in Run(evs[..n]).fates
    ensures k in Run(evs).fates && Run(evs).fates[k] == Run(evs[..n]).fates[k]
  {
    if n == |evs| {
      assert evs[..n] == evs;
    } else {
      var before := evs[..|evs| - 1];
      assert before[..n] == evs[..n];
      FatesAreFinal(before, n, k);
      RunsPartition(before);
      StepKeepsFates(Run(before), evs[|evs| - 1], k);
    }
  }

  /** A reply, cancel or failed send for an id that no pending request has changes nothing. */
  lemma StrangersChangeNothing(evs: seq<Event>, ev: Event)
    requires !ev.Issue? && forall k: nat | k < Run(evs).issued && Pending(Run(evs), k) :: IdOf(k) != ev.id
    ensures Step(Run(evs), ev) == Run(evs)
  {
    var r := Run(evs);
    RunsPartition(evs);
    if ev.id in r.callbacks {
      assert Pending(r, r.callbacks[ev.id]);
    }
  }

  // What settles a request

  /** The event ends the waiting of a pending request with this fate. */
  predicate Ends(r: Requests, ev: Event, k: nat, fate: Fate) {
    && Pending(r, k)
    && match ev
       case Issue => IdOf(r.issued) == IdOf(k) && fate == Replaced
       case Receive(id, reply) => id == IdOf(k) && fate == Answered(reply)
       case Cancel(id) => id == IdOf(k) && fate == Cancelled
       case FailSend(id) => id == IdOf(k) && fate == SendFailed
  }

  ghost predicate EndedAt(evs: seq<Event>, n: nat, k: nat, fate: Fate)
    requires n < |evs|
  {
    Ends(Run(evs[..n]), evs[n], k, fate)
  }

  lemma EndingSettles(r: Requests, ev: Event, k: nat, fate: Fate)
    requires Ends(r, ev, k, fate)
    ensures k in Step(r, ev).fates && Step(r, ev).fates[k] == fate
  {
  }

  lemma NewFateIsEnding(r: Requests, ev: Event, k: nat)
    requires Partition(r) && k !in r.fates && k in Step(r, ev).fates
    ensures Ends(r, ev, k, Step(r, ev).fates[k])
  {
  }

  lemma OneMore(evs: seq<Event>, ev: Event)
    ensures Run(evs + [ev]) == Step(Run(evs), ev)
  {
    assert (evs + [ev])[..|evs|] == evs;
  }

  /** A new request is pending, under the next id. */
  lemma NewRequestWaits(evs: seq<Event>)
    ensures var r := Run(evs + [Issue]);
      r.issued == Run(evs).issued + 1 && Pending(r, Run(evs).issued)
  {
    OneMore(evs, Issue);
  }

  /** A pending request is answered by a reply with its id, and settled by a cancel or a failed send with its id. */
  lemma {:induction false} PendingIsSettled(evs: seq<Event>, k: nat, reply: Reply)
    requires Pending(Run(evs), k)
    ensures Run(evs + [Receive(IdOf(k), reply)]).fates == Run(evs).fates[k := Answered(reply)]
    ensures Run(evs + [Cancel(IdOf(k))]).fates == Run(evs).fates[k := Cancelled]
    ensures Run(evs + [FailSend(IdOf(k))]).fates == Run(evs).fates[k := SendFailed]
  {
    OneMore(evs, Receive(IdOf(k), reply));
    OneMore(evs, Cancel(IdOf(k)));
    OneMore(evs, FailSend(IdOf(k)));
  }

  /** A request has come to this fate exactly when some event ended its waiting with it. */
  lemma {:induction false} FatesExactly(evs: seq<Event>, k: nat, fate: Fate)
    ensures k in Run(evs).fates && Run(evs).fates[k] == fate
       <==> exists n :: 0 <= n < |evs| && EndedAt(evs, n, k, fate)
  {
    if k in Run(evs).fates && Run(evs).fates[k] == fate {
      var n := FateHasEvent(evs, k);
    }
    if n :| 0 <= n < |evs| && EndedAt(evs, n, k, fate) {
      EndingSettles(Run(evs[..n]), evs[n], k, fate);
      assert evs[..n + 1][..n] == evs[..n];
      FatesAreFinal(evs, n + 1, k);
    }
  }

  lemma {:induction false} FateHasEvent(evs: seq<Event>, k: nat) returns (n: nat)
    requires k in Run(evs).fates
    ensures n < |evs| && EndedAt(evs, n, k, Run(evs).fates[k])
  {
    var before, ev := evs[..|evs| - 1], evs[|evs| - 1];
    var r := Run(before);
    RunsPartition(before);
    if k in r.fates {
      StepKeepsFates(r, ev, k);
      n := FateHasEvent(before, k);
      assert before[..n] == evs[..n];
    } else {
      NewFateIsEnding(r, ev, k);
      n := |evs| - 1;
    }
  }

  /** The first 2^63 requests have their own numbers as ids. */
  lemma FirstIds(k: nat)
    requires k < TWO_63
    ensures IdOf(k) == Integer(k)
  {
  }

  // The code itself

  datatype Envelope = Broadcast(id: RequestId) | ToConnection(connection: ConnectionId, id: RequestId)

  function Envelopes(connections: seq<ConnectionId>, id: RequestId): seq<Envelope> {
    if connections == [] then [Broadcast(id)]
    else seq(|connections|, i requires 0 <= i < |connections| => ToConnection(connections[i], id))
  }

  class OutgoingMessageSender {
    var nextServerRequestId: int
    /** Every callback is its own channel; channels are numbered as they are created. */
    var requestIdToCallback: map<RequestId, nat>
    var issued: nat
    ghost var fates: map<nat, Fate>

    ghost predicate Valid()
      reads this
    {
      nextServerRequestId == Wrap(issued)
    }

    ghost function View(): Requests
      reads this
    {
      Requests(issued, requestIdToCallback, fates)
    }

    constructor ()
      ensures Valid() && View() == NO_REQUESTS
    {
      nextServerRequestId, requestIdToCallback := 0, map[];
      issued, fates := 0, map[];
    }

    /** remove_entry: takes the callback waiting under the id and records what its request came to. */
    method TakeCallback(id: RequestId, ghost fate: Fate) returns (found: bool)
      requires Valid()
      modifies `requestIdToCallback, `fates
      ensures Valid() && View() == Settle(old(View()), id, fate)
      ensures found <==> id in old(requestIdToCallback)
    {
      found := id in requestIdToCallback;
      if found {
        fates := fates[requestIdToCallback[id] := fate];
        requestIdToCallback := requestIdToCallback - {id};
      }
    }

    /**
     Issues a request and sends it to each connection in turn, or broadcasts it when none is named; accepts says
     which sends the transport takes. The first failed send ends the attempt and takes the callback back.
     */
    method SendRequestWithId(connections: seq<ConnectionId>, accepts: Envelope -> bool)
      returns (id: RequestId, sent: seq<Envelope>)
      requires Valid()
      modifies this
      ensures Valid() && id == IdOf(old(issued))
      ensures var all := Envelopes(connections, id);
              && sent <= all && (forall i | 0 <= i < |sent| :: accepts(sent[i]))
              && (sent != all ==> !accepts(all[|sent|]))
              && View() == (if sent == all then Step(old(View()), Issue)
                            else Step(Step(old(View()), Issue), FailSend(id)))
    {
      id := Register();
      var failed := false;
      sent := [];
      if connections == [] {
        if accepts(Broadcast(id)) {
          sent := [Broadcast(id)];
        } else {
          failed := true;
        }
      } else {
        var i := 0;
        while i < |connections| && !failed
          invariant 0 <= i <= |connections|
          invariant failed ==> i < |connections| && !accepts(ToConnection(connections[i], id))
          invariant |sent| == i
          invariant forall j | 0 <= j < i :: sent[j] == ToConnection(connections[j], id) && accepts(sent[j])
          decreases |connections| - i, !failed
        {
          if accepts(ToConnection(connections[i], id)) {
            sent := sent + [ToConnection(connections[i], id)];
            i := i + 1;
          } else {
            failed := true;
          }
        }
      }
      if failed {
        var _ := TakeCallback(id, SendFailed);
      }
    }

    /** Allocates the next id and registers its callback under it. */
    method Register() returns (id: RequestId)
      requires Valid()
      modifies this
      ensures Valid() && id == IdOf(old(issued)) && View() == Step(old(View()), Issue)
    {
      id := Integer(nextServerRequestId);
      nextServerRequestId := Wrap(nextServerRequestId + 1);
      WrapNext(issued);
      if id in requestIdToCallback {
        fates := fates[requestIdToCallback[id] := Replaced];
      }
      requestIdToCallback := requestIdToCallback[id := issued];
      issued := issued + 1;
    }

    method NotifyClientResponse(id: RequestId, result: Payload)
      requires Valid()
      modifies this
      ensures Valid() && View() == Step(old(View()), Receive(id, Result(result)))
    {
      var _ := TakeCallback(id, Answered(Result(result)));
    }

    method NotifyClientError(id: RequestId)
      requires Valid()
      modifies this
      ensures Valid() && View() == Step(old(View()), Receive(id, ClientError))
    {
      var _ := TakeCallback(id, Answered(ClientError));
    }

    method CancelRequest(id: RequestId) returns (found: bool)
      requires Valid()
      modifies this
      ensures Valid() && View() == Step(old(View()), Cancel(id)) && found == (id in old(requestIdToCallback))
    {
      found := TakeCallback(id, Cancelled);
    }
  }

  lemma WrapNext(n: nat)
    ensures Wrap(Wrap(n) + 1) == Wrap(n + 1)
  {
    var a := (n + TWO_63) % TWO_64;
    assert Wrap(n) + 1 + TWO_63 == a + 1;
    var q := (n + TWO_63) / TWO_64;
    assert n + 1 + TWO_63 == q * TWO_64 + (a + 1);
    ModShift(q, a + 1);
  }

  lemma ModShift(q: int, m: int)
    ensures (q * TWO_64 + m) % TWO_64 == m % TWO_64
  {
  }
}
