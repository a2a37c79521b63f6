/** Thread status tracking: runtime facts, guards that are released later, and the stream of status notifications. */
module WatchStatus {
  import opened Seqs

  type ThreadId = string

  const U32_MAX: nat := 0xFFFF_FFFF

  datatype Kind = Permission | UserInput

  datatype Flag = WaitingOnApproval | WaitingOnUserInput

  datatype Status = NotLoaded | Idle | SystemError | Active(flags: seq<Flag>)

  datatype Facts = Facts(isLoaded: bool, running: bool, permission: nat, userInput: nat, systemError: bool) {
    function Pending(k: Kind): nat {
      if k == Permission then permission else userInput
    }

    function WithPending(k: Kind, n: nat): Facts {
      if k == Permission then this.(permission := n) else this.(userInput := n)
    }

    function Cleared(): Facts {
      this.(running := false, permission := 0, userInput := 0)
    }
  }

  const DEFAULT := Facts(false, false, 0, 0, false)

  /** loaded_thread_status */
  function StatusOf(f: Facts): Status {
    if !f.isLoaded then NotLoaded
    else
      var flags := (if f.permission > 0 then [WaitingOnApproval] else [])
                   + (if f.userInput > 0 then [WaitingOnUserInput] else []);
      if f.running || flags != [] then Active(flags)
      else if f.systemError then SystemError
      else Idle
  }

  function SaturatingAdd(n: nat): nat {
    if n < U32_MAX then n + 1 else U32_MAX
  }

  function SaturatingSub(n: nat): nat {
    if n == 0 then 0 else n - 1
  }

  datatype Event =
    | Upsert(t: ThreadId)
    | Remove(t: ThreadId)
    | TurnStarted(t: ThreadId)
    | TurnEnded(t: ThreadId)
    | Shutdown(t: ThreadId)
    | SystemErrored(t: ThreadId)
    | Request(t: ThreadId, kind: Kind)
    | Release(t: ThreadId, kind: Kind)

  /** The notification log, with the silent removals marked in it. */
  datatype LogEntry = Published(t: ThreadId, status: Status) | Removed(t: ThreadId)

  datatype Watch = Watch(runtime: map<ThreadId, Facts>, guards: multiset<(ThreadId, Kind)>, log: seq<LogEntry>) {
    function FactsOf(t: ThreadId): Facts {
      if t in runtime then runtime[t] else DEFAULT
    }

    function LoadedStatus(t: ThreadId): Status {
      if t in runtime then StatusOf(runtime[t]) else NotLoaded
    }
  }

  const EMPTY := Watch(map[], multiset{}, [])

  /** Stores new facts for a thread and publishes its status if it was untracked or the status changed. */
  function Store(w: Watch, t: ThreadId, f: Facts): Watch {
    w.(runtime := w.runtime[t := f],
       log := if t in w.runtime && StatusOf(w.runtime[t]) == StatusOf(f) then w.log
              else w.log + [Published(t, StatusOf(f))])
  }

  /** The facts an event leaves for its thread; an update first marks the thread loaded. */
  function Updated(f: Facts, ev: Event): Facts {
    var loaded := f.(isLoaded := true);
    match ev
    case Upsert(_) => loaded
    case Remove(_) => f
    case TurnStarted(_) => loaded.(running := true, systemError := false)
    case TurnEnded(_) => loaded.Cleared()
    case Shutdown(_) => loaded.Cleared().(isLoaded := false)
    case SystemErrored(_) => loaded.Cleared().(systemError := true)
    case Request(_, k) => loaded.WithPending(k, SaturatingAdd(f.Pending(k)))
    case Release(_, k) => loaded.WithPending(k, SaturatingSub(f.Pending(k)))
  }

  function Step(w: Watch, ev: Event): Watch {
    if ev.Remove? then w.(runtime := w.runtime - {ev.t}, log := w.log + [Removed(ev.t)])
    else
      var stored := Store(w, ev.t, Updated(w.FactsOf(ev.t), ev));
      if ev.Request? then stored.(guards := w.guards + multiset{(ev.t, ev.kind)})
      else if ev.Release? then stored.(guards := w.guards - multiset{(ev.t, ev.kind)})
      else stored
  }

  function Run(evs: seq<Event>): Watch {
    if evs == [] then EMPTY else Step(Run(evs[..|evs| - 1]), evs[|evs| - 1])
  }

  /** Every release is of a guard that is out at that moment. */
  ghost predicate Feasible(evs: seq<Event>) {
    evs == [] || (
      var before, ev := evs[..|evs| - 1], evs[|evs| - 1];
      Feasible(before) && (ev.Release? ==> (ev.t, ev.kind) in Run(before).guards))
  }

  // Counters and guards

  lemma StepFacts(w: Watch, ev: Event, t: ThreadId)
    ensures Step(w, ev).FactsOf(t)
         == if ev.t != t then w.FactsOf(t) else if ev.Remove? then DEFAULT else Updated(w.FactsOf(t), ev)
    ensures t in Step(w, ev).runtime <==> if ev.t == t then !ev.Remove? else t in w.runtime
  {
  }

  lemma StepGuards(w: Watch, ev: Event, t: ThreadId, k: Kind)
    requires ev.Release? ==> (ev.t, ev.kind) in w.guards
    ensures Step(w, ev).guards[(t, k)]
         == w.guards[(t, k)] + (if ev == Request(t, k) then 1 else if ev == Release(t, k) then -1 else 0)
  {
  }

  lemma UpdatedPending(f: Facts, ev: Event, k: Kind)
    requires !ev.Remove?
    ensures Updated(f, ev).Pending(k)
         == if Clears(ev) then 0
            else if ev.Request? && ev.kind == k then SaturatingAdd(f.Pending(k))
            else if ev.Release? && ev.kind == k then SaturatingSub(f.Pending(k))
            else f.Pending(k)
  {
  }

  /** In every run, each counter is at most the number of its guards that are still out. */
  lemma {:induction false} PendingBounded(evs: seq<Event>, t: ThreadId, k: Kind)
    requires Feasible(evs)
    ensures Run(evs).FactsOf(t).Pending(k) <= Run(evs).guards[(t, k)]
  {
    if evs != [] {
      var w, ev := Run(evs[..|evs| - 1]), evs[|evs| - 1];
      PendingBounded(evs[..|evs| - 1], t, k);
      StepFacts(w, ev, t);
      StepGuards(w, ev, t, k);
      if !ev.Remove? { UpdatedPending(w.FactsOf(t), ev, k); }
    }
  }

  /** Once all guards of a thread are released, no request is pending on it, whatever else happened. */
  lemma NothingPendingWithoutGuards(evs: seq<Event>, t: ThreadId, k: Kind)
    requires Feasible(evs) && (t, k) !in Run(evs).guards
    ensures Run(evs).FactsOf(t).Pending(k) == 0
  {
    PendingBounded(evs, t, k);
  }

  predicate Clears(ev: Event) {
    ev.Remove? || ev.TurnEnded? || ev.Shutdown? || ev.SystemErrored?
  }

  lemma {:induction false} PendingFits(evs: seq<Event>, t: ThreadId, k: Kind)
    ensures Run(evs).FactsOf(t).Pending(k) <= U32_MAX
  {
    if evs != [] {
      var w, ev := Run(evs[..|evs| - 1]), evs[|evs| - 1];
      PendingFits(evs[..|evs| - 1], t, k);
      StepFacts(w, ev, t);
      if !ev.Remove? { UpdatedPending(w.FactsOf(t), ev, k); }
    }
  }

  /**
   At some moment no guard of the kind was out, and from then on the thread was not cleared and the guards out fitted
   the counter.
   */
  ghost predicate CaughtUp(evs: seq<Event>, t: ThreadId, k: Kind) {
    evs == [] || Run(evs).guards[(t, k)] == 0 || (
      var before, ev := evs[..|evs| - 1], evs[|evs| - 1];
      CaughtUp(before, t, k) && !(ev.t == t && Clears(ev)) && Run(evs).guards[(t, k)] <= U32_MAX)
  }

  /** In every run, a counter is the number of its guards that are out exactly when it has caught up with them. */
  lemma {:induction false} PendingExactly(evs: seq<Event>, t: ThreadId, k: Kind)
    requires Feasible(evs)
    ensures Run(evs).FactsOf(t).Pending(k) == Run(evs).guards[(t, k)] <==> CaughtUp(evs, t, k)
  {
    PendingBounded(evs, t, k);
    if evs != [] {
      var before, ev := evs[..|evs| - 1], evs[|evs| - 1];
      PendingExactly(before, t, k);
      PendingBounded(before, t, k);
      PendingFits(evs, t, k);
      StepFacts(Run(before), ev, t);
      StepGuards(Run(before), ev, t, k);
      if !ev.Remove? { UpdatedPending(Run(before).FactsOf(t), ev, k); }
    }
  }

  /** In particular without clearing steps on the thread, and while at most U32_MAX guards are out. */
  lemma {:induction false} PendingExact(evs: seq<Event>, t: ThreadId, k: Kind)
    requires Feasible(evs)
    requires forall i | 0 <= i < |evs| && evs[i].t == t :: !Clears(evs[i])
    requires forall i | 0 <= i <= |evs| :: Run(evs[..i]).guards[(t, k)] <= U32_MAX
    ensures Run(evs).FactsOf(t).Pending(k) == Run(evs).guards[(t, k)]
  {
    if evs != [] {
      var before := evs[..|evs| - 1];
      assert forall i | 0 <= i <= |before| :: before[..i] == evs[..i];
      assert evs[..|evs|] == evs;
      PendingExact(before, t, k);
      PendingExactly(before, t, k);
      PendingExactly(evs, t, k);
    }
  }

  lemma RunAppend(evs: seq<Event>, ev: Event)
    ensures Run(evs + [ev]) == Step(Run(evs), ev)
    ensures Feasible(evs + [ev]) <==> Feasible(evs) && (ev.Release? ==> (ev.t, ev.kind) in Run(evs).guards)
  {
    assert (evs + [ev])[..|evs|] == evs;
  }

  /** A turn end and a second request behind a request: two guards are out, one request is counted. */
  lemma TwoGuardsOneCount(t: ThreadId, k: Kind)
    ensures var evs := [Request(t, k)] + [TurnEnded(t)] + [Request(t, k)];
      Feasible(evs) && Run(evs).guards[(t, k)] == 2 && Run(evs).FactsOf(t).Pending(k) == 1
  {
    var one, two := [Request(t, k)], [Request(t, k)] + [TurnEnded(t)];
    OneRequest(t, k);
    RunAppend([], Request(t, k));
    assert [] + one == one;
    StepGuards(EMPTY, Request(t, k), t, k);
    RunAppend(one, TurnEnded(t));
    StepFacts(Run(one), TurnEnded(t), t);
    StepGuards(Run(one), TurnEnded(t), t, k);
    UpdatedPending(Run(one).FactsOf(t), TurnEnded(t), k);
    RunAppend(two, Request(t, k));
    StepFacts(Run(two), Request(t, k), t);
    StepGuards(Run(two), Request(t, k), t, k);
    UpdatedPending(Run(two).FactsOf(t), Request(t, k), k);
  }

  /** After a clear, releasing the old guard takes away the new request's count. */
  lemma OldGuardHidesNewRequest(t: ThreadId, k: Kind)
    ensures var evs := [Request(t, k), TurnEnded(t), Request(t, k), Release(t, k)];
      Feasible(evs) && (t, k) in Run(evs).guards && Run(evs).FactsOf(t).Pending(k) == 0
  {
    var three := [Request(t, k)] + [TurnEnded(t)] + [Request(t, k)];
    TwoGuardsOneCount(t, k);
    RunAppend(three, Release(t, k));
    StepFacts(Run(three), Release(t, k), t);
    StepGuards(Run(three), Release(t, k), t, k);
    UpdatedPending(Run(three).FactsOf(t), Release(t, k), k);
    assert [Request(t, k), TurnEnded(t), Request(t, k), Release(t, k)] == three + [Release(t, k)];
  }

  // The notification stream

  /** The last entry about a thread. */
  function LastAbout(log: seq<LogEntry>, t: ThreadId): Option<LogEntry> {
    if log == [] then None
    else if log[|log| - 1].t == t then Some(log[|log| - 1])
    else LastAbout(log[..|log| - 1], t)
  }

  /** The last status published for a thread. */
  function LastPublished(log: seq<LogEntry>, t: ThreadId): Option<Status> {
    if log == [] then None
    else if log[|log| - 1].Published? && log[|log| - 1].t == t then Some(log[|log| - 1].status)
    else LastPublished(log[..|log| - 1], t)
  }

  lemma LastAboutAppend(log: seq<LogEntry>, e: LogEntry, t: ThreadId)
    ensures LastAbout(log + [e], t) == if e.t == t then Some(e) else LastAbout(log, t)
  {
    assert (log + [e])[..|log|] == log;
  }

  /** A tracked thread's last entry is its current status; an untracked one's is a removal, if there is any. */
  ghost predicate InStep(w: Watch, t: ThreadId) {
    if t in w.runtime then LastAbout(w.log, t) == Some(Published(t, StatusOf(w.runtime[t])))
    else LastAbout(w.log, t).None? || LastAbout(w.log, t) == Some(Removed(t))
  }

  lemma {:induction false} LogInStep(evs: seq<Event>, t: ThreadId)
    ensures InStep(Run(evs), t)
  {
    if evs != [] {
      var w, ev := Run(evs[..|evs| - 1]), evs[|evs| - 1];
      LogInStep(evs[..|evs| - 1], t);
      if ev.Remove? {
        LastAboutAppend(w.log, Removed(ev.t), t);
      } else {
        LastAboutAppend(w.log, Published(ev.t, StatusOf(Updated(w.FactsOf(ev.t), ev))), t);
      }
    }
  }

  lemma {:induction false} LastAboutIsPublished(log: seq<LogEntry>, t: ThreadId)
    requires LastAbout(log, t).Some? && LastAbout(log, t).value.Published?
    ensures LastPublished(log, t) == Some(LastAbout(log, t).value.status)
  {
    if log[|log| - 1].t != t {
      LastAboutIsPublished(log[..|log| - 1], t);
    }
  }

  /** In every run, the last status published for a tracked thread is its current one. */
  lemma {:induction false} StreamIsCurrent(evs: seq<Event>, t: ThreadId)
    requires t in Run(evs).runtime
    ensures LastPublished(Run(evs).log, t) == Some(StatusOf(Run(evs).runtime[t]))
  {
    LogInStep(evs, t);
    LastAboutIsPublished(Run(evs).log, t);
  }

  /** Between two publications of one status for a thread lies another entry about that thread. */
  ghost predicate NoRepeats(log: seq<LogEntry>) {
    forall i, j | 0 <= i < j < |log| && log[i].Published? && log[j] == log[i] ::
      exists k | i < k < j :: log[k].t == log[i].t
  }

  lemma {:induction false} LastAboutPosition(log: seq<LogEntry>, i: nat)
    requires i < |log| && LastAbout(log, log[i].t) != Some(log[i])
    ensures exists k | i < k < |log| :: log[k].t == log[i].t
  {
    var n := |log| - 1;
    if log[n].t == log[i].t {
      assert i < n;
    } else {
      LastAboutPosition(log[..n], i);
      var k :| i < k < n && log[..n][k].t == log[..n][i].t;
      assert log[k].t == log[i].t;
    }
  }

  lemma AppendKeepsNoRepeats(log: seq<LogEntry>, e: LogEntry)
    requires NoRepeats(log) && (e.Published? ==> LastAbout(log, e.t) != Some(e))
    ensures NoRepeats(log + [e])
  {
    var l := log + [e];
    forall i, j | 0 <= i < j < |l| && l[i].Published? && l[j] == l[i] ensures exists k | i < k < j :: l[k].t == l[i].t {
      if j == |log| {
        LastAboutPosition(log, i);
        var k :| i < k < |log| && log[k].t == log[i].t;
        assert l[k].t == l[i].t;
      } else {
        var k :| i < k < j && log[k].t == log[i].t;
        assert l[k].t == l[i].t;
      }
    }
  }

  /**
   In every run, two publications in a row for one thread differ, unless the thread was removed between them: a
   removal is the only entry about a thread that is not a publication.
   */
  lemma {:induction false} StreamHasNoRepeats(evs: seq<Event>)
    ensures NoRepeats(Run(evs).log)
  {
    if evs != [] {
      var w, ev := Run(evs[..|evs| - 1]), evs[|evs| - 1];
      StreamHasNoRepeats(evs[..|evs| - 1]);
      LogInStep(evs[..|evs| - 1], ev.t);
      if ev.Remove? {
        AppendKeepsNoRepeats(w.log, Removed(ev.t));
      } else {
        var status := StatusOf(Updated(w.FactsOf(ev.t), ev));
        if !(ev.t in w.runtime && StatusOf(w.runtime[ev.t]) == status) {
          AppendKeepsNoRepeats(w.log, Published(ev.t, status));
        }
      }
    }
  }

  // When a thread counts as loaded

  function LastEvent(evs: seq<Event>, t: ThreadId): Option<Event> {
    if evs == [] then None
    else if evs[|evs| - 1].t == t then Some(evs[|evs| - 1])
    else LastEvent(evs[..|evs| - 1], t)
  }

  /**
   A thread is reported as not loaded exactly when nothing ever happened to it, or the last thing that did was its
   shutdown or removal. In particular a guard released after a shutdown makes the thread loaded again.
   */
  lemma {:induction false} NotLoadedExactly(evs: seq<Event>, t: ThreadId)
    ensures Run(evs).LoadedStatus(t) == NotLoaded
       <==> var last := LastEvent(evs, t); last.None? || last.value.Shutdown? || last.value.Remove?
  {
    if evs != [] {
      NotLoadedExactly(evs[..|evs| - 1], t);
      StepFacts(Run(evs[..|evs| - 1]), evs[|evs| - 1], t);
    }
  }

  // What a loaded thread is reported as

  /** The last of a thread's events that are among these. */
  function LastAmong(evs: seq<Event>, t: ThreadId, among: Event -> bool): Option<Event> {
    if evs == [] then None
    else if evs[|evs| - 1].t == t && among(evs[|evs| - 1]) then Some(evs[|evs| - 1])
    else LastAmong(evs[..|evs| - 1], t, among)
  }

  const TURN_EVENTS: Event -> bool := (ev: Event) => ev.TurnStarted? || Clears(ev)
  const ERROR_EVENTS: Event -> bool := (ev: Event) => ev.TurnStarted? || ev.SystemErrored? || ev.Remove?

  /** A turn was started, and nothing has cleared the thread since. */
  predicate TurnIsOn(evs: seq<Event>, t: ThreadId) {
    var last := LastAmong(evs, t, TURN_EVENTS);
    last.Some? && last.value.TurnStarted?
  }

  /** There was a system error, and neither a new turn nor a removal since. */
  predicate HasFailed(evs: seq<Event>, t: ThreadId) {
    var last := LastAmong(evs, t, ERROR_EVENTS);
    last.Some? && last.value.SystemErrored?
  }

  predicate IsLoaded(evs: seq<Event>, t: ThreadId) {
    var last := LastEvent(evs, t);
    last.Some? && !last.value.Shutdown? && !last.value.Remove?
  }

  lemma UpdatedFlags(f: Facts, ev: Event)
    requires !ev.Remove?
    ensures Updated(f, ev).running <==> ev.TurnStarted? || (f.running && !Clears(ev))
    ensures Updated(f, ev).systemError <==> ev.SystemErrored? || (f.systemError && !ev.TurnStarted?)
  {
  }

  lemma FlagsStep(w: Watch, ev: Event, t: ThreadId)
    ensures Step(w, ev).FactsOf(t).running
       <==> if ev.t == t && TURN_EVENTS(ev) then ev.TurnStarted? else w.FactsOf(t).running
    ensures Step(w, ev).FactsOf(t).systemError
       <==> if ev.t == t && ERROR_EVENTS(ev) then ev.SystemErrored? else w.FactsOf(t).systemError
  {
    StepFacts(w, ev, t);
    if !ev.Remove? { UpdatedFlags(w.FactsOf(t), ev); }
  }

  lemma {:induction false} FactsAre(evs: seq<Event>, t: ThreadId)
    ensures var f := Run(evs).FactsOf(t);
      (f.running <==> TurnIsOn(evs, t)) && (f.systemError <==> HasFailed(evs, t))
  {
    if evs != [] {
      FactsAre(evs[..|evs| - 1], t);
      FlagsStep(Run(evs[..|evs| - 1]), evs[|evs| - 1], t);
    }
  }

  /**
   A loaded thread is active while a turn is on or a request of either kind is counted, and says which; otherwise it
   reports the last system error, or is idle.
   */
  lemma {:induction false} StatusExactly(evs: seq<Event>, t: ThreadId)
    ensures var status, f := Run(evs).LoadedStatus(t), Run(evs).FactsOf(t);
      var asked, input := f.permission > 0, f.userInput > 0;
      var busy := TurnIsOn(evs, t) || asked || input;
      && (status.NotLoaded? <==> !IsLoaded(evs, t))
      && (status.Active? <==> IsLoaded(evs, t) && busy)
      && (status.SystemError? <==> IsLoaded(evs, t) && !busy && HasFailed(evs, t))
      && (status.Active? ==>
            && (WaitingOnApproval in status.flags <==> asked) && (WaitingOnUserInput in status.flags <==> input)
            && |status.flags| == (if asked then 1 else 0) + (if input then 1 else 0))
  {
    NotLoadedExactly(evs, t);
    FactsAre(evs, t);
  }

  lemma ShutdownUnloads(evs: seq<Event>, t: ThreadId, k: Kind)
    requires Feasible(evs)
    ensures var shut := evs + [Shutdown(t)];
      Feasible(shut) && Run(shut).LoadedStatus(t) == NotLoaded && Run(shut).guards[(t, k)] == Run(evs).guards[(t, k)]
  {
    RunAppend(evs, Shutdown(t));
    StepFacts(Run(evs), Shutdown(t), t);
    StepGuards(Run(evs), Shutdown(t), t, k);
  }

  lemma ReleaseLoads(evs: seq<Event>, t: ThreadId, k: Kind)
    requires Feasible(evs) && (t, k) in Run(evs).guards
    ensures Feasible(evs + [Release(t, k)]) && Run(evs + [Release(t, k)]).LoadedStatus(t) != NotLoaded
  {
    RunAppend(evs, Release(t, k));
    StepFacts(Run(evs), Release(t, k), t);
  }

  /** After any run, a guard that is released behind the thread's shutdown makes the thread loaded again. */
  lemma LateReleaseReloads(evs: seq<Event>, t: ThreadId, k: Kind)
    requires Feasible(evs) && (t, k) in Run(evs).guards
    ensures var shut := evs + [Shutdown(t)];
      && Run(shut).LoadedStatus(t) == NotLoaded
      && Feasible(shut + [Release(t, k)])
      && Run(shut + [Release(t, k)]).LoadedStatus(t) != NotLoaded
  {
    ShutdownUnloads(evs, t, k);
    ReleaseLoads(evs + [Shutdown(t)], t, k);
  }

  lemma OneRequest(t: ThreadId, k: Kind)
    ensures Feasible([Request(t, k)]) && (t, k) in Run([Request(t, k)]).guards
  {
    var evs := [Request(t, k)];
    assert evs[..0] == [];
    StepGuards(EMPTY, evs[0], t, k);
  }

  /** The shortest run in which that happens. */
  lemma ReleaseAfterShutdown(t: ThreadId, k: Kind)
    ensures var evs := [Request(t, k), Shutdown(t), Release(t, k)];
      Feasible(evs) && Run(evs[..2]).LoadedStatus(t) == NotLoaded && Run(evs).LoadedStatus(t) != NotLoaded
  {
    OneRequest(t, k);
    LateReleaseReloads([Request(t, k)], t, k);
    var evs := [Request(t, k), Shutdown(t), Release(t, k)];
    assert evs == [Request(t, k)] + [Shutdown(t)] + [Release(t, k)];
    assert evs[..2] == [Request(t, k)] + [Shutdown(t)];
  }

  // The code itself

  class ThreadWatchManager {
    var runtimeByThreadId: map<ThreadId, Facts>
    ghost var guards: multiset<(ThreadId, Kind)>
    ghost var log: seq<LogEntry>

    ghost function View(): Watch
      reads this
    {
      Watch(runtimeByThreadId, guards, log)
    }

    constructor ()
      ensures View() == EMPTY
    {
      runtimeByThreadId, guards, log := map[], multiset{}, [];
    }

    function StatusFor(t: ThreadId): Option<Status>
      reads this
    {
      if t in runtimeByThreadId then Some(StatusOf(runtimeByThreadId[t])) else None
    }

    /** Entry-or-default, marked loaded. */
    method Entry(t: ThreadId) returns (f: Facts)
      ensures f == View().FactsOf(t).(isLoaded := true)
    {
      f := if t in runtimeByThreadId then runtimeByThreadId[t] else DEFAULT;
      f := f.(isLoaded := true);
    }

    method StoreAndPublish(t: ThreadId, f: Facts)
      modifies this
      ensures View() == Store(old(View()), t, f)
    {
      var previous := StatusFor(t);
      runtimeByThreadId := runtimeByThreadId[t := f];
      var status := StatusFor(t);
      if previous != status {
        log := log + [Published(t, status.value)];
      }
    }

    method UpsertThread(t: ThreadId)
      modifies this
      ensures View() == Step(old(View()), Upsert(t))
    {
      var f := Entry(t);
      StoreAndPublish(t, f);
    }

    method RemoveThread(t: ThreadId)
      modifies this
      ensures View() == Step(old(View()), Remove(t))
    {
      runtimeByThreadId := runtimeByThreadId - {t};
      log := log + [Removed(t)];
    }

    method NoteTurnStarted(t: ThreadId)
      modifies this
      ensures View() == Step(old(View()), TurnStarted(t))
    {
      var f := Entry(t);
      StoreAndPublish(t, f.(isLoaded := true, running := true, systemError := false));
    }

    /** clear_active_state, after a completed or interrupted turn. */
    method NoteTurnEnded(t: ThreadId)
      modifies this
      ensures View() == Step(old(View()), TurnEnded(t))
    {
      var f := Entry(t);
      StoreAndPublish(t, f.(running := false, permission := 0, userInput := 0));
    }

    method NoteThreadShutdown(t: ThreadId)
      modifies this
      ensures View() == Step(old(View()), Shutdown(t))
    {
      var f := Entry(t);
      StoreAndPublish(t, f.(running := false, permission := 0, userInput := 0, isLoaded := false));
    }

    method NoteSystemError(t: ThreadId)
      modifies this
      ensures View() == Step(old(View()), SystemErrored(t))
    {
      var f := Entry(t);
      StoreAndPublish(t, f.(running := false, permission := 0, userInput := 0, systemError := true));
    }

    method NotePendingRequest(t: ThreadId, k: Kind)
      modifies this
      ensures View() == Step(old(View()), Request(t, k))
    {
      var f := Entry(t);
      StoreAndPublish(t, f.WithPending(k, SaturatingAdd(f.Pending(k))));
      guards := guards + multiset{(t, k)};
    }

    method NoteActiveGuardReleased(t: ThreadId, k: Kind)
      modifies this
      ensures View() == Step(old(View()), Release(t, k))
    {
      var f := Entry(t);
      StoreAndPublish(t, f.WithPending(k, SaturatingSub(f.Pending(k))));
      guards := guards - multiset{(t, k)};
    }
  }
}
