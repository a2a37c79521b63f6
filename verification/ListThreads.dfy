/**
 Listing recorded threads page by page. The lister and the cursor codec are oracles with a stated contract; the paging
 loop refills a page from the lister until it is full or the threads run out.
 */
module ListThreads {
  import opened Seqs
  import opened Filters

  const THREAD_LIST_MAX_LIMIT: nat := 100

  datatype Cursor = Cursor(ts: int, id: nat)

  datatype Item = Item(
    path: string,
    threadId: Option<string>,
    source: Option<SessionSource>,
    cwd: Option<string>,
    nickname: Option<string>,
    role: Option<string>)

  datatype Summary = Summary(threadId: string, source: SessionSource, cwd: string)

  datatype Listing = Listed(items: seq<Item>, next: Option<Cursor>) | ListingFailed(message: string)

  /** The code that is not part of this model: the lister, the cursor codec and the state database. */
  datatype Store = Store(
    list: (seq<SessionSource>, Option<Cursor>, nat) -> Listing,
    parse: string -> Option<Cursor>,
    encode: Cursor -> Option<string>,
    recorded: string -> Option<Summary>)

  datatype Query = Query(kinds: Option<seq<ThreadSourceKind>>, cwd: Option<string>) {
    function Allowed(): seq<SessionSource> {
      ComputeSourceFilters(kinds).0
    }

    function Filter(): Option<seq<ThreadSourceKind>> {
      ComputeSourceFilters(kinds).1
    }
  }

  datatype Outcome =
    | Threads(items: seq<Summary>, next: Option<string>)
    | InvalidCursor(cursor: string)
    | Internal(message: string)

  // Which items become rows

  function SummaryOf(store: Store, it: Item): Option<Summary> {
    if it.threadId.Some? then
      if it.cwd.None? then None
      else
        var source := WithThreadSpawnAgentMetadata(it.source.GetOr(Unknown), it.nickname, it.role);
        Some(Summary(it.threadId.value, source, it.cwd.value))
    else store.recorded(it.path)
  }

  predicate Keeps(q: Query, s: Summary) {
    Passes(q.Filter(), s.source) && (q.cwd.None? || s.cwd == q.cwd.value)
  }

  function Row(store: Store, q: Query, it: Item): seq<Summary> {
    var s := SummaryOf(store, it);
    if s.Some? && Keeps(q, s.value) then [s.value] else []
  }

  /** The rows of the items from a up to b, in order. */
  function Rows(store: Store, q: Query, items: seq<Item>, a: nat, b: nat): seq<Summary>
    requires a <= b <= |items|
    decreases b
  {
    if a == b then [] else Rows(store, q, items, a, b - 1) + Row(store, q, items[b - 1])
  }

  lemma {:induction false} RowsExtend(store: Store, q: Query, items: seq<Item>, a: nat, mid: nat, b: nat)
    requires a <= mid <= b <= |items|
    ensures Rows(store, q, items, a, b) == Rows(store, q, items, a, mid) + Rows(store, q, items, mid, b)
    decreases b
  {
    if mid < b {
      RowsExtend(store, q, items, a, mid, b - 1);
    }
  }

  /** A page of items has the rows it has in the list it was cut from. */
  lemma {:induction false} RowsOfPage(store: Store, q: Query, items: seq<Item>, a: nat, page: seq<Item>, n: nat)
    requires n <= |page| && a + |page| <= |items| && page == items[a..a + |page|]
    ensures Rows(store, q, page, 0, n) == Rows(store, q, items, a, a + n)
  {
    if n > 0 {
      RowsOfPage(store, q, items, a, page, n - 1);
    }
  }

  lemma {:induction false} FewerRowsThanItems(store: Store, q: Query, items: seq<Item>, a: nat, b: nat)
    requires a <= b <= |items|
    ensures |Rows(store, q, items, a, b)| <= b - a
    decreases b
  {
    if a < b {
      FewerRowsThanItems(store, q, items, a, b - 1);
    }
  }

  // The lister's contract

  /** Where each cursor points in the list of threads. */
  type Positions = Cursor -> nat

  function Start(at: Positions, cursor: Option<Cursor>): nat {
    if cursor.None? then 0 else at(cursor.value)
  }

  /**
   A page of at most `most` consecutive threads from the cursor on, whose own cursor points right behind them. It may
   hold no threads and give the same cursor again, but not another one.
   */
  ghost predicate GoodPage(
    store: Store, threads: seq<Item>, at: Positions, cursor: Option<Cursor>, most: nat, page: Listing)
    requires page.Listed?
  {
    var start := Start(at, cursor);
    && |page.items| <= most
    && start + |page.items| <= |threads|
    && page.items == threads[start..start + |page.items|]
    && (page.next.None? ==> start + |page.items| == |threads|)
    && (page.next.Some? ==>
          && (page.items != [] || page.next == cursor)
          && at(page.next.value) == start + |page.items|
          && store.encode(page.next.value).Some?
          && store.parse(store.encode(page.next.value).value) == page.next)
  }

  /** The lister serves the threads, or fails, and every cursor points into them. */
  ghost predicate Serves(store: Store, allowed: seq<SessionSource>, threads: seq<Item>, at: Positions) {
    && (forall c: Cursor :: at(c) <= |threads|)
    && (forall c: Option<Cursor>, n: nat | 0 < n && store.list(allowed, c, n).Listed? ::
          GoodPage(store, threads, at, c, n, store.list(allowed, c, n)))
  }

  /** At this place the lister can give back the cursor it was given. */
  ghost predicate Stalls(store: Store, allowed: seq<SessionSource>, at: Positions, end: nat) {
    exists c: Cursor, n: nat ::
      at(c) == end && store.list(allowed, Some(c), n).Listed? && store.list(allowed, Some(c), n).next == Some(c)
  }

  // The loop

  method FilterPage(store: Store, q: Query, items: seq<Item>, remaining: nat) returns (filtered: seq<Summary>)
    requires 0 < remaining && |items| <= remaining
    ensures filtered == Rows(store, q, items, 0, |items|)
  {
    filtered := [];
    for j := 0 to |items|
      invariant filtered == Rows(store, q, items, 0, j)
      invariant |filtered| <= j
    {
      var summary := SummaryOf(store, items[j]);
      if summary.None? {
        continue;
      }
      if Keeps(q, summary.value) {
        filtered := filtered + [summary.value];
        if |filtered| >= remaining {
          // The lister was not asked for more items than there were rows wanted, so this was the last one.
          assert j + 1 == |items|;
          break;
        }
      }
    }
  }

  /** What a page of the lister adds to the rows collected since `start`. */
  lemma Refill(store: Store, q: Query, threads: seq<Item>, at: Positions, start: nat, cursor: Option<Cursor>, most: nat,
               page: Listing)
    returns (end: nat)
    requires page.Listed? && start <= Start(at, cursor) && GoodPage(store, threads, at, cursor, most, page)
    ensures var mid := Start(at, cursor);
      && mid <= end == mid + |page.items| <= |threads|
      && Rows(store, q, threads, start, end)
         == Rows(store, q, threads, start, mid) + Rows(store, q, page.items, 0, |page.items|)
    ensures |page.items| <= most && |Rows(store, q, page.items, 0, |page.items|)| <= most
  {
    var mid := Start(at, cursor);
    end := mid + |page.items|;
    RowsOfPage(store, q, threads, mid, page.items, |page.items|);
    assert Rows(store, q, page.items, 0, |page.items|) == Rows(store, q, threads, mid, end);
    RowsExtend(store, q, threads, start, mid, end);
    FewerRowsThanItems(store, q, page.items, 0, |page.items|);
  }

  /**
   What one request returns: the rows of the threads from the cursor up to `end`, no more than were asked for; a cursor
   comes with a full page and points to `end`; without one the threads have run out or the lister has stalled.
   */
  ghost predicate IsPage(store: Store, q: Query, threads: seq<Item>, at: Positions, requested: nat, start: nat,
                         end: nat, r: Outcome)
  {
    && r.Threads?
    && start <= end <= |threads|
    && r.items == Rows(store, q, threads, start, end)
    && |r.items| <= requested
    && (r.next.None? ==> end == |threads| || Stalls(store, q.Allowed(), at, end))
    && (r.next.Some? ==>
          && |r.items| == requested
          && start < end
          && store.parse(r.next.value).Some?
          && at(store.parse(r.next.value).value) == end)
  }

  method ListThreadsCommon(store: Store, requested: nat, cursor: Option<string>, q: Query,
                           ghost threads: seq<Item>, ghost at: Positions)
    returns (r: Outcome, ghost end: nat)
    requires Serves(store, q.Allowed(), threads, at)
    ensures r.InvalidCursor? <==> cursor.Some? && store.parse(cursor.value).None?
    ensures r.Internal? ==>
              exists c: Option<Cursor>, n: nat :: store.list(q.Allowed(), c, n) == ListingFailed(r.message)
    ensures r.Threads? && requested == 0 ==> r == Threads([], None)
    ensures r.Threads? && requested > 0 ==>
              var start := if cursor.None? then 0 else at(store.parse(cursor.value).value);
              IsPage(store, q, threads, at, requested, start, end, r)
  {
    var cursorObj: Option<Cursor> := None;
    end := 0;
    if cursor.Some? {
      cursorObj := store.parse(cursor.value);
      if cursorObj.None? {
        return InvalidCursor(cursor.value), 0;
      }
    }
    ghost var start := Start(at, cursorObj);
    var lastCursor := cursorObj;
    var remaining: nat := requested;
    var items: seq<Summary> := [];
    var nextCursor: Option<string> := None;
    var allowed := q.Allowed();
    end := start;
    while remaining > 0
      invariant start <= end <= |threads|
      invariant end == Start(at, cursorObj) && lastCursor == cursorObj
      invariant items == Rows(store, q, threads, start, end)
      invariant remaining + |items| == requested
      invariant remaining == 0 ==> requested == 0 && items == [] && nextCursor.None?
      decreases |threads| - end
    {
      var pageSize := if remaining <= THREAD_LIST_MAX_LIMIT then remaining else THREAD_LIST_MAX_LIMIT;
      var page := store.list(allowed, cursorObj, pageSize);
      if page.ListingFailed? {
        return Internal(page.message), end;
      }
      assert GoodPage(store, threads, at, cursorObj, pageSize, page);
      end := Refill(store, q, threads, at, start, cursorObj, pageSize, page);
      var filtered := FilterPage(store, q, page.items, remaining);
      items := items + filtered;
      remaining := requested - |items|;
      nextCursor := if page.next.None? then None else store.encode(page.next.value);
      if remaining == 0 {
        break;
      }
      if page.next.Some? {
        if lastCursor == page.next {
          assert Stalls(store, allowed, at, end);
          nextCursor := None;
          break;
        }
        lastCursor := page.next;
        cursorObj := page.next;
      } else {
        break;
      }
    }
    r := Threads(items, nextCursor);
  }

  // Following the cursors

  /** One request of a client that follows the cursors, and where the page it got ended. */
  datatype Visit = Visit(requested: nat, result: Outcome, end: nat)

  predicate HasNext(store: Store, r: Outcome) {
    r.Threads? && r.next.Some? && store.parse(r.next.value).Some?
  }

  /** Page sizes may differ from request to request; each request but the first uses the cursor of the one before. */
  ghost predicate Follows(store: Store, q: Query, threads: seq<Item>, at: Positions, visits: seq<Visit>) {
    visits == [] ||
    var n := |visits| - 1;
    && Follows(store, q, threads, at, visits[..n])
    && (n > 0 ==> HasNext(store, visits[n - 1].result))
    && visits[n].requested > 0
    && var start := if n == 0 then 0 else at(store.parse(visits[n - 1].result.next.value).value);
       IsPage(store, q, threads, at, visits[n].requested, start, visits[n].end, visits[n].result)
  }

  function Collected(visits: seq<Visit>): seq<Summary> {
    if visits == [] then []
    else
      var last := visits[|visits| - 1].result;
      Collected(visits[..|visits| - 1]) + (if last.Threads? then last.items else [])
  }

  predicate AllFull(visits: seq<Visit>) {
    forall i | 0 <= i < |visits| :: visits[i].result.Threads? && |visits[i].result.items| == visits[i].requested
  }

  lemma OneMoreFull(visits: seq<Visit>, last: Visit)
    requires AllFull(visits) && last.result.Threads? && |last.result.items| == last.requested
    ensures AllFull(visits + [last])
  {
  }

  /**
   Whatever the page sizes, the pages so far hold exactly the rows of the threads in front of the last cursor: none is
   skipped, repeated or moved. All but the last are full, and there are no more pages than threads, plus a last one.
   */
  lemma {:induction false} PagesSoFar(store: Store, q: Query, threads: seq<Item>, at: Positions, visits: seq<Visit>)
    requires visits != [] && Follows(store, q, threads, at, visits)
    ensures var last := visits[|visits| - 1];
            && Collected(visits) == Rows(store, q, threads, 0, last.end)
            && AllFull(visits[..|visits| - 1])
            && (last.result.next.Some? ==> AllFull(visits))
            && |visits| <= last.end + 1 <= |threads| + 1
            && (last.result.next.Some? ==> |visits| <= last.end)
    decreases |visits|
  {
    var n := |visits| - 1;
    var v := visits[..n];
    assert visits == v + [visits[n]];
    if n > 0 {
      PagesSoFar(store, q, threads, at, v);
      assert v[n - 1] == visits[n - 1];
      RowsExtend(store, q, threads, 0, visits[n - 1].end, visits[n].end);
    }
    assert AllFull(v);
    if visits[n].result.next.Some? {
      OneMoreFull(v, visits[n]);
    }
  }

  /** A client that follows the cursors until there is none has seen every row once, in the lister's order. */
  lemma {:induction false} AllPages(store: Store, q: Query, threads: seq<Item>, at: Positions, visits: seq<Visit>)
    requires visits != [] && Follows(store, q, threads, at, visits)
    requires visits[|visits| - 1].result.next.None?
    requires Stalls(store, q.Allowed(), at, visits[|visits| - 1].end) ==> visits[|visits| - 1].end == |threads|
    ensures Collected(visits) == Rows(store, q, threads, 0, |threads|)
  {
    PagesSoFar(store, q, threads, at, visits);
  }

  // What the caller asked for, said of the recorded threads

  /** The threads the lister serves, of all that are recorded. */
  function Admitted(allowed: seq<SessionSource>, all: seq<Item>): seq<Item> {
    if all == [] then []
    else
      var last := all[|all| - 1];
      var before := Admitted(allowed, all[..|all| - 1]);
      if Admits(allowed, last.source) then before + [last] else before
  }

  predicate Wants(store: Store, q: Query, it: Item) {
    && SummaryOf(store, it).Some?
    && Wanted(q.kinds, it.source.GetOr(Unknown))
    && (q.cwd.None? || SummaryOf(store, it).value.cwd == q.cwd.value)
  }

  function WantedRows(store: Store, q: Query, all: seq<Item>): seq<Summary> {
    if all == [] then []
    else
      var last := all[|all| - 1];
      WantedRows(store, q, all[..|all| - 1]) + (if Wants(store, q, last) then [SummaryOf(store, last).value] else [])
  }

  /** The state database tells of a thread without an id in its file what the file tells. */
  predicate DatabaseAgrees(store: Store, it: Item) {
    it.threadId.None? && store.recorded(it.path).Some? ==>
      KindsOf(store.recorded(it.path).value.source) == KindsOf(it.source.GetOr(Unknown))
  }

  lemma SummaryKeepsKinds(store: Store, it: Item)
    requires DatabaseAgrees(store, it) && SummaryOf(store, it).Some?
    ensures KindsOf(SummaryOf(store, it).value.source) == KindsOf(it.source.GetOr(Unknown))
  {
    MetadataKeepsKinds(it.source.GetOr(Unknown), it.nickname, it.role);
  }

  /** A row that comes from a file tells the file's id and directory, and its source with nickname and role. */
  lemma {:induction false} RowTells(store: Store, q: Query, it: Item)
    requires Row(store, q, it) != [] && it.threadId.Some?
    ensures var row, source := Row(store, q, it)[0], it.source.GetOr(Unknown);
      && it.threadId == Some(row.threadId) && it.cwd == Some(row.cwd)
      && (!Spawned(source) ==> row.source == source)
      && (Spawned(source) ==>
            && Spawned(row.source) && row.source.agent.parent == source.agent.parent
            && row.source.agent.depth == source.agent.depth
            && row.source.agent.nickname == (if it.nickname.Some? then it.nickname else source.agent.nickname)
            && row.source.agent.role == (if it.role.Some? then it.role else source.agent.role))
  {
    MetadataExactly(it.source.GetOr(Unknown), it.nickname, it.role);
  }

  lemma SameKindsPass(filter: Option<seq<ThreadSourceKind>>, a: SessionSource, b: SessionSource)
    requires KindsOf(a) == KindsOf(b)
    ensures Passes(filter, a) <==> Passes(filter, b)
  {
    if filter.Some? {
      MatchesExactly(a, filter.value);
      MatchesExactly(b, filter.value);
    }
  }

  /** The two filters together show a thread exactly when it is asked for. */
  lemma ShownExactly(store: Store, q: Query, it: Item)
    requires DatabaseAgrees(store, it)
    ensures Admits(q.Allowed(), it.source) && Row(store, q, it) != [] <==> Wants(store, q, it)
    ensures Wants(store, q, it) ==> Row(store, q, it) == [SummaryOf(store, it).value]
  {
    FiltersTogether(q.kinds, it.source);
    if SummaryOf(store, it).Some? {
      SummaryKeepsKinds(store, it);
      SameKindsPass(q.Filter(), SummaryOf(store, it).value.source, it.source.GetOr(Unknown));
    }
  }

  lemma {:induction false} RowsOfPrefix(store: Store, q: Query, a: seq<Item>, b: seq<Item>, n: nat)
    requires n <= |a|
    ensures Rows(store, q, a + b, 0, n) == Rows(store, q, a, 0, n)
  {
    if n > 0 {
      RowsOfPrefix(store, q, a, b, n - 1);
    }
  }

  lemma {:induction false} RowsOfAdmitted(store: Store, q: Query, all: seq<Item>)
    requires forall i | 0 <= i < |all| :: DatabaseAgrees(store, all[i])
    ensures var threads := Admitted(q.Allowed(), all);
            Rows(store, q, threads, 0, |threads|) == WantedRows(store, q, all)
    decreases |all|
  {
    if all != [] {
      var n := |all| - 1;
      RowsOfAdmitted(store, q, all[..n]);
      ShownExactly(store, q, all[n]);
      if Admits(q.Allowed(), all[n].source) {
        var before := Admitted(q.Allowed(), all[..n]);
        RowsOfPrefix(store, q, before, [all[n]], |before|);
        var threads := before + [all[n]];
        assert Rows(store, q, threads, 0, |threads|) == Rows(store, q, before, 0, |before|) + Row(store, q, all[n]);
      }
    }
  }

  /** The lister always advances. */
  ghost predicate NeverStalls(store: Store, allowed: seq<SessionSource>, at: Positions) {
    forall end: nat :: !Stalls(store, allowed, at, end)
  }

  /** Following the cursors to the end lists what was asked for of all that is recorded, once each and in order. */
  lemma {:induction false} ListingIsComplete(store: Store, q: Query, all: seq<Item>, at: Positions, visits: seq<Visit>)
    requires forall i | 0 <= i < |all| :: DatabaseAgrees(store, all[i])
    requires visits != [] && Follows(store, q, Admitted(q.Allowed(), all), at, visits)
    requires visits[|visits| - 1].result.next.None? && NeverStalls(store, q.Allowed(), at)
    ensures Collected(visits) == WantedRows(store, q, all)
  {
    AllPages(store, q, Admitted(q.Allowed(), all), at, visits);
    RowsOfAdmitted(store, q, all);
  }

  ghost predicate NoTwoAlike(store: Store, all: seq<Item>) {
    forall i, j | 0 <= i < j < |all| && SummaryOf(store, all[i]).Some? && SummaryOf(store, all[j]).Some? ::
      SummaryOf(store, all[i]).value.threadId != SummaryOf(store, all[j]).value.threadId
  }

  lemma {:induction false} WantedRowsAre(store: Store, q: Query, all: seq<Item>)
    ensures forall s :: s in WantedRows(store, q, all)
              <==> exists i | 0 <= i < |all| :: Wants(store, q, all[i]) && SummaryOf(store, all[i]) == Some(s)
    decreases |all|
  {
    if all != [] {
      var n := |all| - 1;
      WantedRowsAre(store, q, all[..n]);
      forall s ensures s in WantedRows(store, q, all)
                 <==> exists i | 0 <= i < |all| :: Wants(store, q, all[i]) && SummaryOf(store, all[i]) == Some(s)
      {
        if i :| 0 <= i < |all| && Wants(store, q, all[i]) && SummaryOf(store, all[i]) == Some(s) {
          if i < n {
            assert all[..n][i] == all[i];
          }
        }
      }
    }
  }

  predicate DistinctThreads(rows: seq<Summary>) {
    forall i, j | 0 <= i < j < |rows| :: rows[i].threadId != rows[j].threadId
  }

  lemma DistinctThreadsSnoc(rows: seq<Summary>, s: Summary)
    requires DistinctThreads(rows) && forall i | 0 <= i < |rows| :: rows[i].threadId != s.threadId
    ensures DistinctThreads(rows + [s])
  {
  }

  /** No thread is listed twice. */
  lemma {:induction false} EachThreadOnce(store: Store, q: Query, all: seq<Item>)
    requires NoTwoAlike(store, all)
    ensures DistinctThreads(WantedRows(store, q, all))
    decreases |all|
  {
    if all != [] {
      var n := |all| - 1;
      EachThreadOnce(store, q, all[..n]);
      if Wants(store, q, all[n]) {
        var before, last := WantedRows(store, q, all[..n]), SummaryOf(store, all[n]).value;
        forall i | 0 <= i < |before| ensures before[i].threadId != last.threadId {
          assert before[i] in before;
          WantedRowsAre(store, q, all[..n]);
          var k :| 0 <= k < n && Wants(store, q, all[..n][k]) && SummaryOf(store, all[..n][k]) == Some(before[i]);
          assert all[..n][k] == all[k];
        }
        DistinctThreadsSnoc(before, last);
      }
    }
  }
}
