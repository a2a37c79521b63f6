/**
 Listing the loaded threads page by page, while threads come and go between the pages. The cursor is the last id of a
 page; a page is cut out of a freshly sorted list behind the place where the cursor is, or would be.
 */
module LoadedThreads {
  import opened Seqs
  import opened Text

  const TWO_32: nat := 0x1_0000_0000

  predicate Lt(a: string, b: string) {
    StrLe(a, b) && a != b
  }

  ghost predicate Ascending(s: seq<string>) {
    forall i, j | 0 <= i < j < |s| :: Lt(s[i], s[j])
  }

  predicate Behind(after: Option<string>, id: string) {
    after.None? || Lt(after.value, id)
  }

  lemma LtTransitive(a: string, b: string, c: string)
    requires Lt(a, b) && Lt(b, c)
    ensures Lt(a, c)
  {
    StrLeTransitive(a, b, c);
    StrLeTotal(a, b);
  }

  lemma LtTotal(a: string, b: string)
    ensures Lt(a, b) || a == b || Lt(b, a)
    ensures !(Lt(a, b) && Lt(b, a))
  {
    StrLeTotal(a, b);
  }

  // The request

  datatype Response = Page(data: seq<string>, next: Option<string>) | InvalidCursor(cursor: string)

  datatype SearchResult = Found(index: nat) | Missing(index: nat)

  method BinarySearch(data: seq<string>, key: string) returns (r: SearchResult)
    requires Ascending(data)
    ensures r.index <= |data|
    ensures r.Found? ==> r.index < |data| && data[r.index] == key
    ensures r.Missing? ==> key !in data
    ensures forall i | 0 <= i < r.index :: Lt(data[i], key)
    ensures forall i | r.index <= i < |data| :: data[i] == key || Lt(key, data[i])
  {
    var lo, hi := 0, |data|;
    while lo < hi
      invariant 0 <= lo <= hi <= |data|
      invariant forall i | 0 <= i < lo :: Lt(data[i], key)
      invariant forall i | hi <= i < |data| :: Lt(key, data[i])
    {
      var mid := lo + (hi - lo) / 2;
      LtTotal(data[mid], key);
      if data[mid] == key {
        return Found(mid);
      } else if StrLe(data[mid], key) {
        Narrow(data, mid, key);
        lo := mid + 1;
      } else {
        Narrow(data, mid, key);
        hi := mid;
      }
    }
    r := Missing(lo);
  }

  lemma Narrow(data: seq<string>, mid: nat, key: string)
    requires Ascending(data) && mid < |data|
    ensures Lt(data[mid], key) ==> forall i | 0 <= i <= mid :: Lt(data[i], key)
    ensures Lt(key, data[mid]) ==> forall i | mid <= i < |data| :: Lt(key, data[i])
  {
    forall i | 0 <= i < mid && Lt(data[mid], key) ensures Lt(data[i], key) {
      LtTransitive(data[i], data[mid], key);
    }
    forall i | mid < i < |data| && Lt(key, data[mid]) ensures Lt(key, data[i]) {
      LtTransitive(key, data[mid], data[i]);
    }
  }

  /**
   A page of the loaded ids behind a cursor: ascending, nothing left out up to its end, and, when there is no next
   cursor, nothing left out at all.
   */
  ghost predicate IsPage(loaded: set<string>, after: Option<string>, page: Response) {
    && page.Page?
    && Ascending(page.data)
    && (forall id | id in page.data :: id in loaded && Behind(after, id))
    && (page.next.Some? ==> page.data != [] && page.next.value == page.data[|page.data| - 1])
    && (page.next.Some? ==> exists id | id in loaded :: Lt(page.next.value, id))
    && (forall id | id in loaded && Behind(after, id) && (page.next.None? || !Lt(page.next.value, id)) ::
          id in page.data)
  }

  /** How many ids a page may hold; without a limit, the number of loaded threads truncated to 32 bits. */
  function EffectiveLimit(limit: Option<nat>, total: nat): (n: nat)
    ensures n >= 1
    ensures limit.None? && 0 < total < TWO_32 ==> n == total
    ensures limit.Some? && limit.value > 0 ==> n == limit.value
    ensures limit == Some(0) || (limit.None? && total == TWO_32) ==> n == 1
  {
    var n := limit.GetOr(total % TWO_32);
    if n < 1 then 1 else n
  }

  ghost predicate AllDifferent(s: seq<string>) {
    forall i, j | 0 <= i < j < |s| :: s[i] != s[j]
  }

  ghost predicate StartsBehind(data: seq<string>, after: Option<string>, start: nat) {
    start <= |data| && forall i | 0 <= i < |data| :: Behind(after, data[i]) <==> start <= i
  }

  /** Where the ids behind the cursor start, whether or not the cursor's own id is still loaded. */
  method StartBehind(data: seq<string>, cursor: string) returns (start: nat)
    requires Ascending(data)
    ensures StartsBehind(data, Some(cursor), start)
  {
    var found := BinarySearch(data, cursor);
    start := if found.Found? then found.index + 1 else found.index;
    SplitAt(data, found, cursor, start);
  }

  function IdSet(ids: seq<string>): set<string> {
    set id | id in ids
  }

  method SortedIds(loaded: seq<string>) returns (data: seq<string>)
    requires AllDifferent(loaded)
    ensures Ascending(data) && |data| == |loaded| && IdSet(data) == IdSet(loaded)
  {
    data := Sort(StrLe, loaded);
    SortedIdsAscend(loaded);
  }

  method ThreadLoadedList(
    parse: string -> Option<string>, loaded: seq<string>, cursor: Option<string>, limit: Option<nat>)
    returns (r: Response)
    requires AllDifferent(loaded)
    ensures r.InvalidCursor? <==> loaded != [] && cursor.Some? && parse(cursor.value).None?
    ensures loaded == [] ==> r == Page([], None)
    ensures r.Page? ==>
              && IsPage(IdSet(loaded), if cursor.None? then None else parse(cursor.value), r)
              && |r.data| <= EffectiveLimit(limit, |loaded|)
              && (r.next.Some? ==> |r.data| == EffectiveLimit(limit, |loaded|))
  {
    if loaded == [] {
      return Page([], None);
    }
    var data := SortedIds(loaded);
    var total := |data|;
    var start := 0;
    var after: Option<string> := None;
    if cursor.Some? {
      after := parse(cursor.value);
      if after.None? {
        return InvalidCursor(cursor.value);
      }
      start := StartBehind(data, after.value);
    }
    var effectiveLimit := EffectiveLimit(limit, total);
    var end := if start + effectiveLimit <= total then start + effectiveLimit else total;
    var page := data[start..end];
    var nextCursor := if page != [] && end < total then Some(page[|page| - 1]) else None;
    r := Page(page, nextCursor);
    CutIsPage(data, start, end, after, r);
  }

  lemma {:induction false} SortedIdsAscend(loaded: seq<string>)
    requires AllDifferent(loaded)
    ensures var data := Sort(StrLe, loaded);
            Ascending(data) && |data| == |loaded| && IdSet(data) == IdSet(loaded)
  {
    var data := Sort(StrLe, loaded);
    StrLeIsTotal();
    SortSorts(StrLe, loaded);
    ReorderLength(data, loaded);
    forall id ensures id in data <==> id in loaded {
      assert id in multiset(data) <==> id in multiset(loaded);
    }
    DistinctReordering(data, loaded);
  }

  lemma {:induction false} StrLeIsTotal()
    ensures TotalPreorder(StrLe)
  {
    forall x, y ensures StrLe(x, y) || StrLe(y, x) {
      StrLeTotal(x, y);
    }
    forall x, y, z | StrLe(x, y) && StrLe(y, z) ensures StrLe(x, z) {
      StrLeTransitive(x, y, z);
    }
  }

  lemma {:induction false} DistinctOnce(s: seq<string>)
    requires AllDifferent(s)
    ensures forall id :: multiset(s)[id] <= 1
  {
    if s != [] {
      DistinctOnce(s[1..]);
      assert s == [s[0]] + s[1..];
      assert s[0] !in multiset(s[1..]);
    }
  }

  lemma DistinctReordering(z: seq<string>, y: seq<string>)
    requires Reorders(z, y) && AllDifferent(y)
    ensures AllDifferent(z)
  {
    DistinctOnce(y);
    forall i, j | 0 <= i < j < |z| ensures z[i] != z[j] {
      if z[i] == z[j] {
        TwiceCountsTwo(z, i, j);
      }
    }
  }

  lemma TwiceCountsTwo(z: seq<string>, i: nat, j: nat)
    requires i < j < |z| && z[i] == z[j]
    ensures multiset(z)[z[i]] >= 2
  {
    assert z == z[..i] + [z[i]] + z[i + 1..j] + [z[j]] + z[j + 1..];
  }

  lemma SplitAt(data: seq<string>, found: SearchResult, key: string, start: nat)
    requires Ascending(data) && found.index <= |data| && start == if found.Found? then found.index + 1 else found.index
    requires found.Found? ==> found.index < |data| && data[found.index] == key
    requires found.Missing? ==> key !in data
    requires forall i | 0 <= i < found.index :: Lt(data[i], key)
    requires forall i | found.index <= i < |data| :: data[i] == key || Lt(key, data[i])
    ensures StartsBehind(data, Some(key), start)
  {
    forall i | 0 <= i < |data| ensures Behind(Some(key), data[i]) <==> start <= i {
      LtTotal(data[i], key);
      if found.Found? && i > found.index {
        assert Lt(data[found.index], data[i]);
      }
    }
  }

  lemma CutIsPage(data: seq<string>, start: nat, end: nat, after: Option<string>, r: Response)
    requires Ascending(data) && start <= end <= |data| && (start == |data| || start < end)
    requires StartsBehind(data, after, start)
    requires r.Page? && r.data == data[start..end]
    requires r.next == if r.data != [] && end < |data| then Some(r.data[|r.data| - 1]) else None
    ensures IsPage(IdSet(data), after, r)
  {
    forall id | id in data && Behind(after, id) && (r.next.None? || !Lt(r.next.value, id))
      ensures id in r.data
    {
      var i :| 0 <= i < |data| && data[i] == id;
      assert i < end;
      assert r.data[i - start] == id;
    }
    if r.next.Some? {
      assert data[end] in IdSet(data) && Lt(data[end - 1], data[end]);
    }
  }

  // Following the cursors while threads are loaded and unloaded

  /** One request: what was loaded at that moment, and the page returned. */
  datatype Visit = Visit(loaded: set<string>, page: Response)

  /** The loaded ids are in the form that parsing a cursor gives back. */
  ghost predicate Canonical(parse: string -> Option<string>, loaded: set<string>) {
    forall id | id in loaded :: parse(id) == Some(id)
  }

  /** Each request but the first uses the cursor of the one before; what is loaded may be anything each time. */
  ghost predicate Follows(parse: string -> Option<string>, visits: seq<Visit>) {
    visits == [] ||
    var n := |visits| - 1;
    && Follows(parse, visits[..n])
    && Canonical(parse, visits[n].loaded)
    && (n > 0 ==> visits[n - 1].page.Page? && visits[n - 1].page.next.Some?)
    && IsPage(visits[n].loaded, if n == 0 then None else parse(visits[n - 1].page.next.value), visits[n].page)
  }

  function Collected(visits: seq<Visit>): seq<string> {
    if visits == [] then []
    else
      var last := visits[|visits| - 1].page;
      Collected(visits[..|visits| - 1]) + (if last.Page? then last.data else [])
  }

  /** No page so far ends in front of id. */
  predicate Reached(page: Response, id: string)
    requires page.Page?
  {
    page.next.None? || !Lt(page.next.value, id)
  }

  ghost predicate LoadedThroughout(visits: seq<Visit>, id: string) {
    forall i | 0 <= i < |visits| :: id in visits[i].loaded
  }

  lemma AscendingAppend(a: seq<string>, c: string, b: seq<string>)
    requires Ascending(a) && Ascending(b)
    requires forall id | id in a :: !Lt(c, id)
    requires forall id | id in b :: Lt(c, id)
    ensures Ascending(a + b)
  {
    forall i, j | 0 <= i < |a| && 0 <= j < |b| ensures Lt(a[i], b[j]) {
      assert a[i] in a && b[j] in b;
      LtTotal(a[i], c);
      if a[i] != c {
        LtTransitive(a[i], c, b[j]);
      }
    }
  }

  lemma NotBehindEither(c: string, next: string, id: string)
    requires Lt(c, next) && !Lt(c, id)
    ensures !Lt(next, id)
  {
    if Lt(next, id) {
      LtTransitive(c, next, id);
    }
  }

  lemma LoadedBefore(visits: seq<Visit>, id: string)
    requires visits != [] && LoadedThroughout(visits, id)
    ensures LoadedThroughout(visits[..|visits| - 1], id) && id in visits[|visits| - 1].loaded
  {
  }

  /** What the pages so far hold: ids up to the last cursor, ascending, and all of those that were loaded all along. */
  ghost predicate HoldsAll(visits: seq<Visit>, last: Response)
    requires last.Page?
  {
    && Ascending(Collected(visits))
    && (forall id | id in Collected(visits) :: Reached(last, id))
    && forall id | LoadedThroughout(visits, id) && Reached(last, id) :: id in Collected(visits)
  }

  lemma CollectedOne(visits: seq<Visit>)
    requires |visits| == 1 && visits[0].page.Page?
    ensures Collected(visits) == visits[0].page.data
  {
    assert visits[..0] == [];
  }

  lemma FirstPage(parse: string -> Option<string>, visits: seq<Visit>)
    requires |visits| == 1 && Follows(parse, visits)
    ensures visits[0].page.Page? && HoldsAll(visits, visits[0].page)
  {
    var first := visits[0];
    assert IsPage(first.loaded, None, first.page);
    CollectedOne(visits);
    ReachedOwn(first.page);
    forall id | LoadedThroughout(visits, id) && Reached(first.page, id) ensures id in Collected(visits) {
      LoadedBefore(visits, id);
    }
  }

  lemma NextPage(parse: string -> Option<string>, visits: seq<Visit>, v: seq<Visit>, c: string)
    requires |visits| > 1 && Follows(parse, visits) && v == visits[..|visits| - 1]
    requires v[|v| - 1].page.Page? && HoldsAll(v, v[|v| - 1].page)
    requires v[|v| - 1].page.next == Some(c) && parse(c) == Some(c)
    ensures visits[|visits| - 1].page.Page? && HoldsAll(visits, visits[|visits| - 1].page)
  {
    var last := visits[|visits| - 1].page;
    assert v[|v| - 1] == visits[|v| - 1];
    assert forall id | id in last.data :: Behind(Some(c), id);
    AscendingAppend(Collected(v), c, last.data);
    ReachedOwn(last);
    forall id | id in Collected(v) ensures Reached(last, id) {
      if last.next.Some? {
        NotBehindEither(c, last.next.value, id);
      }
    }
    forall id | LoadedThroughout(visits, id) && Reached(last, id) ensures id in Collected(visits) {
      LoadedBefore(visits, id);
    }
  }

  /** The pages so far ascend, lie in front of the last cursor, and hold every id up to it that was loaded all along. */
  lemma {:induction false} PagesSoFar(parse: string -> Option<string>, visits: seq<Visit>)
    requires visits != [] && Follows(parse, visits)
    ensures visits[|visits| - 1].page.Page? && HoldsAll(visits, visits[|visits| - 1].page)
    decreases |visits|
  {
    var n := |visits| - 1;
    var v := visits[..n];
    if n == 0 {
      FirstPage(parse, visits);
    } else {
      PagesSoFar(parse, v);
      assert v[n - 1] == visits[n - 1];
      CursorIsId(parse, v);
      NextPage(parse, visits, v, visits[n - 1].page.next.value);
    }
  }

  lemma ReachedOwn(page: Response)
    requires page.Page? && Ascending(page.data)
    requires page.next.Some? ==> page.data != [] && page.next.value == page.data[|page.data| - 1]
    ensures forall id | id in page.data :: Reached(page, id)
  {
    forall id | id in page.data ensures Reached(page, id) {
      if page.next.Some? {
        var i :| 0 <= i < |page.data| && page.data[i] == id;
        LtTotal(id, page.next.value);
      }
    }
  }

  /** A cursor is one of the ids of its page, so parsing gives it back. */
  lemma CursorIsId(parse: string -> Option<string>, visits: seq<Visit>)
    requires visits != [] && Follows(parse, visits)
    requires visits[|visits| - 1].page.Page? && visits[|visits| - 1].page.next.Some?
    ensures var next := visits[|visits| - 1].page.next; parse(next.value) == next
  {
    var last := visits[|visits| - 1];
    assert last.page.next.value in last.page.data;
  }

  /**
   Paging to a null cursor returns ids in strictly ascending order, so none twice, and returns every id that was loaded
   at every request, whatever else came or went in between, the cursor's own thread included.
   */
  lemma {:induction false} PagedToTheEnd(parse: string -> Option<string>, visits: seq<Visit>, id: string)
    requires visits != [] && Follows(parse, visits)
    requires visits[|visits| - 1].page.Page? && visits[|visits| - 1].page.next.None?
    ensures Ascending(Collected(visits))
    ensures LoadedThroughout(visits, id) ==> id in Collected(visits)
  {
    PagesSoFar(parse, visits);
  }

  /** What is returned was loaded when its page was made. */
  lemma {:induction false} NothingInvented(parse: string -> Option<string>, visits: seq<Visit>, id: string)
    requires Follows(parse, visits) && id in Collected(visits)
    ensures exists i | 0 <= i < |visits| :: id in visits[i].loaded
    decreases |visits|
  {
    var n := |visits| - 1;
    if id in Collected(visits[..n]) {
      NothingInvented(parse, visits[..n], id);
      var i :| 0 <= i < n && id in visits[..n][i].loaded;
      assert visits[i] == visits[..n][i];
    } else {
      assert id in visits[n].loaded;
    }
  }
}
