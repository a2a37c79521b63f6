/** Facts about sequences that the models share: pointwise maps, reorderings and stable sorting. */
module Seqs {

  datatype Option<+T> = None | Some(value: T) {
    function GetOr(default: T): T {
      if Some? then value else default
    }
  }

  function Map<A, B>(f: A -> B, s: seq<A>): (r: seq<B>)
    ensures |r| == |s| && forall i | 0 <= i < |s| :: r[i] == f(s[i])
  {
    seq(|s|, i requires 0 <= i < |s| => f(s[i]))
  }

  ghost predicate Increasing(s: seq<nat>) {
    forall i, j | 0 <= i < j < |s| :: s[i] < s[j]
  }

  ghost predicate Reorders<T>(z: seq<T>, y: seq<T>) {
    multiset(z) == multiset(y)
  }

  lemma InReordering<T>(z: seq<T>, y: seq<T>, i: nat)
    requires Reorders(z, y) && i < |z|
    ensures z[i] in y
  {
    assert z[i] in multiset(z);
  }

  function RemoveAt<T>(s: seq<T>, i: nat): seq<T>
    requires i < |s|
  {
    s[..i] + s[i + 1..]
  }

  lemma MultisetRemoveAt<T>(s: seq<T>, i: nat)
    requires i < |s|
    ensures multiset(s) == multiset{s[i]} + multiset(RemoveAt(s, i))
  {
    assert s == s[..i] + [s[i]] + s[i + 1..];
  }

  lemma ReorderLength<T>(z: seq<T>, y: seq<T>)
    requires Reorders(z, y)
    ensures |z| == |y|
  {
    assert |multiset(z)| == |z| && |multiset(y)| == |y|;
  }

  lemma CancelElement<T>(a: T, m: multiset<T>, n: multiset<T>)
    requires multiset{a} + m == multiset{a} + n
    ensures m == n
  {
    assert m == (multiset{a} + m) - multiset{a};
    assert n == (multiset{a} + n) - multiset{a};
  }

  /** Removing one occurrence of a common element from two reorderings leaves reorderings. */
  lemma CancelReordering<T>(z: seq<T>, i: nat, y: seq<T>, j: nat)
    requires Reorders(z, y) && i < |z| && j < |y| && z[i] == y[j]
    ensures Reorders(RemoveAt(z, i), RemoveAt(y, j))
  {
    MultisetRemoveAt(z, i);
    MultisetRemoveAt(y, j);
    CancelElement(z[i], multiset(RemoveAt(z, i)), multiset(RemoveAt(y, j)));
  }

  lemma MapRemoveAt<A, B>(f: A -> B, s: seq<A>, i: nat)
    requires i < |s|
    ensures RemoveAt(Map(f, s), i) == Map(f, RemoveAt(s, i))
  {
  }

  lemma MapSplit<A, B>(f: A -> B, s: seq<A>, i: nat)
    requires i < |s|
    ensures multiset(Map(f, s)) == multiset{f(s[i])} + multiset(Map(f, RemoveAt(s, i)))
  {
    MultisetRemoveAt(Map(f, s), i);
    MapRemoveAt(f, s, i);
  }

  lemma SameElementElsewhere<T>(z: seq<T>, y: seq<T>) returns (j: nat)
    requires Reorders(z, y) && z != []
    ensures j < |y| && y[j] == z[0] && Reorders(z[1..], RemoveAt(y, j))
  {
    InReordering(z, y, 0);
    j :| 0 <= j < |y| && y[j] == z[0];
    CancelReordering(z, 0, y, j);
    assert RemoveAt(z, 0) == z[1..];
  }

  /** Mapping keeps reorderings. */
  lemma {:induction false} MapReorders<A, B>(f: A -> B, z: seq<A>, y: seq<A>)
    requires Reorders(z, y)
    ensures Reorders(Map(f, z), Map(f, y))
    decreases |z|
  {
    ReorderLength(z, y);
    if z == [] {
      assert Map(f, z) == Map(f, y);
    } else {
      var j := SameElementElsewhere(z, y);
      MapReorders(f, z[1..], RemoveAt(y, j));
      assert RemoveAt(z, 0) == z[1..];
      MapSplit(f, z, 0);
      MapSplit(f, y, j);
    }
  }

  /** A reordering of the images is the image of a reordering. */
  lemma {:induction false} LiftReordering<A, B>(f: A -> B, d: seq<B>, y: seq<A>) returns (z: seq<A>)
    requires Reorders(d, Map(f, y))
    ensures Reorders(z, y) && Map(f, z) == d
    decreases |d|
  {
    ReorderLength(d, Map(f, y));
    if d == [] {
      z := y;
    } else {
      var j := SameElementElsewhere(d, Map(f, y));
      MapRemoveAt(f, y, j);
      var rest := LiftReordering(f, d[1..], RemoveAt(y, j));
      z := [y[j]] + rest;
      MultisetRemoveAt(y, j);
      MapPrepend(f, y[j], rest);
    }
  }

  lemma MapPrepend<A, B>(f: A -> B, a: A, s: seq<A>)
    ensures Map(f, [a] + s) == [f(a)] + Map(f, s)
    ensures multiset([a] + s) == multiset{a} + multiset(s)
  {
  }

  lemma MapAppend<A, B>(f: A -> B, s: seq<A>, a: A)
    ensures Map(f, s + [a]) == Map(f, s) + [f(a)]
  {
  }

  // Stable sorting

  ghost predicate TotalPreorder<T(!new)>(le: (T, T) -> bool) {
    && (forall x, y :: le(x, y) || le(y, x))
    && (forall x, y, z :: le(x, y) && le(y, z) ==> le(x, z))
  }

  ghost predicate Sorted<T(!new)>(le: (T, T) -> bool, s: seq<T>) {
    forall i, j | 0 <= i < j < |s| :: le(s[i], s[j])
  }

  /** le identifies no two different elements of s. */
  ghost predicate Separates<T(!new)>(le: (T, T) -> bool, s: seq<T>) {
    forall i, j | 0 <= i < |s| && 0 <= j < |s| && le(s[i], s[j]) && le(s[j], s[i]) :: s[i] == s[j]
  }

  function Insert<T>(le: (T, T) -> bool, x: T, s: seq<T>): (r: seq<T>)
    ensures multiset(r) == multiset{x} + multiset(s)
  {
    if s == [] || le(x, s[0]) then [x] + s
    else
      assert s == [s[0]] + s[1..];
      [s[0]] + Insert(le, x, s[1..])
  }

  /** Stable sort: an element goes in front of the later elements it is not greater than. */
  function Sort<T>(le: (T, T) -> bool, s: seq<T>): (r: seq<T>)
    ensures multiset(r) == multiset(s)
  {
    if s == [] then []
    else
      assert s == [s[0]] + s[1..];
      Insert(le, s[0], Sort(le, s[1..]))
  }

  lemma {:induction false} InsertSorts<T(!new)>(le: (T, T) -> bool, x: T, s: seq<T>)
    requires TotalPreorder(le) && Sorted(le, s)
    ensures Sorted(le, Insert(le, x, s))
  {
    if s != [] && !le(x, s[0]) {
      InsertSorts(le, x, s[1..]);
      var r := Insert(le, x, s[1..]);
      forall j | 0 <= j < |r| ensures le(s[0], r[j]) {
        assert r[j] in multiset(r);
        assert r[j] == x || r[j] in s[1..];
      }
    }
  }

  lemma {:induction false} SortSorts<T(!new)>(le: (T, T) -> bool, s: seq<T>)
    requires TotalPreorder(le)
    ensures Sorted(le, Sort(le, s))
  {
    if s != [] {
      SortSorts(le, s[1..]);
      InsertSorts(le, s[0], Sort(le, s[1..]));
    }
  }

  lemma HeadsAgree<T(!new)>(le: (T, T) -> bool, s: seq<T>, t: seq<T>)
    requires Sorted(le, s) && Sorted(le, t) && Reorders(s, t) && Separates(le, s)
    requires s != [] && t != []
    ensures s[0] == t[0]
  {
    assert t[0] in multiset(t) && s[0] in multiset(s);
    var i :| 0 <= i < |s| && s[i] == t[0];
    var j :| 0 <= j < |t| && t[j] == s[0];
    if i > 0 && j > 0 {
      assert le(s[0], s[i]) && le(t[0], t[j]);
    }
  }

  lemma SortedTail<T(!new)>(le: (T, T) -> bool, s: seq<T>)
    requires Sorted(le, s) && s != []
    ensures Sorted(le, s[1..])
  {
    var t := s[1..];
    forall i, j | 0 <= i < j < |t| ensures le(t[i], t[j]) {
      assert t[i] == s[i + 1] && t[j] == s[j + 1];
    }
  }

  lemma SeparatesTail<T(!new)>(le: (T, T) -> bool, s: seq<T>)
    requires Separates(le, s) && s != []
    ensures Separates(le, s[1..])
  {
    var t := s[1..];
    forall i, j | 0 <= i < |t| && 0 <= j < |t| && le(t[i], t[j]) && le(t[j], t[i]) ensures t[i] == t[j] {
      assert t[i] == s[i + 1] && t[j] == s[j + 1];
    }
  }

  lemma TailsReorder<T>(s: seq<T>, t: seq<T>)
    requires Reorders(s, t) && s != [] && t != [] && s[0] == t[0]
    ensures Reorders(s[1..], t[1..])
  {
    CancelReordering(s, 0, t, 0);
    assert RemoveAt(s, 0) == s[1..] && RemoveAt(t, 0) == t[1..];
  }

  /** Sorting has one answer when the order separates the elements. */
  lemma {:induction false} SortedUnique<T(!new)>(le: (T, T) -> bool, s: seq<T>, t: seq<T>)
    requires Sorted(le, s) && Sorted(le, t) && Reorders(s, t) && Separates(le, s)
    ensures s == t
    decreases |s|
  {
    ReorderLength(s, t);
    if s != [] {
      HeadsAgree(le, s, t);
      TailsReorder(s, t);
      SortedTail(le, s);
      SortedTail(le, t);
      SeparatesTail(le, s);
      SortedUnique(le, s[1..], t[1..]);
      assert s == [s[0]] + s[1..] && t == [t[0]] + t[1..];
    }
  }

  lemma {:induction false} SortOfReordering<T(!new)>(le: (T, T) -> bool, s: seq<T>, t: seq<T>)
    requires TotalPreorder(le) && Reorders(s, t) && Separates(le, s)
    ensures Sort(le, s) == Sort(le, t)
  {
    SortSorts(le, s);
    SortSorts(le, t);
    var r := Sort(le, s);
    forall i, j | 0 <= i < |r| && 0 <= j < |r| && le(r[i], r[j]) && le(r[j], r[i]) ensures r[i] == r[j] {
      assert r[i] in multiset(r) && r[j] in multiset(r);
      assert r[i] in s && r[j] in s;
    }
    SortedUnique(le, r, Sort(le, t));
  }
}
