/**
 The canonical form that fixture comparison uses: object entries sorted by key, and arrays sorted when every
 element has a sort key. It is proved to be a complete normal form for the reorderings it means to ignore.
 */
module Canonical {
  import opened Seqs
  import opened Text
  import opened Json
  import opened JsonText

  function SortKey(item: Value): Option<string> {
    match item
    case Null => Some("null")
    case Bool(b) => Some(if b then "b:true" else "b:false")
    case Number(n) => Some("n:" + n)
    case Str(s) => Some("s:" + s)
    case Obj(es) =>
      if AsStr(Get(es, "$ref")).Some? then Some("ref:" + AsStr(Get(es, "$ref")).value)
      else if AsStr(Get(es, "title")).Some? then Some("title:" + AsStr(Get(es, "title")).value)
      else None
    case Arr(_) => None
  }

  predicate AllKeyed(items: seq<Value>) {
    forall i | 0 <= i < |items| :: SortKey(items[i]).Some?
  }

  // Which elements have a key, in the terms of the tree itself

  ghost predicate HasText(es: seq<Entry>, key: string) {
    exists t: string :: Entry(key, Str(t)) in es
  }

  /** Scalars, and objects that hold a string under "$ref" or under "title". */
  ghost predicate Sortable(v: Value) {
    match v
    case Null | Bool(_) | Number(_) | Str(_) => true
    case Obj(es) => HasText(es, "$ref") || HasText(es, "title")
    case Arr(_) => false
  }

  ghost predicate AllSortable(items: seq<Value>) {
    forall i | 0 <= i < |items| :: Sortable(items[i])
  }

  lemma TextFound(es: seq<Entry>, key: string, t: string)
    requires Distinct(es)
    ensures Entry(key, Str(t)) in es <==> AsStr(Get(es, key)) == Some(t)
  {
    if Entry(key, Str(t)) in es {
      var i :| 0 <= i < |es| && es[i] == Entry(key, Str(t));
      FindUnique(es, i);
    }
  }

  lemma HasTextExactly(es: seq<Entry>, key: string)
    requires Distinct(es)
    ensures HasText(es, key) <==> AsStr(Get(es, key)).Some?
  {
    if HasText(es, key) {
      var t: string :| Entry(key, Str(t)) in es;
      TextFound(es, key, t);
    }
    if AsStr(Get(es, key)).Some? {
      TextFound(es, key, AsStr(Get(es, key)).value);
    }
  }

  lemma {:induction false} SortKeyExactly(v: Value)
    requires WellFormed(v)
    ensures SortKey(v).Some? <==> Sortable(v)
  {
    if v.Obj? {
      HasTextExactly(v.entries, "$ref");
      HasTextExactly(v.entries, "title");
    }
  }

  lemma AllKeyedExactly(items: seq<Value>)
    requires forall i | 0 <= i < |items| :: WellFormed(items[i])
    ensures AllKeyed(items) <==> AllSortable(items)
  {
    forall i | 0 <= i < |items| ensures SortKey(items[i]).Some? <==> Sortable(items[i]) {
      SortKeyExactly(items[i]);
    }
  }

  // The two orders that are sorted by

  datatype Keyed = Keyed(item: Value, key: string, stable: string)

  predicate KeyedLe(a: Keyed, b: Keyed) {
    if a.key != b.key then StrLe(a.key, b.key) else StrLe(a.stable, b.stable)
  }

  predicate EntryLe(a: Entry, b: Entry) {
    StrLe(a.key, b.key)
  }

  const KEYED_ORDER: (Keyed, Keyed) -> bool := (a, b) => KeyedLe(a, b)
  const ENTRY_ORDER: (Entry, Entry) -> bool := (a, b) => EntryLe(a, b)

  lemma KeyedOrderIsPreorder()
    ensures TotalPreorder(KEYED_ORDER)
  {
    forall a: Keyed, b: Keyed ensures KeyedLe(a, b) || KeyedLe(b, a) {
      StrLeTotal(a.key, b.key);
      StrLeTotal(a.stable, b.stable);
    }
    forall a: Keyed, b: Keyed, c: Keyed | KeyedLe(a, b) && KeyedLe(b, c) ensures KeyedLe(a, c) {
      KeyedLeTransitive(a, b, c);
    }
  }

  lemma KeyedLeTransitive(a: Keyed, b: Keyed, c: Keyed)
    requires KeyedLe(a, b) && KeyedLe(b, c)
    ensures KeyedLe(a, c)
  {
    if a.key == b.key == c.key {
      StrLeTransitive(a.stable, b.stable, c.stable);
    } else if a.key != b.key && b.key != c.key {
      StrLeTransitive(a.key, b.key, c.key);
      StrLeTotal(a.key, b.key);
    }
  }

  lemma EntryOrderIsPreorder()
    ensures TotalPreorder(ENTRY_ORDER)
  {
    forall a: Entry, b: Entry ensures EntryLe(a, b) || EntryLe(b, a) {
      StrLeTotal(a.key, b.key);
    }
    forall a: Entry, b: Entry, c: Entry | EntryLe(a, b) && EntryLe(b, c) ensures EntryLe(a, c) {
      StrLeTransitive(a.key, b.key, c.key);
    }
  }

  function WithKey(item: Value): Keyed {
    Keyed(item, SortKey(item).GetOr(""), ToString(item))
  }

  const WITH_KEY: Value -> Keyed := v => WithKey(v)
  const ITEM: Keyed -> Value := (k: Keyed) => k.item

  function SortItems(items: seq<Value>): seq<Value> {
    Map(ITEM, Sort(KEYED_ORDER, Map(WITH_KEY, items)))
  }

  function SortEntries(entries: seq<Entry>): (r: seq<Entry>)
    ensures multiset(r) == multiset(entries)
  {
    Sort(ENTRY_ORDER, entries)
  }

  function Canonicalize(v: Value): Value {
    match v
    case Arr(items) =>
      var cs := seq(|items|, i requires 0 <= i < |items| => Canonicalize(items[i]));
      Arr(if AllKeyed(cs) then SortItems(cs) else cs)
    case Obj(es) =>
      Obj(SortEntries(seq(|es|, i requires 0 <= i < |es| => Entry(es[i].key, Canonicalize(es[i].val)))))
    case _ => v
  }

  const CANON: Value -> Value := v => Canonicalize(v)
  const CANON_ENTRY: Entry -> Entry := (e: Entry) => Entry(e.key, Canonicalize(e.val))

  lemma CanonicalizeUnfold(v: Value)
    ensures v.Arr? ==>
      var cs := Map(CANON, v.items);
      Canonicalize(v) == Arr(if AllKeyed(cs) then SortItems(cs) else cs)
    ensures v.Obj? ==> Canonicalize(v) == Obj(SortEntries(Map(CANON_ENTRY, v.entries)))
  {
    if v.Arr? {
      assert seq(|v.items|, i requires 0 <= i < |v.items| => Canonicalize(v.items[i])) == Map(CANON, v.items);
    }
    if v.Obj? {
      assert seq(|v.entries|, i requires 0 <= i < |v.entries| =>
          Entry(v.entries[i].key, Canonicalize(v.entries[i].val))) == Map(CANON_ENTRY, v.entries);
    }
  }

  // Sorting ignores exactly the order

  lemma {:induction false} KeyedSeparates(items: seq<Value>)
    ensures Separates(KEYED_ORDER, Map(WITH_KEY, items))
  {
    var ks := Map(WITH_KEY, items);
    forall i, j | 0 <= i < |ks| && 0 <= j < |ks| && KEYED_ORDER(ks[i], ks[j]) && KEYED_ORDER(ks[j], ks[i])
      ensures ks[i] == ks[j]
    {
      StrLeTotal(ks[i].key, ks[j].key);
      StrLeTotal(ks[i].stable, ks[j].stable);
      ToStringInjective(items[i], items[j]);
    }
  }

  lemma SortItemsReorders(items: seq<Value>)
    ensures Reorders(SortItems(items), items)
  {
    var ks := Map(WITH_KEY, items);
    MapReorders(ITEM, Sort(KEYED_ORDER, ks), ks);
    assert Map(ITEM, ks) == items;
  }

  lemma SortItemsOfReordering(s: seq<Value>, t: seq<Value>)
    requires Reorders(s, t)
    ensures SortItems(s) == SortItems(t)
  {
    KeyedOrderIsPreorder();
    MapReorders(WITH_KEY, s, t);
    KeyedSeparates(s);
    SortOfReordering(KEYED_ORDER, Map(WITH_KEY, s), Map(WITH_KEY, t));
  }

  lemma EntriesSeparate(es: seq<Entry>)
    requires Distinct(es)
    ensures Separates(ENTRY_ORDER, es)
  {
    forall i, j | 0 <= i < |es| && 0 <= j < |es| && ENTRY_ORDER(es[i], es[j]) && ENTRY_ORDER(es[j], es[i])
      ensures es[i] == es[j]
    {
      StrLeTotal(es[i].key, es[j].key);
    }
  }

  lemma SortEntriesOfReordering(s: seq<Entry>, t: seq<Entry>)
    requires Distinct(s) && Reorders(s, t)
    ensures SortEntries(s) == SortEntries(t)
  {
    EntryOrderIsPreorder();
    EntriesSeparate(s);
    SortOfReordering(ENTRY_ORDER, s, t);
  }

  lemma AllKeyedOfReordering(s: seq<Value>, t: seq<Value>)
    requires Reorders(s, t)
    ensures AllKeyed(s) <==> AllKeyed(t)
  {
    forall i | 0 <= i < |s| ensures s[i] in t { assert s[i] in multiset(s); }
    forall i | 0 <= i < |t| ensures t[i] in s { assert t[i] in multiset(t); }
  }

  lemma FindInReordering(s: seq<Entry>, t: seq<Entry>, key: string)
    requires Distinct(t) && Reorders(s, t) && Has(s, key)
    ensures Has(t, key) && Get(s, key) == Get(t, key)
  {
    var i := Find(s, key);
    assert s[i] in multiset(s);
    var k :| 0 <= k < |t| && t[k] == s[i];
    FindUnique(t, k);
  }

  lemma GetOfReordering(s: seq<Entry>, t: seq<Entry>, key: string)
    requires Distinct(s) && Distinct(t) && Reorders(s, t)
    ensures Get(s, key) == Get(t, key)
  {
    if Has(s, key) { FindInReordering(s, t, key); }
    if Has(t, key) { FindInReordering(t, s, key); }
  }

  lemma DistinctOfReordering(s: seq<Entry>, t: seq<Entry>)
    requires Distinct(s) && Reorders(s, t)
    ensures Distinct(t)
  {
    forall i, j | 0 <= i < j < |t| ensures t[i].key != t[j].key {
      assert t[i] in multiset(t);
      var p :| 0 <= p < |s| && s[p] == t[i];
      CancelReordering(t, i, s, p);
      assert RemoveAt(t, i)[j - 1] == t[j];
      assert t[j] in multiset(RemoveAt(t, i));
      var q :| 0 <= q < |RemoveAt(s, p)| && RemoveAt(s, p)[q] == t[j];
      assert t[j] == s[if q < p then q else q + 1];
    }
  }

  lemma CanonicalEntriesDistinct(es: seq<Entry>)
    requires Distinct(es)
    ensures Distinct(Map(CANON_ENTRY, es)) && Distinct(SortEntries(Map(CANON_ENTRY, es)))
  {
    DistinctOfReordering(Map(CANON_ENTRY, es), SortEntries(Map(CANON_ENTRY, es)));
  }

  // The sort key survives canonicalisation

  lemma GetCanonicalEntry(es: seq<Entry>, key: string)
    requires Distinct(es)
    ensures AsStr(Get(SortEntries(Map(CANON_ENTRY, es)), key)) == AsStr(Get(es, key))
  {
    var ms := Map(CANON_ENTRY, es);
    CanonicalEntriesDistinct(es);
    GetOfReordering(SortEntries(ms), ms, key);
    FindSameKeys(es, ms, key);
  }

  lemma {:induction false} SortKeyInvariant(v: Value)
    requires WellFormed(v)
    ensures SortKey(Canonicalize(v)) == SortKey(v)
  {
    if v.Obj? {
      CanonicalizeUnfold(v);
      GetCanonicalEntry(v.entries, "$ref");
      GetCanonicalEntry(v.entries, "title");
    }
  }

  lemma AllKeyedInvariant(items: seq<Value>)
    requires forall i | 0 <= i < |items| :: WellFormed(items[i])
    ensures AllKeyed(Map(CANON, items)) <==> AllKeyed(items)
  {
    forall i | 0 <= i < |items| ensures SortKey(Map(CANON, items)[i]) == SortKey(items[i]) {
      SortKeyInvariant(items[i]);
    }
  }

  // The equivalence that canonicalisation decides

  /** Equal up to reordering object entries, and reordering arrays whose elements are all sortable. */
  ghost predicate Equivalent(a: Value, b: Value) {
    match a
    case Arr(x) =>
      b.Arr? &&
      exists z: seq<Value> ::
        && Reorders(z, b.items) && |z| == |x| && (!AllSortable(x) ==> z == b.items)
        && forall i | 0 <= i < |x| :: Equivalent(x[i], z[i])
    case Obj(x) =>
      b.Obj? &&
      exists z: seq<Entry> ::
        && Reorders(z, b.entries) && |z| == |x|
        && forall i | 0 <= i < |x| :: x[i].key == z[i].key && Equivalent(x[i].val, z[i].val)
    case _ => a == b
  }

  lemma WellFormedOfReordering(z: seq<Value>, y: seq<Value>)
    requires Reorders(z, y) && forall i | 0 <= i < |y| :: WellFormed(y[i])
    ensures forall i | 0 <= i < |z| :: WellFormed(z[i])
  {
    forall i | 0 <= i < |z| ensures WellFormed(z[i]) {
      assert z[i] in multiset(z);
      assert z[i] in y;
    }
  }

  lemma WellFormedEntriesOfReordering(z: seq<Entry>, y: seq<Entry>)
    requires Reorders(z, y) && forall i | 0 <= i < |y| :: WellFormed(y[i].val)
    ensures forall i | 0 <= i < |z| :: WellFormed(z[i].val)
  {
    forall i | 0 <= i < |z| ensures WellFormed(z[i].val) {
      assert z[i] in multiset(z);
      assert z[i] in y;
    }
  }

  lemma {:induction false} SameFormItems(x: seq<Value>, z: seq<Value>, y: seq<Value>)
    requires Reorders(z, y) && |z| == |x| && (!AllKeyed(x) ==> z == y)
    requires forall i | 0 <= i < |x| :: WellFormed(x[i]) && Canonicalize(x[i]) == Canonicalize(z[i])
    ensures Canonicalize(Arr(x)) == Canonicalize(Arr(y))
  {
    CanonicalizeUnfold(Arr(x));
    CanonicalizeUnfold(Arr(y));
    assert Map(CANON, x) == Map(CANON, z);
    MapReorders(CANON, z, y);
    AllKeyedInvariant(x);
    AllKeyedOfReordering(Map(CANON, z), Map(CANON, y));
    SortItemsOfReordering(Map(CANON, z), Map(CANON, y));
  }

  lemma SameFormEntries(x: seq<Entry>, z: seq<Entry>, y: seq<Entry>)
    requires Distinct(x) && Reorders(z, y) && |z| == |x|
    requires forall i | 0 <= i < |x| :: x[i].key == z[i].key && Canonicalize(x[i].val) == Canonicalize(z[i].val)
    ensures Canonicalize(Obj(x)) == Canonicalize(Obj(y))
  {
    CanonicalizeUnfold(Obj(x));
    CanonicalizeUnfold(Obj(y));
    assert Map(CANON_ENTRY, x) == Map(CANON_ENTRY, z);
    MapReorders(CANON_ENTRY, z, y);
    CanonicalEntriesDistinct(x);
    SortEntriesOfReordering(Map(CANON_ENTRY, z), Map(CANON_ENTRY, y));
  }

  /** Equivalent trees have one canonical form. */
  lemma {:induction false} EquivalentSameForm(a: Value, b: Value)
    requires WellFormed(a) && WellFormed(b) && Equivalent(a, b)
    ensures Canonicalize(a) == Canonicalize(b)
    decreases a
  {
    if a.Arr? {
      var x, y := a.items, b.items;
      var z :| && Reorders(z, y) && |z| == |x| && (!AllSortable(x) ==> z == y)
               && forall i | 0 <= i < |x| :: Equivalent(x[i], z[i]);
      AllKeyedExactly(x);
      WellFormedOfReordering(z, y);
      forall i | 0 <= i < |x| ensures Canonicalize(x[i]) == Canonicalize(z[i]) {
        EquivalentSameForm(x[i], z[i]);
      }
      SameFormItems(x, z, y);
    } else if a.Obj? {
      var x, y := a.entries, b.entries;
      var z: seq<Entry> :| && Reorders(z, y) && |z| == |x|
               && forall i | 0 <= i < |x| :: x[i].key == z[i].key && Equivalent(x[i].val, z[i].val);
      WellFormedEntriesOfReordering(z, y);
      forall i | 0 <= i < |x| ensures Canonicalize(x[i].val) == Canonicalize(z[i].val) {
        EquivalentSameForm(x[i].val, z[i].val);
      }
      SameFormEntries(x, z, y);
    }
  }

  lemma {:induction false} SameItems(x: seq<Value>, y: seq<Value>) returns (z: seq<Value>)
    requires forall i | 0 <= i < |x| :: WellFormed(x[i])
    requires forall i | 0 <= i < |y| :: WellFormed(y[i])
    requires Canonicalize(Arr(x)) == Canonicalize(Arr(y))
    ensures Reorders(z, y) && |z| == |x| && (!AllKeyed(x) ==> z == y) && Map(CANON, z) == Map(CANON, x)
  {
    var cx, cy := Map(CANON, x), Map(CANON, y);
    CanonicalizeUnfold(Arr(x));
    CanonicalizeUnfold(Arr(y));
    SortItemsReorders(cx);
    SortItemsReorders(cy);
    AllKeyedInvariant(x);
    AllKeyedInvariant(y);
    AllKeyedOfReordering(cx, SortItems(cx));
    AllKeyedOfReordering(cy, SortItems(cy));
    assert AllKeyed(x) <==> AllKeyed(y);
    if AllKeyed(x) {
      assert multiset(SortItems(cx)) == multiset(cx) && multiset(SortItems(cy)) == multiset(cy);
      z := LiftReordering(CANON, cx, y);
      ReorderLength(z, y);
      ReorderLength(SortItems(cx), cx);
      ReorderLength(SortItems(cy), cy);
    } else {
      z := y;
    }
  }

  /** Trees with one canonical form are equivalent. */
  lemma {:induction false} SameFormEquivalent(a: Value, b: Value)
    requires WellFormed(a) && WellFormed(b) && Canonicalize(a) == Canonicalize(b)
    ensures Equivalent(a, b)
    decreases a
  {
    CanonicalizeUnfold(a);
    CanonicalizeUnfold(b);
    if a.Arr? {
      var x := a.items;
      var z := SameItems(x, b.items);
      AllKeyedExactly(x);
      WellFormedOfReordering(z, b.items);
      forall i | 0 <= i < |x| ensures Equivalent(x[i], z[i]) {
        assert Map(CANON, z)[i] == Map(CANON, x)[i];
        SameFormEquivalent(x[i], z[i]);
      }
    } else if a.Obj? {
      var x, y := a.entries, b.entries;
      var z := LiftReordering(CANON_ENTRY, Map(CANON_ENTRY, x), y);
      assert |Map(CANON_ENTRY, z)| == |Map(CANON_ENTRY, x)|;
      WellFormedEntriesOfReordering(z, y);
      forall i | 0 <= i < |x| ensures x[i].key == z[i].key && Equivalent(x[i].val, z[i].val) {
        assert Map(CANON_ENTRY, z)[i] == Map(CANON_ENTRY, x)[i];
        SameFormEquivalent(x[i].val, z[i].val);
      }
    }
  }

  /** Canonicalisation is a complete normal form: it identifies exactly the equivalent trees. */
  lemma {:induction false} CompleteNormalForm(a: Value, b: Value)
    requires WellFormed(a) && WellFormed(b)
    ensures Canonicalize(a) == Canonicalize(b) <==> Equivalent(a, b)
  {
    if Equivalent(a, b) { EquivalentSameForm(a, b); }
    if Canonicalize(a) == Canonicalize(b) { SameFormEquivalent(a, b); }
  }

  // Canonicalisation keeps trees well formed and is idempotent

  lemma {:induction false} CanonicalWellFormed(v: Value)
    requires WellFormed(v)
    ensures WellFormed(Canonicalize(v))
    decreases v
  {
    CanonicalizeUnfold(v);
    if v.Arr? {
      var cs := Map(CANON, v.items);
      forall i | 0 <= i < |cs| ensures WellFormed(cs[i]) {
        CanonicalWellFormed(v.items[i]);
      }
      SortItemsReorders(cs);
      WellFormedOfReordering(SortItems(cs), cs);
    } else if v.Obj? {
      var ms := Map(CANON_ENTRY, v.entries);
      forall i | 0 <= i < |ms| ensures WellFormed(ms[i].val) {
        CanonicalWellFormed(v.entries[i].val);
      }
      CanonicalEntriesDistinct(v.entries);
      WellFormedEntriesOfReordering(SortEntries(ms), ms);
    }
  }

  /** A reordering of the elements whose forms are the elements of an array's form. */
  lemma {:induction false} FormItems(v: Value) returns (z: seq<Value>)
    requires WellFormed(v) && v.Arr?
    ensures var ds := Canonicalize(v).items;
            Reorders(z, v.items) && |z| == |ds| && (!AllSortable(ds) ==> z == v.items) && Map(CANON, z) == ds
  {
    CanonicalizeUnfold(v);
    var cs, ds := Map(CANON, v.items), Canonicalize(v).items;
    SortItemsReorders(cs);
    AllKeyedOfReordering(ds, cs);
    CanonicalWellFormed(v);
    AllKeyedExactly(ds);
    if AllKeyed(ds) {
      z := LiftReordering(CANON, ds, v.items);
    } else {
      z := v.items;
    }
  }

  lemma {:induction false} FormEntries(v: Value) returns (z: seq<Entry>)
    requires v.Obj?
    ensures var ds := Canonicalize(v).entries;
            Reorders(z, v.entries) && |z| == |ds| && Map(CANON_ENTRY, z) == ds
  {
    CanonicalizeUnfold(v);
    z := LiftReordering(CANON_ENTRY, Canonicalize(v).entries, v.entries);
  }

  /** Every tree is equivalent to its canonical form. */
  lemma {:induction false} EquivalentToForm(v: Value)
    requires WellFormed(v)
    ensures Equivalent(Canonicalize(v), v)
    decreases v
  {
    if v.Arr? {
      var ds := Canonicalize(v).items;
      var z := FormItems(v);
      WellFormedOfReordering(z, v.items);
      forall i | 0 <= i < |ds| ensures Equivalent(ds[i], z[i]) {
        assert Map(CANON, z)[i] == ds[i];
        InReordering(z, v.items, i);
        EquivalentToForm(z[i]);
      }
    } else if v.Obj? {
      var ds := Canonicalize(v).entries;
      var z := FormEntries(v);
      forall i | 0 <= i < |ds| ensures ds[i].key == z[i].key && Equivalent(ds[i].val, z[i].val) {
        assert Map(CANON_ENTRY, z)[i] == ds[i];
        InReordering(z, v.entries, i);
        EquivalentToForm(z[i].val);
      }
    }
  }

  lemma {:induction false} Idempotent(v: Value)
    requires WellFormed(v)
    ensures Canonicalize(Canonicalize(v)) == Canonicalize(v)
  {
    CanonicalWellFormed(v);
    EquivalentToForm(v);
    EquivalentSameForm(Canonicalize(v), v);
  }

  // The code itself, with its loops and its early return

  lemma {:induction false} SortThenMap(es: seq<Entry>)
    requires Distinct(es)
    ensures Map(CANON_ENTRY, SortEntries(es)) == SortEntries(Map(CANON_ENTRY, es))
  {
    var ms := Map(CANON_ENTRY, es);
    var l, r := Map(CANON_ENTRY, SortEntries(es)), SortEntries(ms);
    EntryOrderIsPreorder();
    SortSorts(ENTRY_ORDER, es);
    SortSorts(ENTRY_ORDER, ms);
    MapReorders(CANON_ENTRY, SortEntries(es), es);
    CanonicalEntriesDistinct(es);
    DistinctOfReordering(ms, l);
    EntriesSeparate(l);
    forall i, j | 0 <= i < j < |l| ensures ENTRY_ORDER(l[i], l[j]) {
      assert ENTRY_ORDER(SortEntries(es)[i], SortEntries(es)[j]);
    }
    SortedUnique(ENTRY_ORDER, l, r);
  }

  lemma PutNew(es: seq<Entry>, key: string, val: Value)
    requires forall i | 0 <= i < |es| :: es[i].key != key
    ensures Put(es, key, val) == es + [Entry(key, val)]
  {
  }

  method CanonicalizeJson(value: Value) returns (r: Value)
    requires WellFormed(value)
    ensures r == Canonicalize(value)
    decreases value
  {
    CanonicalizeUnfold(value);
    match value
    case Arr(items) => r := CanonicalizeArray(value);
    case Obj(entries) => r := CanonicalizeObject(value);
    case _ => r := value;
  }

  method CanonicalizeItems(items: seq<Value>) returns (r: seq<Value>)
    requires forall i | 0 <= i < |items| :: WellFormed(items[i])
    ensures r == Map(CANON, items)
    decreases items, 0
  {
    r := [];
    for i := 0 to |items|
      invariant r == Map(CANON, items[..i])
    {
      var item := CanonicalizeJson(items[i]);
      assert Map(CANON, items[..i + 1]) == Map(CANON, items[..i]) + [item];
      r := r + [item];
    }
    assert items[..|items|] == items;
  }

  /** Arrays are sorted when, and only when, every element has a key. */
  lemma {:induction false} ArrayForm(value: Value, items: seq<Value>)
    requires value.Arr? && items == Map(CANON, value.items)
    ensures AllKeyed(items) ==> Canonicalize(value) == Arr(Map(ITEM, Sort(KEYED_ORDER, Map(WITH_KEY, items))))
    ensures !AllKeyed(items) ==> Canonicalize(value) == Arr(items)
  {
    CanonicalizeUnfold(value);
  }

  lemma OneMoreKeyed(items: seq<Value>, i: nat)
    requires i < |items| && AllKeyed(items[..i])
    ensures SortKey(items[i]).None? ==> !AllKeyed(items)
    ensures SortKey(items[i]).Some? ==> AllKeyed(items[..i + 1])
    ensures Map(WITH_KEY, items[..i + 1]) == Map(WITH_KEY, items[..i]) + [WithKey(items[i])]
  {
    MapAppend(WITH_KEY, items[..i], items[i]);
    assert items[..i] + [items[i]] == items[..i + 1];
  }

  method CanonicalizeArray(value: Value) returns (r: Value)
    requires WellFormed(value) && value.Arr?
    ensures r == Canonicalize(value)
    decreases value, 0
  {
    var items := CanonicalizeItems(value.items);
    ArrayForm(value, items);
    var sortable := [];
    for i := 0 to |items|
      invariant AllKeyed(items[..i]) && sortable == Map(WITH_KEY, items[..i])
    {
      OneMoreKeyed(items, i);
      var key := SortKey(items[i]);
      if key.None? {
        return Arr(items);
      }
      sortable := sortable + [Keyed(items[i], key.value, ToString(items[i]))];
    }
    assert items[..|items|] == items;
    var sorted := Sort(KEYED_ORDER, sortable);
    r := Arr(Map(ITEM, sorted));
  }

  /** Inserts the canonical entries, in the order given, into a new map. */
  method CanonicalizeEntries(entries: seq<Entry>, ghost value: Value) returns (sorted: seq<Entry>)
    requires Distinct(entries) && value.Obj?
    requires forall i | 0 <= i < |entries| :: entries[i] in value.entries && WellFormed(entries[i].val)
    ensures sorted == Map(CANON_ENTRY, entries)
    decreases value, 0
  {
    sorted := [];
    for i := 0 to |entries|
      invariant sorted == Map(CANON_ENTRY, entries[..i])
    {
      var child := CanonicalizeJson(entries[i].val);
      MapAppend(CANON_ENTRY, entries[..i], entries[i]);
      assert entries[..i] + [entries[i]] == entries[..i + 1];
      PutNew(sorted, entries[i].key, child);
      sorted := Put(sorted, entries[i].key, child);
    }
    assert entries[..|entries|] == entries;
  }

  method CanonicalizeObject(value: Value) returns (r: Value)
    requires WellFormed(value) && value.Obj?
    ensures r == Canonicalize(value)
    decreases value, 1
  {
    var entries := SortEntries(value.entries);
    DistinctOfReordering(value.entries, entries);
    WellFormedEntriesOfReordering(entries, value.entries);
    forall i | 0 <= i < |entries| ensures entries[i] in value.entries {
      assert entries[i] in multiset(entries);
    }
    var sorted := CanonicalizeEntries(entries, value);
    SortThenMap(value.entries);
    CanonicalizeUnfold(value);
    r := Obj(sorted);
  }
}
