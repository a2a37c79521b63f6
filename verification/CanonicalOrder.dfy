/**
 Where canonicalisation puts things, said of the tree itself and without sort keys. Being in order and being equivalent
 to the given tree describes its canonical form exactly.
 */
module CanonicalOrder {
  import opened Seqs
  import opened Text
  import opened Json
  import opened JsonText
  import opened Canonical

  /** Booleans come first, then numbers, null, references, strings and titled objects. */
  ghost function Rank(v: Value): nat {
    match v
    case Bool(_) => 0
    case Number(_) => 1
    case Null => 2
    case Obj(es) => if HasText(es, "$ref") then 3 else 5
    case Str(_) => 4
    case Arr(_) => 6
  }

  /** What elements of one rank are compared by, before their whole text. */
  ghost function SortText(v: Value): string {
    match v
    case Number(n) => n
    case Str(s) => s
    case Obj(es) => AsStr(Get(es, if HasText(es, "$ref") then "$ref" else "title")).GetOr("")
    case _ => ""
  }

  ghost predicate ItemLe(a: Value, b: Value) {
    if Rank(a) != Rank(b) then Rank(a) < Rank(b)
    else if SortText(a) != SortText(b) then StrLe(SortText(a), SortText(b))
    else StrLe(ToString(a), ToString(b))
  }

  ghost predicate ItemsAscend(items: seq<Value>) {
    forall i, j | 0 <= i < j < |items| :: ItemLe(items[i], items[j])
  }

  ghost predicate KeysAscend(es: seq<Entry>) {
    forall i, j | 0 <= i < j < |es| :: StrLe(es[i].key, es[j].key)
  }

  /** Every object's keys ascend by code point, and every array of sortable elements ascends. */
  ghost predicate InOrder(v: Value) {
    match v
    case Arr(items) => (AllSortable(items) ==> ItemsAscend(items)) && forall i | 0 <= i < |items| :: InOrder(items[i])
    case Obj(es) => KeysAscend(es) && forall i | 0 <= i < |es| :: InOrder(es[i].val)
    case _ => true
  }

  // The sort keys realise this order

  function KeyPrefix(rank: nat): string {
    match rank
    case 0 => "b:"
    case 1 => "n:"
    case 2 => "null"
    case 3 => "ref:"
    case 4 => "s:"
    case _ => "title:"
  }

  lemma PrefixesAscend(r: nat, x: string, q: nat, y: string)
    requires r < q <= 5
    ensures StrLe(KeyPrefix(r) + x, KeyPrefix(q) + y) && !StrLe(KeyPrefix(q) + y, KeyPrefix(r) + x)
  {
    var a, b := KeyPrefix(r) + x, KeyPrefix(q) + y;
    assert a[0] == KeyPrefix(r)[0] && b[0] == KeyPrefix(q)[0];
    assert a[1..][0] == KeyPrefix(r)[1] && b[1..][0] == KeyPrefix(q)[1];
  }

  ghost function KeyRest(v: Value): string {
    if v.Bool? then ToString(v) else SortText(v)
  }

  lemma KeyParts(v: Value)
    requires WellFormed(v) && Sortable(v)
    ensures Rank(v) <= 5 && SortKey(v) == Some(KeyPrefix(Rank(v)) + KeyRest(v))
  {
    if v.Obj? {
      HasTextExactly(v.entries, "$ref");
      HasTextExactly(v.entries, "title");
    }
    assert "null" + "" == "null" && "b:" + "true" == "b:true" && "b:" + "false" == "b:false";
  }

  lemma ItemOrder(a: Value, b: Value)
    requires WellFormed(a) && WellFormed(b) && Sortable(a) && Sortable(b)
    ensures KEYED_ORDER(WithKey(a), WithKey(b)) <==> ItemLe(a, b)
  {
    KeyParts(a);
    KeyParts(b);
    var p, q := KeyPrefix(Rank(a)), KeyPrefix(Rank(b));
    if Rank(a) < Rank(b) {
      PrefixesAscend(Rank(a), KeyRest(a), Rank(b), KeyRest(b));
    } else if Rank(b) < Rank(a) {
      PrefixesAscend(Rank(b), KeyRest(b), Rank(a), KeyRest(a));
    } else {
      StrLeAfter(p, KeyRest(a), KeyRest(b));
      if p + KeyRest(a) == q + KeyRest(b) { CancelPrefix(p, KeyRest(a), KeyRest(b)); }
    }
  }

  lemma ItemsOrder(items: seq<Value>)
    requires AllSortable(items) && forall i | 0 <= i < |items| :: WellFormed(items[i])
    ensures Sorted(KEYED_ORDER, Map(WITH_KEY, items)) <==> ItemsAscend(items)
  {
    var ks := Map(WITH_KEY, items);
    forall i, j | 0 <= i < j < |items| ensures KEYED_ORDER(ks[i], ks[j]) <==> ItemLe(items[i], items[j]) {
      ItemOrder(items[i], items[j]);
    }
    if Sorted(KEYED_ORDER, ks) {
      forall i, j | 0 <= i < j < |items| ensures ItemLe(items[i], items[j]) {
        assert KEYED_ORDER(ks[i], ks[j]);
      }
    }
  }

  // Canonical forms are in order

  lemma SortedItemsAscend(items: seq<Value>)
    requires AllSortable(items) && forall i | 0 <= i < |items| :: WellFormed(items[i])
    ensures ItemsAscend(SortItems(items))
  {
    var ks := Sort(KEYED_ORDER, Map(WITH_KEY, items));
    KeyedOrderIsPreorder();
    SortSorts(KEYED_ORDER, Map(WITH_KEY, items));
    forall k | 0 <= k < |ks| ensures WithKey(ks[k].item) == ks[k] {
      InReordering(ks, Map(WITH_KEY, items), k);
    }
    assert Map(WITH_KEY, SortItems(items)) == ks;
    SortItemsReorders(items);
    WellFormedOfReordering(SortItems(items), items);
    forall i | 0 <= i < |SortItems(items)| ensures Sortable(SortItems(items)[i]) {
      InReordering(SortItems(items), items, i);
    }
    ItemsOrder(SortItems(items));
  }

  lemma SortedEntriesAscend(es: seq<Entry>)
    ensures KeysAscend(SortEntries(es))
  {
    EntryOrderIsPreorder();
    SortSorts(ENTRY_ORDER, es);
    var r := SortEntries(es);
    forall i, j | 0 <= i < j < |r| ensures StrLe(r[i].key, r[j].key) {
      assert ENTRY_ORDER(r[i], r[j]);
    }
  }

  lemma {:induction false} FormItemsAscend(v: Value)
    requires WellFormed(v) && v.Arr?
    ensures AllSortable(Canonicalize(v).items) ==> ItemsAscend(Canonicalize(v).items)
  {
    CanonicalizeUnfold(v);
    CanonicalWellFormed(v);
    var cs, ds := Map(CANON, v.items), Canonicalize(v).items;
    SortItemsReorders(cs);
    AllKeyedOfReordering(ds, cs);
    if AllSortable(ds) {
      AllKeyedExactly(ds);
      WellFormedOfReordering(cs, ds);
      AllKeyedExactly(cs);
      SortedItemsAscend(cs);
    }
  }

  lemma {:induction false} CanonicalInOrder(v: Value)
    requires WellFormed(v)
    ensures InOrder(Canonicalize(v))
    decreases v
  {
    CanonicalizeUnfold(v);
    if v.Arr? {
      var cs, ds := Map(CANON, v.items), Canonicalize(v).items;
      FormItemsAscend(v);
      SortItemsReorders(cs);
      forall i | 0 <= i < |ds| ensures InOrder(ds[i]) {
        InReordering(ds, cs, i);
        var k :| 0 <= k < |cs| && cs[k] == ds[i];
        CanonicalInOrder(v.items[k]);
      }
    } else if v.Obj? {
      var ms, ds := Map(CANON_ENTRY, v.entries), Canonicalize(v).entries;
      SortedEntriesAscend(ms);
      forall i | 0 <= i < |ds| ensures InOrder(ds[i].val) {
        InReordering(ds, ms, i);
        var k :| 0 <= k < |ms| && ms[k] == ds[i];
        CanonicalInOrder(v.entries[k].val);
      }
    }
  }

  // A tree in order is its own canonical form

  lemma AscendingItemsStay(items: seq<Value>)
    requires forall i | 0 <= i < |items| :: WellFormed(items[i])
    requires AllSortable(items) && ItemsAscend(items)
    ensures SortItems(items) == items
  {
    var ks := Map(WITH_KEY, items);
    ItemsOrder(items);
    KeyedOrderIsPreorder();
    SortSorts(KEYED_ORDER, ks);
    KeyedSeparates(items);
    SortedUnique(KEYED_ORDER, ks, Sort(KEYED_ORDER, ks));
    assert Map(ITEM, ks) == items;
  }

  lemma AscendingEntriesStay(es: seq<Entry>)
    requires Distinct(es) && KeysAscend(es)
    ensures SortEntries(es) == es
  {
    EntryOrderIsPreorder();
    SortSorts(ENTRY_ORDER, es);
    EntriesSeparate(es);
    SortedUnique(ENTRY_ORDER, es, SortEntries(es));
  }

  lemma {:induction false} InOrderIsFixed(v: Value)
    requires WellFormed(v) && InOrder(v)
    ensures Canonicalize(v) == v
    decreases v
  {
    CanonicalizeUnfold(v);
    if v.Arr? {
      forall i | 0 <= i < |v.items| ensures Canonicalize(v.items[i]) == v.items[i] {
        InOrderIsFixed(v.items[i]);
      }
      assert Map(CANON, v.items) == v.items;
      AllKeyedExactly(v.items);
      if AllKeyed(v.items) { AscendingItemsStay(v.items); }
    } else if v.Obj? {
      forall i | 0 <= i < |v.entries| ensures CANON_ENTRY(v.entries[i]) == v.entries[i] {
        InOrderIsFixed(v.entries[i].val);
      }
      assert Map(CANON_ENTRY, v.entries) == v.entries;
      AscendingEntriesStay(v.entries);
    }
  }

  lemma {:induction false} FixedExactlyWhenInOrder(v: Value)
    requires WellFormed(v)
    ensures Canonicalize(v) == v <==> InOrder(v)
  {
    CanonicalInOrder(v);
    if InOrder(v) { InOrderIsFixed(v); }
  }

  /** The canonical form is the one tree that is in order and equivalent to the given one. */
  lemma {:induction false} CanonicalFormExactly(w: Value, v: Value)
    requires WellFormed(w) && WellFormed(v)
    ensures w == Canonicalize(v) <==> InOrder(w) && Equivalent(w, v)
  {
    CanonicalInOrder(v);
    EquivalentToForm(v);
    if InOrder(w) && Equivalent(w, v) {
      InOrderIsFixed(w);
      EquivalentSameForm(w, v);
    }
  }

  /** In particular the strings of an array come out by code point. */
  lemma {:induction false} StringsAscend(items: seq<Value>)
    requires forall i | 0 <= i < |items| :: items[i].Str?
    ensures var r := Canonicalize(Arr(items)).items;
            && Reorders(r, items)
            && forall i, j | 0 <= i < j < |r| :: r[i].Str? && r[j].Str? && StrLe(r[i].s, r[j].s)
  {
    var v := Arr(items);
    CanonicalizeUnfold(v);
    CanonicalInOrder(v);
    assert Map(CANON, items) == items;
    var r := Canonicalize(v).items;
    SortItemsReorders(items);
    forall i | 0 <= i < |r| ensures r[i].Str? {
      InReordering(r, items, i);
    }
    forall i, j | 0 <= i < j < |r| ensures StrLe(r[i].s, r[j].s) {
      assert AllSortable(r);
      assert ItemLe(r[i], r[j]);
      StrLeTotal(r[i].s, r[i].s);
    }
  }
}
