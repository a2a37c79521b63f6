/**
 Pruning of experimental method variants from the arrays of a JSON tree, with the exact condition under which one
 pass leaves none behind.
 */
module Prune {
  import opened Seqs
  import opened Json

  function ObjectMember(v: Option<Value>, key: string): Option<Value> {
    if v.Some? && Member(v.value, key).Some? && Member(v.value, key).value.Obj? then Member(v.value, key) else None
  }

  /** The schema under properties.method, when both are objects. */
  function MethodSchema(v: Value): Option<Value> {
    ObjectMember(ObjectMember(Some(v), "properties"), "method")
  }

  function EnumItems(schema: Value): Option<seq<Value>> {
    var e := Member(schema, "enum");
    if e.Some? && e.value.Arr? then Some(e.value.items) else None
  }

  /** The method is a constant, or the only choice of an enum, and is experimental. */
  predicate NamesExperimental(schema: Value, methods: set<string>) {
    var fixed := AsStr(Member(schema, "const"));
    if fixed.Some? then fixed.value in methods else OnlyChoice(EnumItems(schema), methods)
  }

  predicate OnlyChoice(choices: Option<seq<Value>>, methods: set<string>) {
    choices.Some? && |choices.value| == 1 && choices.value[0].Str? && choices.value[0].s in methods
  }

  predicate IsExperimental(v: Value, methods: set<string>) {
    MethodSchema(v).Some? && NamesExperimental(MethodSchema(v).value, methods)
  }

  function Survivors(items: seq<Value>, methods: set<string>): seq<Value> {
    if items == [] then []
    else (if IsExperimental(items[0], methods) then [] else [items[0]]) + Survivors(items[1..], methods)
  }

  function Pruned(v: Value, methods: set<string>): Value {
    match v
    case Arr(items) => Arr(PrunedItems(items, methods))
    case Obj(es) =>
      Obj(seq(|es|, i requires 0 <= i < |es| => Entry(es[i].key, Pruned(es[i].val, methods))))
    case _ => v
  }

  function PrunedItems(items: seq<Value>, methods: set<string>): (r: seq<Value>)
    ensures |r| == |Survivors(items, methods)| <= |items|
  {
    if items == [] then []
    else
      (if IsExperimental(items[0], methods) then [] else [Pruned(items[0], methods)])
      + PrunedItems(items[1..], methods)
  }

  // What pruning promises

  /** No array, at any depth, holds an experimental method variant. */
  ghost predicate Free(v: Value, methods: set<string>) {
    match v
    case Arr(items) => forall i | 0 <= i < |items| :: !IsExperimental(items[i], methods) && Free(items[i], methods)
    case Obj(es) => forall i | 0 <= i < |es| :: Free(es[i].val, methods)
    case _ => true
  }

  /** The object is one variant for the method: a constant, or the only choice of an enum without a constant. */
  ghost predicate NamesMethod(v: Value, m: string) {
    exists ps, schema ::
      && Member(v, "properties") == Some(Obj(ps)) && Get(ps, "method") == Some(Obj(schema))
      && (Get(schema, "const") == Some(Str(m))
          || ((forall t :: Get(schema, "const") != Some(Str(t))) && Get(schema, "enum") == Some(Arr([Str(m)]))))
  }

  ghost predicate NamesOneOf(v: Value, methods: set<string>) {
    exists m :: m in methods && NamesMethod(v, m)
  }

  lemma OnlyChoiceIs(choices: Option<Value>, m: string)
    ensures choices == Some(Arr([Str(m)])) <==>
      choices.Some? && choices.value.Arr? && |choices.value.items| == 1 && choices.value.items[0] == Str(m)
  {
    if choices.Some? && choices.value.Arr? && |choices.value.items| == 1 {
      assert choices.value.items == [choices.value.items[0]];
    }
  }

  lemma MethodNamed(v: Value, ps: seq<Entry>, schema: seq<Entry>, methods: set<string>) returns (m: string)
    requires Member(v, "properties") == Some(Obj(ps)) && Get(ps, "method") == Some(Obj(schema))
    requires NamesExperimental(Obj(schema), methods)
    ensures m in methods && NamesMethod(v, m)
  {
    var fixed := AsStr(Get(schema, "const"));
    m := if fixed.Some? then fixed.value else Get(schema, "enum").value.items[0].s;
    OnlyChoiceIs(Get(schema, "enum"), m);
  }

  lemma {:induction false} ExperimentalExactly(v: Value, methods: set<string>)
    ensures IsExperimental(v, methods) <==> NamesOneOf(v, methods)
  {
    if IsExperimental(v, methods) {
      var ps := Member(v, "properties").value.entries;
      var m := MethodNamed(v, ps, MethodSchema(v).value.entries, methods);
    }
    if NamesOneOf(v, methods) {
      var m :| m in methods && NamesMethod(v, m);
      OnlyChoiceIs(Member(MethodSchema(v).value, "enum"), m);
      var fixed := AsStr(Member(MethodSchema(v).value, "const"));
      assert fixed.Some? ==> Member(MethodSchema(v).value, "const") == Some(Str(fixed.value));
    }
  }

  /**
   w is v with exactly the experimental variants deleted from its arrays: kept lists, in order, the positions of
   the elements that stay.
   */
  ghost predicate DeletesExactly(v: Value, w: Value, methods: set<string>) {
    match v
    case Arr(items) =>
      w.Arr? &&
      exists kept: seq<nat> ::
        && Increasing(kept) && |kept| == |w.items|
        && (forall i: nat | i < |items| :: i in kept <==> !NamesOneOf(items[i], methods))
        && forall k | 0 <= k < |kept| :: kept[k] < |items| && DeletesExactly(items[kept[k]], w.items[k], methods)
    case Obj(es) =>
      w.Obj? && |w.entries| == |es| &&
      forall i | 0 <= i < |es| :: w.entries[i].key == es[i].key && DeletesExactly(es[i].val, w.entries[i].val, methods)
    case _ => w == v
  }

  /** The surviving positions from k on. */
  function KeptFrom(items: seq<Value>, k: nat, methods: set<string>): (r: seq<nat>)
    requires k <= |items|
    ensures forall i | 0 <= i < |r| :: k <= r[i] < |items|
    ensures Increasing(r)
    ensures forall i: nat | k <= i < |items| :: i in r <==> !IsExperimental(items[i], methods)
    decreases |items| - k
  {
    if k == |items| then []
    else (if IsExperimental(items[k], methods) then [] else [k]) + KeptFrom(items, k + 1, methods)
  }

  lemma {:induction false} PrunedItemsAt(items: seq<Value>, k: nat, methods: set<string>)
    requires k <= |items|
    ensures var kept, ps := KeptFrom(items, k, methods), PrunedItems(items[k..], methods);
            |kept| == |ps| && forall j | 0 <= j < |kept| :: ps[j] == Pruned(items[kept[j]], methods)
    decreases |items| - k
  {
    if k < |items| {
      assert items[k..][1..] == items[k + 1..];
      PrunedItemsAt(items, k + 1, methods);
    }
  }

  lemma ArrayDeletesExactly(items: seq<Value>, ws: seq<Value>, kept: seq<nat>, methods: set<string>)
    requires Increasing(kept) && |kept| == |ws|
    requires forall i: nat | i < |items| :: i in kept <==> !IsExperimental(items[i], methods)
    requires forall k | 0 <= k < |kept| :: kept[k] < |items| && DeletesExactly(items[kept[k]], ws[k], methods)
    ensures DeletesExactly(Arr(items), Arr(ws), methods)
  {
    forall i: nat | i < |items| ensures i in kept <==> !NamesOneOf(items[i], methods) {
      ExperimentalExactly(items[i], methods);
    }
  }

  /** Pruning deletes exactly the experimental variants: the rest keeps its order and everything else is unchanged. */
  lemma {:induction false} PruningDeletesExactly(v: Value, methods: set<string>)
    ensures DeletesExactly(v, Pruned(v, methods), methods)
    decreases v
  {
    match v
    case Arr(items) =>
      var kept := KeptFrom(items, 0, methods);
      PrunedItemsAt(items, 0, methods);
      assert items[0..] == items;
      var ws := PrunedItems(items, methods);
      forall k | 0 <= k < |kept| ensures DeletesExactly(items[kept[k]], ws[k], methods) {
        PruningDeletesExactly(items[kept[k]], methods);
      }
      ArrayDeletesExactly(items, ws, kept, methods);
    case Obj(es) =>
      var w := Pruned(v, methods);
      forall i | 0 <= i < |es| ensures DeletesExactly(es[i].val, w.entries[i].val, methods) {
        PruningDeletesExactly(es[i].val, methods);
      }
    case _ =>
  }

  // A second pass

  lemma {:induction false} AllSurvive(items: seq<Value>, methods: set<string>)
    requires |Survivors(items, methods)| == |items|
    ensures forall i | 0 <= i < |items| :: !IsExperimental(items[i], methods)
  {
    if items != [] {
      assert |Survivors(items[1..], methods)| == |PrunedItems(items[1..], methods)|;
      AllSurvive(items[1..], methods);
      assert forall i | 1 <= i < |items| :: items[i] == items[1..][i - 1];
    }
  }

  lemma {:induction false} NothingToPrune(items: seq<Value>, methods: set<string>)
    requires forall i | 0 <= i < |items| :: !IsExperimental(items[i], methods)
    ensures |PrunedItems(items, methods)| == |items|
    ensures forall i | 0 <= i < |items| :: PrunedItems(items, methods)[i] == Pruned(items[i], methods)
  {
    if items != [] {
      NothingToPrune(items[1..], methods);
    }
  }

  /** A tree is unchanged by pruning exactly when it is free of experimental variants. */
  lemma {:induction false} FixedExactlyWhenFree(v: Value, methods: set<string>)
    ensures Pruned(v, methods) == v <==> Free(v, methods)
    decreases v
  {
    match v
    case Arr(items) =>
      if Pruned(v, methods) == v {
        AllSurvive(items, methods);
      }
      if forall i | 0 <= i < |items| :: !IsExperimental(items[i], methods) {
        NothingToPrune(items, methods);
        forall i | 0 <= i < |items| ensures Pruned(items[i], methods) == items[i] <==> Free(items[i], methods) {
          FixedExactlyWhenFree(items[i], methods);
        }
        if Free(v, methods) {
          assert PrunedItems(items, methods) == items;
        }
      }
    case Obj(es) =>
      var ps := Pruned(v, methods).entries;
      forall i | 0 <= i < |es| ensures ps[i] == es[i] <==> Free(es[i].val, methods) {
        FixedExactlyWhenFree(es[i].val, methods);
      }
      if Free(v, methods) {
        assert ps == es;
      }
    case _ =>
  }

  // The exact condition for one pass to be enough

  /** Not experimental yet, but pruning its method's enum leaves one experimental method name. */
  predicate Latent(v: Value, methods: set<string>) {
    MethodSchema(v).Some? && LatentSchema(MethodSchema(v).value, methods)
  }

  predicate LatentSchema(schema: Value, methods: set<string>) {
    var choices := EnumItems(schema);
    && AsStr(Member(schema, "const")).None?
    && choices.Some? && |choices.value| > 1
    && OnlyChoice(Some(Survivors(choices.value, methods)), methods)
  }

  /** No array element that stays is latent. */
  ghost predicate Clean(v: Value, methods: set<string>) {
    match v
    case Arr(items) =>
      forall i | 0 <= i < |items| && !IsExperimental(items[i], methods) ::
        !Latent(items[i], methods) && Clean(items[i], methods)
    case Obj(es) => forall i | 0 <= i < |es| :: Clean(es[i].val, methods)
    case _ => true
  }

  lemma PrunedMember(v: Value, methods: set<string>, key: string)
    ensures Member(v, key).Some? <==> Member(Pruned(v, methods), key).Some?
    ensures Member(v, key).Some? ==> Member(Pruned(v, methods), key).value == Pruned(Member(v, key).value, methods)
  {
    if v.Obj? {
      FindSameKeys(v.entries, Pruned(v, methods).entries, key);
    }
  }

  lemma PrunedMethodSchema(v: Value, methods: set<string>)
    ensures MethodSchema(v).Some? <==> MethodSchema(Pruned(v, methods)).Some?
    ensures MethodSchema(v).Some? ==> MethodSchema(Pruned(v, methods)).value == Pruned(MethodSchema(v).value, methods)
  {
    PrunedMember(v, methods, "properties");
    if Member(v, "properties").Some? {
      PrunedMember(Member(v, "properties").value, methods, "method");
    }
  }

  function PruneWith(methods: set<string>): Value -> Value {
    v => Pruned(v, methods)
  }

  lemma {:induction false} SurvivorsArePruned(items: seq<Value>, methods: set<string>)
    ensures PrunedItems(items, methods) == Map(PruneWith(methods), Survivors(items, methods))
  {
    if items != [] {
      SurvivorsArePruned(items[1..], methods);
    }
  }

  lemma {:induction false} SurvivorsAre(items: seq<Value>, methods: set<string>, v: Value)
    ensures v in Survivors(items, methods) <==> v in items && !IsExperimental(v, methods)
  {
    if items != [] {
      SurvivorsAre(items[1..], methods, v);
      assert items == [items[0]] + items[1..];
    }
  }

  lemma PrunedChoices(items: seq<Value>, methods: set<string>)
    ensures OnlyChoice(Some(PrunedItems(items, methods)), methods)
       <==> OnlyChoice(Some(Survivors(items, methods)), methods)
  {
    SurvivorsArePruned(items, methods);
  }

  lemma SchemaBecomesExperimental(schema: Value, methods: set<string>)
    requires !NamesExperimental(schema, methods)
    ensures NamesExperimental(Pruned(schema, methods), methods) <==> LatentSchema(schema, methods)
  {
    PrunedMember(schema, methods, "const");
    PrunedMember(schema, methods, "enum");
    var choices := EnumItems(schema);
    if choices.Some? {
      PrunedChoices(choices.value, methods);
      if |choices.value| == 1 {
        assert Survivors(choices.value[1..], methods) == [];
      }
    }
  }

  lemma BecomesExperimental(v: Value, methods: set<string>)
    requires !IsExperimental(v, methods)
    ensures IsExperimental(Pruned(v, methods), methods) <==> Latent(v, methods)
  {
    PrunedMethodSchema(v, methods);
    if MethodSchema(v).Some? {
      SchemaBecomesExperimental(MethodSchema(v).value, methods);
    }
  }

  ghost predicate StaysClean(v: Value, methods: set<string>) {
    !Latent(v, methods) && Clean(v, methods)
  }

  ghost predicate FreeItem(v: Value, methods: set<string>) {
    !IsExperimental(v, methods) && Free(v, methods)
  }

  ghost predicate AllStayClean(items: seq<Value>, methods: set<string>) {
    forall k | 0 <= k < |items| :: StaysClean(items[k], methods)
  }

  lemma CleanSurvivors(items: seq<Value>, methods: set<string>)
    requires Clean(Arr(items), methods)
    ensures AllStayClean(Survivors(items, methods), methods)
  {
    var left := Survivors(items, methods);
    forall k | 0 <= k < |left| ensures StaysClean(left[k], methods) {
      SurvivorsAre(items, methods, left[k]);
      var i :| 0 <= i < |items| && items[i] == left[k];
    }
  }

  lemma {:induction false} SurvivorsClean(items: seq<Value>, methods: set<string>)
    requires AllStayClean(Survivors(items, methods), methods)
    ensures Clean(Arr(items), methods)
  {
    var left := Survivors(items, methods);
    forall i | 0 <= i < |items| && !IsExperimental(items[i], methods)
      ensures !Latent(items[i], methods) && Clean(items[i], methods)
    {
      SurvivorsAre(items, methods, items[i]);
      var k :| 0 <= k < |left| && left[k] == items[i];
      assert StaysClean(left[k], methods);
    }
  }

  /** One pass leaves no experimental variant exactly when no element that stays is latent. */
  lemma {:induction false} OnePassSuffices(v: Value, methods: set<string>)
    ensures Free(Pruned(v, methods), methods) <==> Clean(v, methods)
    decreases v
  {
    match v
    case Arr(items) =>
      var left, ps := Survivors(items, methods), PrunedItems(items, methods);
      SurvivorsArePruned(items, methods);
      if Clean(v, methods) { CleanSurvivors(items, methods); }
      if AllStayClean(left, methods) { SurvivorsClean(items, methods); }
      forall k | 0 <= k < |left| ensures FreeItem(ps[k], methods) <==> StaysClean(left[k], methods) {
        SurvivorsAre(items, methods, left[k]);
        BecomesExperimental(left[k], methods);
        OnePassSuffices(left[k], methods);
      }
      assert Free(Arr(ps), methods) <==> forall k | 0 <= k < |ps| :: FreeItem(ps[k], methods);
    case Obj(es) =>
      var w := Pruned(v, methods);
      forall i | 0 <= i < |es| ensures Free(w.entries[i].val, methods) <==> Clean(es[i].val, methods) {
        OnePassSuffices(es[i].val, methods);
      }
    case _ =>
  }

  /** A second pass changes nothing, under exactly the same condition. */
  lemma SecondPass(v: Value, methods: set<string>)
    ensures Pruned(Pruned(v, methods), methods) == Pruned(v, methods) <==> Clean(v, methods)
  {
    FixedExactlyWhenFree(Pruned(v, methods), methods);
    OnePassSuffices(v, methods);
  }

  /** The condition holds for trees whose enum arrays hold no objects, as generated schemas do. */
  ghost predicate EnumsHoldNoObjects(v: Value) {
    match v
    case Arr(items) => forall i | 0 <= i < |items| :: EnumsHoldNoObjects(items[i])
    case Obj(es) =>
      forall i | 0 <= i < |es| ::
        && EnumsHoldNoObjects(es[i].val)
        && (es[i].key == "enum" && es[i].val.Arr? ==> forall j | 0 <= j < |es[i].val.items| :: !es[i].val.items[j].Obj?)
    case _ => true
  }

  lemma {:induction false} AllStay(items: seq<Value>, methods: set<string>)
    requires forall j | 0 <= j < |items| :: !items[j].Obj?
    ensures |Survivors(items, methods)| == |items|
  {
    if items != [] {
      AllStay(items[1..], methods);
    }
  }

  lemma NotLatent(v: Value, methods: set<string>)
    requires EnumsHoldNoObjects(v)
    ensures !Latent(v, methods)
  {
    var schema := MethodSchema(v);
    if schema.Some? && EnumItems(schema.value).Some? {
      var props := Member(v, "properties").value;
      assert EnumsHoldNoObjects(props) && EnumsHoldNoObjects(schema.value);
      AllStay(EnumItems(schema.value).value, methods);
    }
  }

  lemma {:induction false} PlainEnumsAreClean(v: Value, methods: set<string>)
    requires EnumsHoldNoObjects(v)
    ensures Clean(v, methods)
    decreases v
  {
    match v
    case Arr(items) =>
      forall i | 0 <= i < |items| ensures !Latent(items[i], methods) && Clean(items[i], methods) {
        NotLatent(items[i], methods);
        PlainEnumsAreClean(items[i], methods);
      }
    case Obj(es) =>
      forall i | 0 <= i < |es| ensures Clean(es[i].val, methods) {
        PlainEnumsAreClean(es[i].val, methods);
      }
    case _ =>
  }

  function Variant(methodSchema: seq<Entry>): Value {
    Obj([Entry("properties", Obj([Entry("method", Obj(methodSchema))]))])
  }

  /** One pass is not always enough: here it makes a variant experimental that was not. */
  lemma OnePassMayLeaveOne()
    ensures var methods := {"m"};
            var inner := Variant([Entry("const", Str("m"))]);
            var tree := Arr([Variant([Entry("enum", Arr([inner, Str("m")]))])]);
            !Free(Pruned(tree, methods), methods)
  {
    var methods := {"m"};
    var inner := Variant([Entry("const", Str("m"))]);
    var choices := [inner, Str("m")];
    var outer := Variant([Entry("enum", Arr(choices))]);
    assert IsExperimental(inner, methods);
    assert choices[1..] == [Str("m")] && choices[1..][1..] == [];
    assert Survivors(choices[1..], methods) == [Str("m")];
    assert Survivors(choices, methods) == [Str("m")];
    assert Latent(outer, methods) && !IsExperimental(outer, methods);
    OnePassSuffices(Arr([outer]), methods);
    assert [outer][0] == outer;
  }

  // The code itself

  method PruneExperimentalMethods(bundle: Value, experimental: seq<string>) returns (r: Value)
    ensures r == Pruned(bundle, set m | m in experimental && m != "")
  {
    r := PruneInner(bundle, set m | m in experimental && m != "");
  }

  lemma SurvivorsStep(left: seq<Value>, items: seq<Value>, i: nat, methods: set<string>)
    requires i < |items|
    ensures left + Survivors(items[i..], methods)
         == (if IsExperimental(items[i], methods) then left else left + [items[i]]) + Survivors(items[i + 1..], methods)
  {
    assert items[i..][1..] == items[i + 1..];
  }

  method Retain(items: seq<Value>, methods: set<string>) returns (left: seq<Value>)
    ensures left == Survivors(items, methods) && forall i | 0 <= i < |left| :: left[i] in items
  {
    left := [];
    ghost var all := Survivors(items, methods);
    assert items[0..] == items;
    for i := 0 to |items|
      invariant left + Survivors(items[i..], methods) == all
      invariant forall j | 0 <= j < |left| :: left[j] in items
    {
      SurvivorsStep(left, items, i, methods);
      if !IsExperimental(items[i], methods) {
        left := left + [items[i]];
      }
    }
  }

  method PruneInner(value: Value, methods: set<string>) returns (r: Value)
    ensures r == Pruned(value, methods)
    decreases value
  {
    match value
    case Arr(items) =>
      var left := Retain(items, methods);
      SurvivorsArePruned(items, methods);
      var done := [];
      for i := 0 to |left|
        invariant |done| == i && forall j | 0 <= j < i :: done[j] == Pruned(left[j], methods)
      {
        var item := PruneInner(left[i], methods);
        done := done + [item];
      }
      assert done == PrunedItems(items, methods);
      r := Arr(done);
    case Obj(es) =>
      var entries := [];
      for i := 0 to |es|
        invariant |entries| == i && forall j | 0 <= j < i :: entries[j] == Entry(es[j].key, Pruned(es[j].val, methods))
      {
        var child := PruneInner(es[i].val, methods);
        entries := entries + [Entry(es[i].key, child)];
      }
      assert entries == Pruned(value, methods).entries;
      r := Obj(entries);
    case _ => r := value;
  }
}
