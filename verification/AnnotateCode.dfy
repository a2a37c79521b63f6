/** annotate_schema as the code runs it: in-place updates in source order, each method equal to its specification. */
module AnnotateCode {
  import opened Seqs
  import opened Text
  import opened Json
  import opened Annotate

  lemma PutWellFormed(es: seq<Entry>, key: string, val: Value)
    requires WellFormed(Obj(es)) && WellFormed(val)
    ensures WellFormed(Obj(Put(es, key, val)))
  {
  }

  lemma TitleDiscriminatorWellFormed(e: Entry, owner: string)
    requires WellFormed(e.val)
    ensures WellFormed(TitleDiscriminator(e, owner).val)
  {
    if TitleDiscriminator(e, owner) != e {
      PutWellFormed(e.val.entries, "title", Str(owner + ToPascalCase(e.key)));
    }
  }

  lemma PutTitleWellFormed(es: seq<Entry>, title: string)
    requires WellFormed(Obj(es))
    ensures WellFormed(Obj(PutTitle(es, title)))
  {
    PutWellFormed(es, "title", Str(title));
  }

  lemma {:induction false} TitledVariantWellFormed(variant: Value, seen: set<string>, base: Option<string>)
    requires WellFormed(variant)
    ensures WellFormed(TitledVariant(variant, seen, base))
  {
    var title := NewTitle(variant, seen, base);
    if variant.Obj? {
      var es := if title.Some? then PutTitle(variant.entries, title.value) else variant.entries;
      if title.Some? {
        PutTitleWellFormed(variant.entries, title.value);
      }
      TitleObjectWellFormed(es, if title.Some? then title else VariantTitle(variant));
    }
  }

  lemma {:induction false} TitleObjectWellFormed(es: seq<Entry>, owner: Option<string>)
    requires WellFormed(Obj(es))
    ensures WellFormed(Obj(TitleObject(es, owner)))
  {
    var ts := TitleObject(es, owner);
    forall i | 0 <= i < |ts| ensures WellFormed(ts[i].val) {
      if owner.Some? && es[i].val.Obj? {
        var props := es[i].val.entries;
        forall j | 0 <= j < |props| ensures WellFormed(TitleDiscriminator(props[j], owner.value).val) {
          TitleDiscriminatorWellFormed(props[j], owner.value);
        }
      }
    }
  }

  /** The entries whose keys are among the given ones have their discriminators titled. */
  ghost predicate TitledSoFar(props: seq<Entry>, r: seq<Entry>, keys: seq<string>, owner: string) {
    |r| == |props| && forall i | 0 <= i < |r| ::
      r[i] == if props[i].key in keys then TitleDiscriminator(props[i], owner) else props[i]
  }

  lemma {:induction false} TitleOneMore(
    props: seq<Entry>, r: seq<Entry>, keys: seq<string>, key: string, owner: string, r': seq<Entry>)
    requires Distinct(props) && TitledSoFar(props, r, keys, owner) && key in DISCRIMINATOR_KEYS && |r'| == |r|
    requires forall i | 0 <= i < |r| :: r'[i] == if r[i].key == key then TitleDiscriminator(r[i], owner) else r[i]
    ensures TitledSoFar(props, r', keys + [key], owner)
  {
    forall i | 0 <= i < |r| && props[i].key == key ensures r'[i] == TitleDiscriminator(props[i], owner) {
      var t := TitleDiscriminator(props[i], owner);
      if t != props[i] {
        GetPut(props[i].val.entries, "title", Str(owner + ToPascalCase(key)), "title");
        assert TitleDiscriminator(t, owner) == t;
      }
    }
  }

  method SetDiscriminatorTitles(props: seq<Entry>, owner: string) returns (r: seq<Entry>)
    requires Distinct(props)
    ensures r == TitleDiscriminators(props, owner)
  {
    r := props;
    for k := 0 to |DISCRIMINATOR_KEYS|
      invariant TitledSoFar(props, r, DISCRIMINATOR_KEYS[..k], owner)
    {
      var key := DISCRIMINATOR_KEYS[k];
      ghost var before := r;
      var i := Find(r, key);
      FindSameKeys(r, props, key);
      if i < |r| && StringLiteral(r[i].val).Some? && !Has(r[i].val.entries, "title") {
        r := r[i := Entry(key, Obj(Put(r[i].val.entries, "title", Str(owner + ToPascalCase(key)))))];
      }
      TitleOneMore(props, before, DISCRIMINATOR_KEYS[..k], key, owner, r);
      assert DISCRIMINATOR_KEYS[..k] + [key] == DISCRIMINATOR_KEYS[..k + 1];
    }
    assert DISCRIMINATOR_KEYS[..|DISCRIMINATOR_KEYS|] == DISCRIMINATOR_KEYS;
  }

  /** Titles the discriminators under "properties", when that is an object. */
  method SetPropertyTitles(es: seq<Entry>, owner: string) returns (r: seq<Entry>)
    requires WellFormed(Obj(es))
    ensures r == TitleObject(es, Some(owner))
  {
    r := es;
    var i := Find(es, "properties");
    if i < |es| && es[i].val.Obj? {
      var props := SetDiscriminatorTitles(es[i].val.entries, owner);
      r := es[i := Entry("properties", Obj(props))];
    }
  }

  method PickTitle(name: string, seen: set<string>) returns (candidate: string)
    ensures candidate == FreshName(name, seen)
  {
    candidate := name;
    var index := 2;
    ghost var untried := seen;
    while candidate in seen
      invariant 2 <= index && candidate == Candidate(name, index - 1) && Untried(name, index - 1, seen, untried)
      invariant FirstFree(name, index - 1, seen, untried) == FreshName(name, seen)
      decreases untried
    {
      UntriedStep(name, index - 1, seen, untried);
      untried := untried - {candidate};
      candidate := name + Decimal(index);
      index := index + 1;
    }
  }

  method CollectTitles(variants: seq<Value>) returns (seen: set<string>)
    ensures seen == Titles(variants)
  {
    seen := {};
    for i := 0 to |variants|
      invariant seen == Titles(variants[..i])
    {
      var title := VariantTitle(variants[i]);
      if title.Some? {
        seen := seen + {title.value};
      }
      TitlesAppend(variants, i);
    }
    assert variants[..|variants|] == variants;
  }

  /** Gives a variant its title, if it can be named, and titles its discriminators. */
  method TitleVariant(variant: Value, seen: set<string>, base: Option<string>)
    returns (titled: Value, seen': set<string>)
    requires WellFormed(variant)
    ensures titled == TitledVariant(variant, seen, base) && seen' == SeenAfter(variant, seen, base)
  {
    titled, seen' := variant, seen;
    var title := VariantTitle(variant);
    if title.None? && base.Some? {
      var name := VariantDefinitionName(base.value, variant);
      if name.Some? {
        var candidate := PickTitle(name.value, seen);
        titled := Obj(PutTitle(variant.entries, candidate));
        PutTitleWellFormed(variant.entries, candidate);
        seen' := seen + {candidate};
        title := Some(candidate);
      }
    }
    if title.Some? {
      var es := SetPropertyTitles(titled.entries, title.value);
      titled := Obj(es);
    } else if variant.Obj? {
      assert TitleObject(variant.entries, None) == variant.entries;
    }
  }

  method AnnotateVariantList(variants: seq<Value>, base: Option<string>) returns (r: seq<Value>)
    requires forall i | 0 <= i < |variants| :: WellFormed(variants[i])
    ensures r == AnnotatedVariants(variants, Titles(variants), base)
    decreases 1 + ItemsDepth(variants), 1
  {
    var seen := CollectTitles(variants);
    ghost var all := AnnotatedVariants(variants, seen, base);
    r := [];
    assert variants[0..] == variants;
    for i := 0 to |variants|
      invariant r + AnnotatedVariants(variants[i..], seen, base) == all
    {
      VariantsUnfold(variants, i, seen, base);
      TitledVariantWellFormed(variants[i], seen, base);
      assert Depth(variants[i]) <= ItemsDepth(variants);
      var variant, seen' := TitleVariant(variants[i], seen, base);
      var annotated := AnnotateSchema(variant, base);
      Regroup(r, annotated, AnnotatedVariants(variants[i + 1..], seen', base));
      r, seen := r + [annotated], seen';
    }
  }

  lemma Regroup<T>(a: seq<T>, x: T, b: seq<T>)
    ensures a + ([x] + b) == (a + [x]) + b
  {
  }

  lemma TitlesAppend(variants: seq<Value>, i: nat)
    requires i < |variants|
    ensures var title := VariantTitle(variants[i]);
      Titles(variants[..i + 1]) == Titles(variants[..i]) + (if title.Some? then {title.value} else {})
  {
    var vs, ws := variants[..i], variants[..i + 1];
    assert forall k | 0 <= k < i :: ws[k] == vs[k];
    assert ws[i] == variants[i];
  }

  lemma VariantsUnfold(variants: seq<Value>, i: nat, seen: set<string>, base: Option<string>)
    requires i < |variants|
    ensures AnnotatedVariants(variants[i..], seen, base)
         == [Annotated(TitledVariant(variants[i], seen, base), base)]
            + AnnotatedVariants(variants[i + 1..], SeenAfter(variants[i], seen, base), base)
  {
    assert variants[i..][1..] == variants[i + 1..];
  }

  method AnnotateSchema(value: Value, base: Option<string>) returns (r: Value)
    requires WellFormed(value)
    ensures r == Annotated(value, base)
    decreases Depth(value), 2
  {
    match value
    case Obj(es) =>
      var entries := AnnotateObject(es, base);
      r := Obj(entries);
    case Arr(items) =>
      var done := [];
      for i := 0 to |items|
        invariant |done| == i && forall j | 0 <= j < i :: done[j] == Annotated(items[j], base)
      {
        var item := AnnotateSchema(items[i], base);
        done := done + [item];
      }
      r := Arr(done);
      assert r == Annotated(value, base);
    case _ => r := value;
  }

  /** Annotates every entry: under its own name when named, else under the base. */
  method AnnotateEntries(es: seq<Entry>, named: bool, base: Option<string>) returns (r: seq<Entry>)
    requires forall i | 0 <= i < |es| :: WellFormed(es[i].val)
    ensures |r| == |es|
    ensures forall i | 0 <= i < |es| ::
      r[i] == Entry(es[i].key, Annotated(es[i].val, if named then Some(es[i].key) else base))
    decreases 1 + EntriesDepth(es), 0
  {
    r := [];
    for i := 0 to |es|
      invariant |r| == i
      invariant forall j | 0 <= j < i ::
        r[j] == Entry(es[j].key, Annotated(es[j].val, if named then Some(es[j].key) else base))
    {
      assert Depth(es[i].val) <= EntriesDepth(es);
      var v := AnnotateSchema(es[i].val, if named then Some(es[i].key) else base);
      r := r + [Entry(es[i].key, v)];
    }
  }

  /** The value under one of the keys that annotate_object treats itself, updated as that key asks for. */
  method AnnotateChild(key: string, val: Value, base: Option<string>) returns (r: Value)
    requires WellFormed(val)
    ensures r == AnnotatedChild(key, val, base)
    decreases Depth(val), 3
  {
    r := val;
    if key == "oneOf" || key == "anyOf" {
      if val.Arr? {
        var variants := AnnotateVariantList(val.items, base);
        r := Arr(variants);
      }
    } else if key == "definitions" || key == "$defs" {
      if val.Obj? {
        var defs := AnnotateEntries(val.entries, true, base);
        r := Obj(defs);
        assert r == AnnotatedChild(key, val, base);
      }
    } else if key == "properties" {
      if val.Obj? {
        var props := AnnotateEntries(val.entries, false, base);
        r := Obj(props);
        assert r == AnnotatedChild(key, val, base);
      }
    } else {
      r := AnnotateSchema(val, base);
    }
  }

  const OWN_KEYS := ["oneOf", "anyOf", "definitions", "$defs", "properties", "items", "additionalProperties"]

  /** Entries whose keys are done are annotated; the others are still as they were titled. */
  ghost predicate Progress(titled: seq<Entry>, es: seq<Entry>, done: seq<string>, base: Option<string>) {
    |es| == |titled| && forall i | 0 <= i < |es| ::
      es[i] == if titled[i].key in done
               then Entry(titled[i].key, AnnotatedChild(titled[i].key, titled[i].val, base))
               else titled[i]
  }

  lemma OwnKeysDistinct(k: nat)
    requires k < |OWN_KEYS|
    ensures OWN_KEYS[k] !in OWN_KEYS[..k]
  {
    forall i | 0 <= i < k ensures OWN_KEYS[i] != OWN_KEYS[k] {
      assert OWN_KEYS[i][0] != OWN_KEYS[k][0] || |OWN_KEYS[i]| != |OWN_KEYS[k]|;
    }
  }

  lemma OneMoreKey(titled: seq<Entry>, es: seq<Entry>, k: nat, base: Option<string>, es': seq<Entry>)
    requires Distinct(titled) && k < |OWN_KEYS| && Progress(titled, es, OWN_KEYS[..k], base) && |es'| == |es|
    requires forall i | 0 <= i < |es| ::
      es'[i] == if titled[i].key == OWN_KEYS[k]
                then Entry(titled[i].key, AnnotatedChild(titled[i].key, titled[i].val, base))
                else es[i]
    ensures Progress(titled, es', OWN_KEYS[..k + 1], base)
  {
    assert OWN_KEYS[..k + 1] == OWN_KEYS[..k] + [OWN_KEYS[k]];
  }

  /** The keys that annotate_object treats one after the other. */
  method AnnotateOwnKeys(titled: seq<Entry>, ghost entries: seq<Entry>, base: Option<string>) returns (es: seq<Entry>)
    requires WellFormed(Obj(titled)) && EntriesDepth(titled) <= EntriesDepth(entries)
    ensures Progress(titled, es, OWN_KEYS, base)
    decreases 1 + EntriesDepth(entries), 0
  {
    es := titled;
    for k := 0 to |OWN_KEYS|
      invariant Progress(titled, es, OWN_KEYS[..k], base)
    {
      var key := OWN_KEYS[k];
      var i := Find(es, key);
      ghost var before := es;
      FindSameKeys(es, titled, key);
      if i < |es| {
        OwnKeysDistinct(k);
        assert es[i] == titled[i] && Depth(es[i].val) <= EntriesDepth(entries);
        var child := AnnotateChild(key, es[i].val, base);
        es := es[i := Entry(key, child)];
      }
      OneMoreKey(titled, before, k, base, es);
    }
    assert OWN_KEYS[..|OWN_KEYS|] == OWN_KEYS;
  }

  method AnnotateObject(entries: seq<Entry>, base: Option<string>) returns (es: seq<Entry>)
    requires WellFormed(Obj(entries))
    ensures Obj(es) == Annotated(Obj(entries), base)
    decreases 1 + EntriesDepth(entries), 1
  {
    var owner := AsStr(Get(entries, "title"));
    var titled := entries;
    if owner.Some? {
      titled := SetPropertyTitles(entries, owner.value);
    }
    assert titled == TitleObject(entries, owner);
    TitleObjectWellFormed(entries, owner);
    es := AnnotateOwnKeys(titled, entries, base);
    es := AnnotateRest(es, titled, entries, base);
    assert es == Annotated(Obj(entries), base).entries;
  }

  /** Entries in front of i, and those under the seven keys, are annotated; the others are still as they were titled. */
  ghost predicate RestProgress(titled: seq<Entry>, es: seq<Entry>, i: nat, base: Option<string>) {
    |es| == |titled| && forall j | 0 <= j < |es| ::
      es[j] == if j < i || titled[j].key in OWN_KEYS
               then Entry(titled[j].key, AnnotatedChild(titled[j].key, titled[j].val, base))
               else titled[j]
  }

  lemma OtherKey(key: string, val: Value, base: Option<string>)
    requires key !in OWN_KEYS
    ensures AnnotatedChild(key, val, base) == Annotated(val, base)
  {
    assert forall k | 0 <= k < |OWN_KEYS| :: key != OWN_KEYS[k];
    assert OWN_KEYS[0] == "oneOf" && OWN_KEYS[1] == "anyOf" && OWN_KEYS[2] == "definitions" && OWN_KEYS[3] == "$defs"
        && OWN_KEYS[4] == "properties";
  }

  /** The closing loop of annotate_object, over the keys not treated before. */
  method AnnotateRest(start: seq<Entry>, ghost titled: seq<Entry>, ghost entries: seq<Entry>, base: Option<string>)
    returns (es: seq<Entry>)
    requires Progress(titled, start, OWN_KEYS, base) && WellFormed(Obj(titled))
    requires EntriesDepth(titled) <= EntriesDepth(entries)
    ensures |es| == |titled| && forall i | 0 <= i < |es| ::
      es[i] == Entry(titled[i].key, AnnotatedChild(titled[i].key, titled[i].val, base))
    decreases 1 + EntriesDepth(entries), 0
  {
    es := start;
    for i := 0 to |es|
      invariant |es| == |titled| && RestProgress(titled, es, i, base)
    {
      if es[i].key !in OWN_KEYS {
        OtherKey(es[i].key, es[i].val, base);
        assert Depth(es[i].val) <= EntriesDepth(entries);
        var child := AnnotateSchema(es[i].val, base);
        es := es[i := Entry(es[i].key, child)];
      }
    }
  }
}
