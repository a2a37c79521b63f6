/**
 Title annotation of JSON schemas: what annotate_schema computes, and the proof that a second annotation with the
 same base changes nothing.
 */
module Annotate {
  import opened Seqs
  import opened Text
  import opened Json

  // Names

  function Uppercase(c: char): char {
    if 'a' <= c <= 'z' then 'A' + (c - 'a') else c
  }

  function Pascal(input: string, capitalizeNext: bool): string {
    if input == "" then ""
    else if input[0] == '_' || input[0] == '-' then Pascal(input[1..], true)
    else [if capitalizeNext then Uppercase(input[0]) else input[0]] + Pascal(input[1..], false)
  }

  function ToPascalCase(input: string): string {
    Pascal(input, true)
  }

  function FirstChoice(choices: Option<Value>): Option<string> {
    if choices.Some? && choices.value.Arr? && choices.value.items != []
    then AsStr(Some(choices.value.items[0]))
    else None
  }

  function StringLiteral(v: Value): Option<string> {
    var fixed := AsStr(Member(v, "const"));
    if fixed.Some? then fixed else FirstChoice(Member(v, "enum"))
  }

  function LiteralFromProperty(props: seq<Entry>, key: string): Option<string> {
    var v := Get(props, key);
    if v.Some? then StringLiteral(v.value) else None
  }

  function NameFromProperties(base: string, props: seq<Entry>): Option<string> {
    var methodLiteral := LiteralFromProperty(props, "method");
    var typeLiteral := LiteralFromProperty(props, "type");
    if methodLiteral.Some? then
      var pascal := ToPascalCase(methodLiteral.value);
      if base == "ClientRequest" || base == "ServerRequest" then Some(pascal + "Request")
      else if base == "ClientNotification" || base == "ServerNotification" then Some(pascal + "Notification")
      else Some(pascal + base)
    else if typeLiteral.Some? then Some(ToPascalCase(typeLiteral.value) + base)
    else if |props| == 1 then Some(ToPascalCase(props[0].key) + base)
    else None
  }

  function NameFromPropertyMap(base: string, props: Option<Value>): Option<string> {
    if props.Some? && props.value.Obj? then NameFromProperties(base, props.value.entries) else None
  }

  function NameFromRequired(base: string, required: Option<Value>): Option<string> {
    if required.Some? && required.value.Arr? && |required.value.items| == 1 && required.value.items[0].Str?
    then Some(ToPascalCase(required.value.items[0].s) + base)
    else None
  }

  function VariantDefinitionName(base: string, variant: Value): Option<string> {
    var fromProperties := NameFromPropertyMap(base, Member(variant, "properties"));
    if fromProperties.Some? then fromProperties else NameFromRequired(base, Member(variant, "required"))
  }

  function VariantTitle(v: Value): Option<string> {
    AsStr(Member(v, "title"))
  }

  // The candidates name, name2, name3, ... and the first that is not taken

  function Candidate(name: string, k: nat): string {
    if k < 2 then name else name + Decimal(k)
  }

  lemma CandidateInjective(name: string, j: nat, k: nat)
    requires 1 <= j && 1 <= k && Candidate(name, j) == Candidate(name, k)
    ensures j == k
  {
    if j >= 2 && k >= 2 {
      CancelPrefix(name, Decimal(j), Decimal(k));
      DecimalInjective(j, k);
    }
  }

  /** Every candidate from k on that is taken is still among the untried ones. */
  ghost predicate Untried(name: string, k: nat, seen: set<string>, untried: set<string>) {
    untried <= seen && forall j: nat | k <= j && Candidate(name, j) in seen :: Candidate(name, j) in untried
  }

  lemma UntriedStep(name: string, k: nat, seen: set<string>, untried: set<string>)
    requires 1 <= k && Untried(name, k, seen, untried)
    ensures Untried(name, k + 1, seen, untried - {Candidate(name, k)})
  {
    forall j: nat | k + 1 <= j && Candidate(name, j) in seen ensures Candidate(name, j) != Candidate(name, k) {
      if Candidate(name, j) == Candidate(name, k) {
        CandidateInjective(name, j, k);
      }
    }
  }

  function FirstFree(name: string, k: nat, seen: set<string>, ghost untried: set<string>): (r: string)
    requires 1 <= k && Untried(name, k, seen, untried)
    ensures r !in seen
    decreases untried
  {
    if Candidate(name, k) in seen then
      UntriedStep(name, k, seen, untried);
      FirstFree(name, k + 1, seen, untried - {Candidate(name, k)})
    else Candidate(name, k)
  }

  function FreshName(name: string, seen: set<string>): (r: string)
    ensures r !in seen
  {
    FirstFree(name, 1, seen, seen)
  }

  // Nesting depth, the termination measure: adding a title does not deepen a tree

  function Depth(v: Value): nat {
    match v
    case Arr(items) => 1 + ItemsDepth(items)
    case Obj(es) => 1 + EntriesDepth(es)
    case _ => 0
  }

  function ItemsDepth(items: seq<Value>): (d: nat)
    ensures forall i | 0 <= i < |items| :: Depth(items[i]) <= d
  {
    if items == [] then 0
    else
      var d := ItemsDepth(items[1..]);
      assert forall i | 1 <= i < |items| :: items[i] == items[1..][i - 1];
      if d < Depth(items[0]) then Depth(items[0]) else d
  }

  function EntriesDepth(es: seq<Entry>): (d: nat)
    ensures forall i | 0 <= i < |es| :: Depth(es[i].val) <= d
  {
    if es == [] then 0
    else
      var d := EntriesDepth(es[1..]);
      assert forall i | 1 <= i < |es| :: es[i] == es[1..][i - 1];
      if d < Depth(es[0].val) then Depth(es[0].val) else d
  }

  lemma {:induction false} EntriesDepthBound(es: seq<Entry>, d: nat)
    requires forall i | 0 <= i < |es| :: Depth(es[i].val) <= d
    ensures EntriesDepth(es) <= d
  {
    if es != [] {
      EntriesDepthBound(es[1..], d);
    }
  }

  function PutTitle(es: seq<Entry>, title: string): (r: seq<Entry>)
    ensures EntriesDepth(r) <= EntriesDepth(es)
  {
    var r := Put(es, "title", Str(title));
    EntriesDepthBound(r, EntriesDepth(es));
    r
  }

  // Discriminator titles

  const DISCRIMINATOR_KEYS := ["type", "method", "mode", "status", "role", "reason"]

  function TitleDiscriminator(e: Entry, owner: string): (r: Entry)
    ensures r.key == e.key && Depth(r.val) <= Depth(e.val)
  {
    if e.key in DISCRIMINATOR_KEYS && StringLiteral(e.val).Some? && !Has(e.val.entries, "title")
    then Entry(e.key, Obj(PutTitle(e.val.entries, owner + ToPascalCase(e.key))))
    else e
  }

  function TitleDiscriminators(props: seq<Entry>, owner: string): (r: seq<Entry>)
    ensures |r| == |props| && forall i | 0 <= i < |r| :: r[i] == TitleDiscriminator(props[i], owner)
    ensures EntriesDepth(r) <= EntriesDepth(props)
  {
    var r := seq(|props|, i requires 0 <= i < |props| => TitleDiscriminator(props[i], owner));
    EntriesDepthBound(r, EntriesDepth(props));
    r
  }

  /** Titles the discriminators of one entry of an object when it is the object's property map. */
  function TitleProperties(e: Entry, owner: Option<string>): (r: Entry)
    ensures r.key == e.key && Depth(r.val) <= Depth(e.val)
  {
    if owner.Some? && e.key == "properties" && e.val.Obj?
    then Entry(e.key, Obj(TitleDiscriminators(e.val.entries, owner.value)))
    else e
  }

  function TitleObject(es: seq<Entry>, owner: Option<string>): (r: seq<Entry>)
    ensures |r| == |es| && forall i | 0 <= i < |r| :: r[i] == TitleProperties(es[i], owner)
    ensures EntriesDepth(r) <= EntriesDepth(es)
  {
    var r := seq(|es|, i requires 0 <= i < |es| => TitleProperties(es[i], owner));
    EntriesDepthBound(r, EntriesDepth(es));
    r
  }

  // Annotation

  function Annotated(v: Value, base: Option<string>): Value
    decreases Depth(v), 2, 0
  {
    match v
    case Arr(items) => Arr(seq(|items|, i requires 0 <= i < |items| => Annotated(items[i], base)))
    case Obj(es) =>
      var titled := TitleObject(es, AsStr(Get(es, "title")));
      Obj(seq(|es|, i requires 0 <= i < |es| =>
        Entry(es[i].key, AnnotatedChild(titled[i].key, titled[i].val, base))))
    case _ => v
  }

  /** What annotating an object does to the value under one of its keys. */
  function AnnotatedChild(key: string, val: Value, base: Option<string>): Value
    decreases Depth(val), 3, 0
  {
    if key == "oneOf" || key == "anyOf" then
      if val.Arr? then Arr(AnnotatedVariants(val.items, Titles(val.items), base)) else val
    else if key == "definitions" || key == "$defs" then
      if val.Obj? then
        Obj(seq(|val.entries|, i requires 0 <= i < |val.entries| =>
          Entry(val.entries[i].key, Annotated(val.entries[i].val, Some(val.entries[i].key)))))
      else val
    else if key == "properties" then
      if val.Obj? then
        Obj(seq(|val.entries|, i requires 0 <= i < |val.entries| =>
          Entry(val.entries[i].key, Annotated(val.entries[i].val, base))))
      else val
    else Annotated(val, base)
  }

  function Titles(variants: seq<Value>): set<string> {
    set i | 0 <= i < |variants| && VariantTitle(variants[i]).Some? :: VariantTitle(variants[i]).value
  }

  /** The title a variant without one is given. */
  function NewTitle(variant: Value, seen: set<string>, base: Option<string>): Option<string> {
    if VariantTitle(variant).None? && base.Some? && VariantDefinitionName(base.value, variant).Some?
    then Some(FreshName(VariantDefinitionName(base.value, variant).value, seen))
    else None
  }

  /** A variant after its own title and its discriminators' titles have been set. */
  function TitledVariant(variant: Value, seen: set<string>, base: Option<string>): (r: Value)
    ensures Depth(r) <= Depth(variant)
  {
    var title := NewTitle(variant, seen, base);
    if !variant.Obj? then variant
    else
      var es := if title.Some? then PutTitle(variant.entries, title.value) else variant.entries;
      Obj(TitleObject(es, if title.Some? then title else VariantTitle(variant)))
  }

  function AnnotatedVariants(variants: seq<Value>, seen: set<string>, base: Option<string>): (r: seq<Value>)
    ensures |r| == |variants|
    decreases 1 + ItemsDepth(variants), 1, |variants|
  {
    if variants == [] then []
    else
      var title := NewTitle(variants[0], seen, base);
      [Annotated(TitledVariant(variants[0], seen, base), base)]
      + AnnotatedVariants(variants[1..], if title.Some? then seen + {title.value} else seen, base)
  }

  function SeenAfter(variant: Value, seen: set<string>, base: Option<string>): set<string> {
    var title := NewTitle(variant, seen, base);
    if title.Some? then seen + {title.value} else seen
  }

  lemma VariantsUnfold(variants: seq<Value>, seen: set<string>, base: Option<string>)
    requires variants != []
    ensures AnnotatedVariants(variants, seen, base)
         == [Annotated(TitledVariant(variants[0], seen, base), base)]
            + AnnotatedVariants(variants[1..], SeenAfter(variants[0], seen, base), base)
  {
  }

  lemma FirstVariant(variants: seq<Value>, seen: set<string>, base: Option<string>)
    requires variants != []
    ensures AnnotatedVariants(variants, seen, base)[0] == Annotated(TitledVariant(variants[0], seen, base), base)
  {
  }

  lemma LaterVariant(variants: seq<Value>, seen: set<string>, base: Option<string>, i: nat)
    requires 0 < i < |variants|
    ensures AnnotatedVariants(variants, seen, base)[i]
         == AnnotatedVariants(variants[1..], SeenAfter(variants[0], seen, base), base)[i - 1]
  {
  }

  lemma {:induction false} VariantInTurn(variants: seq<Value>, seen: set<string>, base: Option<string>, n: nat)
    returns (before: set<string>)
    requires n < |variants|
    ensures AnnotatedVariants(variants, seen, base)[n] == Annotated(TitledVariant(variants[n], before, base), base)
    decreases n
  {
    if n == 0 {
      FirstVariant(variants, seen, base);
      before := seen;
    } else {
      var rest := variants[1..];
      assert rest[n - 1] == variants[n];
      before := VariantInTurn(rest, SeenAfter(variants[0], seen, base), base, n - 1);
      LaterVariant(variants, seen, base, n);
    }
  }

  // What annotation keeps

  /** Same kind of value; texts equal, arrays of one length, objects with the same keys in the same order. */
  ghost predicate SameKind(v: Value, w: Value) {
    match v
    case Arr(items) => w.Arr? && |w.items| == |items|
    case Obj(es) => w.Obj? && |w.entries| == |es| && forall i | 0 <= i < |es| :: w.entries[i].key == es[i].key
    case _ => w == v
  }

  lemma KindKept(v: Value, base: Option<string>)
    ensures SameKind(v, Annotated(v, base))
  {
  }

  lemma ChildKindKept(key: string, val: Value, base: Option<string>)
    ensures SameKind(val, AnnotatedChild(key, val, base))
  {
  }

  lemma MemberKept(v: Value, base: Option<string>, key: string)
    requires key != "properties"
    ensures Member(v, key).Some? <==> Member(Annotated(v, base), key).Some?
    ensures Member(v, key).Some? ==>
      Member(Annotated(v, base), key).value == AnnotatedChild(key, Member(v, key).value, base)
  {
    if v.Obj? {
      FindSameKeys(v.entries, Annotated(v, base).entries, key);
    }
  }

  lemma TextKept(v: Value, base: Option<string>, key: string)
    requires key != "properties"
    ensures AsStr(Member(Annotated(v, base), key)) == AsStr(Member(v, key))
  {
    MemberKept(v, base, key);
    if Member(v, key).Some? {
      ChildKindKept(key, Member(v, key).value, base);
    }
  }

  lemma TitleKept(v: Value, base: Option<string>)
    ensures VariantTitle(Annotated(v, base)) == VariantTitle(v)
  {
    TextKept(v, base, "title");
  }

  lemma FirstItemKept(val: Value, base: Option<string>)
    requires val.Arr? && val.items != []
    ensures var w := Annotated(val, base);
      w.Arr? && w.items != [] && AsStr(Some(w.items[0])) == AsStr(Some(val.items[0]))
  {
    KindKept(val.items[0], base);
  }

  lemma LiteralKept(v: Value, base: Option<string>)
    ensures StringLiteral(Annotated(v, base)) == StringLiteral(v)
  {
    TextKept(v, base, "const");
    MemberKept(v, base, "enum");
    var choices := Member(v, "enum");
    if choices.Some? {
      ChildKindKept("enum", choices.value, base);
      if choices.value.Arr? && choices.value.items != [] {
        FirstItemKept(choices.value, base);
      }
    }
  }

  lemma LiteralTitled(e: Entry, owner: string)
    ensures StringLiteral(TitleDiscriminator(e, owner).val) == StringLiteral(e.val)
  {
    if TitleDiscriminator(e, owner) != e {
      var title := Str(owner + ToPascalCase(e.key));
      GetPut(e.val.entries, "title", title, "const");
      GetPut(e.val.entries, "title", title, "enum");
    }
  }

  /** Same keys in the same order, with the same string literals under them. */
  ghost predicate SameLiterals(ps: seq<Entry>, qs: seq<Entry>) {
    |ps| == |qs| && forall i | 0 <= i < |ps| ::
      ps[i].key == qs[i].key && StringLiteral(ps[i].val) == StringLiteral(qs[i].val)
  }

  lemma PropertyMapAnnotated(ps: seq<Entry>, base: Option<string>)
    ensures var q := AnnotatedChild("properties", Obj(ps), base);
      && q.Obj? && |q.entries| == |ps|
      && forall j | 0 <= j < |ps| :: q.entries[j] == Entry(ps[j].key, Annotated(ps[j].val, base))
  {
  }

  lemma PropertyMapKept(e: Entry, owner: Option<string>, base: Option<string>)
    requires e.key == "properties" && e.val.Obj?
    ensures var q := AnnotatedChild(e.key, TitleProperties(e, owner).val, base);
            q.Obj? && SameLiterals(e.val.entries, q.entries)
  {
    var t := TitleProperties(e, owner).val;
    var q := AnnotatedChild(e.key, t, base);
    PropertyMapAnnotated(t.entries, base);
    forall j | 0 <= j < |t.entries| ensures StringLiteral(q.entries[j].val) == StringLiteral(e.val.entries[j].val) {
      LiteralKept(t.entries[j].val, base);
      if owner.Some? { LiteralTitled(e.val.entries[j], owner.value); }
    }
  }

  lemma AnnotatedEntry(es: seq<Entry>, base: Option<string>, i: nat)
    requires i < |es|
    ensures var titled := TitleProperties(es[i], AsStr(Get(es, "title")));
      Annotated(Obj(es), base).entries[i] == Entry(es[i].key, AnnotatedChild(es[i].key, titled.val, base))
  {
  }

  lemma PropertiesKept(v: Value, base: Option<string>)
    ensures var p, q := Member(v, "properties"), Member(Annotated(v, base), "properties");
      && (p.Some? && p.value.Obj? <==> q.Some? && q.value.Obj?)
      && (p.Some? && p.value.Obj? ==> SameLiterals(p.value.entries, q.value.entries))
  {
    if v.Obj? {
      FindSameKeys(v.entries, Annotated(v, base).entries, "properties");
      var i := Find(v.entries, "properties");
      if i < |v.entries| {
        var owner := AsStr(Get(v.entries, "title"));
        AnnotatedEntry(v.entries, base, i);
        if v.entries[i].val.Obj? {
          PropertyMapKept(v.entries[i], owner, base);
        } else {
          ChildKindKept("properties", v.entries[i].val, base);
        }
      }
    }
  }

  lemma LiteralFromPropertyKept(ps: seq<Entry>, qs: seq<Entry>, key: string)
    requires SameLiterals(ps, qs)
    ensures LiteralFromProperty(qs, key) == LiteralFromProperty(ps, key)
  {
    FindSameKeys(ps, qs, key);
  }

  lemma NameFromPropertiesKept(name: string, ps: seq<Entry>, qs: seq<Entry>)
    requires SameLiterals(ps, qs)
    ensures NameFromProperties(name, qs) == NameFromProperties(name, ps)
  {
    LiteralFromPropertyKept(ps, qs, "method");
    LiteralFromPropertyKept(ps, qs, "type");
    assert |ps| == 1 ==> ps[0].key == qs[0].key;
  }

  lemma NameFromRequiredKept(v: Value, base: Option<string>, name: string)
    ensures NameFromRequired(name, Member(Annotated(v, base), "required"))
         == NameFromRequired(name, Member(v, "required"))
  {
    MemberKept(v, base, "required");
    var required := Member(v, "required");
    if required.Some? {
      ChildKindKept("required", required.value, base);
      if required.value.Arr? && required.value.items != [] {
        FirstItemKept(required.value, base);
      }
    }
  }

  lemma {:induction false} NameKept(v: Value, base: Option<string>, name: string)
    ensures VariantDefinitionName(name, Annotated(v, base)) == VariantDefinitionName(name, v)
  {
    PropertiesKept(v, base);
    NameFromRequiredKept(v, base, name);
    var p, q := Member(v, "properties"), Member(Annotated(v, base), "properties");
    if p.Some? && p.value.Obj? {
      NameFromPropertiesKept(name, p.value.entries, q.value.entries);
    }
  }

  // The trees that annotation leaves alone

  ghost predicate SettledDiscriminator(e: Entry) {
    e.key in DISCRIMINATOR_KEYS && StringLiteral(e.val).Some? ==> Has(e.val.entries, "title")
  }

  ghost predicate SettledProperties(e: Entry) {
    e.key == "properties" && e.val.Obj? ==>
      forall j | 0 <= j < |e.val.entries| :: SettledDiscriminator(e.val.entries[j])
  }

  ghost predicate SettledVariant(variant: Value, base: Option<string>) {
    VariantTitle(variant).Some? || base.None? || VariantDefinitionName(base.value, variant).None?
  }

  /** Every title that annotation would add is already there. */
  ghost predicate Settled(v: Value, base: Option<string>)
    decreases v, 0
  {
    match v
    case Arr(items) => forall i | 0 <= i < |items| :: Settled(items[i], base)
    case Obj(es) =>
      && (VariantTitle(v).Some? ==> forall i | 0 <= i < |es| :: SettledProperties(es[i]))
      && forall i | 0 <= i < |es| :: SettledChild(es[i].key, es[i].val, base)
    case _ => true
  }

  ghost predicate SettledChild(key: string, val: Value, base: Option<string>)
    decreases val, 1
  {
    if key == "oneOf" || key == "anyOf" then
      val.Arr? ==> AllSettled(val.items, base)
    else if key == "definitions" || key == "$defs" then
      val.Obj? ==>
        forall i | 0 <= i < |val.entries| :: Settled(val.entries[i].val, Some(val.entries[i].key))
    else if key == "properties" then
      val.Obj? ==> forall i | 0 <= i < |val.entries| :: Settled(val.entries[i].val, base)
    else Settled(val, base)
  }

  ghost predicate AllSettled(variants: seq<Value>, base: Option<string>)
    decreases variants, 2
  {
    forall i | 0 <= i < |variants| :: SettledVariant(variants[i], base) && Settled(variants[i], base)
  }

  lemma TitleDiscriminatorSettles(e: Entry, owner: string, base: Option<string>)
    ensures var t := TitleDiscriminator(e, owner);
            SettledDiscriminator(Entry(t.key, Annotated(t.val, base)))
  {
    var t := TitleDiscriminator(e, owner);
    LiteralTitled(e, owner);
    LiteralKept(t.val, base);
    if e.key in DISCRIMINATOR_KEYS && StringLiteral(e.val).Some? {
      GetPut(e.val.entries, "title", Str(owner + ToPascalCase(e.key)), "title");
      assert Has(t.val.entries, "title");
      MemberKept(t.val, base, "title");
    }
  }

  /** Annotation settles every tree. */
  lemma {:induction false} AnnotationSettles(v: Value, base: Option<string>)
    ensures Settled(Annotated(v, base), base)
    decreases Depth(v), 2, 0
  {
    var w := Annotated(v, base);
    match v
    case Arr(items) =>
      forall i | 0 <= i < |items| ensures Settled(w.items[i], base) {
        AnnotationSettles(items[i], base);
      }
    case Obj(es) =>
      var owner := AsStr(Get(es, "title"));
      var titled := TitleObject(es, owner);
      TitleKept(v, base);
      forall i | 0 <= i < |es|
        ensures owner.Some? ==> SettledProperties(w.entries[i])
        ensures SettledChild(w.entries[i].key, w.entries[i].val, base)
      {
        ChildSettles(titled[i].key, titled[i].val, base);
        if owner.Some? && es[i].key == "properties" && es[i].val.Obj? {
          forall j | 0 <= j < |es[i].val.entries| ensures SettledDiscriminator(w.entries[i].val.entries[j]) {
            TitleDiscriminatorSettles(es[i].val.entries[j], owner.value, base);
          }
        }
      }
    case _ =>
  }

  lemma {:induction false} ChildSettles(key: string, val: Value, base: Option<string>)
    ensures SettledChild(key, AnnotatedChild(key, val, base), base)
    decreases Depth(val), 3, 0
  {
    var w := AnnotatedChild(key, val, base);
    if key == "oneOf" || key == "anyOf" {
      if val.Arr? {
        VariantsSettle(val.items, Titles(val.items), base);
        assert w.items == AnnotatedVariants(val.items, Titles(val.items), base);
      }
    } else if key == "definitions" || key == "$defs" {
      if val.Obj? {
        forall i | 0 <= i < |val.entries| ensures Settled(w.entries[i].val, Some(w.entries[i].key)) {
          AnnotationSettles(val.entries[i].val, Some(val.entries[i].key));
        }
      }
    } else if key == "properties" {
      if val.Obj? {
        forall i | 0 <= i < |val.entries| ensures Settled(w.entries[i].val, base) {
          AnnotationSettles(val.entries[i].val, base);
        }
      }
    } else {
      AnnotationSettles(val, base);
    }
  }

  lemma {:induction false} VariantsSettle(variants: seq<Value>, seen: set<string>, base: Option<string>)
    ensures AllSettled(AnnotatedVariants(variants, seen, base), base)
    decreases 1 + ItemsDepth(variants), 1, |variants|
  {
    if variants != [] {
      var title := NewTitle(variants[0], seen, base);
      var t := TitledVariant(variants[0], seen, base);
      AnnotationSettles(t, base);
      TitledVariantSettles(variants[0], seen, base);
      var seen' := if title.Some? then seen + {title.value} else seen;
      VariantsSettle(variants[1..], seen', base);
      var ws, rest := AnnotatedVariants(variants, seen, base), AnnotatedVariants(variants[1..], seen', base);
      assert ws == [Annotated(t, base)] + rest;
    }
  }

  lemma TitleObjectTitle(es: seq<Entry>, owner: Option<string>)
    ensures VariantTitle(Obj(TitleObject(es, owner))) == VariantTitle(Obj(es))
  {
    FindSameKeys(es, TitleObject(es, owner), "title");
  }

  lemma TitledVariantTitle(variant: Value, seen: set<string>, base: Option<string>)
    ensures var title := NewTitle(variant, seen, base);
            VariantTitle(TitledVariant(variant, seen, base)) == if title.Some? then title else VariantTitle(variant)
  {
    var title := NewTitle(variant, seen, base);
    if variant.Obj? {
      if title.Some? {
        TitleObjectTitle(PutTitle(variant.entries, title.value), title);
        GetPut(variant.entries, "title", Str(title.value), "title");
      } else {
        TitleObjectTitle(variant.entries, VariantTitle(variant));
      }
    }
  }

  lemma {:induction false} TitledVariantSettles(variant: Value, seen: set<string>, base: Option<string>)
    ensures SettledVariant(Annotated(TitledVariant(variant, seen, base), base), base)
  {
    var t := TitledVariant(variant, seen, base);
    TitledVariantTitle(variant, seen, base);
    TitleKept(t, base);
    if VariantTitle(t).None? && base.Some? {
      assert variant.Obj? ==> t.entries == variant.entries;
      assert t == variant;
      NameKept(t, base, base.value);
    }
  }

  /** A settled tree is left alone. */
  lemma {:induction false} SettledIsFixed(v: Value, base: Option<string>)
    requires Settled(v, base)
    ensures Annotated(v, base) == v
    decreases v, 0
  {
    match v
    case Arr(items) =>
      forall i | 0 <= i < |items| ensures Annotated(items[i], base) == items[i] {
        SettledIsFixed(items[i], base);
      }
      assert Annotated(v, base).items == items;
    case Obj(es) =>
      SettledTitles(v);
      forall i | 0 <= i < |es| ensures AnnotatedChild(es[i].key, es[i].val, base) == es[i].val {
        SettledChildIsFixed(es[i].key, es[i].val, base);
      }
      assert Annotated(v, base).entries == es;
    case _ =>
  }

  lemma SettledTitles(v: Value)
    requires v.Obj?
    requires VariantTitle(v).Some? ==> forall i | 0 <= i < |v.entries| :: SettledProperties(v.entries[i])
    ensures TitleObject(v.entries, VariantTitle(v)) == v.entries
  {
    var owner := VariantTitle(v);
    forall i | 0 <= i < |v.entries| ensures TitleProperties(v.entries[i], owner) == v.entries[i] {
      var e := v.entries[i];
      if owner.Some? && e.key == "properties" && e.val.Obj? {
        assert TitleDiscriminators(e.val.entries, owner.value) == e.val.entries;
      }
    }
  }

  lemma {:induction false} SettledChildIsFixed(key: string, val: Value, base: Option<string>)
    requires SettledChild(key, val, base)
    ensures AnnotatedChild(key, val, base) == val
    decreases val, 1
  {
    var w := AnnotatedChild(key, val, base);
    if key == "oneOf" || key == "anyOf" {
      if val.Arr? {
        SettledVariantsAreFixed(val.items, Titles(val.items), base);
      }
    } else if key == "definitions" || key == "$defs" {
      if val.Obj? {
        forall i | 0 <= i < |val.entries| ensures w.entries[i] == val.entries[i] {
          SettledIsFixed(val.entries[i].val, Some(val.entries[i].key));
        }
        assert w.entries == val.entries;
      }
    } else if key == "properties" {
      if val.Obj? {
        forall i | 0 <= i < |val.entries| ensures w.entries[i] == val.entries[i] {
          SettledIsFixed(val.entries[i].val, base);
        }
        assert w.entries == val.entries;
      }
    } else {
      SettledIsFixed(val, base);
    }
  }

  lemma SettledVariantIsTitled(v: Value, seen: set<string>, base: Option<string>)
    requires SettledVariant(v, base) && Settled(v, base)
    ensures NewTitle(v, seen, base).None? && TitledVariant(v, seen, base) == v
  {
    if v.Obj? {
      SettledTitles(v);
    }
  }

  lemma {:induction false} SettledVariantsAreFixed(variants: seq<Value>, seen: set<string>, base: Option<string>)
    requires AllSettled(variants, base)
    ensures AnnotatedVariants(variants, seen, base) == variants
    decreases variants, 0
  {
    if variants != [] {
      var v, rest := variants[0], variants[1..];
      assert SettledVariant(v, base) && Settled(v, base);
      SettledVariantIsTitled(v, seen, base);
      SettledIsFixed(v, base);
      assert AllSettled(rest, base);
      SettledVariantsAreFixed(rest, seen, base);
      assert variants == [v] + rest;
    }
  }

  /** Annotating twice with one base is annotating once, for every JSON tree. */
  lemma AnnotationIdempotent(v: Value, base: Option<string>)
    ensures Annotated(Annotated(v, base), base) == Annotated(v, base)
  {
    AnnotationSettles(v, base);
    SettledIsFixed(Annotated(v, base), base);
  }

  /** A tree is unchanged by annotation exactly when no title is missing. */
  lemma {:induction false} FixedExactlyWhenSettled(v: Value, base: Option<string>)
    ensures Annotated(v, base) == v <==> Settled(v, base)
  {
    AnnotationSettles(v, base);
    if Settled(v, base) {
      SettledIsFixed(v, base);
    }
  }

  // Variant titles are unique

  ghost predicate GetsTitle(v: Value, w: Value) {
    VariantTitle(v).None? && VariantTitle(w).Some?
  }

  /** Titles of vs stay, and the titles that ws adds avoid seen and each other. */
  ghost predicate FreshTitles(vs: seq<Value>, ws: seq<Value>, seen: set<string>)
    requires |vs| == |ws|
  {
    && (forall i | 0 <= i < |vs| && VariantTitle(vs[i]).Some? :: VariantTitle(ws[i]) == VariantTitle(vs[i]))
    && (forall i | 0 <= i < |vs| && GetsTitle(vs[i], ws[i]) :: VariantTitle(ws[i]).value !in seen)
    && (forall i, j | 0 <= i < j < |vs| && GetsTitle(vs[i], ws[i]) && GetsTitle(vs[j], ws[j]) ::
          VariantTitle(ws[i]) != VariantTitle(ws[j]))
  }

  lemma FreshTitlesCons(v: Value, w: Value, vs: seq<Value>, ws: seq<Value>, seen: set<string>, seen': set<string>)
    requires |vs| == |ws| && FreshTitles(vs, ws, seen') && seen <= seen'
    requires VariantTitle(v).Some? ==> VariantTitle(w) == VariantTitle(v)
    requires GetsTitle(v, w) ==> VariantTitle(w).value !in seen && VariantTitle(w).value in seen'
    ensures FreshTitles([v] + vs, [w] + ws, seen)
  {
    var xs, ys := [v] + vs, [w] + ws;
    forall i | 0 < i < |xs| ensures xs[i] == vs[i - 1] && ys[i] == ws[i - 1] {
    }
    forall j | 0 < j < |xs| && GetsTitle(v, w) && GetsTitle(xs[j], ys[j])
      ensures VariantTitle(w) != VariantTitle(ys[j])
    {
      assert GetsTitle(vs[j - 1], ws[j - 1]);
    }
  }

  lemma {:induction false} HeadTitle(v: Value, seen: set<string>, base: Option<string>)
    ensures var w, title := Annotated(TitledVariant(v, seen, base), base), NewTitle(v, seen, base);
      && (VariantTitle(v).Some? ==> VariantTitle(w) == VariantTitle(v))
      && (GetsTitle(v, w) ==> title == VariantTitle(w) && title.value !in seen)
  {
    TitledVariantTitle(v, seen, base);
    TitleKept(TitledVariant(v, seen, base), base);
  }

  lemma {:induction false} NewTitlesAreFresh(variants: seq<Value>, seen: set<string>, base: Option<string>)
    ensures FreshTitles(variants, AnnotatedVariants(variants, seen, base), seen)
    decreases |variants|
  {
    if variants != [] {
      var seen' := SeenAfter(variants[0], seen, base);
      var w := Annotated(TitledVariant(variants[0], seen, base), base);
      var rest := AnnotatedVariants(variants[1..], seen', base);
      HeadTitle(variants[0], seen, base);
      NewTitlesAreFresh(variants[1..], seen', base);
      VariantsUnfold(variants, seen, base);
      FreshTitlesCons(variants[0], w, variants[1..], rest, seen, seen');
      assert variants == [variants[0]] + variants[1..];
    }
  }

  /**
   Existing titles of a variant list stay, and every title added differs from all of them and from every other
   title added.
   */
  lemma AddedTitlesAreDistinct(variants: seq<Value>, base: Option<string>)
    ensures var ws := AnnotatedVariants(variants, Titles(variants), base);
      && (forall i | 0 <= i < |ws| && VariantTitle(variants[i]).Some? ::
            VariantTitle(ws[i]) == VariantTitle(variants[i]))
      && (forall i, j | 0 <= i < |ws| && 0 <= j < |ws| && i != j && GetsTitle(variants[i], ws[i]) ::
            VariantTitle(ws[i]) != VariantTitle(ws[j]))
  {
    NewTitlesAreFresh(variants, Titles(variants), base);
    var ws := AnnotatedVariants(variants, Titles(variants), base);
    forall i, j | 0 <= i < |ws| && 0 <= j < |ws| && i != j && GetsTitle(variants[i], ws[i])
      ensures VariantTitle(ws[i]) != VariantTitle(ws[j])
    {
      if VariantTitle(variants[j]).Some? {
        assert VariantTitle(variants[j]).value in Titles(variants);
      } else if VariantTitle(ws[j]).Some? {
        assert GetsTitle(variants[j], ws[j]);
      }
    }
  }
}
