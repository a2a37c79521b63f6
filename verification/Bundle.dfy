/**
 The schema bundle: how generated schemas are merged under "definitions", and which references resolve afterwards.
 A reference is a string under a "$ref" key (section 8.3 of JSON Schema draft-07 core).
 */
module Bundle {
  import opened Seqs
  import opened Text
  import opened Json
  import opened Annotate

  const IGNORED_DEFINITIONS := ["Option<()>"]
  const SPECIAL_DEFINITIONS :=
    ["ClientNotification", "ClientRequest", "EventMsg", "ServerNotification", "ServerRequest"]
  const DEFINITIONS_POINTER := "#/definitions/"

  datatype Schema = Schema(namespace: Option<string>, logicalName: string, value: Value, inV1Dir: bool)

  // Moving references into a namespace

  function RewriteRef(r: string, ns: string): string {
    if HasPrefix(r, DEFINITIONS_POINTER) && !HasPrefix(r[|DEFINITIONS_POINTER|..], ns + "/")
    then DEFINITIONS_POINTER + (ns + "/" + r[|DEFINITIONS_POINTER|..])
    else r
  }

  /** The tree with every reference r in it replaced by f(r). */
  function MapRefs(f: string -> string, v: Value): Value
    decreases v
  {
    match v
    case Arr(items) => Arr(seq(|items|, i requires 0 <= i < |items| => MapRefs(f, items[i])))
    case Obj(es) =>
      Obj(seq(|es|, i requires 0 <= i < |es| =>
        Entry(es[i].key,
              if es[i].key == "$ref" && es[i].val.Str? then Str(f(es[i].val.s)) else MapRefs(f, es[i].val))))
    case _ => v
  }

  function ToNamespace(ns: string): string -> string {
    (r: string) => RewriteRef(r, ns)
  }

  /** rewrite_refs_to_namespace */
  function Rewritten(v: Value, ns: string): Value {
    MapRefs(ToNamespace(ns), v)
  }

  function RenameRef(r: string, ns: string, name: string): string {
    var direct := DEFINITIONS_POINTER + name;
    var replacement := DEFINITIONS_POINTER + (ns + "/" + name);
    if r == direct then replacement
    else if HasPrefix(r, direct + "/") then replacement + "/" + r[|direct + "/"|..]
    else r
  }

  function Renaming(ns: string, name: string): string -> string {
    (r: string) => RenameRef(r, ns, name)
  }

  /** rewrite_named_ref_to_namespace */
  function Renamed(v: Value, ns: string, name: string): Value {
    MapRefs(Renaming(ns, name), v)
  }

  /** r occurs as a reference somewhere in v. */
  ghost predicate Mentions(v: Value, r: string) {
    match v
    case Arr(items) => exists i | 0 <= i < |items| :: Mentions(items[i], r)
    case Obj(es) =>
      exists i | 0 <= i < |es| :: (es[i].key == "$ref" && es[i].val == Str(r)) || Mentions(es[i].val, r)
    case _ => false
  }

  // Which namespace a definition belongs to

  predicate IsDigit(c: char) {
    '0' <= c <= '9'
  }

  function TrimDigits(s: string): string {
    if s != "" && IsDigit(s[|s| - 1]) then TrimDigits(s[..|s| - 1]) else s
  }

  function NamespaceForDefinition(name: string, types: map<string, string>): Option<string> {
    if name in types then Some(types[name])
    else
      var trimmed := TrimDigits(name);
      if trimmed != name && trimmed in types then Some(types[trimmed]) else None
  }

  /** entry(key).or_insert(ns) for every key in turn. */
  function OrInsertAll(types: map<string, string>, es: seq<Entry>, ns: string): map<string, string>
    decreases |es|
  {
    if es == [] then types
    else OrInsertAll(OrInsert(types, es[0].key, ns), es[1..], ns)
  }

  function OrInsert(types: map<string, string>, key: string, ns: string): map<string, string> {
    if key in types then types else types[key := ns]
  }

  function ObjectEntries(v: Option<Value>): seq<Entry> {
    if v.Some? && v.value.Obj? then v.value.entries else []
  }

  function CollectNamespacedTypes(schemas: seq<Schema>): map<string, string> {
    if schemas == [] then map[]
    else
      var types := CollectNamespacedTypes(schemas[..|schemas| - 1]);
      var s := schemas[|schemas| - 1];
      if s.namespace.None? then types
      else
        var ns := s.namespace.value;
        OrInsertAll(OrInsertAll(OrInsert(types, s.logicalName, ns), ObjectEntries(Member(s.value, "definitions")), ns),
                    ObjectEntries(Member(s.value, "$defs")), ns)
  }

  // The first schema to name a definition decides its namespace

  lemma KeysUnfold(es: seq<Entry>)
    requires es != []
    ensures Keys(es) == {es[0].key} + Keys(es[1..])
  {
    var rest := es[1..];
    forall i | 0 < i < |es| ensures es[i].key in Keys(rest) {
      assert rest[i - 1] == es[i];
    }
    forall i | 0 <= i < |rest| ensures rest[i].key in Keys(es) {
      assert rest[i] == es[i + 1];
    }
  }

  /** Names that have a namespace keep it; the others get this one. */
  lemma {:induction false} OrInsertAllKeeps(types: map<string, string>, es: seq<Entry>, ns: string, key: string)
    ensures var r := OrInsertAll(types, es, ns);
      && (key in r <==> key in types || key in Keys(es))
      && (key in types ==> r[key] == types[key])
      && (key !in types && key in Keys(es) ==> r[key] == ns)
    decreases |es|
  {
    if es != [] {
      KeysUnfold(es);
      OrInsertAllKeeps(OrInsert(types, es[0].key, ns), es[1..], ns, key);
    }
  }

  /** The names that a schema claims for its namespace. */
  function NamedBy(s: Schema): set<string> {
    if s.namespace.None? then {}
    else
      {s.logicalName}
      + Keys(ObjectEntries(Member(s.value, "definitions")))
      + Keys(ObjectEntries(Member(s.value, "$defs")))
  }

  function Lookup(types: map<string, string>, key: string): Option<string> {
    if key in types then Some(types[key]) else None
  }

  /** The namespace of the first schema that names the key. */
  function FirstNamespace(schemas: seq<Schema>, key: string): Option<string> {
    if schemas == [] then None
    else
      var earlier := FirstNamespace(schemas[..|schemas| - 1], key);
      if earlier.Some? then earlier
      else if key in NamedBy(schemas[|schemas| - 1]) then schemas[|schemas| - 1].namespace
      else None
  }

  predicate Unnamed(schemas: seq<Schema>, key: string) {
    forall j | 0 <= j < |schemas| :: key !in NamedBy(schemas[j])
  }

  lemma UnnamedBefore(schemas: seq<Schema>, i: nat, key: string)
    requires 0 < |schemas| && |schemas| - 1 <= i <= |schemas| && Unnamed(schemas[..i], key)
    ensures Unnamed(schemas[..|schemas| - 1], key)
    ensures i == |schemas| ==> key !in NamedBy(schemas[|schemas| - 1])
  {
    assert i == |schemas| ==> schemas[..i] == schemas;
  }

  lemma {:induction false} FirstNamespaceIs(schemas: seq<Schema>, i: nat, key: string)
    requires i <= |schemas| && Unnamed(schemas[..i], key) && (i < |schemas| ==> key in NamedBy(schemas[i]))
    ensures FirstNamespace(schemas, key) == if i < |schemas| then schemas[i].namespace else None
    decreases |schemas|
  {
    if schemas != [] {
      var n := |schemas| - 1;
      var before := schemas[..n];
      if i < n {
        assert before[..i] == schemas[..i] && before[i] == schemas[i];
        FirstNamespaceIs(before, i, key);
      } else {
        UnnamedBefore(schemas, i, key);
        assert before[..n] == before;
        FirstNamespaceIs(before, n, key);
      }
    }
  }

  lemma {:induction false} CollectedIsFirst(schemas: seq<Schema>, key: string)
    ensures Lookup(CollectNamespacedTypes(schemas), key) == FirstNamespace(schemas, key)
    decreases |schemas|
  {
    if schemas != [] {
      CollectedIsFirst(schemas[..|schemas| - 1], key);
      OneMoreSchema(schemas, key);
    }
  }

  /** The first schema to name a definition decides its namespace, and only named definitions have one. */
  lemma FirstSchemaDecides(schemas: seq<Schema>, i: nat, key: string)
    requires i <= |schemas| && Unnamed(schemas[..i], key) && (i < |schemas| ==> key in NamedBy(schemas[i]))
    ensures Lookup(CollectNamespacedTypes(schemas), key) == if i < |schemas| then schemas[i].namespace else None
  {
    FirstNamespaceIs(schemas, i, key);
    CollectedIsFirst(schemas, key);
  }

  lemma {:induction false} NamedIsCollected(schemas: seq<Schema>, i: nat, key: string)
    requires i < |schemas| && key in NamedBy(schemas[i])
    ensures key in CollectNamespacedTypes(schemas)
    decreases |schemas|
  {
    if i < |schemas| - 1 {
      NamedIsCollected(schemas[..|schemas| - 1], i, key);
    }
    OneMoreSchema(schemas, key);
  }

  lemma OneMoreSchema(schemas: seq<Schema>, key: string)
    requires schemas != []
    ensures var s, types := schemas[|schemas| - 1], CollectNamespacedTypes(schemas[..|schemas| - 1]);
      var r := CollectNamespacedTypes(schemas);
      Lookup(r, key) == if key in types then Some(types[key]) else if key in NamedBy(s) then s.namespace else None
  {
    var s, types := schemas[|schemas| - 1], CollectNamespacedTypes(schemas[..|schemas| - 1]);
    if s.namespace.Some? {
      var ns := s.namespace.value;
      var own, defs := ObjectEntries(Member(s.value, "definitions")), ObjectEntries(Member(s.value, "$defs"));
      OrInsertAllKeeps(OrInsert(types, s.logicalName, ns), own, ns, key);
      OrInsertAllKeeps(OrInsertAll(OrInsert(types, s.logicalName, ns), own, ns), defs, ns, key);
    }
  }

  // Building the bundle

  /** insert_into_namespace; None when the namespace is taken by something that is not an object. */
  function InsertIntoNamespace(defs: seq<Entry>, ns: string, name: string, schema: Value): Option<seq<Entry>> {
    var existing := Get(defs, ns);
    if existing.None? then Some(Put(defs, ns, Obj([Entry(name, schema)])))
    else if existing.value.Obj? then Some(Put(defs, ns, Obj(Put(existing.value.entries, name, schema))))
    else None
  }

  predicate Skipped(name: string) {
    name in IGNORED_DEFINITIONS || name in SPECIAL_DEFINITIONS
  }

  function TargetNamespace(s: Schema, name: string, types: map<string, string>): Option<string> {
    if s.namespace.Some? then s.namespace
    else if s.inV1Dir then None
    else NamespaceForDefinition(name, types)
  }

  datatype Progress = Progress(defs: seq<Entry>, forced: seq<(string, string)>)

  /** One turn of the loop over a schema's own definitions. */
  function AddDefinition(p: Progress, s: Schema, e: Entry, types: map<string, string>): Option<Progress> {
    if Skipped(e.key) then Some(p)
    else
      var schema := Annotated(e.val, Some(e.key));
      var target := TargetNamespace(s, e.key, types);
      if target.None? then Some(p.(defs := Put(p.defs, e.key, schema)))
      else if s.namespace == target then
        var defs := InsertIntoNamespace(p.defs, target.value, e.key, Rewritten(schema, target.value));
        if defs.Some? then Some(p.(defs := defs.value)) else None
      else if (e.key, target.value) in p.forced then Some(p)
      else Some(p.(forced := p.forced + [(e.key, target.value)]))
  }

  function AddDefinitions(p: Progress, s: Schema, es: seq<Entry>, types: map<string, string>): Option<Progress>
    decreases |es|
  {
    if es == [] then Some(p)
    else
      var q := AddDefinition(p, s, es[0], types);
      if q.Some? then AddDefinitions(q.value, s, es[1..], types) else None
  }

  function RenameAll(v: Value, forced: seq<(string, string)>): Value
    decreases |forced|
  {
    if forced == [] then v else RenameAll(Renamed(v, forced[0].1, forced[0].0), forced[1..])
  }

  function MovedValue(s: Schema): Value {
    if s.namespace.Some? then Rewritten(s.value, s.namespace.value) else s.value
  }

  function WithoutDefinitions(v: Value): Value {
    if v.Obj? then Obj(Remove(v.entries, "definitions")) else v
  }

  function AddSchema(defs: seq<Entry>, s: Schema, types: map<string, string>): Option<seq<Entry>> {
    if s.logicalName in IGNORED_DEFINITIONS then Some(defs)
    else
      var value := MovedValue(s);
      var p := AddDefinitions(Progress(defs, []), s, ObjectEntries(Member(value, "definitions")), types);
      if p.None? then None
      else
        var top := RenameAll(WithoutDefinitions(value), p.value.forced);
        if s.namespace.Some? then InsertIntoNamespace(p.value.defs, s.namespace.value, s.logicalName, top)
        else Some(Put(p.value.defs, s.logicalName, top))
  }

  function AddSchemas(defs: seq<Entry>, schemas: seq<Schema>, types: map<string, string>): Option<seq<Entry>>
    decreases |schemas|
  {
    if schemas == [] then Some(defs)
    else
      var ds := AddSchema(defs, schemas[0], types);
      if ds.Some? then AddSchemas(ds.value, schemas[1..], types) else None
  }

  /** The "definitions" of the bundle; None is the error return. */
  function BundleDefinitions(schemas: seq<Schema>): Option<seq<Entry>> {
    AddSchemas([], schemas, CollectNamespacedTypes(schemas))
  }

  function BundleRoot(definitions: seq<Entry>): Value {
    Obj([Entry("$schema", Str("http://json-schema.org/draft-07/schema#")),
         Entry("title", Str("CodexAppServerProtocol")),
         Entry("type", Str("object")),
         Entry("definitions", Obj(definitions))])
  }

  /** A JSON Schema document with these definitions, and nothing else but its dialect, title and type. */
  ghost predicate IsBundle(v: Value, definitions: seq<Entry>) {
    && v.Obj? && |v.entries| == 4
    && Member(v, "definitions") == Some(Obj(definitions))
    && Member(v, "$schema") == Some(Str("http://json-schema.org/draft-07/schema#"))
    && Member(v, "title") == Some(Str("CodexAppServerProtocol"))
    && Member(v, "type") == Some(Str("object"))
  }

  lemma BundleRootIsBundle(definitions: seq<Entry>)
    ensures IsBundle(BundleRoot(definitions), definitions)
  {
    var es := BundleRoot(definitions).entries;
    FindIs(es, "$schema", 0);
    FindIs(es, "title", 1);
    FindIs(es, "type", 2);
    FindIs(es, "definitions", 3);
  }

  // References after a rewrite

  lemma RewriteRefIdempotent(r: string, ns: string)
    ensures RewriteRef(RewriteRef(r, ns), ns) == RewriteRef(r, ns)
  {
    if RewriteRef(r, ns) != r {
      var rest := r[|DEFINITIONS_POINTER|..];
      var moved := ns + "/" + rest;
      assert (DEFINITIONS_POINTER + moved)[|DEFINITIONS_POINTER|..] == moved;
      assert HasPrefix(moved, ns + "/");
    }
  }

  lemma {:induction false} MappedTwice(f: string -> string, v: Value)
    requires forall r :: f(f(r)) == f(r)
    ensures MapRefs(f, MapRefs(f, v)) == MapRefs(f, v)
    decreases v
  {
    var w := MapRefs(f, v);
    match v
    case Arr(items) =>
      forall i | 0 <= i < |items| ensures MapRefs(f, w.items[i]) == w.items[i] {
        MappedTwice(f, items[i]);
      }
      assert MapRefs(f, w).items == w.items;
    case Obj(es) =>
      forall i | 0 <= i < |es| ensures MapRefs(f, w).entries[i] == w.entries[i] {
        MappedTwice(f, es[i].val);
      }
      assert MapRefs(f, w).entries == w.entries;
    case _ =>
  }

  lemma RewrittenTwice(v: Value, ns: string)
    ensures Rewritten(Rewritten(v, ns), ns) == Rewritten(v, ns)
  {
    var f := ToNamespace(ns);
    forall r ensures f(f(r)) == f(r) {
      RewriteRefIdempotent(r, ns);
    }
    MappedTwice(f, v);
  }

  /** r' is the image of a reference that v mentions. */
  ghost predicate FromRef(f: string -> string, v: Value, r': string) {
    exists r :: Mentions(v, r) && r' == f(r)
  }

  lemma MappedItemsMention(f: string -> string, items: seq<Value>, r': string)
    requires forall i | 0 <= i < |items| :: Mentions(MapRefs(f, items[i]), r') <==> FromRef(f, items[i], r')
    ensures Mentions(MapRefs(f, Arr(items)), r') <==> FromRef(f, Arr(items), r')
  {
    var v, w := Arr(items), MapRefs(f, Arr(items));
    if Mentions(w, r') {
      var i :| 0 <= i < |items| && Mentions(w.items[i], r');
      var r :| Mentions(items[i], r) && r' == f(r);
      assert Mentions(v, r);
    }
    if FromRef(f, v, r') {
      var r :| Mentions(v, r) && r' == f(r);
      var i :| 0 <= i < |items| && Mentions(items[i], r);
      assert FromRef(f, items[i], r') && Mentions(w.items[i], r');
    }
  }

  lemma MappedEntriesMention(f: string -> string, es: seq<Entry>, r': string)
    requires forall i | 0 <= i < |es| :: Mentions(MapRefs(f, es[i].val), r') <==> FromRef(f, es[i].val, r')
    ensures Mentions(MapRefs(f, Obj(es)), r') <==> FromRef(f, Obj(es), r')
  {
    var v, w := Obj(es), MapRefs(f, Obj(es));
    if Mentions(w, r') {
      var i :| 0 <= i < |es|
        && ((w.entries[i].key == "$ref" && w.entries[i].val == Str(r')) || Mentions(w.entries[i].val, r'));
      if es[i].key == "$ref" && es[i].val.Str? {
        assert Mentions(v, es[i].val.s);
      } else {
        var r :| Mentions(es[i].val, r) && r' == f(r);
        assert Mentions(v, r);
      }
    }
    if FromRef(f, v, r') {
      var r :| Mentions(v, r) && r' == f(r);
      var i :| 0 <= i < |es| && ((es[i].key == "$ref" && es[i].val == Str(r)) || Mentions(es[i].val, r));
      assert (w.entries[i].key == "$ref" && w.entries[i].val == Str(r')) || FromRef(f, es[i].val, r');
    }
  }

  /** The references of a mapped tree are exactly the images of the references. */
  lemma {:induction false} MappedMentions(f: string -> string, v: Value, r': string)
    ensures Mentions(MapRefs(f, v), r') <==> FromRef(f, v, r')
    decreases v
  {
    match v
    case Arr(items) =>
      forall i | 0 <= i < |items| ensures Mentions(MapRefs(f, items[i]), r') <==> FromRef(f, items[i], r') {
        MappedMentions(f, items[i], r');
      }
      MappedItemsMention(f, items, r');
    case Obj(es) =>
      forall i | 0 <= i < |es| ensures Mentions(MapRefs(f, es[i].val), r') <==> FromRef(f, es[i].val, r') {
        MappedMentions(f, es[i].val, r');
      }
      MappedEntriesMention(f, es, r');
    case _ =>
  }

  /** The references of a rewritten tree are exactly the rewritten references. */
  lemma RewrittenMentions(v: Value, ns: string, r': string)
    ensures Mentions(Rewritten(v, ns), r') <==> exists r :: Mentions(v, r) && r' == RewriteRef(r, ns)
  {
    MappedMentions(ToNamespace(ns), v, r');
    if r :| Mentions(v, r) && r' == RewriteRef(r, ns) {
      assert r' == ToNamespace(ns)(r);
    }
    if FromRef(ToNamespace(ns), v, r') {
      var r :| Mentions(v, r) && r' == ToNamespace(ns)(r);
      assert r' == RewriteRef(r, ns);
    }
  }

  // Annotation adds no references

  lemma PutTitleMentions(es: seq<Entry>, title: string, r: string)
    requires Mentions(Obj(PutTitle(es, title)), r)
    ensures Mentions(Obj(es), r)
  {
    var ps := PutTitle(es, title);
    var i :| 0 <= i < |ps| && ((ps[i].key == "$ref" && ps[i].val == Str(r)) || Mentions(ps[i].val, r));
    assert i < |es| && ps[i] == es[i];
  }

  lemma TitleDiscriminatorMentions(e: Entry, owner: string, r: string)
    requires Mentions(TitleDiscriminator(e, owner).val, r)
    ensures Mentions(e.val, r)
  {
    if TitleDiscriminator(e, owner) != e {
      PutTitleMentions(e.val.entries, owner + ToPascalCase(e.key), r);
    }
  }

  lemma {:induction false} TitlePropertiesMentions(e: Entry, owner: Option<string>, r: string)
    requires Mentions(TitleProperties(e, owner).val, r)
    ensures Mentions(e.val, r)
  {
    var t := TitleProperties(e, owner);
    if t != e {
      var ts, ps := t.val.entries, e.val.entries;
      var i :| 0 <= i < |ts| && ((ts[i].key == "$ref" && ts[i].val == Str(r)) || Mentions(ts[i].val, r));
      if Mentions(ts[i].val, r) {
        TitleDiscriminatorMentions(ps[i], owner.value, r);
      }
      assert (ps[i].key == "$ref" && ps[i].val == Str(r)) || Mentions(ps[i].val, r);
    }
  }

  lemma TitleObjectMentions(es: seq<Entry>, owner: Option<string>, r: string)
    requires Mentions(Obj(TitleObject(es, owner)), r)
    ensures Mentions(Obj(es), r)
  {
    var ts := TitleObject(es, owner);
    var i :| 0 <= i < |ts| && ((ts[i].key == "$ref" && ts[i].val == Str(r)) || Mentions(ts[i].val, r));
    if Mentions(ts[i].val, r) {
      TitlePropertiesMentions(es[i], owner, r);
    }
    assert (es[i].key == "$ref" && es[i].val == Str(r)) || Mentions(es[i].val, r);
  }

  lemma {:induction false} TitledVariantMentions(variant: Value, seen: set<string>, base: Option<string>, r: string)
    requires Mentions(TitledVariant(variant, seen, base), r)
    ensures Mentions(variant, r)
  {
    var title := NewTitle(variant, seen, base);
    if variant.Obj? {
      if title.Some? {
        TitleObjectMentions(PutTitle(variant.entries, title.value), title, r);
        PutTitleMentions(variant.entries, title.value, r);
      } else {
        TitleObjectMentions(variant.entries, VariantTitle(variant), r);
      }
    }
  }

  lemma {:induction false} AnnotatedMentions(v: Value, base: Option<string>, r: string)
    requires Mentions(Annotated(v, base), r)
    ensures Mentions(v, r)
    decreases Depth(v), 2, 0
  {
    var w := Annotated(v, base);
    match v
    case Arr(items) =>
      var i :| 0 <= i < |items| && Mentions(w.items[i], r);
      AnnotatedMentions(items[i], base, r);
    case Obj(es) =>
      var owner := AsStr(Get(es, "title"));
      var ts := TitleObject(es, owner);
      var i :| 0 <= i < |es|
        && ((w.entries[i].key == "$ref" && w.entries[i].val == Str(r)) || Mentions(w.entries[i].val, r));
      if Mentions(w.entries[i].val, r) {
        AnnotatedChildMentions(ts[i].key, ts[i].val, base, r);
        TitlePropertiesMentions(es[i], owner, r);
      } else {
        ChildKindKept(ts[i].key, ts[i].val, base);
      }
      assert (es[i].key == "$ref" && es[i].val == Str(r)) || Mentions(es[i].val, r);
    case _ =>
  }

  lemma {:induction false} AnnotatedChildMentions(key: string, val: Value, base: Option<string>, r: string)
    requires Mentions(AnnotatedChild(key, val, base), r)
    ensures Mentions(val, r)
    decreases Depth(val), 3, 0
  {
    var w := AnnotatedChild(key, val, base);
    if key == "oneOf" || key == "anyOf" {
      if val.Arr? {
        var i :| 0 <= i < |w.items| && Mentions(w.items[i], r);
        VariantsMention(val.items, Titles(val.items), base, i, r);
        assert Mentions(val.items[i], r);
      }
    } else if (key == "definitions" || key == "$defs" || key == "properties") && val.Obj? {
      var es := val.entries;
      var i :| 0 <= i < |es|
        && ((w.entries[i].key == "$ref" && w.entries[i].val == Str(r)) || Mentions(w.entries[i].val, r));
      var b := if key == "properties" then base else Some(es[i].key);
      if Mentions(w.entries[i].val, r) {
        AnnotatedMentions(es[i].val, b, r);
      } else {
        KindKept(es[i].val, b);
      }
      assert (es[i].key == "$ref" && es[i].val == Str(r)) || Mentions(es[i].val, r);
    } else if !(key == "definitions" || key == "$defs" || key == "properties") {
      AnnotatedMentions(val, base, r);
    }
  }

  lemma {:induction false} VariantsMention(
    variants: seq<Value>, seen: set<string>, base: Option<string>, i: nat, r: string)
    requires i < |variants| && Mentions(AnnotatedVariants(variants, seen, base)[i], r)
    ensures Mentions(variants[i], r)
    decreases 1 + ItemsDepth(variants), 1, |variants|
  {
    if i == 0 {
      FirstVariant(variants, seen, base);
      AnnotatedMentions(TitledVariant(variants[0], seen, base), base, r);
      TitledVariantMentions(variants[0], seen, base, r);
    } else {
      LaterVariant(variants, seen, base, i);
      VariantsMention(variants[1..], SeenAfter(variants[0], seen, base), base, i - 1, r);
    }
  }

  // What a namespace ends up holding

  function Under(defs: seq<Entry>, ns: string): seq<Entry> {
    ObjectEntries(Get(defs, ns))
  }

  /** The namespace is not occupied by a value that is not an object. */
  ghost predicate Available(defs: seq<Entry>, ns: string) {
    Get(defs, ns).Some? ==> Get(defs, ns).value.Obj?
  }

  function OwnDefinitions(s: Schema): seq<Entry> {
    ObjectEntries(Member(MovedValue(s), "definitions"))
  }

  /** The names of the definitions that are not skipped. */
  function KeptNames(es: seq<Entry>): set<string> {
    set i | 0 <= i < |es| && !Skipped(es[i].key) :: es[i].key
  }

  /** The names that a schema defines. */
  function NamesOf(s: Schema): set<string> {
    if s.logicalName in IGNORED_DEFINITIONS then {} else KeptNames(OwnDefinitions(s)) + {s.logicalName}
  }

  function NamesIn(schemas: seq<Schema>, ns: string): set<string> {
    if schemas == [] then {}
    else (if schemas[0].namespace == Some(ns) then NamesOf(schemas[0]) else {}) + NamesIn(schemas[1..], ns)
  }

  /** The schema puts nothing at the root of the definitions under the namespace's own name. */
  ghost predicate ClashFree(s: Schema, types: map<string, string>, ns: string) {
    s.namespace.None? && s.logicalName !in IGNORED_DEFINITIONS ==>
      && s.logicalName != ns
      && forall i | 0 <= i < |OwnDefinitions(s)| && OwnDefinitions(s)[i].key == ns ::
           Skipped(ns) || TargetNamespace(s, ns, types).Some?
  }

  function DefinitionCopy(e: Entry, ns: string): Value {
    Rewritten(Annotated(e.val, Some(e.key)), ns)
  }

  /** v is what the schema puts in its namespace under this name. */
  ghost predicate CopyOf(s: Schema, ns: string, name: string, v: Value) {
    || (name == s.logicalName && v == WithoutDefinitions(MovedValue(s)))
    || exists i | 0 <= i < |OwnDefinitions(s)| ::
         name == OwnDefinitions(s)[i].key && !Skipped(name) && v == DefinitionCopy(OwnDefinitions(s)[i], ns)
  }

  ghost predicate Provided(ns: string, e: Entry, from: set<Schema>) {
    exists s | s in from :: s.namespace == Some(ns) && CopyOf(s, ns, e.key, e.val)
  }

  ghost predicate AllProvided(ns: string, es: seq<Entry>, from: set<Schema>) {
    forall i | 0 <= i < |es| :: Provided(ns, es[i], from)
  }

  lemma PutKeys(es: seq<Entry>, key: string, val: Value)
    ensures Keys(Put(es, key, val)) == Keys(es) + {key}
  {
    var ps := Put(es, key, val);
    var i := Find(es, key);
    assert ps[i].key == key;
    assert forall j | 0 <= j < |es| :: ps[j].key == es[j].key;
  }

  lemma PutProvided(ns: string, es: seq<Entry>, e: Entry, from: set<Schema>)
    requires AllProvided(ns, es, from) && Provided(ns, e, from)
    ensures AllProvided(ns, Put(es, e.key, e.val), from)
  {
    var ps := Put(es, e.key, e.val);
    forall i | 0 <= i < |ps| ensures Provided(ns, ps[i], from) {
      assert ps[i] == e || (i < |es| && ps[i] == es[i]);
    }
  }

  lemma InsertUnder(defs: seq<Entry>, target: string, name: string, schema: Value, ns: string)
    requires InsertIntoNamespace(defs, target, name, schema).Some? && Available(defs, ns)
    ensures var ds := InsertIntoNamespace(defs, target, name, schema).value;
      Available(ds, ns) && Under(ds, ns) == if target == ns then Put(Under(defs, ns), name, schema) else Under(defs, ns)
  {
    var existing := Get(defs, target);
    var inner := if existing.None? then [Entry(name, schema)] else Put(existing.value.entries, name, schema);
    GetPut(defs, target, Obj(inner), ns);
    assert Put([], name, schema) == [Entry(name, schema)];
  }

  lemma AddDefinitionUnder(p: Progress, s: Schema, e: Entry, types: map<string, string>, ns: string)
    requires AddDefinition(p, s, e, types).Some? && Available(p.defs, ns)
    requires s.namespace.None? && e.key == ns ==> Skipped(ns) || TargetNamespace(s, ns, types).Some?
    ensures var q := AddDefinition(p, s, e, types).value;
      && Available(q.defs, ns)
      && (s.namespace.Some? ==> q.forced == p.forced)
      && Under(q.defs, ns) == if s.namespace == Some(ns) && !Skipped(e.key)
                              then Put(Under(p.defs, ns), e.key, DefinitionCopy(e, ns)) else Under(p.defs, ns)
  {
    if !Skipped(e.key) {
      var schema := Annotated(e.val, Some(e.key));
      var target := TargetNamespace(s, e.key, types);
      if target.None? {
        GetPut(p.defs, e.key, schema, ns);
      } else if s.namespace == target {
        InsertUnder(p.defs, target.value, e.key, Rewritten(schema, target.value), ns);
      }
    }
  }

  lemma PutCopy(p: Progress, s: Schema, e: Entry, ns: string, from: set<Schema>)
    requires s in from && s.namespace == Some(ns) && e in OwnDefinitions(s) && !Skipped(e.key)
    requires s.logicalName !in IGNORED_DEFINITIONS
    requires Available(p.defs, ns) && AllProvided(ns, Under(p.defs, ns), from)
    ensures var put := Put(Under(p.defs, ns), e.key, DefinitionCopy(e, ns));
      AllProvided(ns, put, from) && Keys(put) == Keys(Under(p.defs, ns)) + {e.key}
  {
    var copy := Entry(e.key, DefinitionCopy(e, ns));
    assert CopyOf(s, ns, copy.key, copy.val);
    PutProvided(ns, Under(p.defs, ns), copy, from);
    PutKeys(Under(p.defs, ns), copy.key, copy.val);
  }

  /** The definitions of a schema of the namespace all arrive there, and other schemas leave it alone. */
  lemma {:induction false} AddDefinitionsUnder(
    p: Progress, s: Schema, k: nat, types: map<string, string>, ns: string, from: set<Schema>)
    requires k <= |OwnDefinitions(s)| && s in from && ClashFree(s, types, ns)
    requires s.logicalName !in IGNORED_DEFINITIONS
    requires AddDefinitions(p, s, OwnDefinitions(s)[k..], types).Some?
    requires Available(p.defs, ns) && AllProvided(ns, Under(p.defs, ns), from)
    ensures var q := AddDefinitions(p, s, OwnDefinitions(s)[k..], types).value;
      && Available(q.defs, ns) && AllProvided(ns, Under(q.defs, ns), from)
      && (s.namespace.Some? ==> q.forced == p.forced)
      && Keys(Under(q.defs, ns))
      == Keys(Under(p.defs, ns)) + (if s.namespace == Some(ns) then KeptNames(OwnDefinitions(s)[k..]) else {})
    decreases |OwnDefinitions(s)| - k
  {
    var es := OwnDefinitions(s);
    if k < |es| {
      assert es[k..][1..] == es[k + 1..];
      var q := AddDefinition(p, s, es[k], types).value;
      AddDefinitionUnder(p, s, es[k], types, ns);
      if s.namespace == Some(ns) && !Skipped(es[k].key) {
        PutCopy(p, s, es[k], ns, from);
      }
      KeptNamesStep(es, k);
      AddDefinitionsUnder(q, s, k + 1, types, ns, from);
    }
  }

  lemma KeptNamesStep(es: seq<Entry>, k: nat)
    requires k < |es|
    ensures KeptNames(es[k..]) == (if Skipped(es[k].key) then {} else {es[k].key}) + KeptNames(es[k + 1..])
  {
    var l, r := es[k..], es[k + 1..];
    assert l == [es[k]] + r;
    assert forall i | 0 <= i < |r| :: l[i + 1] == r[i];
  }

  lemma AddSchemaUnder(defs: seq<Entry>, s: Schema, types: map<string, string>, ns: string, from: set<Schema>)
    requires AddSchema(defs, s, types).Some? && s in from && ClashFree(s, types, ns)
    requires Available(defs, ns) && AllProvided(ns, Under(defs, ns), from)
    ensures var ds := AddSchema(defs, s, types).value;
      && Available(ds, ns) && AllProvided(ns, Under(ds, ns), from)
      && Keys(Under(ds, ns)) == Keys(Under(defs, ns)) + (if s.namespace == Some(ns) then NamesOf(s) else {})
  {
    if s.logicalName !in IGNORED_DEFINITIONS {
      var es := OwnDefinitions(s);
      assert es[0..] == es;
      AddDefinitionsUnder(Progress(defs, []), s, 0, types, ns, from);
      var q := AddDefinitions(Progress(defs, []), s, es, types).value;
      var top := RenameAll(WithoutDefinitions(MovedValue(s)), q.forced);
      if s.namespace.Some? {
        InsertUnder(q.defs, s.namespace.value, s.logicalName, top, ns);
        if s.namespace == Some(ns) {
          assert CopyOf(s, ns, s.logicalName, top);
          PutProvided(ns, Under(q.defs, ns), Entry(s.logicalName, top), from);
          PutKeys(Under(q.defs, ns), s.logicalName, top);
        }
      } else {
        GetPut(q.defs, s.logicalName, top, ns);
      }
    }
  }

  lemma {:induction false} AddSchemasUnder(
    defs: seq<Entry>, schemas: seq<Schema>, types: map<string, string>, ns: string, from: set<Schema>)
    requires AddSchemas(defs, schemas, types).Some?
    requires forall i | 0 <= i < |schemas| :: schemas[i] in from && ClashFree(schemas[i], types, ns)
    requires Available(defs, ns) && AllProvided(ns, Under(defs, ns), from)
    ensures var ds := AddSchemas(defs, schemas, types).value;
      && AllProvided(ns, Under(ds, ns), from)
      && Keys(Under(ds, ns)) == Keys(Under(defs, ns)) + NamesIn(schemas, ns)
    decreases |schemas|
  {
    if schemas != [] {
      AddSchemaUnder(defs, schemas[0], types, ns, from);
      AddSchemasUnder(AddSchema(defs, schemas[0], types).value, schemas[1..], types, ns, from);
    }
  }

  ghost predicate NamespaceClashFree(schemas: seq<Schema>, ns: string) {
    forall i | 0 <= i < |schemas| :: ClashFree(schemas[i], CollectNamespacedTypes(schemas), ns)
  }

  /**
   A namespace holds exactly the names that its schemas define, and every value under it is the copy that one of
   its schemas put there.
   */
  lemma NamespaceContents(schemas: seq<Schema>, ns: string)
    requires BundleDefinitions(schemas).Some? && NamespaceClashFree(schemas, ns)
    ensures var defs := BundleDefinitions(schemas).value;
      && Keys(Under(defs, ns)) == NamesIn(schemas, ns)
      && AllProvided(ns, Under(defs, ns), set s | s in schemas)
  {
    AddSchemasUnder([], schemas, CollectNamespacedTypes(schemas), ns, set s | s in schemas);
  }

  // Which references resolve

  /** The reference points at an entry under definitions/ns. */
  ghost predicate Resolves(defs: seq<Entry>, ns: string, r: string) {
    exists name :: name in Keys(Under(defs, ns)) && r == DEFINITIONS_POINTER + (ns + "/" + name)
  }

  /** Every reference of the schema targets the schema itself or one of its own definitions that is not skipped. */
  ghost predicate Closed(s: Schema, ns: string) {
    forall r | Mentions(s.value, r) ::
      exists name :: name in NamesOf(s) && r == DEFINITIONS_POINTER + name && !HasPrefix(name, ns + "/")
  }

  lemma MovedRef(name: string, ns: string)
    requires !HasPrefix(name, ns + "/")
    ensures RewriteRef(DEFINITIONS_POINTER + name, ns) == DEFINITIONS_POINTER + (ns + "/" + name)
  {
    assert (DEFINITIONS_POINTER + name)[|DEFINITIONS_POINTER|..] == name;
  }

  lemma RemoveMentions(es: seq<Entry>, key: string, r: string)
    requires Mentions(Obj(Remove(es, key)), r)
    ensures Mentions(Obj(es), r)
  {
    var rs := Remove(es, key);
    var i :| 0 <= i < |rs| && ((rs[i].key == "$ref" && rs[i].val == Str(r)) || Mentions(rs[i].val, r));
    var j := if i == Find(es, key) && Find(es, key) < |es| then |es| - 1 else i;
    assert es[j] == rs[i];
  }

  lemma MemberMentions(v: Value, key: string, i: nat, r: string)
    requires i < |ObjectEntries(Member(v, key))| && Mentions(ObjectEntries(Member(v, key))[i].val, r)
    ensures Mentions(v, r)
  {
    var j := Find(v.entries, key);
    assert Mentions(v.entries[j].val, r);
  }

  lemma DefinitionCopyMentions(e: Entry, ns: string, r': string) returns (r: string)
    requires Mentions(DefinitionCopy(e, ns), r')
    ensures Mentions(e.val, r) && r' == RewriteRef(r, ns)
  {
    var annotated := Annotated(e.val, Some(e.key));
    RewrittenMentions(annotated, ns, r');
    r :| Mentions(annotated, r) && r' == RewriteRef(r, ns);
    AnnotatedMentions(e.val, Some(e.key), r);
  }

  /** The references of a bundled copy are the schema's references, rewritten: once, although the code does it twice. */
  lemma CopyMentions(s: Schema, ns: string, name: string, v: Value, r': string) returns (r: string)
    requires s.namespace == Some(ns) && CopyOf(s, ns, name, v) && Mentions(v, r')
    ensures Mentions(s.value, r) && r' == RewriteRef(r, ns)
  {
    var moved := MovedValue(s);
    if name == s.logicalName && v == WithoutDefinitions(moved) {
      if moved.Obj? {
        RemoveMentions(moved.entries, "definitions", r');
      }
      RewrittenMentions(s.value, ns, r');
      r :| Mentions(s.value, r) && r' == RewriteRef(r, ns);
    } else {
      var i :| 0 <= i < |OwnDefinitions(s)| && v == DefinitionCopy(OwnDefinitions(s)[i], ns);
      var e := OwnDefinitions(s)[i];
      var once := DefinitionCopyMentions(e, ns, r');
      MemberMentions(moved, "definitions", i, once);
      RewrittenMentions(s.value, ns, once);
      r :| Mentions(s.value, r) && once == RewriteRef(r, ns);
      RewriteRefIdempotent(r, ns);
    }
  }

  lemma {:induction false} NamesInContains(schemas: seq<Schema>, i: nat, ns: string)
    requires i < |schemas| && schemas[i].namespace == Some(ns)
    ensures NamesOf(schemas[i]) <= NamesIn(schemas, ns)
    decreases |schemas|
  {
    if i > 0 {
      NamesInContains(schemas[1..], i - 1, ns);
    }
  }

  /** Every reference in every bundled copy of a closed schema resolves in the finished bundle. */
  lemma ClosedSchemasResolve(schemas: seq<Schema>, i: nat, ns: string, name: string, v: Value, r': string)
    requires BundleDefinitions(schemas).Some? && NamespaceClashFree(schemas, ns)
    requires i < |schemas| && schemas[i].namespace == Some(ns) && Closed(schemas[i], ns)
    requires CopyOf(schemas[i], ns, name, v) && Mentions(v, r')
    ensures Resolves(BundleDefinitions(schemas).value, ns, r')
  {
    var r := CopyMentions(schemas[i], ns, name, v, r');
    var target :| target in NamesOf(schemas[i]) && r == DEFINITIONS_POINTER + target && !HasPrefix(target, ns + "/");
    MovedRef(target, ns);
    NamesInContains(schemas, i, ns);
    NamespaceContents(schemas, ns);
  }

  /** When every schema of a namespace is closed, no reference under definitions/ns dangles. */
  lemma NamespaceResolves(schemas: seq<Schema>, ns: string)
    requires BundleDefinitions(schemas).Some? && NamespaceClashFree(schemas, ns)
    requires forall i | 0 <= i < |schemas| && schemas[i].namespace == Some(ns) :: Closed(schemas[i], ns)
    ensures var defs := BundleDefinitions(schemas).value;
      forall k, r' | 0 <= k < |Under(defs, ns)| && Mentions(Under(defs, ns)[k].val, r') :: Resolves(defs, ns, r')
  {
    var defs := BundleDefinitions(schemas).value;
    NamespaceContents(schemas, ns);
    forall k, r' | 0 <= k < |Under(defs, ns)| && Mentions(Under(defs, ns)[k].val, r') ensures Resolves(defs, ns, r') {
      var e := Under(defs, ns)[k];
      assert Provided(ns, e, set s | s in schemas);
      var s :| s in schemas && s.namespace == Some(ns) && CopyOf(s, ns, e.key, e.val);
      var i :| 0 <= i < |schemas| && schemas[i] == s;
      ClosedSchemasResolve(schemas, i, ns, e.key, e.val, r');
    }
  }

  /** A reference into the namespace resolves exactly when some schema of the namespace defines its target. */
  lemma ResolvesUnder(schemas: seq<Schema>, ns: string, name: string)
    requires BundleDefinitions(schemas).Some? && NamespaceClashFree(schemas, ns)
    ensures Resolves(BundleDefinitions(schemas).value, ns, DEFINITIONS_POINTER + (ns + "/" + name))
       <==> name in NamesIn(schemas, ns)
  {
    NamespaceContents(schemas, ns);
    forall other | DEFINITIONS_POINTER + (ns + "/" + name) == DEFINITIONS_POINTER + (ns + "/" + other)
      ensures name == other
    {
      CancelPrefix(DEFINITIONS_POINTER, ns + "/" + name, ns + "/" + other);
      CancelPrefix(ns + "/", name, other);
    }
  }

  /** A rewritten reference resolves exactly when some schema of the namespace defines its target. */
  lemma ResolvesExactly(schemas: seq<Schema>, ns: string, name: string)
    requires BundleDefinitions(schemas).Some? && NamespaceClashFree(schemas, ns) && !HasPrefix(name, ns + "/")
    ensures Resolves(BundleDefinitions(schemas).value, ns, RewriteRef(DEFINITIONS_POINTER + name, ns))
       <==> name in NamesIn(schemas, ns)
  {
    MovedRef(name, ns);
    ResolvesUnder(schemas, ns, name);
  }

  // The code itself, with its loops

  method CollectTypes(schemas: seq<Schema>) returns (types: map<string, string>)
    ensures types == CollectNamespacedTypes(schemas)
  {
    types := map[];
    for i := 0 to |schemas|
      invariant types == CollectNamespacedTypes(schemas[..i])
    {
      var s := schemas[i];
      if s.namespace.Some? {
        types := OrInsert(types, s.logicalName, s.namespace.value);
        types := InsertMissing(types, ObjectEntries(Member(s.value, "definitions")), s.namespace.value);
        types := InsertMissing(types, ObjectEntries(Member(s.value, "$defs")), s.namespace.value);
      }
      assert schemas[..i + 1][..i] == schemas[..i];
    }
    assert schemas[..|schemas|] == schemas;
  }

  method InsertMissing(types: map<string, string>, es: seq<Entry>, ns: string) returns (r: map<string, string>)
    ensures r == OrInsertAll(types, es, ns)
  {
    r := types;
    for i := 0 to |es|
      invariant OrInsertAll(r, es[i..], ns) == OrInsertAll(types, es, ns)
    {
      assert es[i..][1..] == es[i + 1..];
      r := OrInsert(r, es[i].key, ns);
    }
  }

  method AddOwnDefinitions(start: seq<Entry>, s: Schema, es: seq<Entry>, types: map<string, string>)
    returns (r: Option<Progress>)
    ensures r == AddDefinitions(Progress(start, []), s, es, types)
  {
    var defs, forced := start, [];
    for i := 0 to |es|
      invariant AddDefinitions(Progress(defs, forced), s, es[i..], types)
             == AddDefinitions(Progress(start, []), s, es, types)
    {
      assert es[i..][1..] == es[i + 1..];
      var name := es[i].key;
      if name in IGNORED_DEFINITIONS { continue; }
      if name in SPECIAL_DEFINITIONS { continue; }
      var schema := Annotated(es[i].val, Some(name));
      var target := if s.namespace.Some? then s.namespace
                    else if s.inV1Dir then None else NamespaceForDefinition(name, types);
      if target.Some? {
        if s.namespace == target {
          schema := Rewritten(schema, target.value);
          var inserted := InsertIntoNamespace(defs, target.value, name, schema);
          if inserted.None? { return None; }
          defs := inserted.value;
        } else if (name, target.value) !in forced {
          forced := forced + [(name, target.value)];
        }
      } else {
        defs := Put(defs, name, schema);
      }
    }
    r := Some(Progress(defs, forced));
  }

  /** Moves the references to one deferred definition after the other. */
  method RenameForced(start: Value, forced: seq<(string, string)>) returns (value: Value)
    ensures value == RenameAll(start, forced)
  {
    value := start;
    for j := 0 to |forced|
      invariant RenameAll(value, forced[j..]) == RenameAll(start, forced)
    {
      assert forced[j..][1..] == forced[j + 1..];
      value := Renamed(value, forced[j].1, forced[j].0);
    }
  }

  method BuildSchemaBundle(schemas: seq<Schema>) returns (r: Option<Value>)
    ensures r.Some? <==> BundleDefinitions(schemas).Some?
    ensures r.Some? ==> IsBundle(r.value, BundleDefinitions(schemas).value)
  {
    var types := CollectTypes(schemas);
    var definitions := [];
    for i := 0 to |schemas|
      invariant AddSchemas(definitions, schemas[i..], types) == BundleDefinitions(schemas)
    {
      assert schemas[i..][1..] == schemas[i + 1..];
      var s := schemas[i];
      if s.logicalName in IGNORED_DEFINITIONS { continue; }
      var value := s.value;
      if s.namespace.Some? {
        value := Rewritten(value, s.namespace.value);
      }
      var defs := ObjectEntries(Member(value, "definitions"));
      if value.Obj? {
        value := Obj(Remove(value.entries, "definitions"));
      }
      var p := AddOwnDefinitions(definitions, s, defs, types);
      if p.None? { return None; }
      var forced := p.value.forced;
      value := RenameForced(value, forced);
      if s.namespace.Some? {
        var inserted := InsertIntoNamespace(p.value.defs, s.namespace.value, s.logicalName, value);
        if inserted.None? { return None; }
        definitions := inserted.value;
      } else {
        definitions := Put(p.value.defs, s.logicalName, value);
      }
    }
    BundleRootIsBundle(definitions);
    r := Some(BundleRoot(definitions));
  }
}
