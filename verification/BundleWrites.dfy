/**
 Bundling as a list of insertions: what goes where, in which order, and when an insertion into a namespace fails because
 something that is not an object is there.
 */
module BundleWrites {
  import opened Seqs
  import opened Json
  import opened Annotate
  import opened Bundle

  /** What bundling does to the definitions, one insertion at a time. */
  datatype Write = AtRoot(name: string, value: Value) | InNamespace(ns: string, name: string, value: Value)

  function Apply(defs: seq<Entry>, w: Write): Option<seq<Entry>> {
    match w
    case AtRoot(name, value) => Some(Put(defs, name, value))
    case InNamespace(ns, name, value) => InsertIntoNamespace(defs, ns, name, value)
  }

  function ApplyAll(defs: seq<Entry>, ws: seq<Write>): Option<seq<Entry>>
    decreases |ws|
  {
    if ws == [] then Some(defs)
    else
      var ds := Apply(defs, ws[0]);
      if ds.Some? then ApplyAll(ds.value, ws[1..]) else None
  }

  function DefinitionWrites(s: Schema, e: Entry, types: map<string, string>): seq<Write> {
    if Skipped(e.key) then []
    else
      var schema, target := Annotated(e.val, Some(e.key)), TargetNamespace(s, e.key, types);
      if target.None? then [AtRoot(e.key, schema)]
      else if s.namespace == target then [InNamespace(target.value, e.key, Rewritten(schema, target.value))]
      else []
  }

  function AllDefinitionWrites(s: Schema, es: seq<Entry>, types: map<string, string>): seq<Write>
    decreases |es|
  {
    if es == [] then [] else DefinitionWrites(s, es[0], types) + AllDefinitionWrites(s, es[1..], types)
  }

  /** The definitions whose references in the top value are moved into another namespace, in order. */
  function Deferred(s: Schema, es: seq<Entry>, types: map<string, string>, forced: seq<(string, string)>)
    : seq<(string, string)>
    decreases |es|
  {
    if es == [] then forced
    else
      var name, target := es[0].key, TargetNamespace(s, es[0].key, types);
      if Skipped(name) || target.None? || s.namespace == target || (name, target.value) in forced
      then Deferred(s, es[1..], types, forced)
      else Deferred(s, es[1..], types, forced + [(name, target.value)])
  }

  function TopValue(s: Schema, types: map<string, string>): Value {
    RenameAll(WithoutDefinitions(MovedValue(s)), Deferred(s, OwnDefinitions(s), types, []))
  }

  function SchemaWrites(s: Schema, types: map<string, string>): seq<Write> {
    if s.logicalName in IGNORED_DEFINITIONS then []
    else
      AllDefinitionWrites(s, OwnDefinitions(s), types)
      + [if s.namespace.Some? then InNamespace(s.namespace.value, s.logicalName, TopValue(s, types))
         else AtRoot(s.logicalName, TopValue(s, types))]
  }

  /** Every insertion that bundling makes or tries to make. */
  function Writes(schemas: seq<Schema>, types: map<string, string>): seq<Write>
    decreases |schemas|
  {
    if schemas == [] then [] else SchemaWrites(schemas[0], types) + Writes(schemas[1..], types)
  }

  lemma {:induction false} ApplyAppend(defs: seq<Entry>, a: seq<Write>, b: seq<Write>)
    ensures ApplyAll(defs, a + b)
         == if ApplyAll(defs, a).Some? then ApplyAll(ApplyAll(defs, a).value, b) else None
    decreases |a|
  {
    if a == [] {
      assert a + b == b;
    } else {
      assert (a + b)[1..] == a[1..] + b;
      if Apply(defs, a[0]).Some? {
        ApplyAppend(Apply(defs, a[0]).value, a[1..], b);
      }
    }
  }

  lemma AddDefinitionWrites(p: Progress, s: Schema, e: Entry, types: map<string, string>)
    ensures var q, ds := AddDefinition(p, s, e, types), ApplyAll(p.defs, DefinitionWrites(s, e, types));
      && (q.Some? <==> ds.Some?)
      && (q.Some? ==> q.value == Progress(ds.value, Deferred(s, [e], types, p.forced)))
  {
    var ws := DefinitionWrites(s, e, types);
    assert [e][1..] == [];
    if ws != [] {
      assert ws[1..] == [];
    }
  }

  lemma DeferredStep(s: Schema, es: seq<Entry>, types: map<string, string>, forced: seq<(string, string)>)
    requires es != []
    ensures Deferred(s, es, types, forced) == Deferred(s, es[1..], types, Deferred(s, [es[0]], types, forced))
  {
    assert [es[0]][1..] == [];
  }

  lemma {:induction false} AddDefinitionsWrite(p: Progress, s: Schema, es: seq<Entry>, types: map<string, string>)
    ensures var q, ds := AddDefinitions(p, s, es, types), ApplyAll(p.defs, AllDefinitionWrites(s, es, types));
      && (q.Some? <==> ds.Some?)
      && (q.Some? ==> q.value == Progress(ds.value, Deferred(s, es, types, p.forced)))
    decreases |es|
  {
    if es != [] {
      AddDefinitionWrites(p, s, es[0], types);
      ApplyAppend(p.defs, DefinitionWrites(s, es[0], types), AllDefinitionWrites(s, es[1..], types));
      var q := AddDefinition(p, s, es[0], types);
      if q.Some? {
        AddDefinitionsWrite(q.value, s, es[1..], types);
        DeferredStep(s, es, types, p.forced);
      }
    }
  }

  lemma AddSchemaWrites(defs: seq<Entry>, s: Schema, types: map<string, string>)
    ensures AddSchema(defs, s, types) == ApplyAll(defs, SchemaWrites(s, types))
  {
    if s.logicalName !in IGNORED_DEFINITIONS {
      var es := OwnDefinitions(s);
      AddDefinitionsWrite(Progress(defs, []), s, es, types);
      var own, ws := AllDefinitionWrites(s, es, types), SchemaWrites(s, types);
      var last := ws[|ws| - 1];
      ApplyAppend(defs, own, [last]);
      assert ws == own + [last] && [last][1..] == [];
    }
  }

  /** Bundling is those insertions, in order. */
  lemma {:induction false} BundlingIsWriting(defs: seq<Entry>, schemas: seq<Schema>, types: map<string, string>)
    ensures AddSchemas(defs, schemas, types) == ApplyAll(defs, Writes(schemas, types))
    decreases |schemas|
  {
    if schemas != [] {
      AddSchemaWrites(defs, schemas[0], types);
      ApplyAppend(defs, SchemaWrites(schemas[0], types), Writes(schemas[1..], types));
      var ds := AddSchema(defs, schemas[0], types);
      if ds.Some? {
        BundlingIsWriting(ds.value, schemas[1..], types);
      }
    }
  }

  /** The value last put at the root under a name. */
  function LastAtRoot(ws: seq<Write>, name: string): Option<Value> {
    if ws == [] then None
    else
      var w := ws[|ws| - 1];
      if w.AtRoot? && w.name == name then Some(w.value) else LastAtRoot(ws[..|ws| - 1], name)
  }

  /** The namespace is occupied by a root definition that is not an object. */
  predicate Occupied(ws: seq<Write>, ns: string) {
    LastAtRoot(ws, ns).Some? && !LastAtRoot(ws, ns).value.Obj?
  }

  /** An insertion into a namespace comes when the name is taken. */
  predicate Clashes(ws: seq<Write>, j: nat)
    requires j < |ws|
  {
    ws[j].InNamespace? && Occupied(ws[..j], ws[j].ns)
  }

  predicate SomeClash(ws: seq<Write>) {
    exists j | 0 <= j < |ws| :: Clashes(ws, j)
  }

  lemma {:induction false} WritingFails(ws: seq<Write>, ns: string)
    ensures ApplyAll([], ws).None? <==> SomeClash(ws)
    ensures ApplyAll([], ws).Some? ==> (Available(ApplyAll([], ws).value, ns) <==> !Occupied(ws, ns))
    decreases |ws|
  {
    if ws != [] {
      var n := |ws| - 1;
      var before, w := ws[..n], ws[n];
      WritingFails(before, ns);
      if w.InNamespace? {
        WritingFails(before, w.ns);
      }
      ApplyAppend([], before, [w]);
      assert ws == before + [w] && [w][1..] == [];
      ClashesBefore(ws);
      if ApplyAll([], before).Some? {
        LastWriteAvailable(ApplyAll([], before).value, w, ns);
      }
    }
  }

  lemma ClashesBefore(ws: seq<Write>)
    requires ws != []
    ensures var n := |ws| - 1;
      SomeClash(ws) <==> Clashes(ws, n) || SomeClash(ws[..n])
  {
    var n := |ws| - 1;
    forall j | 0 <= j < n ensures Clashes(ws, j) <==> Clashes(ws[..n], j) {
      assert ws[..n][..j] == ws[..j];
    }
  }

  lemma LastWriteAvailable(defs: seq<Entry>, w: Write, ns: string)
    ensures w.InNamespace? ==> (Apply(defs, w).Some? <==> Available(defs, w.ns))
    ensures Apply(defs, w).Some? ==>
      (Available(Apply(defs, w).value, ns) <==>
        if w.AtRoot? && w.name == ns then w.value.Obj? else Available(defs, ns))
  {
    match w
    case AtRoot(name, value) => GetPut(defs, name, value, ns);
    case InNamespace(target, name, value) =>
      var existing := Get(defs, target);
      if existing.None? || existing.value.Obj? {
        var inner := if existing.None? then [Entry(name, value)] else Put(existing.value.entries, name, value);
        GetPut(defs, target, Obj(inner), ns);
      }
  }

  /**
   Bundling fails exactly when a schema or definition goes into a namespace at a moment when the last root definition
   under the namespace's name is not an object.
   */
  lemma BundlingFailsExactly(schemas: seq<Schema>)
    ensures BundleDefinitions(schemas).None? <==> SomeClash(Writes(schemas, CollectNamespacedTypes(schemas)))
  {
    BundlingIsWriting([], schemas, CollectNamespacedTypes(schemas));
    WritingFails(Writes(schemas, CollectNamespacedTypes(schemas)), "");
  }

  // The finished bundle's own entries

  lemma {:induction false} LastAtRootAppend(a: seq<Write>, b: seq<Write>, name: string)
    ensures LastAtRoot(a + b, name)
         == if LastAtRoot(b, name).Some? then LastAtRoot(b, name) else LastAtRoot(a, name)
    decreases |b|
  {
    if b == [] {
      assert a + b == a;
    } else {
      assert (a + b)[..|a + b| - 1] == a + b[..|b| - 1];
      LastAtRootAppend(a, b[..|b| - 1], name);
    }
  }

  ghost predicate NoNamespace(ws: seq<Write>, name: string) {
    forall i | 0 <= i < |ws| && ws[i].InNamespace? :: ws[i].ns != name
  }

  lemma WriteElsewhere(defs: seq<Entry>, w: Write, name: string)
    requires w.InNamespace? ==> w.ns != name
    ensures Apply(defs, w).Some? ==>
      Get(Apply(defs, w).value, name) == if w.AtRoot? && w.name == name then Some(w.value) else Get(defs, name)
  {
    match w
    case AtRoot(n, value) => GetPut(defs, n, value, name);
    case InNamespace(ns, n, value) =>
      var existing := Get(defs, ns);
      if existing.None? || existing.value.Obj? {
        var inner := if existing.None? then [Entry(n, value)] else Put(existing.value.entries, n, value);
        GetPut(defs, ns, Obj(inner), name);
      }
  }

  /** What the bundle holds at the root under a name that is no namespace is what was last put there. */
  lemma {:induction false} RootHolds(ws: seq<Write>, name: string)
    requires ApplyAll([], ws).Some? && NoNamespace(ws, name)
    ensures Get(ApplyAll([], ws).value, name) == LastAtRoot(ws, name)
    decreases |ws|
  {
    if ws != [] {
      var before, w := ws[..|ws| - 1], ws[|ws| - 1];
      ApplyAppend([], before, [w]);
      assert ws == before + [w] && [w][1..] == [];
      RootHolds(before, name);
      WriteElsewhere(ApplyAll([], before).value, w, name);
    }
  }

  lemma {:induction false} OwnNamespaceOnly(s: Schema, es: seq<Entry>, types: map<string, string>, name: string)
    requires s.namespace != Some(name)
    ensures NoNamespace(AllDefinitionWrites(s, es, types), name)
    decreases |es|
  {
    if es != [] {
      OwnNamespaceOnly(s, es[1..], types, name);
    }
  }

  lemma {:induction false} KnownNamespacesOnly(schemas: seq<Schema>, types: map<string, string>, name: string)
    requires forall j | 0 <= j < |schemas| :: schemas[j].namespace != Some(name)
    ensures NoNamespace(Writes(schemas, types), name)
    decreases |schemas|
  {
    if schemas != [] {
      OwnNamespaceOnly(schemas[0], OwnDefinitions(schemas[0]), types, name);
      KnownNamespacesOnly(schemas[1..], types, name);
    }
  }

  lemma WritesInThree(a: seq<Write>, b: seq<Write>, c: seq<Write>)
    ensures a + (b + c) == (a + b) + c
  {
  }

  lemma {:induction false} WritesAppend(a: seq<Schema>, b: seq<Schema>, types: map<string, string>)
    ensures Writes(a + b, types) == Writes(a, types) + Writes(b, types)
    decreases |a|
  {
    if a == [] {
      assert a + b == b;
    } else {
      assert (a + b)[1..] == a[1..] + b;
      WritesAppend(a[1..], b, types);
      WritesInThree(SchemaWrites(a[0], types), Writes(a[1..], types), Writes(b, types));
    }
  }

  /** No later schema puts its value, or one of its definitions, at the root under the schema's name. */
  predicate LastOfItsName(schemas: seq<Schema>, i: nat)
    requires i < |schemas|
  {
    LastAtRoot(Writes(schemas[i + 1..], CollectNamespacedTypes(schemas)), schemas[i].logicalName).None?
  }

  lemma LastOfSchema(s: Schema, types: map<string, string>)
    requires s.namespace.None? && s.logicalName !in IGNORED_DEFINITIONS
    ensures LastAtRoot(SchemaWrites(s, types), s.logicalName) == Some(TopValue(s, types))
  {
  }

  lemma LastOfAll(schemas: seq<Schema>, i: nat, types: map<string, string>, name: string)
    requires i < |schemas| && LastAtRoot(SchemaWrites(schemas[i], types), name).Some?
    requires LastAtRoot(Writes(schemas[i + 1..], types), name).None?
    ensures LastAtRoot(Writes(schemas, types), name) == LastAtRoot(SchemaWrites(schemas[i], types), name)
  {
    var a, b := schemas[..i], schemas[i..];
    assert schemas == a + b && b[0] == schemas[i] && b[1..] == schemas[i + 1..];
    WritesAppend(a, b, types);
    LastAtRootAppend(Writes(a, types), Writes(b, types), name);
    LastAtRootAppend(SchemaWrites(b[0], types), Writes(b[1..], types), name);
  }

  lemma BundleHolds(schemas: seq<Schema>, name: string)
    requires BundleDefinitions(schemas).Some?
    requires forall j | 0 <= j < |schemas| :: schemas[j].namespace != Some(name)
    ensures Get(BundleDefinitions(schemas).value, name)
         == LastAtRoot(Writes(schemas, CollectNamespacedTypes(schemas)), name)
  {
    BundlingIsWriting([], schemas, CollectNamespacedTypes(schemas));
    KnownNamespacesOnly(schemas, CollectNamespacedTypes(schemas), name);
    RootHolds(Writes(schemas, CollectNamespacedTypes(schemas)), name);
  }

  /** A root schema that is the last of its name, which is no namespace: its entry in the bundle is its top value. */
  lemma RootEntryIsTopValue(schemas: seq<Schema>, i: nat)
    requires BundleDefinitions(schemas).Some? && i < |schemas| && LastOfItsName(schemas, i)
    requires schemas[i].namespace.None? && schemas[i].logicalName !in IGNORED_DEFINITIONS
    requires forall j | 0 <= j < |schemas| :: schemas[j].namespace != Some(schemas[i].logicalName)
    ensures Get(BundleDefinitions(schemas).value, schemas[i].logicalName)
         == Some(TopValue(schemas[i], CollectNamespacedTypes(schemas)))
  {
    BundleHolds(schemas, schemas[i].logicalName);
    LastOfSchema(schemas[i], CollectNamespacedTypes(schemas));
    LastOfAll(schemas, i, CollectNamespacedTypes(schemas), schemas[i].logicalName);
  }

  // When no namespace name is a root definition

  /** The write puts nothing at the root under a name that is some schema's namespace. */
  ghost predicate Harmless(w: Write, schemas: seq<Schema>) {
    match w
    case AtRoot(name, _) =>
      forall j | 0 <= j < |schemas| && schemas[j].namespace.Some? :: schemas[j].namespace.value != name
    case InNamespace(ns, _, _) => exists j | 0 <= j < |schemas| :: schemas[j].namespace == Some(ns)
  }

  ghost predicate AllHarmless(ws: seq<Write>, schemas: seq<Schema>) {
    forall i | 0 <= i < |ws| :: Harmless(ws[i], schemas)
  }

  /** The schema puts nothing at the root under any schema's namespace. */
  ghost predicate ClashFreeForAll(s: Schema, schemas: seq<Schema>) {
    forall j | 0 <= j < |schemas| && schemas[j].namespace.Some? ::
      ClashFree(s, CollectNamespacedTypes(schemas), schemas[j].namespace.value)
  }

  lemma {:induction false} DefinitionsHarmless(s: Schema, k: nat, schemas: seq<Schema>)
    requires k <= |OwnDefinitions(s)| && s.logicalName !in IGNORED_DEFINITIONS
    requires s in schemas && ClashFreeForAll(s, schemas)
    ensures AllHarmless(AllDefinitionWrites(s, OwnDefinitions(s)[k..], CollectNamespacedTypes(schemas)), schemas)
    decreases |OwnDefinitions(s)| - k
  {
    var es := OwnDefinitions(s);
    if k < |es| {
      assert es[k..][1..] == es[k + 1..];
      DefinitionsHarmless(s, k + 1, schemas);
      DefinitionHarmless(s, k, schemas);
    }
  }

  lemma DefinitionHarmless(s: Schema, k: nat, schemas: seq<Schema>)
    requires k < |OwnDefinitions(s)| && s.logicalName !in IGNORED_DEFINITIONS
    requires s in schemas && ClashFreeForAll(s, schemas)
    ensures AllHarmless(DefinitionWrites(s, OwnDefinitions(s)[k], CollectNamespacedTypes(schemas)), schemas)
  {
  }

  lemma SchemaHarmless(s: Schema, schemas: seq<Schema>)
    requires s in schemas && ClashFreeForAll(s, schemas)
    ensures AllHarmless(SchemaWrites(s, CollectNamespacedTypes(schemas)), schemas)
  {
    if s.logicalName !in IGNORED_DEFINITIONS {
      assert OwnDefinitions(s)[0..] == OwnDefinitions(s);
      DefinitionsHarmless(s, 0, schemas);
    }
  }

  lemma {:induction false} WritesHarmless(rest: seq<Schema>, schemas: seq<Schema>)
    requires forall i | 0 <= i < |rest| :: rest[i] in schemas && ClashFreeForAll(rest[i], schemas)
    ensures AllHarmless(Writes(rest, CollectNamespacedTypes(schemas)), schemas)
    decreases |rest|
  {
    if rest != [] {
      SchemaHarmless(rest[0], schemas);
      WritesHarmless(rest[1..], schemas);
    }
  }

  lemma {:induction false} NothingAtRoot(ws: seq<Write>, schemas: seq<Schema>, j: nat)
    requires AllHarmless(ws, schemas) && j < |schemas| && schemas[j].namespace.Some?
    ensures LastAtRoot(ws, schemas[j].namespace.value).None?
    decreases |ws|
  {
    if ws != [] {
      NothingAtRoot(ws[..|ws| - 1], schemas, j);
      assert Harmless(ws[|ws| - 1], schemas);
    }
  }

  /** In particular bundling does not fail when no namespace name is also a root definition. */
  lemma BundlingSucceeds(schemas: seq<Schema>)
    requires forall j | 0 <= j < |schemas| && schemas[j].namespace.Some? ::
      NamespaceClashFree(schemas, schemas[j].namespace.value)
    ensures BundleDefinitions(schemas).Some?
  {
    var ws := Writes(schemas, CollectNamespacedTypes(schemas));
    WritesHarmless(schemas, schemas);
    BundlingFailsExactly(schemas);
    forall j | 0 <= j < |ws| ensures !Clashes(ws, j) {
      if ws[j].InNamespace? {
        assert Harmless(ws[j], schemas);
        var i :| 0 <= i < |schemas| && schemas[i].namespace == Some(ws[j].ns);
        NothingAtRoot(ws[..j], schemas, i);
      }
    }
  }
}
