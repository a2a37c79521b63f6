/**
 The entries of the finished bundle: which names are there, and for each of them the schema or definition it is, with
 its references moved and titles added.
 */
module BundleEntries {
  import opened Seqs
  import opened Text
  import opened Json
  import opened Annotate
  import opened Bundle
  import opened BundleWrites
  import opened BundleForced
  import opened BundleTrees

  // The parts

  /** Moving a reference: under the pointer and not yet under the namespace, it goes there; otherwise it stays. */
  lemma {:induction false} RewriteRefExactly(target: string, r: string, ns: string)
    ensures RewriteRef("#/definitions/" + target, ns)
         == "#/definitions/" + (if ns + "/" <= target then target else ns + "/" + target)
    ensures !("#/definitions/" <= r) ==> RewriteRef(r, ns) == r
  {
    assert (DEFINITIONS_POINTER + target)[|DEFINITIONS_POINTER|..] == target;
  }

  lemma {:induction false} RemoveExactly(es: seq<Entry>, key: string, other: string)
    requires Distinct(es)
    ensures Distinct(Remove(es, key))
    ensures Get(Remove(es, key), other) == if other == key then None else Get(es, other)
  {
    var i, rs := Find(es, key), Remove(es, key);
    var last := |es| - 1;
    if i < |es| {
      forall k | 0 <= k < |rs| ensures rs[k] == es[if k == i then last else k] {
        RemovedFrom(es, key, k);
      }
      if other == key || !Has(es, other) {
        FindIs(rs, other, |rs|);
      } else {
        var j := Find(es, other);
        FindUnique(rs, if j == last then i else j);
      }
    }
  }

  /** The names that are skipped. */
  lemma {:induction false} SkippedExactly(name: string)
    ensures Skipped(name) <==>
      || name == "Option<()>" || name == "ClientNotification" || name == "ClientRequest" || name == "EventMsg"
      || name == "ServerNotification" || name == "ServerRequest"
  {
  }

  lemma {:induction false} TrimDigitsIs(stem: string, digits: string)
    requires stem == "" || !IsDigit(stem[|stem| - 1])
    requires forall i | 0 <= i < |digits| :: IsDigit(digits[i])
    ensures TrimDigits(stem + digits) == stem
    decreases |digits|
  {
    if digits == "" {
      assert stem + digits == stem;
    } else {
      assert (stem + digits)[..|stem + digits| - 1] == stem + digits[..|digits| - 1];
      TrimDigitsIs(stem, digits[..|digits| - 1]);
    }
  }

  /** A name belongs to its own namespace if it has one, and otherwise to that of its stem before trailing digits. */
  lemma {:induction false} NamespaceForExactly(stem: string, digits: string, types: map<string, string>)
    requires stem == "" || !('0' <= stem[|stem| - 1] <= '9')
    requires forall i | 0 <= i < |digits| :: '0' <= digits[i] <= '9'
    ensures NamespaceForDefinition(stem + digits, types)
         == if stem + digits in types then Some(types[stem + digits]) else Lookup(types, stem)
  {
    TrimDigitsIs(stem, digits);
    if digits == "" { assert stem + digits == stem; }
  }

  // What is in a namespace is what was last put there

  function LastInNamespace(ws: seq<Write>, ns: string, name: string): Option<Value> {
    if ws == [] then None
    else
      var w := ws[|ws| - 1];
      if w.InNamespace? && w.ns == ns && w.name == name then Some(w.value)
      else LastInNamespace(ws[..|ws| - 1], ns, name)
  }

  ghost predicate NeverAtRoot(ws: seq<Write>, name: string) {
    forall i | 0 <= i < |ws| && ws[i].AtRoot? :: ws[i].name != name
  }

  lemma WriteUnder(defs: seq<Entry>, w: Write, ns: string, name: string)
    requires Apply(defs, w).Some? && Available(defs, ns) && (w.AtRoot? ==> w.name != ns)
    ensures var ds := Apply(defs, w).value;
      && Available(ds, ns)
      && Get(Under(ds, ns), name)
      == if w.InNamespace? && w.ns == ns && w.name == name then Some(w.value) else Get(Under(defs, ns), name)
  {
    match w
    case AtRoot(n, value) => GetPut(defs, n, value, ns);
    case InNamespace(target, n, value) =>
      InsertUnder(defs, target, n, value, ns);
      GetPut(Under(defs, ns), n, value, name);
  }

  lemma {:induction false} NamespaceHolds(ws: seq<Write>, ns: string, name: string)
    requires ApplyAll([], ws).Some? && NeverAtRoot(ws, ns)
    ensures Available(ApplyAll([], ws).value, ns)
    ensures Get(Under(ApplyAll([], ws).value, ns), name) == LastInNamespace(ws, ns, name)
    decreases |ws|
  {
    if ws != [] {
      var before, w := ws[..|ws| - 1], ws[|ws| - 1];
      ApplyAppend([], before, [w]);
      assert ws == before + [w] && [w][1..] == [];
      NamespaceHolds(before, ns, name);
      WriteUnder(ApplyAll([], before).value, w, ns, name);
    }
  }

  // Where the writes come from

  lemma InEitherPart(w: Write, a: seq<Write>, b: seq<Write>)
    ensures w in a + b <==> w in a || w in b
  {
  }

  lemma {:induction false} DefinitionWriteFrom(s: Schema, es: seq<Entry>, types: map<string, string>, w: Write)
    requires w in AllDefinitionWrites(s, es, types)
    ensures exists k :: 0 <= k < |es| && w in DefinitionWrites(s, es[k], types)
    decreases |es|
  {
    if w !in DefinitionWrites(s, es[0], types) {
      DefinitionWriteFrom(s, es[1..], types, w);
      var k :| 0 <= k < |es[1..]| && w in DefinitionWrites(s, es[1..][k], types);
      assert es[1..][k] == es[k + 1];
    }
  }

  lemma {:induction false} DefinitionIsWritten(
    s: Schema, es: seq<Entry>, types: map<string, string>, k: nat, w: Write)
    requires k < |es| && w in DefinitionWrites(s, es[k], types)
    ensures w in AllDefinitionWrites(s, es, types)
    decreases |es|
  {
    if k > 0 {
      DefinitionIsWritten(s, es[1..], types, k - 1, w);
    }
  }

  lemma {:induction false} WriteFrom(schemas: seq<Schema>, types: map<string, string>, w: Write)
    requires w in Writes(schemas, types)
    ensures exists i :: 0 <= i < |schemas| && w in SchemaWrites(schemas[i], types)
    decreases |schemas|
  {
    InEitherPart(w, SchemaWrites(schemas[0], types), Writes(schemas[1..], types));
    if w !in SchemaWrites(schemas[0], types) {
      WriteFrom(schemas[1..], types, w);
      var i :| 0 <= i < |schemas[1..]| && w in SchemaWrites(schemas[1..][i], types);
      assert schemas[1..][i] == schemas[i + 1];
    }
  }

  lemma {:induction false} SchemaIsWritten(schemas: seq<Schema>, types: map<string, string>, i: nat, w: Write)
    requires i < |schemas| && w in SchemaWrites(schemas[i], types)
    ensures w in Writes(schemas, types)
    decreases |schemas|
  {
    if i > 0 {
      var rest := schemas[1..];
      assert rest[i - 1] == schemas[i];
      SchemaIsWritten(rest, types, i - 1, w);
      assert w in Writes(rest, types);
    }
    InEitherPart(w, SchemaWrites(schemas[0], types), Writes(schemas[1..], types));
  }

  lemma {:induction false} LastAtRootIn(ws: seq<Write>, name: string)
    ensures var last := LastAtRoot(ws, name);
      && (last.Some? ==> AtRoot(name, last.value) in ws)
      && (forall w | w in ws && w.AtRoot? && w.name == name :: last.Some?)
    decreases |ws|
  {
    if ws != [] {
      LastAtRootIn(ws[..|ws| - 1], name);
      assert ws == ws[..|ws| - 1] + [ws[|ws| - 1]];
    }
  }

  // What a schema contributes

  function RawDefinitions(s: Schema): seq<Entry> {
    ObjectEntries(Member(s.value, "definitions"))
  }

  /** e is the schema without its definitions, or one of its definitions, with references moved and titles added. */
  ghost predicate BundledFrom(s: Schema, ns: string, e: Entry) {
    || (e.key == s.logicalName && e.val == Rewritten(WithoutDefinitions(s.value), ns))
    || (!Skipped(e.key)
        && exists k :: 0 <= k < |RawDefinitions(s)| && RetitledEntry(ToNamespace(ns), RawDefinitions(s)[k], e))
  }

  /** The last entry takes the removed one's place. */
  lemma RemovedFrom(es: seq<Entry>, key: string, k: nat)
    requires k < |Remove(es, key)|
    ensures k < |es| && Remove(es, key)[k] == es[if k == Find(es, key) then |es| - 1 else k]
  {
  }

  lemma MappedWithoutDefinitions(f: string -> string, v: Value)
    ensures WithoutDefinitions(MapRefs(f, v)) == MapRefs(f, WithoutDefinitions(v))
  {
    if v.Obj? {
      var es, fs := v.entries, MapRefs(f, v).entries;
      FindSameKeys(es, fs, "definitions");
      var l, r := Remove(fs, "definitions"), MapRefs(f, Obj(Remove(es, "definitions"))).entries;
      forall k | 0 <= k < |l| ensures l[k] == r[k] {
        RemovedFrom(es, "definitions", k);
        RemovedFrom(fs, "definitions", k);
      }
    }
  }

  lemma MappedDefinitions(f: string -> string, v: Value, k: nat)
    ensures var raw := ObjectEntries(Member(v, "definitions"));
      var moved := ObjectEntries(Member(MapRefs(f, v), "definitions"));
      && |moved| == |raw|
      && (k < |raw| ==> RetitledEntry(f, raw[k], moved[k]))
  {
    if v.Obj? {
      var es, fs := v.entries, MapRefs(f, v).entries;
      FindSameKeys(es, fs, "definitions");
      var j := Find(es, "definitions");
      if j < |es| {
        assert fs[j].val == MapRefs(f, es[j].val);
        MappedIsRetitled(f, es[j].val);
      }
    }
  }

  function Moving(s: Schema): string -> string {
    if s.namespace.Some? then ToNamespace(s.namespace.value) else SAME
  }

  lemma OwnDefinitionsAre(s: Schema, k: nat)
    ensures |OwnDefinitions(s)| == |RawDefinitions(s)|
    ensures k < |RawDefinitions(s)| ==> RetitledEntry(Moving(s), RawDefinitions(s)[k], OwnDefinitions(s)[k])
  {
    if s.namespace.Some? {
      MappedDefinitions(Moving(s), s.value, k);
    } else if k < |RawDefinitions(s)| {
      Unchanged(RawDefinitions(s)[k].val);
    }
  }

  /** What follows changes no reference that was moved. */
  lemma RetitledAfter(f: string -> string, g: string -> string, d: Entry, e: Entry, w: Value)
    requires RetitledEntry(f, d, e) && Retitled(g, e.val, w) && Composes(f, g, f)
    ensures RetitledEntry(f, d, Entry(e.key, w))
  {
    if !(d.key == "$ref" && d.val.Str?) && Retitled(f, d.val, e.val) {
      RetitledTwice(f, g, f, d.val, e.val, w);
    }
  }

  lemma AnnotatedDefinitionIs(s: Schema, k: nat)
    requires k < |OwnDefinitions(s)|
    ensures |OwnDefinitions(s)| == |RawDefinitions(s)|
    ensures var e := OwnDefinitions(s)[k];
      RetitledEntry(Moving(s), RawDefinitions(s)[k], Entry(e.key, Annotated(e.val, Some(e.key))))
  {
    OwnDefinitionsAre(s, k);
    var e := OwnDefinitions(s)[k];
    AnnotationAddsTitles(e.val, Some(e.key));
    RetitledAfter(Moving(s), SAME, RawDefinitions(s)[k], e, Annotated(e.val, Some(e.key)));
  }

  lemma DefinitionCopyIs(s: Schema, ns: string, k: nat)
    requires s.namespace == Some(ns) && k < |OwnDefinitions(s)|
    ensures |OwnDefinitions(s)| == |RawDefinitions(s)|
    ensures var e := OwnDefinitions(s)[k];
      RetitledEntry(ToNamespace(ns), RawDefinitions(s)[k], Entry(e.key, DefinitionCopy(e, ns)))
  {
    var e, f := OwnDefinitions(s)[k], ToNamespace(ns);
    AnnotatedDefinitionIs(s, k);
    var annotated := Annotated(e.val, Some(e.key));
    forall r ensures f(f(r)) == f(r) {
      RewriteRefIdempotent(r, ns);
    }
    MappedIsRetitled(f, annotated);
    RetitledAfter(f, f, RawDefinitions(s)[k], Entry(e.key, annotated), DefinitionCopy(e, ns));
  }

  lemma CopyIsBundled(s: Schema, ns: string, e: Entry)
    requires s.namespace == Some(ns) && CopyOf(s, ns, e.key, e.val)
    ensures BundledFrom(s, ns, e)
  {
    if e.key == s.logicalName && e.val == WithoutDefinitions(MovedValue(s)) {
      MappedWithoutDefinitions(ToNamespace(ns), s.value);
    } else {
      var k :| 0 <= k < |OwnDefinitions(s)| && e.key == OwnDefinitions(s)[k].key && !Skipped(e.key)
        && e.val == DefinitionCopy(OwnDefinitions(s)[k], ns);
      DefinitionCopyIs(s, ns, k);
      assert RetitledEntry(ToNamespace(ns), RawDefinitions(s)[k], e);
    }
  }

  /**
   Every entry under definitions/ns is a schema of the namespace or one of its definitions: apart from titles, the same
   tree with its references moved.
   */
  lemma NamespaceEntriesAre(schemas: seq<Schema>, ns: string, k: nat)
    requires BundleDefinitions(schemas).Some? && NamespaceClashFree(schemas, ns)
    requires k < |Under(BundleDefinitions(schemas).value, ns)|
    ensures var e := Under(BundleDefinitions(schemas).value, ns)[k];
      exists i :: 0 <= i < |schemas| && schemas[i].namespace == Some(ns) && BundledFrom(schemas[i], ns, e)
  {
    NamespaceContents(schemas, ns);
    var e := Under(BundleDefinitions(schemas).value, ns)[k];
    assert Provided(ns, e, set s | s in schemas);
    var s :| s in schemas && s.namespace == Some(ns) && CopyOf(s, ns, e.key, e.val);
    CopyIsBundled(s, ns, e);
    var i :| 0 <= i < |schemas| && schemas[i] == s;
  }

  // The last schema of a name decides

  lemma {:induction false} LastInNamespaceAppend(a: seq<Write>, b: seq<Write>, ns: string, name: string)
    ensures LastInNamespace(a + b, ns, name)
         == if LastInNamespace(b, ns, name).Some? then LastInNamespace(b, ns, name) else LastInNamespace(a, ns, name)
    decreases |b|
  {
    if b == [] {
      assert a + b == a;
    } else {
      assert (a + b)[..|a + b| - 1] == a + b[..|b| - 1];
      LastInNamespaceAppend(a, b[..|b| - 1], ns, name);
    }
  }

  lemma {:induction false} LastInNamespaceIn(ws: seq<Write>, ns: string, name: string)
    ensures var last := LastInNamespace(ws, ns, name);
      && (last.Some? ==> InNamespace(ns, name, last.value) in ws)
      && (forall w | w in ws && w.InNamespace? && w.ns == ns && w.name == name :: last.Some?)
    decreases |ws|
  {
    if ws != [] {
      LastInNamespaceIn(ws[..|ws| - 1], ns, name);
      assert ws == ws[..|ws| - 1] + [ws[|ws| - 1]];
    }
  }

  lemma TopWithoutDeferred(s: Schema, types: map<string, string>)
    requires s.namespace.Some?
    ensures TopValue(s, types) == Rewritten(WithoutDefinitions(s.value), s.namespace.value)
  {
    NothingDeferred(s, OwnDefinitions(s), types);
    MappedWithoutDefinitions(ToNamespace(s.namespace.value), s.value);
  }

  lemma {:induction false} NothingDeferred(s: Schema, es: seq<Entry>, types: map<string, string>)
    requires s.namespace.Some?
    ensures Deferred(s, es, types, []) == []
    decreases |es|
  {
    if es != [] {
      NothingDeferred(s, es[1..], types);
    }
  }

  lemma WriteIsBundled(s: Schema, types: map<string, string>, ns: string, e: Entry)
    requires InNamespace(ns, e.key, e.val) in SchemaWrites(s, types)
    ensures s.namespace == Some(ns) && e.key in NamesOf(s) && BundledFrom(s, ns, e)
  {
    var w, es := InNamespace(ns, e.key, e.val), OwnDefinitions(s);
    if w in AllDefinitionWrites(s, es, types) {
      DefinitionWriteFrom(s, es, types, w);
      var k :| 0 <= k < |es| && w in DefinitionWrites(s, es[k], types);
      DefinitionCopyIs(s, ns, k);
      assert RetitledEntry(ToNamespace(ns), RawDefinitions(s)[k], e);
    } else {
      TopWithoutDeferred(s, types);
    }
  }

  lemma NameIsWritten(s: Schema, types: map<string, string>, ns: string, name: string)
    requires s.namespace == Some(ns) && name in NamesOf(s)
    ensures LastInNamespace(SchemaWrites(s, types), ns, name).Some?
  {
    var es, ws := OwnDefinitions(s), SchemaWrites(s, types);
    LastInNamespaceIn(ws, ns, name);
    if name == s.logicalName {
      assert ws[|ws| - 1].name == name;
    } else {
      var k :| 0 <= k < |es| && !Skipped(es[k].key) && es[k].key == name;
      var w := InNamespace(ns, name, DefinitionCopy(es[k], ns));
      DefinitionIsWritten(s, es, types, k, w);
      assert w in ws;
    }
  }

  /** No later schema of the namespace defines the name. */
  ghost predicate LastToDefine(schemas: seq<Schema>, i: nat, ns: string, name: string)
    requires i < |schemas|
  {
    && schemas[i].namespace == Some(ns) && name in NamesOf(schemas[i])
    && forall j | i < j < |schemas| && schemas[j].namespace == Some(ns) :: name !in NamesOf(schemas[j])
  }

  lemma LaterSchemasAreSilent(schemas: seq<Schema>, i: nat, types: map<string, string>, ns: string, name: string)
    requires i < |schemas| && LastToDefine(schemas, i, ns, name)
    ensures LastInNamespace(Writes(schemas[i + 1..], types), ns, name).None?
  {
    var later := schemas[i + 1..];
    assert forall j | 0 <= j < |later| :: later[j] == schemas[i + 1 + j];
    var last := LastInNamespace(Writes(later, types), ns, name);
    LastInNamespaceIn(Writes(later, types), ns, name);
    if last.Some? {
      WriteFrom(later, types, InNamespace(ns, name, last.value));
      var j :| 0 <= j < |later| && InNamespace(ns, name, last.value) in SchemaWrites(later[j], types);
      WriteIsBundled(later[j], types, ns, Entry(name, last.value));
    }
  }

  lemma LastInAll(schemas: seq<Schema>, i: nat, types: map<string, string>, ns: string, name: string)
    requires i < |schemas| && LastToDefine(schemas, i, ns, name)
    ensures LastInNamespace(Writes(schemas, types), ns, name)
         == LastInNamespace(SchemaWrites(schemas[i], types), ns, name)
  {
    var a, b := schemas[..i], schemas[i..];
    assert schemas == a + b && b[0] == schemas[i] && b[1..] == schemas[i + 1..];
    WritesAppend(a, b, types);
    LaterSchemasAreSilent(schemas, i, types, ns, name);
    NameIsWritten(schemas[i], types, ns, name);
    LastInNamespaceAppend(Writes(a, types), Writes(b, types), ns, name);
    LastInNamespaceAppend(SchemaWrites(b[0], types), Writes(b[1..], types), ns, name);
  }

  lemma NamespaceNeverAtRoot(schemas: seq<Schema>, ns: string)
    requires NamespaceClashFree(schemas, ns)
    ensures NeverAtRoot(Writes(schemas, CollectNamespacedTypes(schemas)), ns)
  {
    var types := CollectNamespacedTypes(schemas);
    var ws := Writes(schemas, types);
    forall j | 0 <= j < |ws| && ws[j].AtRoot? ensures ws[j].name != ns {
      WriteFrom(schemas, types, ws[j]);
      var i :| 0 <= i < |schemas| && ws[j] in SchemaWrites(schemas[i], types);
      var s := schemas[i];
      assert ClashFree(s, types, ns);
      if ws[j] in AllDefinitionWrites(s, OwnDefinitions(s), types) {
        DefinitionWriteFrom(s, OwnDefinitions(s), types, ws[j]);
      }
    }
  }

  /** The last schema of a namespace that defines a name decides what the bundle holds there. */
  lemma NamespaceEntryIs(schemas: seq<Schema>, i: nat, ns: string, name: string)
    requires BundleDefinitions(schemas).Some? && NamespaceClashFree(schemas, ns)
    requires i < |schemas| && LastToDefine(schemas, i, ns, name)
    ensures var v := Get(Under(BundleDefinitions(schemas).value, ns), name);
      && v.Some? && BundledFrom(schemas[i], ns, Entry(name, v.value))
      && (name == schemas[i].logicalName ==> v.value == Rewritten(WithoutDefinitions(schemas[i].value), ns))
  {
    var types, s := CollectNamespacedTypes(schemas), schemas[i];
    BundlingIsWriting([], schemas, types);
    NamespaceNeverAtRoot(schemas, ns);
    NamespaceHolds(Writes(schemas, types), ns, name);
    LastInAll(schemas, i, types, ns, name);
    NameIsWritten(s, types, ns, name);
    LastInNamespaceIn(SchemaWrites(s, types), ns, name);
    WriteIsBundled(s, types, ns, Entry(name, LastInNamespace(SchemaWrites(s, types), ns, name).value));
    TopWithoutDeferred(s, types);
  }

  // What stays at the root

  lemma {:induction false} MappedSame(v: Value)
    ensures MapRefs(SAME, v) == v
    decreases v
  {
    var w := MapRefs(SAME, v);
    match v
    case Arr(items) =>
      forall i | 0 <= i < |items| ensures w.items[i] == items[i] {
        MappedSame(items[i]);
      }
      assert w.items == items;
    case Obj(es) =>
      forall i | 0 <= i < |es| ensures w.entries[i] == es[i] {
        MappedSame(es[i].val);
      }
      assert w.entries == es;
    case _ =>
  }

  lemma {:induction false} MappedAgain(f: string -> string, g: string -> string, h: string -> string, v: Value)
    requires Composes(f, g, h)
    ensures MapRefs(g, MapRefs(f, v)) == MapRefs(h, v)
    decreases v
  {
    var l, r := MapRefs(g, MapRefs(f, v)), MapRefs(h, v);
    match v
    case Arr(items) =>
      forall i | 0 <= i < |items| ensures l.items[i] == r.items[i] {
        MappedAgain(f, g, h, items[i]);
      }
      assert l.items == r.items;
    case Obj(es) =>
      forall i | 0 <= i < |es| ensures l.entries[i] == r.entries[i] {
        MappedAgain(f, g, h, es[i].val);
      }
      assert l.entries == r.entries;
    case _ =>
  }

  function Renamings(forced: seq<(string, string)>): string -> string {
    (r: string) => RenameRefAll(r, forced)
  }

  /** Renaming by one after the other is one pass over the references. */
  lemma {:induction false} RenamedTogether(v: Value, forced: seq<(string, string)>)
    ensures RenameAll(v, forced) == MapRefs(Renamings(forced), v)
    decreases |forced|
  {
    if forced == [] {
      MappedSame(v);
      MappedSame(MapRefs(Renamings(forced), v));
      MappedAgain(Renamings(forced), SAME, SAME, v);
    } else {
      var first := Renaming(forced[0].1, forced[0].0);
      RenamedTogether(MapRefs(first, v), forced[1..]);
      assert RenameAll(v, forced) == RenameAll(MapRefs(first, v), forced[1..]);
      MappedAgain(first, Renamings(forced[1..]), Renamings(forced), v);
    }
  }

  /** The schema puts something at the root under this name: itself, or a definition that is not moved elsewhere. */
  ghost predicate RootNamed(s: Schema, types: map<string, string>, name: string) {
    && s.namespace.None? && s.logicalName !in IGNORED_DEFINITIONS
    && (name == s.logicalName
        || (!Skipped(name) && name in Keys(RawDefinitions(s))
            && (s.inV1Dir || NamespaceForDefinition(name, types).None?)))
  }

  /** e is the schema without its definitions and with deferred references moved, or a definition with titles added. */
  ghost predicate RootFrom(s: Schema, types: map<string, string>, e: Entry) {
    || (e.key == s.logicalName
        && e.val == MapRefs(Renamings(Deferred(s, OwnDefinitions(s), types, [])), WithoutDefinitions(s.value)))
    || exists k :: 0 <= k < |RawDefinitions(s)| && RetitledEntry(SAME, RawDefinitions(s)[k], e)
  }

  lemma RootWriteIs(s: Schema, types: map<string, string>, e: Entry)
    requires AtRoot(e.key, e.val) in SchemaWrites(s, types)
    ensures RootNamed(s, types, e.key) && RootFrom(s, types, e)
  {
    var w, es := AtRoot(e.key, e.val), OwnDefinitions(s);
    if w in AllDefinitionWrites(s, es, types) {
      DefinitionWriteFrom(s, es, types, w);
      var k :| 0 <= k < |es| && w in DefinitionWrites(s, es[k], types);
      AnnotatedDefinitionIs(s, k);
      assert RetitledEntry(SAME, RawDefinitions(s)[k], e);
    } else {
      RenamedTogether(WithoutDefinitions(s.value), Deferred(s, es, types, []));
    }
  }

  lemma RootNameIsWritten(s: Schema, types: map<string, string>, name: string)
    requires RootNamed(s, types, name)
    ensures LastAtRoot(SchemaWrites(s, types), name).Some?
  {
    var es, ws := OwnDefinitions(s), SchemaWrites(s, types);
    LastAtRootIn(ws, name);
    if name == s.logicalName {
      assert ws[|ws| - 1].name == name;
    } else {
      var k :| 0 <= k < |es| && es[k].key == name;
      var w := AtRoot(name, Annotated(es[k].val, Some(name)));
      DefinitionIsWritten(s, es, types, k, w);
      assert w in ws;
    }
  }

  /** The last value put at the root under a name was put there by some schema. */
  lemma LastRootWriteIs(schemas: seq<Schema>, types: map<string, string>, name: string) returns (i: nat)
    requires LastAtRoot(Writes(schemas, types), name).Some?
    ensures var e := Entry(name, LastAtRoot(Writes(schemas, types), name).value);
      i < |schemas| && RootNamed(schemas[i], types, name) && RootFrom(schemas[i], types, e)
  {
    var w := AtRoot(name, LastAtRoot(Writes(schemas, types), name).value);
    LastAtRootIn(Writes(schemas, types), name);
    WriteFrom(schemas, types, w);
    i :| 0 <= i < |schemas| && w in SchemaWrites(schemas[i], types);
    RootWriteIs(schemas[i], types, Entry(name, w.value));
  }

  lemma NamedAtRootIsWritten(schemas: seq<Schema>, types: map<string, string>, i: nat, name: string)
    requires i < |schemas| && RootNamed(schemas[i], types, name)
    ensures LastAtRoot(Writes(schemas, types), name).Some?
  {
    RootNameIsWritten(schemas[i], types, name);
    LastAtRootIn(SchemaWrites(schemas[i], types), name);
    LastAtRootIn(Writes(schemas, types), name);
    var w := AtRoot(name, LastAtRoot(SchemaWrites(schemas[i], types), name).value);
    SchemaIsWritten(schemas, types, i, w);
  }

  ghost predicate NamedAtRoot(schemas: seq<Schema>, types: map<string, string>, name: string) {
    exists i :: 0 <= i < |schemas| && RootNamed(schemas[i], types, name)
  }

  lemma NamedIsWritten(schemas: seq<Schema>, types: map<string, string>, name: string)
    ensures LastAtRoot(Writes(schemas, types), name).Some? <==> NamedAtRoot(schemas, types, name)
  {
    if LastAtRoot(Writes(schemas, types), name).Some? {
      var i := LastRootWriteIs(schemas, types, name);
    }
    if NamedAtRoot(schemas, types, name) {
      var i :| 0 <= i < |schemas| && RootNamed(schemas[i], types, name);
      NamedAtRootIsWritten(schemas, types, i, name);
    }
  }

  /**
   A name that is no namespace is at the root exactly when a root schema has it, or has a definition of that name which
   belongs to no namespace or comes from the v1 directory.
   */
  lemma RootNamesExactly(schemas: seq<Schema>, name: string)
    requires BundleDefinitions(schemas).Some?
    requires forall j | 0 <= j < |schemas| :: schemas[j].namespace != Some(name)
    ensures Get(BundleDefinitions(schemas).value, name).Some?
       <==> NamedAtRoot(schemas, CollectNamespacedTypes(schemas), name)
  {
    BundleHolds(schemas, name);
    NamedIsWritten(schemas, CollectNamespacedTypes(schemas), name);
  }

  /** Every entry at the root is such a schema or definition: the same tree, but for deferred references and titles. */
  lemma RootEntriesAre(schemas: seq<Schema>, name: string)
    requires BundleDefinitions(schemas).Some? && Get(BundleDefinitions(schemas).value, name).Some?
    requires forall j | 0 <= j < |schemas| :: schemas[j].namespace != Some(name)
    ensures var types := CollectNamespacedTypes(schemas);
      var e := Entry(name, Get(BundleDefinitions(schemas).value, name).value);
      exists i :: 0 <= i < |schemas| && RootNamed(schemas[i], types, name) && RootFrom(schemas[i], types, e)
  {
    BundleHolds(schemas, name);
    var i := LastRootWriteIs(schemas, CollectNamespacedTypes(schemas), name);
  }
}
