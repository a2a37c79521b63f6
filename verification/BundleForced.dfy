/**
 References to deferred definitions. A root schema that carries a definition which belongs to a namespace does not
 bundle it; references to it in the schema's top value are moved into the namespace, one deferred definition after the
 other.
 */
module BundleForced {
  import opened Seqs
  import opened Text
  import opened Json
  import opened Bundle
  import opened BundleWrites

  // One definition

  /** The target is the definition or something inside it. */
  predicate Captures(name: string, target: string) {
    target == name || HasPrefix(target, name + "/")
  }

  lemma PrefixSplit(p: string, s: string)
    requires HasPrefix(s, p)
    ensures s == p + s[|p|..]
  {
  }

  lemma PointerPrefix(target: string, name: string)
    ensures HasPrefix(DEFINITIONS_POINTER + target, DEFINITIONS_POINTER + name + "/") <==> HasPrefix(target, name + "/")
  {
    var d := DEFINITIONS_POINTER;
    Reassociate(d, name, "/");
    if HasPrefix(d + target, d + name + "/") {
      PrefixSplit(d + name + "/", d + target);
      var rest := (d + target)[|d + name + "/"|..];
      Reassociate(d, name + "/", rest);
      CancelPrefix(d, target, name + "/" + rest);
    }
    if HasPrefix(target, name + "/") {
      PrefixSplit(name + "/", target);
      Reassociate(d, name + "/", target[|name + "/"|..]);
    }
  }

  lemma MovedTail(ns: string, name: string, target: string)
    requires HasPrefix(target, name + "/")
    ensures var d := DEFINITIONS_POINTER;
      d + (ns + "/" + name) + "/" + (d + target)[|d + name + "/"|..] == d + (ns + "/" + target)
  {
    var d := DEFINITIONS_POINTER;
    var rest := target[|name + "/"|..];
    PrefixSplit(name + "/", target);
    assert (d + target)[|d + name + "/"|..] == rest;
    assert ns + "/" + target == ns + "/" + name + "/" + rest;
    assert d + (ns + "/" + name) + "/" + rest == d + (ns + "/" + name + "/" + rest);
  }

  /** A captured target goes under the namespace, whole. */
  lemma RenameRefMoves(target: string, ns: string, name: string)
    ensures RenameRef(DEFINITIONS_POINTER + target, ns, name)
         == DEFINITIONS_POINTER + (if Captures(name, target) then ns + "/" + target else target)
  {
    var d := DEFINITIONS_POINTER;
    PointerPrefix(target, name);
    if d + target == d + name {
      CancelPrefix(d, target, name);
    } else if HasPrefix(target, name + "/") {
      MovedTail(ns, name, target);
    }
  }

  // All of them, one after the other

  function RenamedBy(target: string, forced: seq<(string, string)>): string
    decreases |forced|
  {
    if forced == [] then target
    else RenamedBy(if Captures(forced[0].0, target) then forced[0].1 + "/" + target else target, forced[1..])
  }

  function RenameRefAll(r: string, forced: seq<(string, string)>): string
    decreases |forced|
  {
    if forced == [] then r else RenameRefAll(RenameRef(r, forced[0].1, forced[0].0), forced[1..])
  }

  lemma {:induction false} RenameRefAllMoves(target: string, forced: seq<(string, string)>)
    ensures RenameRefAll(DEFINITIONS_POINTER + target, forced) == DEFINITIONS_POINTER + RenamedBy(target, forced)
    decreases |forced|
  {
    if forced != [] {
      RenameRefMoves(target, forced[0].1, forced[0].0);
      RenameRefAllMoves(if Captures(forced[0].0, target) then forced[0].1 + "/" + target else target, forced[1..]);
    }
  }

  /** r' is a reference of v after all the renamings. */
  ghost predicate FromRefs(v: Value, forced: seq<(string, string)>, r': string) {
    exists r :: Mentions(v, r) && r' == RenameRefAll(r, forced)
  }

  /** The references of the renamed value are exactly the renamed references. */
  lemma {:induction false} RenameAllMentions(v: Value, forced: seq<(string, string)>, r': string)
    ensures Mentions(RenameAll(v, forced), r') <==> FromRefs(v, forced, r')
    decreases |forced|
  {
    if forced == [] {
      if Mentions(v, r') {
        assert r' == RenameRefAll(r', forced);
      }
    } else {
      var f := Renaming(forced[0].1, forced[0].0);
      var w := MapRefs(f, v);
      RenameAllMentions(w, forced[1..], r');
      if FromRefs(w, forced[1..], r') {
        var q :| Mentions(w, q) && r' == RenameRefAll(q, forced[1..]);
        MappedMentions(f, v, q);
        var r :| Mentions(v, r) && q == f(r);
        assert r' == RenameRefAll(r, forced);
      }
      if FromRefs(v, forced, r') {
        var r :| Mentions(v, r) && r' == RenameRefAll(r, forced);
        MappedMentions(f, v, f(r));
        assert FromRef(f, v, f(r)) && Mentions(w, f(r));
      }
    }
  }

  // Where a reference ends

  predicate Untouched(target: string, forced: seq<(string, string)>) {
    forall i | 0 <= i < |forced| :: !Captures(forced[i].0, target)
  }

  lemma {:induction false} RenamingGrows(target: string, forced: seq<(string, string)>)
    ensures |RenamedBy(target, forced)| >= |target|
    decreases |forced|
  {
    if forced != [] {
      RenamingGrows(if Captures(forced[0].0, target) then forced[0].1 + "/" + target else target, forced[1..]);
    }
  }

  /** A target stays exactly when no definition captures it. */
  lemma {:induction false} StaysExactly(target: string, forced: seq<(string, string)>)
    ensures RenamedBy(target, forced) == target <==> Untouched(target, forced)
    decreases |forced|
  {
    if forced != [] {
      if Captures(forced[0].0, target) {
        RenamingGrows(forced[0].1 + "/" + target, forced[1..]);
      } else {
        StaysExactly(target, forced[1..]);
        assert forall i | 0 < i < |forced| :: forced[i] == forced[1..][i - 1];
      }
    }
  }

  /**
   A reference ends right under the namespace of the first deferred definition that captures it exactly when no later
   one captures the result again.
   */
  lemma {:induction false} EndsUnderNamespaceExactly(target: string, forced: seq<(string, string)>, k: nat)
    requires k < |forced| && Untouched(target, forced[..k]) && Captures(forced[k].0, target)
    ensures var moved := forced[k].1 + "/" + target;
      RenamedBy(target, forced) == moved <==> Untouched(moved, forced[k + 1..])
    decreases k
  {
    if k == 0 {
      StaysExactly(forced[0].1 + "/" + target, forced[1..]);
    } else {
      assert forced[..k][0] == forced[0];
      var rest := forced[1..];
      assert rest[..k - 1] == forced[..k][1..];
      assert rest[k - 1 + 1..] == forced[k + 1..];
      EndsUnderNamespaceExactly(target, rest, k - 1);
    }
  }

  // In the bundle

  /** The deferred definitions are the root schema's own ones that belong to a namespace. */
  predicate Defers(s: Schema, e: Entry, types: map<string, string>, name: string, ns: string) {
    e.key == name && !Skipped(name) && TargetNamespace(s, name, types) == Some(ns) && s.namespace != Some(ns)
  }

  predicate SomeDefers(s: Schema, es: seq<Entry>, types: map<string, string>, name: string, ns: string) {
    exists i | 0 <= i < |es| :: Defers(s, es[i], types, name, ns)
  }

  lemma SomeDefersStep(s: Schema, es: seq<Entry>, types: map<string, string>, name: string, ns: string)
    requires es != []
    ensures SomeDefers(s, es, types, name, ns)
       <==> Defers(s, es[0], types, name, ns) || SomeDefers(s, es[1..], types, name, ns)
  {
    if i :| 0 < i < |es| && Defers(s, es[i], types, name, ns) {
      assert es[i] == es[1..][i - 1];
    }
    if i :| 0 <= i < |es[1..]| && Defers(s, es[1..][i], types, name, ns) {
      assert es[1..][i] == es[i + 1];
    }
  }

  lemma {:induction false} DeferredFrom(s: Schema, es: seq<Entry>, types: map<string, string>,
                                        forced: seq<(string, string)>, name: string, ns: string)
    ensures (name, ns) in Deferred(s, es, types, forced) <==> (name, ns) in forced || SomeDefers(s, es, types, name, ns)
    decreases |es|
  {
    if es != [] {
      var target := TargetNamespace(s, es[0].key, types);
      var keep := Skipped(es[0].key) || target.None? || s.namespace == target || (es[0].key, target.value) in forced;
      DeferredFrom(s, es[1..], types, if keep then forced else forced + [(es[0].key, target.value)], name, ns);
      SomeDefersStep(s, es, types, name, ns);
    }
  }

  lemma DeferredAre(s: Schema, types: map<string, string>, name: string, ns: string)
    ensures (name, ns) in Deferred(s, OwnDefinitions(s), types, [])
       <==> SomeDefers(s, OwnDefinitions(s), types, name, ns)
  {
    DeferredFrom(s, OwnDefinitions(s), types, [], name, ns);
  }

  /** The k-th deferred definition is this one, and no other one captures references to it, before or after. */
  predicate MovesAlone(forced: seq<(string, string)>, k: nat, name: string, ns: string) {
    && k < |forced| && forced[k] == (name, ns)
    && Untouched(name, forced[..k])
    && Untouched(ns + "/" + name, forced[k + 1..])
  }

  /** Then a reference to it in the schema's top value goes under its namespace. */
  lemma DeferredReferenceMoves(s: Schema, types: map<string, string>, k: nat, name: string, ns: string)
    requires MovesAlone(Deferred(s, OwnDefinitions(s), types, []), k, name, ns)
    requires Mentions(WithoutDefinitions(MovedValue(s)), DEFINITIONS_POINTER + name)
    ensures Mentions(TopValue(s, types), DEFINITIONS_POINTER + (ns + "/" + name))
  {
    var forced, r := Deferred(s, OwnDefinitions(s), types, []), DEFINITIONS_POINTER + name;
    EndsUnderNamespaceExactly(name, forced, k);
    RenameRefAllMoves(name, forced);
    RenameAllMentions(WithoutDefinitions(MovedValue(s)), forced, RenameRefAll(r, forced));
  }

  /**
   In the finished bundle, the entry of a root schema that is the last of its name refers to the deferred definition
   under the definition's namespace, and that reference resolves exactly when some schema of the namespace defines it.
   */
  lemma DeferredReferenceResolves(schemas: seq<Schema>, i: nat, k: nat, name: string, ns: string)
    requires BundleDefinitions(schemas).Some? && NamespaceClashFree(schemas, ns)
    requires i < |schemas| && schemas[i].namespace.None? && schemas[i].logicalName !in IGNORED_DEFINITIONS
    requires LastOfItsName(schemas, i)
    requires forall j | 0 <= j < |schemas| :: schemas[j].namespace != Some(schemas[i].logicalName)
    ensures var s, types := schemas[i], CollectNamespacedTypes(schemas);
      var defs, r := BundleDefinitions(schemas).value, DEFINITIONS_POINTER + (ns + "/" + name);
      MovesAlone(Deferred(s, OwnDefinitions(s), types, []), k, name, ns)
      && Mentions(WithoutDefinitions(s.value), DEFINITIONS_POINTER + name)
      ==> && Get(defs, s.logicalName).Some?
          && Mentions(Get(defs, s.logicalName).value, r)
          && (Resolves(defs, ns, r) <==> name in NamesIn(schemas, ns))
  {
    var s, types := schemas[i], CollectNamespacedTypes(schemas);
    ResolvesUnder(schemas, ns, name);
    RootEntryIsTopValue(schemas, i);
    if MovesAlone(Deferred(s, OwnDefinitions(s), types, []), k, name, ns)
       && Mentions(WithoutDefinitions(s.value), DEFINITIONS_POINTER + name) {
      DeferredReferenceMoves(s, types, k, name, ns);
    }
  }

  // A reference that is moved twice

  function RootWith(value: Value, names: seq<Entry>): Schema {
    Schema(None, "Root", Obj([Entry("$ref", value), Entry("definitions", Obj(names))]), false)
  }

  /** "A" belongs to v2, and "v2" to v3; the root schema refers to "A" and carries both. */
  function TwiceMoved(): seq<Schema> {
    [Schema(Some("v2"), "A", Null, false),
     Schema(Some("v3"), "v2", Null, false),
     RootWith(Str(DEFINITIONS_POINTER + "A"), [Entry("A", Null), Entry("v2", Null)])]
  }

  lemma TwiceMovedTypes()
    ensures var types := CollectNamespacedTypes(TwiceMoved());
      "A" in types && types["A"] == "v2" && "v2" in types && types["v2"] == "v3"
  {
    var schemas := TwiceMoved();
    assert schemas[..0] == [] && schemas[..1] == [schemas[0]];
    FirstSchemaDecides(schemas, 0, "A");
    assert NamedBy(schemas[0]) == {"A"} && "v2" in NamedBy(schemas[1]);
    FirstSchemaDecides(schemas, 1, "v2");
  }

  lemma TwoDeferred(s: Schema, types: map<string, string>, a: Entry, b: Entry, x: string, y: string)
    requires Defers(s, a, types, a.key, x) && Defers(s, b, types, b.key, y) && a.key != b.key
    ensures Deferred(s, [a, b], types, []) == [(a.key, x), (b.key, y)]
  {
    assert [a, b][1..] == [b] && [b][1..] == [];
    assert [] + [(a.key, x)] == [(a.key, x)] && [(a.key, x)] + [(b.key, y)] == [(a.key, x), (b.key, y)];
    assert Deferred(s, [a, b], types, []) == Deferred(s, [b], types, [(a.key, x)]);
    assert Deferred(s, [b], types, [(a.key, x)]) == Deferred(s, [], types, [(a.key, x), (b.key, y)]);
  }

  /** The definition that is named like the namespace captures what was moved there. */
  lemma MovedTwice()
    ensures Mentions(TopValue(TwiceMoved()[2], CollectNamespacedTypes(TwiceMoved())), DEFINITIONS_POINTER + "v3/v2/A")
  {
    var s, types := TwiceMoved()[2], CollectNamespacedTypes(TwiceMoved());
    TwiceMovedTypes();
    var es := s.value.entries;
    assert Find(es, "definitions") == 1 by {
      FindIs(es, "definitions", 1);
    }
    var a, b := Entry("A", Null), Entry("v2", Null);
    assert OwnDefinitions(s) == [a, b];
    TwoDeferred(s, types, a, b, "v2", "v3");
    var forced := [("A", "v2"), ("v2", "v3")];
    assert forced[1..] == [("v2", "v3")] && forced[1..][1..] == [];
    assert "v2" + "/" + "A" == "v2/A" && HasPrefix("v2/A", "v2" + "/");
    assert RenamedBy("v2/A", forced[1..]) == "v3" + "/" + "v2/A" == "v3/v2/A";
    RenameRefAllMoves("A", forced);
    var top := WithoutDefinitions(MovedValue(s));
    assert top.entries[0] == Entry("$ref", Str(DEFINITIONS_POINTER + "A"));
    assert Mentions(top, DEFINITIONS_POINTER + "A");
    RenameAllMentions(top, forced, RenameRefAll(DEFINITIONS_POINTER + "A", forced));
  }

  // Definitions that belong to a namespace only by their trimmed names

  lemma OwnDefinitionKeys(s: Schema)
    ensures Keys(OwnDefinitions(s)) == Keys(ObjectEntries(Member(s.value, "definitions")))
  {
    if s.namespace.Some? {
      MappedMember(ToNamespace(s.namespace.value), s.value, "definitions");
    }
  }

  lemma MappedMember(f: string -> string, v: Value, key: string)
    requires key != "$ref"
    ensures Keys(ObjectEntries(Member(MapRefs(f, v), key))) == Keys(ObjectEntries(Member(v, key)))
  {
    if v.Obj? {
      var es, fs := v.entries, MapRefs(f, v).entries;
      FindSameKeys(es, fs, key);
      var i := Find(es, key);
      if i < |es| {
        assert fs[i].val == MapRefs(f, es[i].val);
        SameKeysAfterMapping(f, es[i].val);
      }
    } else {
      assert !MapRefs(f, v).Obj?;
    }
  }

  lemma SameKeysAfterMapping(f: string -> string, v: Value)
    ensures Keys(ObjectEntries(Some(MapRefs(f, v)))) == Keys(ObjectEntries(Some(v)))
  {
    if v.Obj? {
      var es, fs := v.entries, MapRefs(f, v).entries;
      assert |fs| == |es| && forall i | 0 <= i < |es| :: fs[i].key == es[i].key;
      forall key ensures key in Keys(fs) <==> key in Keys(es) {
        if i :| 0 <= i < |es| && es[i].key == key {
          assert fs[i].key == key;
        }
      }
    }
  }

  lemma DefinedIsNamed(s: Schema, name: string)
    requires s.namespace.Some? && name in NamesOf(s)
    ensures name in NamedBy(s)
  {
    OwnDefinitionKeys(s);
  }

  lemma {:induction false} NamesInAreNamed(schemas: seq<Schema>, ns: string, name: string) returns (i: nat)
    requires name in NamesIn(schemas, ns)
    ensures i < |schemas| && name in NamedBy(schemas[i])
    decreases |schemas|
  {
    if schemas[0].namespace == Some(ns) && name in NamesOf(schemas[0]) {
      DefinedIsNamed(schemas[0], name);
      i := 0;
    } else {
      var j := NamesInAreNamed(schemas[1..], ns, name);
      i := j + 1;
    }
  }

  /** A root schema's definition belongs to a namespace only by its name without the trailing digits. */
  predicate TrimmedOnly(s: Schema, e: Entry, types: map<string, string>, name: string, ns: string) {
    Defers(s, e, types, name, ns) && name !in types
  }

  /** Such a definition is dropped from the bundle, and the references moved to it never resolve. */
  lemma TrimmedDefinitionIsLost(schemas: seq<Schema>, s: Schema, e: Entry, name: string, ns: string)
    requires BundleDefinitions(schemas).Some? && NamespaceClashFree(schemas, ns)
    requires TrimmedOnly(s, e, CollectNamespacedTypes(schemas), name, ns)
    ensures DefinitionWrites(s, e, CollectNamespacedTypes(schemas)) == []
    ensures !Resolves(BundleDefinitions(schemas).value, ns, DEFINITIONS_POINTER + (ns + "/" + name))
  {
    ResolvesUnder(schemas, ns, name);
    if name in NamesIn(schemas, ns) {
      var i := NamesInAreNamed(schemas, ns, name);
      NamedIsCollected(schemas, i, name);
    }
  }
}
