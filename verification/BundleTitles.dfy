/**
 Bundling annotates every definition a second time, after its references were moved. The titles are already there:
 a schema that was annotated when it was written goes into the bundle with no title added.
 */
module BundleTitles {
  import opened Seqs
  import opened Json
  import opened Annotate
  import opened Bundle

  // Naming does not look at references

  lemma RewrittenMember(v: Value, ns: string, key: string)
    requires key != "$ref"
    ensures Member(v, key).Some? <==> Member(Rewritten(v, ns), key).Some?
    ensures Member(v, key).Some? ==> Member(Rewritten(v, ns), key).value == Rewritten(Member(v, key).value, ns)
  {
    if v.Obj? {
      FindSameKeys(v.entries, Rewritten(v, ns).entries, key);
    }
  }

  lemma RewrittenTitle(v: Value, ns: string)
    ensures VariantTitle(Rewritten(v, ns)) == VariantTitle(v)
  {
    RewrittenMember(v, ns, "title");
  }

  /** Texts stay, and so does whether the first element of an array is a text. */
  lemma RewrittenFirst(v: Value, ns: string)
    ensures var w := Rewritten(v, ns);
      && AsStr(Some(w)) == AsStr(Some(v))
      && (w.Arr? <==> v.Arr?)
      && (v.Arr? ==> |w.items| == |v.items| && (v.items != [] ==> AsStr(Some(w.items[0])) == AsStr(Some(v.items[0]))))
  {
    if v.Arr? && v.items != [] {
      assert Rewritten(v, ns).items[0] == Rewritten(v.items[0], ns);
    }
  }

  lemma RewrittenLiteral(v: Value, ns: string)
    ensures StringLiteral(Rewritten(v, ns)) == StringLiteral(v)
  {
    RewrittenMember(v, ns, "const");
    RewrittenMember(v, ns, "enum");
    var fixed, choices := Member(v, "const"), Member(v, "enum");
    if fixed.Some? {
      RewrittenFirst(fixed.value, ns);
    }
    if choices.Some? {
      RewrittenFirst(choices.value, ns);
    }
  }

  lemma RewrittenProperties(ps: seq<Entry>, ns: string)
    ensures SameLiterals(ps, Rewritten(Obj(ps), ns).entries)
  {
    var qs := Rewritten(Obj(ps), ns).entries;
    forall i | 0 <= i < |ps| ensures StringLiteral(ps[i].val) == StringLiteral(qs[i].val) {
      RewrittenLiteral(ps[i].val, ns);
    }
  }

  lemma RewrittenName(v: Value, ns: string, name: string)
    ensures VariantDefinitionName(name, Rewritten(v, ns)) == VariantDefinitionName(name, v)
  {
    RewrittenMember(v, ns, "properties");
    RewrittenMember(v, ns, "required");
    var required := Member(v, "required");
    if required.Some? {
      RewrittenFirst(required.value, ns);
    }
    var props := Member(v, "properties");
    if props.Some? && props.value.Obj? {
      var ps := props.value.entries;
      RewrittenProperties(ps, ns);
      NameFromPropertiesKept(name, ps, Rewritten(Obj(ps), ns).entries);
    }
  }

  // Rewriting keeps a tree settled

  lemma RefIsNoDiscriminator()
    ensures "$ref" !in DISCRIMINATOR_KEYS
  {
    forall k | 0 <= k < |DISCRIMINATOR_KEYS| ensures DISCRIMINATOR_KEYS[k] != "$ref" {
      assert DISCRIMINATOR_KEYS[k][0] != '$';
    }
  }

  lemma RewrittenSettledProperties(e: Entry, ns: string)
    requires SettledProperties(e)
    ensures SettledProperties(Entry(e.key, Rewritten(e.val, ns)))
  {
    if e.key == "properties" && e.val.Obj? {
      var ps, qs := e.val.entries, Rewritten(e.val, ns).entries;
      RewrittenProperties(ps, ns);
      forall j | 0 <= j < |qs| ensures SettledDiscriminator(qs[j]) {
        assert SettledDiscriminator(ps[j]);
        RefIsNoDiscriminator();
        if qs[j].key in DISCRIMINATOR_KEYS && StringLiteral(qs[j].val).Some? {
          assert ps[j].key != "$ref" && ps[j].val.Obj?;
          assert qs[j].val == Rewritten(ps[j].val, ns);
          FindSameKeys(ps[j].val.entries, qs[j].val.entries, "title");
        }
      }
    }
  }

  lemma {:induction false} RewrittenSettled(v: Value, base: Option<string>, ns: string)
    requires Settled(v, base)
    ensures Settled(Rewritten(v, ns), base)
    decreases v, 0
  {
    var w := Rewritten(v, ns);
    match v
    case Arr(items) =>
      forall i | 0 <= i < |items| ensures Settled(w.items[i], base) {
        RewrittenSettled(items[i], base, ns);
      }
    case Obj(es) =>
      RewrittenTitle(v, ns);
      forall i | 0 <= i < |es|
        ensures VariantTitle(v).Some? ==> SettledProperties(w.entries[i])
        ensures SettledChild(w.entries[i].key, w.entries[i].val, base)
      {
        assert SettledChild(es[i].key, es[i].val, base);
        RewrittenSettledChild(es[i].key, es[i].val, base, ns);
        if VariantTitle(v).Some? {
          RewrittenSettledProperties(es[i], ns);
        }
      }
    case _ =>
  }

  lemma {:induction false} RewrittenSettledChild(key: string, val: Value, base: Option<string>, ns: string)
    requires SettledChild(key, val, base)
    ensures SettledChild(key, Rewritten(val, ns), base)
    decreases val, 1
  {
    var w := Rewritten(val, ns);
    if key == "oneOf" || key == "anyOf" {
      if val.Arr? {
        RewrittenVariantsSettled(val.items, base, ns);
        assert w.items == seq(|val.items|, i requires 0 <= i < |val.items| => Rewritten(val.items[i], ns));
      }
    } else if key == "definitions" || key == "$defs" {
      if val.Obj? {
        forall i | 0 <= i < |val.entries| ensures Settled(w.entries[i].val, Some(w.entries[i].key)) {
          RewrittenSettled(val.entries[i].val, Some(val.entries[i].key), ns);
        }
      }
    } else if key == "properties" {
      if val.Obj? {
        forall i | 0 <= i < |val.entries| ensures Settled(w.entries[i].val, base) {
          RewrittenSettled(val.entries[i].val, base, ns);
        }
      }
    } else {
      RewrittenSettled(val, base, ns);
    }
  }

  lemma {:induction false} RewrittenVariantsSettled(items: seq<Value>, base: Option<string>, ns: string)
    requires AllSettled(items, base)
    ensures AllSettled(seq(|items|, i requires 0 <= i < |items| => Rewritten(items[i], ns)), base)
    decreases items, 2
  {
    forall i | 0 <= i < |items|
      ensures SettledVariant(Rewritten(items[i], ns), base) && Settled(Rewritten(items[i], ns), base)
    {
      assert SettledVariant(items[i], base) && Settled(items[i], base);
      RewrittenSettled(items[i], base, ns);
      RewrittenTitle(items[i], ns);
      if base.Some? {
        RewrittenName(items[i], ns, base.value);
      }
    }
  }

  /** The annotation inside bundling changes no definition of a schema that was annotated when it was written. */
  lemma SecondAnnotationAddsNothing(s: Schema, raw: Value, base: Option<string>, i: nat)
    requires s.value == Annotated(raw, base) && i < |OwnDefinitions(s)|
    ensures var e := OwnDefinitions(s)[i];
            Annotated(e.val, Some(e.key)) == e.val
  {
    var moved := MovedValue(s);
    var e := OwnDefinitions(s)[i];
    AnnotationSettles(raw, base);
    if s.namespace.Some? {
      RewrittenSettled(s.value, base, s.namespace.value);
    }
    assert Settled(moved, base);
    var j := Find(moved.entries, "definitions");
    assert SettledChild(moved.entries[j].key, moved.entries[j].val, base);
    assert Settled(e.val, Some(e.key));
    SettledIsFixed(e.val, Some(e.key));
  }
}
