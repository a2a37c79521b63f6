/**
 What bundling leaves alone: place by place for one tree whose references are moved, and as a relation between a schema
 and what the finished bundle holds of it, which differ by references and added titles only.
 */
module BundleTrees {
  import opened Seqs
  import opened Json
  import opened Annotate
  import opened Bundle

  // Place by place

  /** The path ends in the string of a "$ref" entry. */
  predicate EndsInRef(v: Value, path: seq<nat>)
    decreases |path|
  {
    match v
    case Arr(items) => path != [] && path[0] < |items| && EndsInRef(items[path[0]], path[1..])
    case Obj(es) =>
      && path != [] && path[0] < |es|
      && (if |path| == 1 then es[path[0]].key == "$ref" && es[path[0]].val.Str?
          else EndsInRef(es[path[0]].val, path[1..]))
    case _ => false
  }

  /**
   Moving references keeps every place of a tree, and the kind of value, the length, the keys or the scalar there; only
   the string of a "$ref" entry becomes the moved reference.
   */
  lemma {:induction false} PlacesKept(f: string -> string, v: Value, path: seq<nat>)
    ensures var a, b := At(v, path), At(MapRefs(f, v), path);
      && (a.Some? <==> b.Some?)
      && (EndsInRef(v, path) ==> a.Some? && a.value.Str? && b == Some(Str(f(a.value.s))))
      && (a.Some? && !EndsInRef(v, path) ==> SameKind(a.value, b.value))
    decreases |path|
  {
    if path != [] {
      match v
      case Arr(items) =>
        if path[0] < |items| {
          PlacesKept(f, items[path[0]], path[1..]);
        }
      case Obj(es) =>
        if path[0] < |es| {
          if |path| > 1 || !EndsInRef(v, path) {
            PlacesKept(f, es[path[0]].val, path[1..]);
          }
        }
      case _ =>
    }
  }

  // Trees that differ by references and titles only

  /** At most a title was appended, to an object without one. */
  predicate TitleAppended(es: seq<Entry>, fs: seq<Entry>) {
    |fs| == |es| || (|fs| == |es| + 1 && fs[|es|].key == "title" && fs[|es|].val.Str? && !Has(es, "title"))
  }

  /** Entry by entry; a title that is not a string may have become one. */
  ghost predicate RetitledEntry(f: string -> string, d: Entry, e: Entry)
    decreases d
  {
    && e.key == d.key
    && (if d.key == "$ref" && d.val.Str? then e.val == Str(f(d.val.s))
        else (d.key == "title" && !d.val.Str? && e.val.Str?) || Retitled(f, d.val, e.val))
  }

  /** w is v with every reference r replaced by f(r), and with titles added where there was no string as title. */
  ghost predicate Retitled(f: string -> string, v: Value, w: Value)
    decreases v
  {
    match v
    case Arr(items) =>
      w.Arr? && |w.items| == |items| && forall i | 0 <= i < |items| :: Retitled(f, items[i], w.items[i])
    case Obj(es) =>
      && w.Obj? && TitleAppended(es, w.entries)
      && forall i | 0 <= i < |es| :: RetitledEntry(f, es[i], w.entries[i])
    case _ => w == v
  }

  const SAME: string -> string := (r: string) => r

  ghost predicate Composes(f: string -> string, g: string -> string, h: string -> string) {
    forall r :: h(r) == g(f(r))
  }

  lemma {:induction false} MappedIsRetitled(f: string -> string, v: Value)
    ensures Retitled(f, v, MapRefs(f, v))
    decreases v
  {
    var w := MapRefs(f, v);
    match v
    case Arr(items) =>
      forall i | 0 <= i < |items| ensures Retitled(f, items[i], w.items[i]) {
        MappedIsRetitled(f, items[i]);
      }
    case Obj(es) =>
      forall i | 0 <= i < |es| ensures RetitledEntry(f, es[i], w.entries[i]) {
        MappedIsRetitled(f, es[i].val);
      }
    case _ =>
  }

  lemma {:induction false} Unchanged(v: Value)
    ensures Retitled(SAME, v, v)
    decreases v
  {
    match v
    case Arr(items) =>
      forall i | 0 <= i < |items| ensures Retitled(SAME, items[i], items[i]) {
        Unchanged(items[i]);
      }
    case Obj(es) =>
      forall i | 0 <= i < |es| ensures RetitledEntry(SAME, es[i], es[i]) {
        Unchanged(es[i].val);
      }
    case _ =>
  }

  lemma {:induction false} RetitledTwice(
    f: string -> string, g: string -> string, h: string -> string, u: Value, v: Value, w: Value)
    requires Retitled(f, u, v) && Retitled(g, v, w) && Composes(f, g, h)
    ensures Retitled(h, u, w)
    decreases u, 0
  {
    match u
    case Arr(items) =>
      forall i | 0 <= i < |items| ensures Retitled(h, items[i], w.items[i]) {
        RetitledTwice(f, g, h, items[i], v.items[i], w.items[i]);
      }
    case Obj(es) =>
      forall i | 0 <= i < |es| ensures RetitledEntry(h, es[i], w.entries[i]) {
        EntryRetitledTwice(f, g, h, es[i], v.entries[i], w.entries[i]);
      }
      AppendedOnce(f, g, es, v.entries, w.entries);
    case _ =>
  }

  lemma AppendedOnce(f: string -> string, g: string -> string, es: seq<Entry>, fs: seq<Entry>, gs: seq<Entry>)
    requires TitleAppended(es, fs) && TitleAppended(fs, gs)
    requires forall i | 0 <= i < |es| :: RetitledEntry(f, es[i], fs[i])
    requires forall i | 0 <= i < |fs| :: RetitledEntry(g, fs[i], gs[i])
    ensures TitleAppended(es, gs)
  {
    if |fs| == |es| {
      forall i | 0 <= i < |es| ensures fs[i].key == es[i].key {
        assert RetitledEntry(f, es[i], fs[i]);
      }
      FindSameKeys(es, fs, "title");
    } else {
      assert Has(fs, "title") by {
        assert fs[|es|].key == "title";
        assert Find(fs, "title") <= |es|;
      }
      var last := fs[|es|];
      assert RetitledEntry(g, last, gs[|es|]) && last.key == "title" && last.val.Str?;
      assert Retitled(g, last.val, gs[|es|].val);
    }
  }

  lemma {:induction false} EntryRetitledTwice(
    f: string -> string, g: string -> string, h: string -> string, a: Entry, b: Entry, c: Entry)
    requires RetitledEntry(f, a, b) && RetitledEntry(g, b, c) && Composes(f, g, h)
    ensures RetitledEntry(h, a, c)
    decreases a, 1
  {
    if a.key == "$ref" && a.val.Str? {
      assert c.val == Str(g(f(a.val.s)));
    } else if Retitled(f, a.val, b.val) && Retitled(g, b.val, c.val) {
      RetitledTwice(f, g, h, a.val, b.val, c.val);
    }
  }

  // Annotation adds titles only

  ghost predicate TitlesOnly(v: Value, w: Value) {
    Retitled(SAME, v, w)
  }

  lemma TitlesOnlyTwice(u: Value, v: Value, w: Value)
    requires TitlesOnly(u, v) && TitlesOnly(v, w)
    ensures TitlesOnly(u, w)
  {
    RetitledTwice(SAME, SAME, SAME, u, v, w);
  }

  lemma EntriesTitled(es: seq<Entry>, fs: seq<Entry>)
    requires |fs| == |es| && forall i | 0 <= i < |es| :: fs[i].key == es[i].key && TitlesOnly(es[i].val, fs[i].val)
    ensures TitlesOnly(Obj(es), Obj(fs))
  {
    forall i | 0 <= i < |es| ensures RetitledEntry(SAME, es[i], fs[i]) {
      assert TitlesOnly(es[i].val, fs[i].val);
    }
  }

  lemma PutTitleAddsTitle(es: seq<Entry>, title: string)
    requires AsStr(Get(es, "title")).None?
    ensures TitlesOnly(Obj(es), Obj(PutTitle(es, title)))
  {
    var ps := PutTitle(es, title);
    forall i | 0 <= i < |es| ensures RetitledEntry(SAME, es[i], ps[i]) {
      Unchanged(es[i].val);
    }
  }

  lemma TitleDiscriminatorTitles(e: Entry, owner: string)
    ensures TitlesOnly(e.val, TitleDiscriminator(e, owner).val)
  {
    if TitleDiscriminator(e, owner) == e {
      Unchanged(e.val);
    } else {
      PutTitleAddsTitle(e.val.entries, owner + ToPascalCase(e.key));
    }
  }

  lemma TitleObjectTitles(es: seq<Entry>, owner: Option<string>)
    ensures TitlesOnly(Obj(es), Obj(TitleObject(es, owner)))
  {
    var ts := TitleObject(es, owner);
    forall i | 0 <= i < |es| ensures TitlesOnly(es[i].val, ts[i].val) {
      TitlePropertiesTitles(es[i], owner);
    }
    EntriesTitled(es, ts);
  }

  lemma TitlePropertiesTitles(e: Entry, owner: Option<string>)
    ensures TitlesOnly(e.val, TitleProperties(e, owner).val)
  {
    if owner.Some? && e.key == "properties" && e.val.Obj? {
      var ps := e.val.entries;
      forall j | 0 <= j < |ps| ensures TitlesOnly(ps[j].val, TitleDiscriminators(ps, owner.value)[j].val) {
        TitleDiscriminatorTitles(ps[j], owner.value);
      }
      EntriesTitled(ps, TitleDiscriminators(ps, owner.value));
    } else {
      Unchanged(e.val);
    }
  }

  lemma {:induction false} TitledVariantTitles(variant: Value, seen: set<string>, base: Option<string>)
    ensures TitlesOnly(variant, TitledVariant(variant, seen, base))
  {
    var title := NewTitle(variant, seen, base);
    if !variant.Obj? {
      Unchanged(variant);
    } else if title.Some? {
      var titled := PutTitle(variant.entries, title.value);
      PutTitleAddsTitle(variant.entries, title.value);
      TitleObjectTitles(titled, title);
      TitlesOnlyTwice(variant, Obj(titled), Obj(TitleObject(titled, title)));
    } else {
      TitleObjectTitles(variant.entries, VariantTitle(variant));
    }
  }

  /** An annotated tree is the tree with titles added. */
  lemma {:induction false} AnnotationAddsTitles(v: Value, base: Option<string>)
    ensures TitlesOnly(v, Annotated(v, base))
    decreases Depth(v), 2, 0
  {
    var w := Annotated(v, base);
    match v
    case Arr(items) =>
      forall i | 0 <= i < |items| ensures Retitled(SAME, items[i], w.items[i]) {
        AnnotationAddsTitles(items[i], base);
      }
    case Obj(es) =>
      var owner := AsStr(Get(es, "title"));
      var ts := TitleObject(es, owner);
      forall i | 0 <= i < |es| ensures TitlesOnly(ts[i].val, w.entries[i].val) {
        ChildAddsTitles(ts[i].key, ts[i].val, base);
      }
      EntriesTitled(ts, w.entries);
      TitleObjectTitles(es, owner);
      TitlesOnlyTwice(v, Obj(ts), w);
    case _ =>
  }

  lemma {:induction false} ChildAddsTitles(key: string, val: Value, base: Option<string>)
    ensures TitlesOnly(val, AnnotatedChild(key, val, base))
    decreases Depth(val), 3, 0
  {
    var w := AnnotatedChild(key, val, base);
    if key == "oneOf" || key == "anyOf" {
      if val.Arr? {
        forall i | 0 <= i < |val.items| ensures Retitled(SAME, val.items[i], w.items[i]) {
          VariantAddsTitles(val.items, Titles(val.items), base, i);
        }
      } else {
        Unchanged(val);
      }
    } else if key == "definitions" || key == "$defs" || key == "properties" {
      if val.Obj? {
        forall i | 0 <= i < |val.entries| ensures TitlesOnly(val.entries[i].val, w.entries[i].val) {
          AnnotationAddsTitles(val.entries[i].val, if key == "properties" then base else Some(val.entries[i].key));
        }
        EntriesTitled(val.entries, w.entries);
      } else {
        Unchanged(val);
      }
    } else {
      AnnotationAddsTitles(val, base);
    }
  }

  lemma {:induction false} VariantAddsTitles(variants: seq<Value>, seen: set<string>, base: Option<string>, i: nat)
    requires i < |variants|
    ensures TitlesOnly(variants[i], AnnotatedVariants(variants, seen, base)[i])
    decreases 1 + ItemsDepth(variants), 1, 0
  {
    var before := VariantInTurn(variants, seen, base, i);
    var t := TitledVariant(variants[i], before, base);
    TitledVariantTitles(variants[i], before, base);
    AnnotationAddsTitles(t, base);
    TitlesOnlyTwice(variants[i], t, Annotated(t, base));
  }
}
