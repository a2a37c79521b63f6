/**
 The titles that annotation gives: how a variant is named after its literals, properties or required key, what happens
 when the name is taken, and which base a list anywhere in a tree is named with.
 */
module AnnotateNames {
  import opened Seqs
  import opened Text
  import opened Json
  import opened Annotate

  // Capitalised words

  predicate IsSeparator(c: char) {
    c == '_' || c == '-'
  }

  /** Behind a separator, or first where a word is to start. */
  predicate StartsWord(input: string, i: nat, first: bool)
    requires i < |input|
  {
    if i == 0 then first else IsSeparator(input[i - 1])
  }

  ghost predicate Kept(input: string, at: seq<nat>, i: nat)
    requires i < |input|
  {
    !IsSeparator(input[i]) <==> i in at
  }

  /** The distance from a small letter to its capital is 32. */
  ghost predicate CapitalisedAt(input: string, first: bool, c: char, i: nat) {
    && i < |input|
    && input[i] as int - c as int == if StartsWord(input, i, first) && 'a' <= input[i] <= 'z' then 32 else 0
  }

  /** r is the first n of input without separators, in order, with the starts of words in upper case. */
  ghost predicate Capitalised(input: string, n: nat, first: bool, r: string, at: seq<nat>)
    requires n <= |input|
  {
    && Increasing(at) && |r| == |at|
    && (forall i: nat | i < n :: Kept(input, at, i))
    && (forall k | 0 <= k < |at| :: at[k] < n && CapitalisedAt(input, first, r[k], at[k]))
  }

  function Capital(input: string, i: nat, first: bool): string
    requires i < |input|
  {
    if IsSeparator(input[i]) then []
    else if StartsWord(input, i, first) then [Uppercase(input[i])] else [input[i]]
  }

  lemma {:induction false} PascalAppend(input: string, first: bool)
    requires input != ""
    ensures var n := |input| - 1;
            Pascal(input, first) == Pascal(input[..n], first) + Capital(input, n, first)
  {
    var n := |input| - 1;
    if n > 0 {
      var tail := input[1..];
      PascalAppend(tail, IsSeparator(input[0]));
      assert tail[..n - 1] == input[..n][1..];
      assert tail[n - 1] == input[n] && (n > 1 ==> tail[n - 2] == input[n - 1]);
    }
  }

  lemma CapitalIs(input: string, first: bool, i: nat)
    requires i < |input|
    ensures |Capital(input, i, first)| == if IsSeparator(input[i]) then 0 else 1
    ensures !IsSeparator(input[i]) ==> CapitalisedAt(input, first, Capital(input, i, first)[0], i)
  {
  }

  lemma OneFurther(input: string, n: nat, first: bool, r: string, at: seq<nat>)
    requires n < |input| && Capitalised(input, n, first, r, at)
    ensures IsSeparator(input[n]) ==> Capitalised(input, n + 1, first, r, at)
    ensures !IsSeparator(input[n]) ==> Capitalised(input, n + 1, first, r + Capital(input, n, first), at + [n])
  {
    CapitalIs(input, first, n);
    forall i: nat | i < n ensures Kept(input, at + [n], i) {
      assert Kept(input, at, i);
    }
  }

  lemma {:induction false} PascalPlaces(input: string, n: nat, first: bool) returns (at: seq<nat>)
    requires n <= |input|
    ensures Capitalised(input, n, first, Pascal(input[..n], first), at)
  {
    if n == 0 {
      at := [];
    } else {
      at := PascalPlaces(input, n - 1, first);
      var r := Pascal(input[..n - 1], first);
      assert input[..n][..n - 1] == input[..n - 1];
      PascalAppend(input[..n], first);
      OneFurther(input, n - 1, first, r, at);
      if IsSeparator(input[n - 1]) {
        assert r + "" == r;
      } else {
        at := at + [n - 1];
      }
    }
  }

  /** Exactly '_' and '-' are dropped, and exactly the first character and those behind a separator are capitalised. */
  lemma PascalExactly(input: string) returns (at: seq<nat>)
    ensures Capitalised(input, |input|, true, ToPascalCase(input), at)
  {
    at := PascalPlaces(input, |input|, true);
    assert input[..|input|] == input;
  }

  // The name of a variant

  /** The string that an object allows: its "const", or the first of its "enum" when it has no string as "const". */
  ghost predicate Allows(p: Value, s: string) {
    || Member(p, "const") == Some(Str(s))
    || ((forall t :: Member(p, "const") != Some(Str(t)))
        && exists items :: Member(p, "enum") == Some(Arr(items)) && items != [] && items[0] == Str(s))
  }

  ghost predicate PropertyAllows(v: Value, key: string, s: string) {
    exists ps, p :: Member(v, "properties") == Some(Obj(ps)) && Get(ps, key) == Some(p) && Allows(p, s)
  }

  ghost predicate NoLiteral(v: Value, key: string) {
    forall s :: !PropertyAllows(v, key, s)
  }

  ghost predicate OnlyProperty(v: Value, key: string) {
    exists p :: Member(v, "properties") == Some(Obj([Entry(key, p)]))
  }

  ghost predicate OnlyRequired(v: Value, key: string) {
    Member(v, "required") == Some(Arr([Str(key)]))
  }

  function MethodSuffix(base: string): string {
    match base
    case "ClientRequest" | "ServerRequest" => "Request"
    case "ClientNotification" | "ServerNotification" => "Notification"
    case _ => base
  }

  /** A variant is named after its method, else its type, else its only property, else its only required key. */
  ghost predicate NamedAfter(base: string, v: Value, word: string, suffix: string) {
    || (PropertyAllows(v, "method", word) && suffix == MethodSuffix(base))
    || (NoLiteral(v, "method") && PropertyAllows(v, "type", word) && suffix == base)
    || (NoLiteral(v, "method") && NoLiteral(v, "type") && OnlyProperty(v, word) && suffix == base)
    || (NoLiteral(v, "method") && NoLiteral(v, "type") && (forall key :: !OnlyProperty(v, key))
        && OnlyRequired(v, word) && suffix == base)
  }

  lemma AllowsExactly(p: Value, s: string)
    ensures Allows(p, s) <==> StringLiteral(p) == Some(s)
  {
    var fixed, choices := Member(p, "const"), Member(p, "enum");
    if AsStr(fixed).Some? {
      assert fixed == Some(Str(AsStr(fixed).value));
    } else if FirstChoice(choices) == Some(s) {
      assert choices == Some(Arr(choices.value.items)) && choices.value.items[0] == Str(s);
    }
  }

  lemma PropertyAllowsExactly(v: Value, key: string, s: string)
    ensures PropertyAllows(v, key, s)
       <==> Member(v, "properties").Some? && Member(v, "properties").value.Obj?
            && LiteralFromProperty(Member(v, "properties").value.entries, key) == Some(s)
  {
    var props := Member(v, "properties");
    if props.Some? && props.value.Obj? {
      var ps := props.value.entries;
      assert props == Some(Obj(ps));
      if Get(ps, key).Some? {
        AllowsExactly(Get(ps, key).value, s);
      }
    }
  }

  function LiteralUnder(v: Value, key: string): Option<string> {
    var props := Member(v, "properties");
    if props.Some? && props.value.Obj? then LiteralFromProperty(props.value.entries, key) else None
  }

  lemma LiteralExactly(v: Value, key: string)
    ensures forall s :: PropertyAllows(v, key, s) <==> LiteralUnder(v, key) == Some(s)
    ensures NoLiteral(v, key) <==> LiteralUnder(v, key).None?
  {
    forall s ensures PropertyAllows(v, key, s) <==> LiteralUnder(v, key) == Some(s) {
      PropertyAllowsExactly(v, key, s);
    }
    if LiteralUnder(v, key).Some? {
      assert PropertyAllows(v, key, LiteralUnder(v, key).value);
    }
  }

  lemma SingleProperty(v: Value, key: string)
    ensures var props := Member(v, "properties");
      OnlyProperty(v, key) <==>
      props.Some? && props.value.Obj? && |props.value.entries| == 1 && props.value.entries[0].key == key
  {
    var props := Member(v, "properties");
    if props.Some? && props.value.Obj? && |props.value.entries| == 1 {
      var e := props.value.entries[0];
      assert props.value.entries == [Entry(e.key, e.val)];
    }
  }

  lemma SingleRequired(v: Value, key: string)
    ensures OnlyRequired(v, key) <==>
      var required := Member(v, "required");
      required.Some? && required.value.Arr? && |required.value.items| == 1 && required.value.items[0] == Str(key)
  {
    var required := Member(v, "required");
    if required.Some? && required.value.Arr? && |required.value.items| == 1 {
      assert required.value.items == [required.value.items[0]];
    }
  }

  function OnlyKey(v: Value): Option<string> {
    var props := Member(v, "properties");
    if props.Some? && props.value.Obj? && |props.value.entries| == 1 then Some(props.value.entries[0].key) else None
  }

  lemma OnlyKeyExactly(v: Value)
    ensures forall key :: OnlyProperty(v, key) <==> OnlyKey(v) == Some(key)
    ensures (forall key :: !OnlyProperty(v, key)) <==> OnlyKey(v).None?
  {
    forall key ensures OnlyProperty(v, key) <==> OnlyKey(v) == Some(key) {
      SingleProperty(v, key);
    }
    if OnlyKey(v).Some? {
      assert OnlyProperty(v, OnlyKey(v).value);
    }
  }

  /** The name is the capitalised word, then the suffix. */
  lemma {:induction false} NameIs(base: string, v: Value, word: string, suffix: string)
    requires NamedAfter(base, v, word, suffix)
    ensures VariantDefinitionName(base, v) == Some(ToPascalCase(word) + suffix)
  {
    LiteralExactly(v, "method");
    LiteralExactly(v, "type");
    OnlyKeyExactly(v);
    SingleRequired(v, word);
  }

  /** A variant has a name exactly when it has one of these words. */
  lemma {:induction false} NamelessExactly(base: string, v: Value)
    ensures VariantDefinitionName(base, v).None? <==> forall word, suffix :: !NamedAfter(base, v, word, suffix)
  {
    if VariantDefinitionName(base, v).Some? {
      SomeNameIsFound(base, v);
    } else {
      NoNameIsFound(base, v);
    }
  }

  lemma NoNameIsFound(base: string, v: Value)
    requires VariantDefinitionName(base, v).None?
    ensures forall word, suffix :: !NamedAfter(base, v, word, suffix)
  {
    LiteralExactly(v, "method");
    LiteralExactly(v, "type");
    OnlyKeyExactly(v);
    forall w, x ensures !NamedAfter(base, v, w, x) {
      SingleRequired(v, w);
    }
  }

  lemma SomeNameIsFound(base: string, v: Value)
    requires VariantDefinitionName(base, v).Some?
    ensures exists word, suffix :: NamedAfter(base, v, word, suffix)
  {
    LiteralExactly(v, "method");
    LiteralExactly(v, "type");
    OnlyKeyExactly(v);
    if LiteralUnder(v, "method").Some? {
      assert NamedAfter(base, v, LiteralUnder(v, "method").value, MethodSuffix(base));
    } else if LiteralUnder(v, "type").Some? {
      assert NamedAfter(base, v, LiteralUnder(v, "type").value, base);
    } else if OnlyKey(v).Some? {
      assert NamedAfter(base, v, OnlyKey(v).value, base);
    } else {
      var word := Member(v, "required").value.items[0].s;
      SingleRequired(v, word);
      assert NamedAfter(base, v, word, base);
    }
  }

  // The title a variant is given

  /** The candidate with this number is free, and those in front of it are taken. */
  ghost predicate FirstNotTaken(name: string, k: nat, taken: set<string>) {
    k >= 1 && Candidate(name, k) !in taken && forall j: nat | 1 <= j < k :: Candidate(name, j) in taken
  }

  lemma {:induction false} FirstFreeIs(name: string, k: nat, seen: set<string>, untried: set<string>) returns (j: nat)
    requires 1 <= k && Untried(name, k, seen, untried)
    ensures k <= j && FirstFree(name, k, seen, untried) == Candidate(name, j)
    ensures Candidate(name, j) !in seen && forall i: nat | k <= i < j :: Candidate(name, i) in seen
    decreases untried
  {
    j := k;
    if Candidate(name, k) in seen {
      UntriedStep(name, k, seen, untried);
      j := FirstFreeIs(name, k + 1, seen, untried - {Candidate(name, k)});
    }
  }

  lemma FreshNameIs(name: string, seen: set<string>) returns (k: nat)
    ensures FirstNotTaken(name, k, seen) && FreshName(name, seen) == Candidate(name, k)
  {
    k := FirstFreeIs(name, 1, seen, seen);
  }

  /** The titles that variants in front of position i are given. */
  ghost function GivenBefore(vs: seq<Value>, ws: seq<Value>, i: nat): set<string>
    requires i <= |vs| == |ws|
  {
    set p | 0 <= p < i && GetsTitle(vs[p], ws[p]) :: VariantTitle(ws[p]).value
  }

  lemma GivenStep(vs: seq<Value>, ws: seq<Value>, i: nat)
    requires 0 < i <= |vs| == |ws|
    ensures GivenBefore(vs, ws, i)
         == (if GetsTitle(vs[0], ws[0]) then {VariantTitle(ws[0]).value} else {}) + GivenBefore(vs[1..], ws[1..], i - 1)
  {
    var vt, wt := vs[1..], ws[1..];
    var l, r := GivenBefore(vs, ws, i), GivenBefore(vt, wt, i - 1);
    forall p | 0 < p < i && GetsTitle(vs[p], ws[p]) ensures VariantTitle(ws[p]).value in r {
      assert vt[p - 1] == vs[p] && wt[p - 1] == ws[p];
    }
    forall p | 0 <= p < i - 1 && GetsTitle(vt[p], wt[p]) ensures VariantTitle(wt[p]).value in l {
      assert vt[p] == vs[p + 1] && wt[p] == ws[p + 1];
    }
  }

  lemma {:induction false} TitleInTurn(variants: seq<Value>, seen: set<string>, base: Option<string>, i: nat)
    requires i < |variants| && VariantTitle(variants[i]).None?
    ensures var ws := AnnotatedVariants(variants, seen, base);
      VariantTitle(ws[i]) == NewTitle(variants[i], seen + GivenBefore(variants, ws, i), base)
    decreases |variants|
  {
    var ws := AnnotatedVariants(variants, seen, base);
    var t := TitledVariant(variants[0], seen, base);
    FirstVariant(variants, seen, base);
    TitledVariantTitle(variants[0], seen, base);
    TitleKept(t, base);
    if i == 0 {
      assert seen + GivenBefore(variants, ws, 0) == seen;
    } else {
      var seen' := SeenAfter(variants[0], seen, base);
      LaterVariant(variants, seen, base, i);
      assert ws[1..] == AnnotatedVariants(variants[1..], seen', base);
      TitleInTurn(variants[1..], seen', base, i - 1);
      GivenStep(variants, ws, i);
      assert seen' + GivenBefore(variants[1..], ws[1..], i - 1) == seen + GivenBefore(variants, ws, i);
    }
  }

  /**
   A variant without a title that has a word gets the capitalised word and the suffix; when the title is taken by a
   title of the list or one given before, the first of 2, 3, ... that makes it free is appended.
   */
  lemma {:induction false} GivenTitle(variants: seq<Value>, base: string, i: nat, word: string, suffix: string)
    returns (k: nat)
    requires i < |variants| && VariantTitle(variants[i]).None? && NamedAfter(base, variants[i], word, suffix)
    ensures var ws := AnnotatedVariants(variants, Titles(variants), Some(base));
      && FirstNotTaken(ToPascalCase(word) + suffix, k, Titles(variants) + GivenBefore(variants, ws, i))
      && VariantTitle(ws[i]) == Some(ToPascalCase(word) + suffix + if k == 1 then "" else Decimal(k))
  {
    var ws := AnnotatedVariants(variants, Titles(variants), Some(base));
    TitleInTurn(variants, Titles(variants), Some(base), i);
    NameIs(base, variants[i], word, suffix);
    var name := ToPascalCase(word) + suffix;
    k := FreshNameIs(name, Titles(variants) + GivenBefore(variants, ws, i));
    assert name + "" == name;
  }

  /** A variant without a title stays without one exactly when there is no base or it has no word. */
  lemma {:induction false} NoTitleExactly(variants: seq<Value>, base: Option<string>, i: nat)
    requires i < |variants| && VariantTitle(variants[i]).None?
    ensures VariantTitle(AnnotatedVariants(variants, Titles(variants), base)[i]).None?
       <==> base.None? || forall word, suffix :: !NamedAfter(base.value, variants[i], word, suffix)
  {
    TitleInTurn(variants, Titles(variants), base, i);
    if base.Some? {
      NamelessExactly(base.value, variants[i]);
    }
  }

  // The titles of discriminators

  predicate IsDiscriminatorKey(key: string) {
    key == "type" || key == "method" || key == "mode" || key == "status" || key == "role" || key == "reason"
  }

  /** The word with a capital in front. */
  function Capitalise(word: string): string {
    if word != "" && 'a' <= word[0] <= 'z' then [(word[0] as int - 32) as char] + word[1..] else word
  }

  /** A property that allows one string under one of the six keys, and has no title. */
  ghost predicate UntitledDiscriminator(e: Entry) {
    IsDiscriminatorKey(e.key) && (exists s :: Allows(e.val, s)) && Member(e.val, "title").None?
  }

  lemma {:induction false} PascalWord(word: string)
    requires forall i | 0 <= i < |word| :: !IsSeparator(word[i])
    ensures Pascal(word, false) == word && ToPascalCase(word) == Capitalise(word)
  {
    if word != "" {
      PascalWord(word[1..]);
      assert word == [word[0]] + word[1..];
    }
  }

  lemma KeysAreWords(key: string)
    requires IsDiscriminatorKey(key)
    ensures forall i | 0 <= i < |key| :: !IsSeparator(key[i])
  {
  }

  lemma DiscriminatorKeysListed(key: string)
    ensures key in DISCRIMINATOR_KEYS <==> IsDiscriminatorKey(key)
  {
  }

  lemma DiscriminatorExactly(e: Entry, owner: string)
    ensures VariantTitle(TitleDiscriminator(e, owner).val)
         == if UntitledDiscriminator(e) then Some(owner + Capitalise(e.key)) else VariantTitle(e.val)
  {
    DiscriminatorKeysListed(e.key);
    if IsDiscriminatorKey(e.key) {
      KeysAreWords(e.key);
      PascalWord(e.key);
    }
    if s :| Allows(e.val, s) {
      AllowsExactly(e.val, s);
    }
    if StringLiteral(e.val).Some? {
      AllowsExactly(e.val, StringLiteral(e.val).value);
    }
    if UntitledDiscriminator(e) {
      GetPut(e.val.entries, "title", Str(owner + Capitalise(e.key)), "title");
    }
  }

  /** In an object with a title, exactly the untitled discriminators get one: the object's title and their key. */
  lemma {:induction false} DiscriminatorTitles(v: Value, base: Option<string>, i: nat, p: nat)
    requires v.Obj? && i < |v.entries| && v.entries[i].key == "properties"
    requires v.entries[i].val.Obj? && p < |v.entries[i].val.entries|
    ensures var w, e := Annotated(v, base), v.entries[i].val.entries[p];
      && w.entries[i].val.Obj? && |w.entries[i].val.entries| == |v.entries[i].val.entries|
      && VariantTitle(w.entries[i].val.entries[p].val)
      == if VariantTitle(v).Some? && UntitledDiscriminator(e) then Some(VariantTitle(v).value + Capitalise(e.key))
         else VariantTitle(e.val)
  {
    var owner := VariantTitle(v);
    var titled := TitleProperties(v.entries[i], owner);
    AnnotatedEntry(v.entries, base, i);
    PropertyMapAnnotated(titled.val.entries, base);
    TitleKept(titled.val.entries[p].val, base);
    if owner.Some? {
      DiscriminatorExactly(v.entries[i].val.entries[p], owner.value);
    }
  }

  lemma {:induction false} TitledVariantDiscriminators(
    v: Value, seen: set<string>, base: Option<string>, i: nat, p: nat)
    requires v.Obj? && i < |v.entries| && v.entries[i].key == "properties"
    requires v.entries[i].val.Obj? && p < |v.entries[i].val.entries|
    ensures var t, owner := TitledVariant(v, seen, base), VariantTitle(TitledVariant(v, seen, base));
      && t.Obj? && i < |t.entries| && t.entries[i].key == "properties"
      && t.entries[i].val.Obj? && |t.entries[i].val.entries| == |v.entries[i].val.entries|
      && var e := v.entries[i].val.entries[p];
         t.entries[i].val.entries[p] == if owner.Some? then TitleDiscriminator(e, owner.value) else e
  {
    TitledVariantTitle(v, seen, base);
  }

  /** The discriminators of a variant are titled with the title the variant ends up with, given to it or its own. */
  lemma {:induction false} VariantDiscriminators(
    variants: seq<Value>, seen: set<string>, base: Option<string>, n: nat, i: nat, p: nat)
    requires n < |variants| && variants[n].Obj? && i < |variants[n].entries|
    requires variants[n].entries[i].key == "properties" && variants[n].entries[i].val.Obj?
    requires p < |variants[n].entries[i].val.entries|
    ensures var w, e := AnnotatedVariants(variants, seen, base)[n], variants[n].entries[i].val.entries[p];
      && w.Obj? && i < |w.entries| && w.entries[i].val.Obj?
      && |w.entries[i].val.entries| == |variants[n].entries[i].val.entries|
      && VariantTitle(w.entries[i].val.entries[p].val)
      == if VariantTitle(w).Some? && UntitledDiscriminator(e) then Some(VariantTitle(w).value + Capitalise(e.key))
         else VariantTitle(e.val)
  {
    var before := VariantInTurn(variants, seen, base, n);
    var t := TitledVariant(variants[n], before, base);
    TitledVariantDiscriminators(variants[n], before, base, i, p);
    DiscriminatorTitles(t, base, i, p);
    TitleKept(t, base);
    if VariantTitle(t).Some? {
      var e, owner := variants[n].entries[i].val.entries[p], VariantTitle(t).value;
      DiscriminatorExactly(e, owner);
      NoLongerUntitled(e, owner);
    }
  }

  lemma NoLongerUntitled(e: Entry, owner: string)
    ensures !UntitledDiscriminator(TitleDiscriminator(e, owner))
  {
    DiscriminatorKeysListed(e.key);
    LiteralTitled(e, owner);
    var t := TitleDiscriminator(e, owner);
    if UntitledDiscriminator(t) {
      var s :| Allows(t.val, s);
      AllowsExactly(t.val, s);
      if t != e {
        GetPut(e.val.entries, "title", Str(owner + ToPascalCase(e.key)), "title");
      }
    }
  }

  // Which base a list is named with

  /**
   The list of variants at the end of a path, and the base it is named with: the last name under "definitions" or
   "$defs" on the way, else the given base. A title is not entered.
   */
  ghost function ListAt(v: Value, base: Option<string>, path: seq<nat>): Option<(seq<Value>, Option<string>)>
    decreases |path|, 0
  {
    if path == [] then None
    else
      match v
      case Arr(items) => if path[0] < |items| then ListAt(items[path[0]], base, path[1..]) else None
      case Obj(es) => if path[0] < |es| then ListUnder(es[path[0]].key, es[path[0]].val, base, path[1..]) else None
      case _ => None
  }

  ghost function ListUnder(key: string, val: Value, base: Option<string>, path: seq<nat>)
    : Option<(seq<Value>, Option<string>)>
    decreases |path|, 1
  {
    if key == "title" then None
    else if key == "oneOf" || key == "anyOf" then
      if !val.Arr? then None
      else if path == [] then Some((val.items, base))
      else if path[0] < |val.items| then ListAt(val.items[path[0]], base, path[1..])
      else None
    else if key == "definitions" || key == "$defs" || key == "properties" then
      if val.Obj? && path != [] && path[0] < |val.entries| then
        var e := val.entries[path[0]];
        ListAt(e.val, if key == "properties" then base else Some(e.key), path[1..])
      else None
    else ListAt(val, base, path)
  }

  lemma PutTitleKeepsLists(es: seq<Entry>, title: string, base: Option<string>, path: seq<nat>)
    requires ListAt(Obj(es), base, path).Some?
    ensures ListAt(Obj(PutTitle(es, title)), base, path) == ListAt(Obj(es), base, path)
  {
  }

  lemma TitleObjectKeepsLists(es: seq<Entry>, owner: Option<string>, base: Option<string>, path: seq<nat>)
    requires ListAt(Obj(es), base, path).Some?
    ensures ListAt(Obj(TitleObject(es, owner)), base, path) == ListAt(Obj(es), base, path)
  {
    var e := es[path[0]];
    if TitleProperties(e, owner) != e {
      var d := e.val.entries[path[1]];
      assert path[1..][0] == path[1] && path[1..][1..] == path[2..];
      if TitleDiscriminator(d, owner.value) != d {
        PutTitleKeepsLists(d.val.entries, owner.value + ToPascalCase(d.key), base, path[2..]);
      }
    }
  }

  lemma TitledVariantKeepsLists(v: Value, seen: set<string>, base: Option<string>, path: seq<nat>)
    requires ListAt(v, base, path).Some?
    ensures ListAt(TitledVariant(v, seen, base), base, path) == ListAt(v, base, path)
  {
    var title := NewTitle(v, seen, base);
    if v.Obj? {
      if title.Some? {
        PutTitleKeepsLists(v.entries, title.value, base, path);
        TitleObjectKeepsLists(PutTitle(v.entries, title.value), title, base, path);
      } else {
        TitleObjectKeepsLists(v.entries, VariantTitle(v), base, path);
      }
    }
  }

  /** Wherever a list of variants is in a tree, annotation titles it there, with that base. */
  lemma {:induction false} ListsAreTitled(v: Value, base: Option<string>, path: seq<nat>)
    requires ListAt(v, base, path).Some?
    ensures var (items, b) := ListAt(v, base, path).value;
      At(Annotated(v, base), path) == Some(Arr(AnnotatedVariants(items, Titles(items), b)))
    decreases |path|, 0
  {
    match v
    case Arr(items) => ListsAreTitled(items[path[0]], base, path[1..]);
    case Obj(es) =>
      var titled := TitleObject(es, VariantTitle(v));
      TitleObjectKeepsLists(es, VariantTitle(v), base, path);
      AnnotatedEntry(es, base, path[0]);
      ListsUnderAreTitled(titled[path[0]].key, titled[path[0]].val, base, path[1..]);
  }

  lemma {:induction false} ListsUnderAreTitled(key: string, val: Value, base: Option<string>, path: seq<nat>)
    requires ListUnder(key, val, base, path).Some?
    ensures var (items, b) := ListUnder(key, val, base, path).value;
      At(AnnotatedChild(key, val, base), path) == Some(Arr(AnnotatedVariants(items, Titles(items), b)))
    decreases |path|, 1
  {
    if key == "oneOf" || key == "anyOf" {
      if path != [] {
        ListsInVariantsAreTitled(val.items, base, path[0], path[1..]);
      }
    } else if key == "definitions" || key == "$defs" || key == "properties" {
      ListsInEntriesAreTitled(key, val, base, path);
    } else {
      ListsAreTitled(val, base, path);
    }
  }

  lemma {:induction false} ListsInVariantsAreTitled(items: seq<Value>, base: Option<string>, n: nat, path: seq<nat>)
    requires n < |items| && ListAt(items[n], base, path).Some?
    ensures var (list, b) := ListAt(items[n], base, path).value;
      At(AnnotatedVariants(items, Titles(items), base)[n], path) == Some(Arr(AnnotatedVariants(list, Titles(list), b)))
    decreases |path|, 1
  {
    var seen := VariantInTurn(items, Titles(items), base, n);
    TitledVariantKeepsLists(items[n], seen, base, path);
    ListsAreTitled(TitledVariant(items[n], seen, base), base, path);
  }

  lemma {:induction false} ListsInEntriesAreTitled(key: string, val: Value, base: Option<string>, path: seq<nat>)
    requires key == "definitions" || key == "$defs" || key == "properties"
    requires ListUnder(key, val, base, path).Some?
    ensures var (items, b) := ListUnder(key, val, base, path).value;
      At(AnnotatedChild(key, val, base), path) == Some(Arr(AnnotatedVariants(items, Titles(items), b)))
    decreases |path|, 0
  {
    var e := val.entries[path[0]];
    ListsAreTitled(e.val, if key == "properties" then base else Some(e.key), path[1..]);
  }
}
