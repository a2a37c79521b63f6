/**
 Finding the context lines of a patch in a file: passes of decreasing strictness over the same range of positions. A
 pass compares the images of the lines under a function that forgets blanks or typography.
 */
module SeekSequence {
  import opened Seqs
  import opened Text

  // One pass, for any image

  type Image = string -> string

  predicate MatchesAt(image: Image, lines: seq<string>, pattern: seq<string>, i: nat)
    requires i + |pattern| <= |lines|
  {
    forall k | 0 <= k < |pattern| :: image(lines[i + k]) == image(pattern[k])
  }

  /** Some position of the searched range matches. */
  predicate MatchesFrom(image: Image, lines: seq<string>, pattern: seq<string>, from: nat) {
    exists i | from <= i <= |lines| - |pattern| :: MatchesAt(image, lines, pattern, i)
  }

  /** Position i is in range, matches, and no position in front of it does. */
  predicate IsFirst(image: Image, lines: seq<string>, pattern: seq<string>, from: nat, i: nat) {
    && from <= i <= |lines| - |pattern|
    && MatchesAt(image, lines, pattern, i)
    && forall j | from <= j < i :: !MatchesAt(image, lines, pattern, j)
  }

  function FirstMatch(image: Image, lines: seq<string>, pattern: seq<string>, from: nat): Option<nat>
    requires |pattern| <= |lines|
    decreases |lines| - |pattern| + 1 - from
  {
    if from > |lines| - |pattern| then None
    else if MatchesAt(image, lines, pattern, from) then Some(from)
    else FirstMatch(image, lines, pattern, from + 1)
  }

  lemma {:induction false} FirstMatchIsFirst(image: Image, lines: seq<string>, pattern: seq<string>, from: nat)
    requires |pattern| <= |lines|
    ensures var r := FirstMatch(image, lines, pattern, from);
            && (r.Some? <==> MatchesFrom(image, lines, pattern, from))
            && (r.Some? ==> IsFirst(image, lines, pattern, from, r.value))
    decreases |lines| - |pattern| + 1 - from
  {
    if from <= |lines| - |pattern| && !MatchesAt(image, lines, pattern, from) {
      FirstMatchIsFirst(image, lines, pattern, from + 1);
    }
  }

  // Pass after pass

  function OrElse<T>(a: Option<T>, b: Option<T>): Option<T> {
    if a.Some? then a else b
  }

  function InPasses(images: seq<Image>, lines: seq<string>, pattern: seq<string>, from: nat): Option<nat>
    requires |pattern| <= |lines|
  {
    if images == [] then None
    else OrElse(FirstMatch(images[0], lines, pattern, from), InPasses(images[1..], lines, pattern, from))
  }

  /** Pass k is the first to succeed, and i is the first position it accepts. */
  ghost predicate FoundBy(k: nat, images: seq<Image>, lines: seq<string>, pattern: seq<string>, from: nat, i: nat) {
    && k < |images|
    && IsFirst(images[k], lines, pattern, from, i)
    && forall j | 0 <= j < k :: !MatchesFrom(images[j], lines, pattern, from)
  }

  lemma {:induction false} FirstOfStrictest(images: seq<Image>, lines: seq<string>, pattern: seq<string>, from: nat)
    returns (k: nat)
    requires |pattern| <= |lines|
    ensures var r := InPasses(images, lines, pattern, from);
            && (r.None? ==> forall j | 0 <= j < |images| :: !MatchesFrom(images[j], lines, pattern, from))
            && (r.Some? ==> FoundBy(k, images, lines, pattern, from, r.value))
  {
    k := 0;
    if images != [] {
      FirstMatchIsFirst(images[0], lines, pattern, from);
      if FirstMatch(images[0], lines, pattern, from).None? {
        var m := FirstOfStrictest(images[1..], lines, pattern, from);
        assert forall j | 0 < j < |images| :: images[j] == images[1..][j - 1];
        k := m + 1;
      }
    }
  }

  /** The image g forgets at least what f forgets. */
  ghost predicate Coarser(f: Image, g: Image) {
    forall a: string, b: string :: f(a) == f(b) ==> g(a) == g(b)
  }

  lemma CoarserMatchesMore(f: Image, g: Image, lines: seq<string>, pattern: seq<string>, from: nat)
    requires Coarser(f, g) && MatchesFrom(f, lines, pattern, from)
    ensures MatchesFrom(g, lines, pattern, from)
  {
    var i :| from <= i <= |lines| - |pattern| && MatchesAt(f, lines, pattern, i);
    assert MatchesAt(g, lines, pattern, i);
  }

  /** g is the last of the passes and forgets the most. */
  ghost predicate EndsWith(images: seq<Image>, g: Image) {
    && images != [] && images[|images| - 1] == g
    && forall j | 0 <= j < |images| :: Coarser(images[j], g)
  }

  /** Only the last pass decides whether anything is found. */
  lemma LastPassDecides(images: seq<Image>, g: Image, lines: seq<string>, pattern: seq<string>, from: nat)
    requires |pattern| <= |lines| && EndsWith(images, g)
    ensures InPasses(images, lines, pattern, from).Some? <==> MatchesFrom(g, lines, pattern, from)
  {
    var k := FirstOfStrictest(images, lines, pattern, from);
    if InPasses(images, lines, pattern, from).Some? {
      CoarserMatchesMore(images[k], g, lines, pattern, from);
    }
  }

  // The four passes of the code

  /** Typographic dashes, quotes and spaces become their ASCII equivalents. */
  function NormalChar(c: char): char {
    if '\U{2010}' <= c <= '\U{2015}' || c == '\U{2212}' then '-'
    else if '\U{2018}' <= c <= '\U{201B}' then '\''
    else if '\U{201C}' <= c <= '\U{201F}' then '"'
    else if c == '\U{A0}' || '\U{2002}' <= c <= '\U{200A}' || c == '\U{202F}' || c == '\U{205F}' || c == '\U{3000}'
    then ' '
    else c
  }

  const DASHES := "\U{2010}\U{2011}\U{2012}\U{2013}\U{2014}\U{2015}\U{2212}"
  const SINGLE_QUOTES := "\U{2018}\U{2019}\U{201A}\U{201B}"
  const DOUBLE_QUOTES := "\U{201C}\U{201D}\U{201E}\U{201F}"
  const ODD_SPACES :=
    "\U{A0}\U{2002}\U{2003}\U{2004}\U{2005}\U{2006}\U{2007}\U{2008}\U{2009}\U{200A}\U{202F}\U{205F}\U{3000}"

  /** Exactly these dashes, quotes and spaces are replaced, and by what. */
  lemma {:induction false} NormalCharExactly(c: char)
    ensures c in DASHES ==> NormalChar(c) == '-'
    ensures c in SINGLE_QUOTES ==> NormalChar(c) == '\''
    ensures c in DOUBLE_QUOTES ==> NormalChar(c) == '"'
    ensures c in ODD_SPACES ==> NormalChar(c) == ' '
    ensures c !in DASHES + SINGLE_QUOTES + DOUBLE_QUOTES + ODD_SPACES ==> NormalChar(c) == c
  {
  }

  function Normalise(s: string): string {
    Map(NormalChar, Trim(s))
  }

  const EXACT: Image := (s: string) => s

  const PASSES: seq<Image> := [EXACT, TrimEnd, Trim, Normalise]

  /** Where the search starts: at the only position that reaches the end of the file, when that is asked for. */
  function SearchStart(lines: seq<string>, pattern: seq<string>, start: nat, eof: bool): nat
    requires |pattern| <= |lines|
  {
    if eof then |lines| - |pattern| else start
  }

  function SoughtIn(images: seq<Image>, lines: seq<string>, pattern: seq<string>, start: nat, eof: bool): Option<nat> {
    if pattern == [] then Some(start)
    else if |pattern| > |lines| then None
    else InPasses(images, lines, pattern, SearchStart(lines, pattern, start, eof))
  }

  function Sought(lines: seq<string>, pattern: seq<string>, start: nat, eof: bool): Option<nat> {
    SoughtIn(PASSES, lines, pattern, start, eof)
  }

  method MatchesHere(image: Image, lines: seq<string>, pattern: seq<string>, i: nat) returns (ok: bool)
    requires i + |pattern| <= |lines|
    ensures ok == MatchesAt(image, lines, pattern, i)
  {
    ok := true;
    for k := 0 to |pattern|
      invariant ok
      invariant forall j | 0 <= j < k :: image(lines[i + j]) == image(pattern[j])
    {
      if image(lines[i + k]) != image(pattern[k]) {
        ok := false;
        break;
      }
    }
  }

  lemma FirstMatchStep(image: Image, lines: seq<string>, pattern: seq<string>, i: nat)
    requires i <= |lines| - |pattern|
    ensures FirstMatch(image, lines, pattern, i)
         == if MatchesAt(image, lines, pattern, i) then Some(i) else FirstMatch(image, lines, pattern, i + 1)
  {
  }

  method Pass(image: Image, lines: seq<string>, pattern: seq<string>, from: nat) returns (r: Option<nat>)
    requires |pattern| <= |lines|
    ensures r == FirstMatch(image, lines, pattern, from)
  {
    ghost var first := FirstMatch(image, lines, pattern, from);
    var i := from;
    while i <= |lines| - |pattern|
      invariant from <= i
      invariant first == FirstMatch(image, lines, pattern, i)
      decreases |lines| - i
    {
      FirstMatchStep(image, lines, pattern, i);
      var ok := MatchesHere(image, lines, pattern, i);
      if ok {
        return Some(i);
      }
      i := i + 1;
    }
    r := None;
  }

  lemma FourPasses(a: Image, b: Image, c: Image, d: Image, lines: seq<string>, pattern: seq<string>, from: nat)
    requires |pattern| <= |lines|
    ensures InPasses([a, b, c, d], lines, pattern, from)
            == OrElse(FirstMatch(a, lines, pattern, from),
                      OrElse(FirstMatch(b, lines, pattern, from),
                             OrElse(FirstMatch(c, lines, pattern, from), FirstMatch(d, lines, pattern, from))))
  {
    assert [d][1..] == [];
    assert InPasses([d], lines, pattern, from) == FirstMatch(d, lines, pattern, from);
    assert [c, d][1..] == [d];
    assert InPasses([c, d], lines, pattern, from)
        == OrElse(FirstMatch(c, lines, pattern, from), InPasses([d], lines, pattern, from));
    assert [b, c, d][1..] == [c, d];
    assert InPasses([b, c, d], lines, pattern, from)
        == OrElse(FirstMatch(b, lines, pattern, from), InPasses([c, d], lines, pattern, from));
    assert [a, b, c, d][1..] == [b, c, d];
  }

  method SeekSequence(lines: seq<string>, pattern: seq<string>, start: nat, eof: bool) returns (r: Option<nat>)
    ensures r == Sought(lines, pattern, start, eof)
  {
    if pattern == [] {
      return Some(start);
    }
    if |pattern| > |lines| {
      return None;
    }
    var searchStart := if eof && |lines| >= |pattern| then |lines| - |pattern| else start;
    FourPasses(EXACT, TrimEnd, Trim, Normalise, lines, pattern, searchStart);
    r := Pass(EXACT, lines, pattern, searchStart);
    if r.Some? {
      return;
    }
    r := Pass(TrimEnd, lines, pattern, searchStart);
    if r.Some? {
      return;
    }
    r := Pass(Trim, lines, pattern, searchStart);
    if r.Some? {
      return;
    }
    r := Pass(Normalise, lines, pattern, searchStart);
  }

  // Each pass forgets more than the one before

  /** Trimming both sides forgets what trimming the end forgets. */
  lemma {:induction false} TrimAfterTrimEnd(s: string)
    ensures Trim(TrimEnd(s)) == Trim(s)
  {
    var w := TrimEndParts(s);
    var w1, w2 := TrimParts(TrimEnd(s));
    var t := Trim(TrimEnd(s));
    Regroup(w1, t, w2, w);
    BlankTogether(w2, w);
    TrimOver(w1, t, w2 + w);
  }

  lemma Regroup(a: string, b: string, c: string, d: string)
    ensures a + b + c + d == a + b + (c + d)
  {
  }

  lemma BlankTogether(a: string, b: string)
    requires Blank(a) && Blank(b)
    ensures Blank(a + b)
  {
  }

  /** Exact, without trailing blanks, without blanks, normalised: each forgets what the ones before forget. */
  lemma {:induction false} PassesCoarsen()
    ensures forall j, k | 0 <= j <= k < |PASSES| :: Coarser(PASSES[j], PASSES[k])
  {
    forall j, k, a: string, b: string | 0 <= j <= k < |PASSES| && PASSES[j](a) == PASSES[j](b)
      ensures PASSES[k](a) == PASSES[k](b)
    {
      TrimAfterTrimEnd(a);
      TrimAfterTrimEnd(b);
    }
  }

  lemma TrimmedStays(s: string)
    requires Trimmed(s)
    ensures Trim(s) == s
  {
    TrimOver("", s, "");
    assert "" + s + "" == s;
  }

  lemma NormalCharsStay(t: string)
    requires Trimmed(t)
    ensures Trimmed(Map(NormalChar, t)) && Map(NormalChar, Map(NormalChar, t)) == Map(NormalChar, t)
  {
  }

  /** Normalising is idempotent: no blank is made of another character or the other way round. */
  lemma NormaliseTwice(s: string)
    ensures Normalise(Normalise(s)) == Normalise(s)
  {
    var _, _ := TrimParts(s);
    NormalCharsStay(Trim(s));
    TrimmedStays(Normalise(s));
  }

  /** Normalising the pattern and the file beforehand changes nothing the last pass sees. */
  lemma {:induction false} NormalisedBeforehand(lines: seq<string>, pattern: seq<string>, i: nat)
    requires i + |pattern| <= |lines|
    ensures MatchesAt(Normalise, Map(Normalise, lines), Map(Normalise, pattern), i)
            <==> MatchesAt(Normalise, lines, pattern, i)
    ensures MatchesAt(EXACT, Map(Normalise, lines), Map(Normalise, pattern), i)
            <==> MatchesAt(Normalise, lines, pattern, i)
  {
    NormalisedLinesStay(lines);
    NormalisedLinesStay(pattern);
    SameMatches(Normalise, Map(Normalise, lines), Map(Normalise, pattern), Normalise, lines, pattern, i);
    SameMatches(EXACT, Map(Normalise, lines), Map(Normalise, pattern), Normalise, lines, pattern, i);
  }

  lemma NormalisedLinesStay(lines: seq<string>)
    ensures Map(Normalise, Map(Normalise, lines)) == Map(Normalise, lines)
    ensures Map(EXACT, Map(Normalise, lines)) == Map(Normalise, lines)
  {
    forall k | 0 <= k < |lines| ensures Normalise(Normalise(lines[k])) == Normalise(lines[k]) {
      NormaliseTwice(lines[k]);
    }
  }

  lemma SameMatches(
    f: Image, ls: seq<string>, ps: seq<string>, g: Image, lines: seq<string>, pattern: seq<string>, i: nat)
    requires i + |pattern| <= |lines|
    requires Map(f, ls) == Map(g, lines) && Map(f, ps) == Map(g, pattern)
    ensures |ls| == |lines| && |ps| == |pattern|
    ensures MatchesAt(f, ls, ps, i) <==> MatchesAt(g, lines, pattern, i)
  {
    assert |ls| == |Map(f, ls)| && |ps| == |Map(f, ps)|;
    forall k | 0 <= k < |pattern| ensures f(ls[i + k]) == g(lines[i + k]) && f(ps[k]) == g(pattern[k]) {
      assert Map(f, ls)[i + k] == Map(g, lines)[i + k];
      assert Map(f, ps)[k] == Map(g, pattern)[k];
    }
  }

  // What the search finds

  lemma {:induction false} PassesEnd()
    ensures EndsWith(PASSES, Normalise)
  {
    PassesCoarsen();
  }

  /** Nothing is found exactly when no position in range matches even after normalising. */
  lemma NothingFoundExactly(lines: seq<string>, pattern: seq<string>, start: nat, eof: bool)
    requires 0 < |pattern| <= |lines|
    ensures var from := if eof then |lines| - |pattern| else start;
            Sought(lines, pattern, start, eof).None? <==> !MatchesFrom(Normalise, lines, pattern, from)
  {
    PassesEnd();
    LastPassDecides(PASSES, Normalise, lines, pattern, SearchStart(lines, pattern, start, eof));
  }

  lemma FoundOnce(
    images: seq<Image>, lines: seq<string>, pattern: seq<string>, from: nat, j: nat, a: nat, k: nat, b: nat)
    requires FoundBy(j, images, lines, pattern, from, a) && FoundBy(k, images, lines, pattern, from, b)
    ensures j == k && a == b
  {
    assert MatchesFrom(images[j], lines, pattern, from) && MatchesFrom(images[k], lines, pattern, from);
  }

  /** i is the first match of the first of the passes that has one. */
  ghost predicate FirstOfPasses(images: seq<Image>, lines: seq<string>, pattern: seq<string>, from: nat, i: nat) {
    exists k: nat :: FoundBy(k, images, lines, pattern, from, i)
  }

  lemma {:induction false} InPassesExactly(
    images: seq<Image>, lines: seq<string>, pattern: seq<string>, from: nat, i: nat)
    requires |pattern| <= |lines|
    ensures InPasses(images, lines, pattern, from) == Some(i) <==> FirstOfPasses(images, lines, pattern, from, i)
  {
    var k := FirstOfStrictest(images, lines, pattern, from);
    if FirstOfPasses(images, lines, pattern, from, i) {
      var m: nat :| FoundBy(m, images, lines, pattern, from, i);
      assert MatchesFrom(images[m], lines, pattern, from);
      FoundOnce(images, lines, pattern, from, k, InPasses(images, lines, pattern, from).value, m, i);
    }
  }

  /**
   What is found is in range, and the first match of the strictest pass that has one: equal, equal without trailing
   blanks, equal without surrounding blanks, equal after normalising.
   */
  lemma {:induction false} FoundIsFirstOfStrictest(
    lines: seq<string>, pattern: seq<string>, start: nat, eof: bool, i: nat)
    requires pattern != []
    ensures Sought(lines, pattern, start, eof) == Some(i)
       <==> && |pattern| <= |lines|
            && var from := if eof then |lines| - |pattern| else start;
               FirstOfPasses([EXACT, TrimEnd, Trim, Normalise], lines, pattern, from, i)
  {
    if |pattern| <= |lines| {
      InPassesExactly(PASSES, lines, pattern, SearchStart(lines, pattern, start, eof), i);
    }
  }

  /** A match of the strictest pass is the pattern itself, line by line. */
  lemma {:induction false} ExactIsEqual(lines: seq<string>, pattern: seq<string>, i: nat)
    requires i + |pattern| <= |lines|
    ensures MatchesAt(EXACT, lines, pattern, i) <==> lines[i..i + |pattern|] == pattern
  {
    if MatchesAt(EXACT, lines, pattern, i) {
      assert forall j | 0 <= j < |pattern| :: EXACT(lines[i + j]) == EXACT(pattern[j]);
    }
    var here := lines[i..i + |pattern|];
    assert forall j | 0 <= j < |here| :: here[j] == lines[i + j];
  }

  // The end-of-file mode

  lemma OnlyTheEndIsSearched(image: Image, lines: seq<string>, pattern: seq<string>)
    requires |pattern| <= |lines|
    ensures MatchesFrom(image, lines, pattern, |lines| - |pattern|)
            <==> MatchesAt(image, lines, pattern, |lines| - |pattern|)
  {
    var from := |lines| - |pattern|;
    if MatchesAt(image, lines, pattern, from) {
      assert from <= from <= |lines| - |pattern|;
    }
  }

  lemma FoundAtTheEnd(images: seq<Image>, lines: seq<string>, pattern: seq<string>)
    requires |pattern| <= |lines|
    ensures var r := InPasses(images, lines, pattern, |lines| - |pattern|);
            r.Some? ==> r.value == |lines| - |pattern|
  {
    var _ := FirstOfStrictest(images, lines, pattern, |lines| - |pattern|);
  }

  lemma EndIsFound(images: seq<Image>, g: Image, lines: seq<string>, pattern: seq<string>, start: nat)
    requires 0 < |pattern| <= |lines| && EndsWith(images, g)
    ensures var end := |lines| - |pattern|;
            SoughtIn(images, lines, pattern, start, true)
            == if MatchesAt(g, lines, pattern, end) then Some(end) else None
  {
    LastPassDecides(images, g, lines, pattern, |lines| - |pattern|);
    OnlyTheEndIsSearched(g, lines, pattern);
    FoundAtTheEnd(images, lines, pattern);
  }

  /** The only position the end-of-file mode can report is the one where the pattern ends the file. */
  lemma EofFindsOnlyTheEnd(lines: seq<string>, pattern: seq<string>, start: nat)
    requires 0 < |pattern| <= |lines|
    ensures var r, end := Sought(lines, pattern, start, true), |lines| - |pattern|;
            r == if MatchesAt(Normalise, lines, pattern, end) then Some(end) else None
  {
    PassesEnd();
    EndIsFound(PASSES, Normalise, lines, pattern, start);
  }

  /** The documentation's end-of-file mode: the end first, and the whole range from start when that fails. */
  function Documented(images: seq<Image>, lines: seq<string>, pattern: seq<string>, start: nat): Option<nat> {
    OrElse(SoughtIn(images, lines, pattern, start, true), SoughtIn(images, lines, pattern, start, false))
  }

  lemma DocumentedExactlyIn(images: seq<Image>, g: Image, lines: seq<string>, pattern: seq<string>, start: nat)
    requires 0 < |pattern| <= |lines| && EndsWith(images, g)
    ensures SoughtIn(images, lines, pattern, start, true) == Documented(images, lines, pattern, start) <==>
            || MatchesAt(g, lines, pattern, |lines| - |pattern|)
            || !MatchesFrom(g, lines, pattern, start)
  {
    EndIsFound(images, g, lines, pattern, start);
    LastPassDecides(images, g, lines, pattern, start);
  }

  /** The code does what is documented exactly when the end matches or nothing from start on does. */
  lemma {:induction false} DocumentedExactly(lines: seq<string>, pattern: seq<string>, start: nat)
    requires 0 < |pattern| <= |lines|
    ensures Sought(lines, pattern, start, true) == Documented(PASSES, lines, pattern, start) <==>
            || MatchesAt(Normalise, lines, pattern, |lines| - |pattern|)
            || !MatchesFrom(Normalise, lines, pattern, start)
  {
    PassesEnd();
    DocumentedExactlyIn(PASSES, Normalise, lines, pattern, start);
  }

  /** No fallback: the pattern is there, but not at the end. */
  lemma EofDoesNotFallBack()
    ensures Sought(["a", "b"], ["a"], 0, true) == None
    ensures Documented(PASSES, ["a", "b"], ["a"], 0).Some?
  {
    var lines, pattern := ["a", "b"], ["a"];
    TrimmedStays("a");
    TrimmedStays("b");
    assert Normalise("a")[0] == 'a' && Normalise("b")[0] == 'b';
    assert Normalise(lines[1 + 0]) != Normalise(pattern[0]);
    EofFindsOnlyTheEnd(lines, pattern, 0);
    assert MatchesAt(Normalise, lines, pattern, 0);
    NothingFoundExactly(lines, pattern, 0, false);
  }

  /** The end-of-file mode ignores start, and can report a position in front of it. */
  lemma EofMayFindBeforeStart()
    ensures Sought(["a"], ["a"], 1, true) == Some(0)
  {
    assert MatchesAt(Normalise, ["a"], ["a"], 0);
    EofFindsOnlyTheEnd(["a"], ["a"], 1);
  }
}
