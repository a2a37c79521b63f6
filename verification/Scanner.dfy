/**
 The character scanner that cuts generated TypeScript at top-level delimiters, and the proof that cutting and joining
 are inverse to each other.
 */
module Scanner {
  import opened Seqs
  import opened Text

  // The scanner's state

  datatype Scan = Scan(brace: nat, bracket: nat, paren: nat, angle: nat, delim: Option<char>, escape: bool) {
    predicate InString() {
      delim.Some?
    }

    predicate TopLevel() {
      brace == 0 && bracket == 0 && paren == 0 && angle == 0
    }
  }

  const START := Scan(0, 0, 0, 0, None, false)

  function Less(n: nat): nat {
    if n == 0 then 0 else n - 1
  }

  function Next(s: Scan, ch: char): Scan {
    if s.delim.Some? then
      if s.escape then s.(escape := false)
      else if ch == '\\' then s.(escape := true)
      else if ch == s.delim.value then s.(delim := None)
      else s
    else if ch == '"' || ch == '\'' then s.(delim := Some(ch))
    else if ch == '{' then s.(brace := s.brace + 1)
    else if ch == '}' then s.(brace := Less(s.brace))
    else if ch == '[' then s.(bracket := s.bracket + 1)
    else if ch == ']' then s.(bracket := Less(s.bracket))
    else if ch == '(' then s.(paren := s.paren + 1)
    else if ch == ')' then s.(paren := Less(s.paren))
    else if ch == '<' then s.(angle := s.angle + 1)
    else if ch == '>' then s.(angle := Less(s.angle))
    else s
  }

  function Run(s: Scan, text: string): Scan
    decreases |text|
  {
    if text == "" then s else Run(Next(s, text[0]), text[1..])
  }

  predicate IsCut(s: Scan, ch: char, delims: set<char>) {
    !s.InString() && s.TopLevel() && ch in delims
  }

  // Splitting

  function Part(text: string): seq<string> {
    if Trim(text) == "" then [] else [Trim(text)]
  }

  /** The parts still to come, when the scanner is in state s after reading cur since the last cut. */
  function SplitFrom(s: Scan, cur: string, rest: string, delims: set<char>): seq<string>
    decreases |rest|
  {
    if rest == "" then Part(cur)
    else if IsCut(s, rest[0], delims) then Part(cur) + SplitFrom(Next(s, rest[0]), "", rest[1..], delims)
    else SplitFrom(Next(s, rest[0]), cur + [rest[0]], rest[1..], delims)
  }

  function Split(input: string, delims: set<char>): seq<string> {
    SplitFrom(START, "", input, delims)
  }

  // States that a scan can be in

  ghost predicate Reachable(s: Scan) {
    (s.delim.None? ==> !s.escape) && (s.delim.Some? ==> s.delim.value == '"' || s.delim.value == '\'')
  }

  /** Characters that leave the scanner alone outside strings. */
  predicate Neutral(c: char) {
    c !in {'"', '\'', '{', '}', '[', ']', '(', ')', '<', '>'}
  }

  /** Delimiters that the code uses: neutral and not blank. */
  ghost predicate ProperDelimiters(delims: set<char>) {
    forall c | c in delims :: Neutral(c) && !IsWhitespace(c)
  }

  lemma WhitespaceIsNeutral(c: char)
    requires IsWhitespace(c)
    ensures Neutral(c)
  {
  }

  lemma {:induction false} RunConcat(s: Scan, a: string, b: string)
    ensures Run(s, a + b) == Run(Run(s, a), b)
    decreases |a|
  {
    if a == "" {
      assert a + b == b;
    } else {
      assert (a + b)[1..] == a[1..] + b;
      RunConcat(Next(s, a[0]), a[1..], b);
    }
  }

  lemma {:induction false} RunReachable(s: Scan, text: string)
    requires Reachable(s)
    ensures Reachable(Run(s, text))
    decreases |text|
  {
    if text != "" {
      RunReachable(Next(s, text[0]), text[1..]);
    }
  }

  lemma {:induction false} RunBlank(s: Scan, w: string)
    requires Blank(w) && !s.InString()
    ensures Run(s, w) == s
    decreases |w|
  {
    if w != "" {
      RunBlank(s, w[1..]);
    }
  }

  /** Blanks do not end a string: a scan that is at the start state after blanks was there before them. */
  lemma {:induction false} RunBlankBack(s: Scan, w: string)
    requires Blank(w) && Reachable(s) && Run(s, w) == START
    ensures s == START
    decreases |w|
  {
    if w != "" {
      WhitespaceIsNeutral(w[0]);
      assert Reachable(Next(s, w[0])) && s.InString() == Next(s, w[0]).InString();
      RunBlankBack(Next(s, w[0]), w[1..]);
    }
  }

  // Stretches without a cut

  ghost predicate Uncut(s: Scan, text: string, delims: set<char>)
    decreases |text|
  {
    text == "" || (!IsCut(s, text[0], delims) && Uncut(Next(s, text[0]), text[1..], delims))
  }

  lemma {:induction false} UncutConcat(s: Scan, a: string, b: string, delims: set<char>)
    ensures Uncut(s, a + b, delims) <==> Uncut(s, a, delims) && Uncut(Run(s, a), b, delims)
    decreases |a|
  {
    if a == "" {
      assert a + b == b;
    } else {
      assert (a + b)[1..] == a[1..] + b;
      UncutConcat(Next(s, a[0]), a[1..], b, delims);
    }
  }

  lemma {:induction false} BlankUncut(s: Scan, w: string, delims: set<char>)
    requires Blank(w) && ProperDelimiters(delims)
    ensures Uncut(s, w, delims)
    decreases |w|
  {
    if w != "" {
      BlankUncut(Next(s, w[0]), w[1..], delims);
    }
  }

  /** Reading a stretch without a cut only extends the current part. */
  lemma {:induction false} SplitUncut(s: Scan, cur: string, a: string, b: string, delims: set<char>)
    requires Uncut(s, a, delims)
    ensures SplitFrom(s, cur, a + b, delims) == SplitFrom(Run(s, a), cur + a, b, delims)
    decreases |a|
  {
    if a == "" {
      assert a + b == b && cur + a == cur;
    } else {
      assert (a + b)[1..] == a[1..] + b;
      assert (cur + [a[0]]) + a[1..] == cur + a;
      SplitUncut(Next(s, a[0]), cur + [a[0]], a[1..], b, delims);
    }
  }

  // Arms: what splitting produces

  /** A nonempty trimmed text with no top-level delimiter inside. */
  ghost predicate Arm(p: string, delims: set<char>) {
    p != "" && Trimmed(p) && Uncut(START, p, delims)
  }

  /** Arms that, except for the last, leave the scanner as it started. */
  ghost predicate Arms(ps: seq<string>, delims: set<char>) {
    && (forall i | 0 <= i < |ps| :: Arm(ps[i], delims))
    && (forall i | 0 <= i < |ps| - 1 :: Run(START, ps[i]) == START)
  }

  lemma PartIsArm(cur: string, delims: set<char>)
    requires ProperDelimiters(delims) && Uncut(START, cur, delims)
    ensures forall i | 0 <= i < |Part(cur)| :: Arm(Part(cur)[i], delims)
    ensures Run(START, cur) == START ==> Run(START, Trim(cur)) == START
  {
    var w1, w2 := TrimParts(cur);
    var t := Trim(cur);
    UncutConcat(START, w1 + t, w2, delims);
    UncutConcat(START, w1, t, delims);
    RunBlank(START, w1);
    RunConcat(START, w1 + t, w2);
    RunConcat(START, w1, t);
    RunReachable(START, t);
    if Run(START, cur) == START {
      RunBlankBack(Run(START, t), w2);
    }
  }

  lemma ArmsPrepend(cur: string, rest: seq<string>, delims: set<char>)
    requires ProperDelimiters(delims) && Uncut(START, cur, delims) && Run(START, cur) == START
    requires Arms(rest, delims)
    ensures Arms(Part(cur) + rest, delims)
  {
    PartIsArm(cur, delims);
  }

  lemma ScanOneMore(cur: string, ch: char, delims: set<char>)
    requires Uncut(START, cur, delims) && !IsCut(Run(START, cur), ch, delims)
    ensures Uncut(START, cur + [ch], delims) && Run(START, cur + [ch]) == Next(Run(START, cur), ch)
  {
    var s := Run(START, cur);
    RunConcat(START, cur, [ch]);
    UncutConcat(START, cur, [ch], delims);
    assert Run(s, [ch]) == Run(Next(s, ch), "") && Uncut(s, [ch], delims);
  }

  lemma CutAtStart(cur: string, ch: char, delims: set<char>)
    requires ProperDelimiters(delims) && IsCut(Run(START, cur), ch, delims)
    ensures Run(START, cur) == START && Next(START, ch) == START
  {
    RunReachable(START, cur);
  }

  lemma {:induction false} SplitFromGivesArms(s: Scan, cur: string, rest: string, delims: set<char>)
    requires ProperDelimiters(delims) && Uncut(START, cur, delims) && s == Run(START, cur)
    ensures Arms(SplitFrom(s, cur, rest, delims), delims)
    decreases |rest|
  {
    if rest == "" {
      PartIsArm(cur, delims);
    } else if IsCut(s, rest[0], delims) {
      CutAtStart(cur, rest[0], delims);
      SplitFromGivesArms(START, "", rest[1..], delims);
      ArmsPrepend(cur, SplitFrom(START, "", rest[1..], delims), delims);
    } else {
      ScanOneMore(cur, rest[0], delims);
      SplitFromGivesArms(Next(s, rest[0]), cur + [rest[0]], rest[1..], delims);
    }
  }

  /** Every part of a split is an arm, and every cut was made in the scanner's start state. */
  lemma SplitGivesArms(input: string, delims: set<char>)
    requires ProperDelimiters(delims)
    ensures Arms(Split(input, delims), delims)
  {
    SplitFromGivesArms(START, "", input, delims);
  }

  // Joining

  function Join(ps: seq<string>, sep: string): string {
    if ps == [] then "" else if |ps| == 1 then ps[0] else ps[0] + (sep + Join(ps[1..], sep))
  }

  /** One delimiter between blanks. */
  ghost predicate Separator(sep: string, delims: set<char>) {
    exists k | 0 <= k < |sep| :: sep[k] in delims && Blank(sep[..k]) && Blank(sep[k + 1..])
  }

  /** Reading an arm and a separator yields the arm and starts afresh after the separator's trailing blanks. */
  lemma SplitArm(w: string, p: string, sep: string, k: nat, rest: string, delims: set<char>)
    requires ProperDelimiters(delims) && Blank(w) && Arm(p, delims) && Run(START, p) == START
    requires k < |sep| && sep[k] in delims && Blank(sep[..k]) && Blank(sep[k + 1..])
    ensures SplitFrom(START, w, p + (sep + rest), delims) == [p] + SplitFrom(START, sep[k + 1..], rest, delims)
  {
    var w1, w2 := sep[..k], sep[k + 1..];
    SplitUncut(START, w, p, sep + rest, delims);
    assert sep + rest == w1 + ([sep[k]] + (w2 + rest));
    BlankUncut(START, w1, delims);
    RunBlank(START, w1);
    SplitUncut(START, w + p, w1, [sep[k]] + (w2 + rest), delims);
    assert ([sep[k]] + (w2 + rest))[1..] == w2 + rest;
    TrimOver(w, p, w1);
    BlankUncut(START, w2, delims);
    RunBlank(START, w2);
    SplitUncut(START, "", w2, rest, delims);
    assert "" + w2 == w2;
  }

  lemma {:induction false} SplitJoinFrom(w: string, ps: seq<string>, sep: string, k: nat, delims: set<char>)
    requires ProperDelimiters(delims) && Blank(w) && Arms(ps, delims)
    requires k < |sep| && sep[k] in delims && Blank(sep[..k]) && Blank(sep[k + 1..])
    ensures SplitFrom(START, w, Join(ps, sep), delims) == ps
    decreases |ps|
  {
    if ps == [] {
      TrimOver(w, "", "");
      assert w + "" + "" == w;
    } else if |ps| == 1 {
      SplitUncut(START, w, ps[0], "", delims);
      assert ps[0] + "" == ps[0];
      TrimOver(w, ps[0], "");
      assert w + ps[0] + "" == w + ps[0];
    } else {
      SplitArm(w, ps[0], sep, k, Join(ps[1..], sep), delims);
      SplitJoinFrom(sep[k + 1..], ps[1..], sep, k, delims);
      assert ps == [ps[0]] + ps[1..];
    }
  }

  /** Splitting undoes joining exactly for lists of arms. */
  lemma SplitOfJoin(ps: seq<string>, sep: string, delims: set<char>)
    requires ProperDelimiters(delims) && Separator(sep, delims)
    ensures Split(Join(ps, sep), delims) == ps <==> Arms(ps, delims)
  {
    if Arms(ps, delims) {
      var k :| 0 <= k < |sep| && sep[k] in delims && Blank(sep[..k]) && Blank(sep[k + 1..]);
      SplitJoinFrom("", ps, sep, k, delims);
    } else {
      SplitGivesArms(Join(ps, sep), delims);
    }
  }

  // Filtering

  function Filter(keep: string -> bool, ps: seq<string>): seq<string> {
    if ps == [] then [] else (if keep(ps[0]) then [ps[0]] else []) + Filter(keep, ps[1..])
  }

  /** The positions from k on of the parts that pass. */
  function PassingFrom(keep: string -> bool, ps: seq<string>, k: nat): (r: seq<nat>)
    requires k <= |ps|
    ensures Increasing(r) && forall j | 0 <= j < |r| :: k <= r[j] < |ps|
    ensures forall i: nat | k <= i < |ps| :: i in r <==> keep(ps[i])
    decreases |ps| - k
  {
    if k == |ps| then [] else (if keep(ps[k]) then [k] else []) + PassingFrom(keep, ps, k + 1)
  }

  lemma {:induction false} FilterAt(keep: string -> bool, ps: seq<string>, k: nat)
    requires k <= |ps|
    ensures var at, r := PassingFrom(keep, ps, k), Filter(keep, ps[k..]);
      |r| == |at| && forall j | 0 <= j < |at| :: r[j] == ps[at[j]]
    decreases |ps| - k
  {
    if k < |ps| {
      assert ps[k..][1..] == ps[k + 1..];
      FilterAt(keep, ps, k + 1);
    }
  }

  lemma {:induction false} FilterMembers(keep: string -> bool, ps: seq<string>, p: string)
    ensures p in Filter(keep, ps) <==> p in ps && keep(p)
    decreases |ps|
  {
    if ps != [] {
      FilterMembers(keep, ps[1..], p);
      assert ps == [ps[0]] + ps[1..];
    }
  }

  lemma {:induction false} FilterArms(keep: string -> bool, ps: seq<string>, delims: set<char>)
    requires Arms(ps, delims)
    ensures Arms(Filter(keep, ps), delims)
    decreases |ps|
  {
    if ps != [] {
      FilterArms(keep, ps[1..], delims);
      if |ps| == 1 {
        assert Filter(keep, ps[1..]) == [];
      }
    }
  }

  lemma {:induction false} FilterTwice(keep: string -> bool, ps: seq<string>)
    ensures Filter(keep, Filter(keep, ps)) == Filter(keep, ps)
    decreases |ps|
  {
    if ps != [] {
      FilterTwice(keep, ps[1..]);
      var rest := Filter(keep, ps[1..]);
      if keep(ps[0]) {
        assert ([ps[0]] + rest)[1..] == rest;
      } else {
        assert Filter(keep, ps) == rest;
      }
    }
  }

  /** For any text: splitting the joined survivors of a split gives back exactly the survivors. */
  lemma SurvivorsResplit(input: string, keep: string -> bool, sep: string, delims: set<char>)
    requires ProperDelimiters(delims) && Separator(sep, delims)
    ensures Split(Join(Filter(keep, Split(input, delims)), sep), delims) == Filter(keep, Split(input, delims))
  {
    SplitGivesArms(input, delims);
    FilterArms(keep, Split(input, delims), delims);
    SplitOfJoin(Filter(keep, Split(input, delims)), sep, delims);
  }

  // The code itself

  class ScanState {
    var brace: nat
    var bracket: nat
    var paren: nat
    var angle: nat
    var stringDelim: Option<char>
    var escape: bool

    function View(): Scan
      reads this
    {
      Scan(brace, bracket, paren, angle, stringDelim, escape)
    }

    constructor ()
      ensures View() == START
    {
      brace, bracket, paren, angle := 0, 0, 0, 0;
      stringDelim, escape := None, false;
    }

    method Observe(ch: char)
      modifies this
      ensures View() == Next(old(View()), ch)
    {
      if stringDelim.Some? {
        if escape {
          escape := false;
          return;
        }
        if ch == '\\' {
          escape := true;
          return;
        }
        if ch == stringDelim.value {
          stringDelim := None;
        }
        return;
      }
      match ch
      case '"' | '\'' => stringDelim := Some(ch);
      case '{' => brace := brace + 1;
      case '}' => brace := Less(brace);
      case '[' => bracket := bracket + 1;
      case ']' => bracket := Less(bracket);
      case '(' => paren := paren + 1;
      case ')' => paren := Less(paren);
      case '<' => angle := angle + 1;
      case '>' => if angle > 0 { angle := angle - 1; }
      case _ =>
    }
  }

  /** What splitting has left to do after reading up to index, with the last cut at start. */
  ghost function Remaining(s: Scan, input: string, start: nat, index: nat, delims: set<char>): seq<string>
    requires start <= index <= |input|
  {
    SplitFrom(s, input[start..index], input[index..], delims)
  }

  lemma RemainingStep(s: Scan, input: string, start: nat, index: nat, delims: set<char>)
    requires start <= index < |input|
    ensures Remaining(s, input, start, index, delims)
         == if IsCut(s, input[index], delims)
            then Part(input[start..index]) + Remaining(Next(s, input[index]), input, index + 1, index + 1, delims)
            else Remaining(Next(s, input[index]), input, start, index + 1, delims)
  {
    var cur, rest := input[start..index], input[index..];
    assert rest == [input[index]] + input[index + 1..];
    assert cur + [rest[0]] == input[start..index + 1];
    assert input[index + 1..index + 1] == "";
  }

  lemma RemainingTail(s: Scan, input: string, start: nat, delims: set<char>)
    requires start <= |input|
    ensures Remaining(s, input, start, |input|, delims) == Part(input[start..])
  {
    assert input[start..|input|] == input[start..] && input[|input|..] == "";
  }

  lemma Regroup(a: seq<string>, b: seq<string>, c: seq<string>)
    ensures a + (b + c) == (a + b) + c
  {
  }

  method SplitTopLevelMulti(input: string, delimiters: set<char>) returns (parts: seq<string>)
    ensures parts == Split(input, delimiters)
  {
    var state := new ScanState();
    var start := 0;
    parts := [];
    ghost var all := Split(input, delimiters);
    assert input[0..] == input;
    for index := 0 to |input|
      invariant start <= index && fresh(state)
      invariant parts + Remaining(state.View(), input, start, index, delimiters) == all
    {
      var ch := input[index];
      RemainingStep(state.View(), input, start, index, delimiters);
      if state.stringDelim.None? && state.View().TopLevel() && ch in delimiters {
        var part := Trim(input[start..index]);
        Regroup(parts, Part(input[start..index]),
                Remaining(Next(state.View(), ch), input, index + 1, index + 1, delimiters));
        if part != "" {
          parts := parts + [part];
        }
        start := index + 1;
      }
      state.Observe(ch);
    }
    RemainingTail(state.View(), input, start, delimiters);
    var tail := Trim(input[start..]);
    if tail != "" {
      parts := parts + [tail];
    }
  }
}
