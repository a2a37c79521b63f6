/** Removal of experimental methods from the ClientRequest type alias of generated TypeScript. */
module TypeAlias {
  import opened Seqs
  import opened Text
  import opened Scanner

  // Searching

  /** str::find for a character; the length when absent. */
  function FindChar(s: string, c: char): (i: nat)
    ensures i <= |s| && (i < |s| ==> s[i] == c) && forall j | 0 <= j < i :: s[j] != c
  {
    if s == "" || s[0] == c then 0 else 1 + FindChar(s[1..], c)
  }

  /** str::rfind for a character; the length when absent. */
  function RFindChar(s: string, c: char): (i: nat)
    ensures i <= |s| && (i < |s| ==> s[i] == c && forall j | i < j < |s| :: s[j] != c)
    ensures i == |s| ==> c !in s
  {
    if s == "" then 0
    else if s[|s| - 1] == c then |s| - 1
    else
      var i := RFindChar(s[..|s| - 1], c);
      if i == |s| - 1 then |s| else i
  }

  datatype Alias = Alias(prefix: string, body: string, suffix: string) {
    function Text(): string {
      prefix + body + suffix
    }
  }

  function SplitTypeAlias(content: string): Option<Alias> {
    var eq, semi := FindChar(content, '='), RFindChar(content, ';');
    if eq == |content| || semi == |content| || semi <= eq then None
    else Some(Alias(content[..eq + 1], content[eq + 1..semi], content[semi..]))
  }

  lemma FindCharAtEnd(p: string, rest: string, c: char)
    requires p != "" && p[|p| - 1] == c && forall j | 0 <= j < |p| - 1 :: p[j] != c
    ensures FindChar(p + rest, c) == |p| - 1
  {
    var t := p + rest;
    assert forall j | 0 <= j < |p| :: t[j] == p[j];
    var i := FindChar(t, c);
    assert t[|p| - 1] == c;
  }

  lemma RFindCharAtStart(front: string, s: string, c: char)
    requires s != "" && s[0] == c && forall j | 1 <= j < |s| :: s[j] != c
    ensures RFindChar(front + s, c) == |front|
  {
    var t := front + s;
    assert forall j | 0 <= j < |s| :: t[|front| + j] == s[j];
    assert forall j | |front| < j < |t| :: t[j] == s[j - |front|];
    var i := RFindChar(t, c);
    assert t[|front|] == c;
  }

  lemma SplitAliasText(p: string, body: string, s: string)
    ensures (p + body + s)[..|p|] == p
    ensures (p + body + s)[|p|..|p + body|] == body
    ensures (p + body + s)[|p + body|..] == s
  {
  }

  lemma AliasIsText(content: string)
    requires SplitTypeAlias(content).Some?
    ensures SplitTypeAlias(content).value.Text() == content
  {
  }

  /** A prefix up to the first '=' and a suffix from the last ';' on are found around any body. */
  lemma AliasOfText(p: string, body: string, s: string)
    requires p != "" && p[|p| - 1] == '=' && forall j | 0 <= j < |p| - 1 :: p[j] != '='
    requires s != "" && s[0] == ';' && forall j | 1 <= j < |s| :: s[j] != ';'
    ensures SplitTypeAlias(p + body + s) == Some(Alias(p, body, s))
  {
    Reassociate(p, body, s);
    FindCharAtEnd(p, body + s, '=');
    RFindCharAtStart(p + body, s, ';');
    SplitAliasText(p, body, s);
  }

  /** An alias with any other body is parsed back into the same prefix and suffix around that body. */
  lemma ReplacedBodyReparses(content: string, body: string)
    requires SplitTypeAlias(content).Some?
    ensures var a := SplitTypeAlias(content).value;
            SplitTypeAlias(a.(body := body).Text()) == Some(a.(body := body))
    ensures SplitTypeAlias(content).value.Text() == content
  {
    var a := SplitTypeAlias(content).value;
    AliasIsText(content);
    AliasOfText(a.prefix, body, a.suffix);
  }

  // Properties of an object type

  predicate IsIdentChar(ch: char) {
    'a' <= ch <= 'z' || 'A' <= ch <= 'Z' || '0' <= ch <= '9' || ch == '_'
  }

  function IdentLength(s: string): (n: nat)
    ensures n <= |s|
  {
    if s != "" && IsIdentChar(s[0]) then 1 + IdentLength(s[1..]) else 0
  }

  /** The position of the closing quote at or after i. */
  function ClosingQuote(s: string, i: nat, quote: char, escape: bool): (r: Option<nat>)
    requires i <= |s|
    ensures r.Some? ==> i <= r.value < |s|
    decreases |s| - i
  {
    if i == |s| then None
    else if escape then ClosingQuote(s, i + 1, quote, false)
    else if s[i] == '\\' then ClosingQuote(s, i + 1, quote, true)
    else if s[i] == quote then Some(i)
    else ClosingQuote(s, i + 1, quote, false)
  }

  /** The literal's text and the number of characters it takes, quotes included. */
  function ParseStringLiteral(s: string): (r: Option<(string, nat)>)
    ensures r.Some? ==> r.value.1 <= |s|
  {
    if s == "" || (s[0] != '"' && s[0] != '\'') then None
    else
      var close := ClosingQuote(s, 1, s[0], false);
      if close.Some? then Some((s[1..close.value], close.value + 1)) else None
  }

  function ParsePropertyName(input: string): Option<string> {
    var trimmed := TrimStart(input);
    if trimmed == "" then None
    else
      var literal := ParseStringLiteral(trimmed);
      if literal.Some? then
        if HasPrefix(TrimStart(trimmed[literal.value.1..]), ":") then Some(literal.value.0) else None
      else
        var end := IdentLength(trimmed);
        if end == 0 then None
        else
          var rest := TrimStart(trimmed[end..]);
          var past := if HasPrefix(rest, "?") then TrimStart(rest[1..]) else rest;
          if HasPrefix(past, ":") then Some(trimmed[..end]) else None
  }

  function ParseProperty(input: string): Option<(string, string)> {
    var name := ParsePropertyName(input);
    var colon := FindChar(input, ':');
    if name.None? || colon == |input| then None
    else Some((name.value, TrimStart(input[colon + 1..])))
  }

  /** The last top-level '{' before the first '}' that returns to the top level, scanning on from position i. */
  function SpanFrom(s: Scan, input: string, i: nat, open: Option<nat>): (r: Option<(nat, nat)>)
    requires i <= |input| && (open.Some? ==> open.value < i)
    ensures r.Some? ==> r.value.0 < r.value.1 < |input|
    decreases |input| - i
  {
    if i == |input| then None
    else
      var ch := input[i];
      var begun := if !s.InString() && ch == '{' && s.TopLevel() then Some(i) else open;
      var t := Next(s, ch);
      if !t.InString() && ch == '}' && t.TopLevel() && begun.Some? then Some((begun.value, i))
      else SpanFrom(t, input, i + 1, begun)
  }

  function MethodOfFields(fields: seq<string>): Option<string> {
    if fields == [] then None
    else
      var property := ParseProperty(fields[0]);
      if property.None? || property.value.0 != "method" then MethodOfFields(fields[1..])
      else
        var literal := ParseStringLiteral(TrimStart(property.value.1));
        if literal.Some? then Some(literal.value.0) else None
  }

  function ExtractMethodFromArm(arm: string): Option<string> {
    var span := SpanFrom(START, arm, 0, None);
    if span.None? then None
    else MethodOfFields(Split(arm[span.value.0 + 1..span.value.1], {','}))
  }

  // The filter

  function KeepArm(methods: set<string>): string -> bool {
    arm =>
      var m := ExtractMethodFromArm(arm);
      m.None? || m.value !in methods
  }

  const ARM_DELIMITERS := {'|'}
  const ARM_SEPARATOR := " | "

  /** A method name is found in the arm, and it is one of the methods. */
  predicate HasMethodOf(arm: string, methods: set<string>) {
    ExtractMethodFromArm(arm).Some? && ExtractMethodFromArm(arm).value in methods
  }

  /** kept are the arms without one of the methods: exactly those, in order. */
  ghost predicate KeepsExactly(arms: seq<string>, kept: seq<string>, methods: set<string>) {
    exists at: seq<nat> ::
      && Increasing(at) && |at| == |kept|
      && (forall i: nat | i < |arms| :: i in at <==> !HasMethodOf(arms[i], methods))
      && forall j | 0 <= j < |at| :: at[j] < |arms| && kept[j] == arms[at[j]]
  }

  lemma {:induction false} FilterKeepsExactly(arms: seq<string>, methods: set<string>)
    ensures KeepsExactly(arms, Filter(KeepArm(methods), arms), methods)
  {
    var at := PassingFrom(KeepArm(methods), arms, 0);
    FilterAt(KeepArm(methods), arms, 0);
    assert arms[0..] == arms;
    forall i: nat | i < |arms| ensures i in at <==> !HasMethodOf(arms[i], methods) {
      assert KeepArm(methods)(arms[i]) <==> !HasMethodOf(arms[i], methods);
    }
  }

  function FilterClientRequest(content: string, methods: set<string>): string {
    var alias := SplitTypeAlias(content);
    if alias.None? then content
    else
      var arms := Filter(KeepArm(methods), Split(alias.value.body, ARM_DELIMITERS));
      alias.value.(body := Join(arms, ARM_SEPARATOR)).Text()
  }

  lemma ArmSeparatorIsProper()
    ensures ProperDelimiters(ARM_DELIMITERS) && Separator(ARM_SEPARATOR, ARM_DELIMITERS)
  {
    assert ARM_SEPARATOR[1] in ARM_DELIMITERS && Blank(ARM_SEPARATOR[..1]) && Blank(ARM_SEPARATOR[1 + 1..]);
  }

  /**
   The rewritten file has the same text around the alias, and its arms are exactly the arms in which no experimental
   method name is found, in order. A file without an alias is left alone.
   */
  lemma FilteredFileReparses(content: string, methods: set<string>)
    ensures SplitTypeAlias(content).None? ==> FilterClientRequest(content, methods) == content
    ensures SplitTypeAlias(content).Some? ==>
      var before, after := SplitTypeAlias(content).value, SplitTypeAlias(FilterClientRequest(content, methods));
      && after.Some? && after.value.prefix == before.prefix && after.value.suffix == before.suffix
      && Split(after.value.body, ARM_DELIMITERS) == Filter(KeepArm(methods), Split(before.body, ARM_DELIMITERS))
      && KeepsExactly(Split(before.body, ARM_DELIMITERS), Split(after.value.body, ARM_DELIMITERS), methods)
  {
    if SplitTypeAlias(content).Some? {
      var body := SplitTypeAlias(content).value.body;
      var arms := Filter(KeepArm(methods), Split(body, ARM_DELIMITERS));
      ReplacedBodyReparses(content, Join(arms, ARM_SEPARATOR));
      ArmSeparatorIsProper();
      SurvivorsResplit(body, KeepArm(methods), ARM_SEPARATOR, ARM_DELIMITERS);
      FilterKeepsExactly(Split(body, ARM_DELIMITERS), methods);
    }
  }

  /** Filtering a file twice is filtering it once. */
  lemma {:induction false} FilterIdempotent(content: string, methods: set<string>)
    ensures FilterClientRequest(FilterClientRequest(content, methods), methods) == FilterClientRequest(content, methods)
  {
    var once := FilterClientRequest(content, methods);
    if SplitTypeAlias(content).Some? {
      FilteredFileReparses(content, methods);
      FilterTwice(KeepArm(methods), Split(SplitTypeAlias(content).value.body, ARM_DELIMITERS));
      ReplacedBodyReparses(once, SplitTypeAlias(once).value.body);
      var arms := Filter(KeepArm(methods), Split(SplitTypeAlias(content).value.body, ARM_DELIMITERS));
      ReplacedBodyReparses(content, Join(arms, ARM_SEPARATOR));
    }
  }

  // What the filter sees in an arm that generated code contains

  /** Scanned inside one open brace, the text never closes it and ends where it began. */
  ghost predicate Enclosed(t: string) {
    Run(Next(START, '{'), t) == Next(START, '{') && NeverCloses(Next(START, '{'), t)
  }

  ghost predicate NeverCloses(s: Scan, t: string)
    decreases |t|
  {
    t == "" || (!Next(s, t[0]).TopLevel() && NeverCloses(Next(s, t[0]), t[1..]))
  }

  /** Inside an open brace that the next character does not close, the search moves on. */
  lemma SpanStep(s: Scan, input: string, i: nat, open: nat)
    requires open < i < |input| && !s.TopLevel() && !Next(s, input[i]).TopLevel()
    ensures SpanFrom(s, input, i, Some(open)) == SpanFrom(Next(s, input[i]), input, i + 1, Some(open))
  {
  }

  lemma {:induction false} SpanThrough(s: Scan, input: string, i: nat, n: nat, open: nat)
    requires open < i <= n <= |input| && !s.TopLevel() && NeverCloses(s, input[i..n])
    ensures SpanFrom(s, input, i, Some(open)) == SpanFrom(Run(s, input[i..n]), input, n, Some(open))
    decreases n - i
  {
    if i < n {
      var t := input[i..n];
      assert t[0] == input[i] && t[1..] == input[i + 1..n];
      SpanStep(s, input, i, open);
      SpanThrough(Next(s, input[i]), input, i + 1, n, open);
      assert Run(s, t) == Run(Next(s, t[0]), t[1..]);
    } else {
      assert input[i..n] == "";
    }
  }

  lemma SpanOfObject(t: string)
    requires Enclosed(t)
    ensures SpanFrom(START, "{" + t + "}", 0, None) == Some((0, |t| + 1))
  {
    var input := "{" + t + "}";
    assert input[1..|t| + 1] == t;
    SpanThrough(Next(START, '{'), input, 1, |t| + 1, 0);
    assert input[|t| + 1] == '}';
  }

  /** A method name that needs no escaping. */
  ghost predicate PlainName(m: string) {
    forall i | 0 <= i < |m| :: m[i] != '"' && m[i] != '\\'
  }

  lemma {:induction false} ClosingQuoteOfPlain(s: string, i: nat, k: nat)
    requires i <= k < |s| && s[k] == '"' && forall j | i <= j < k :: s[j] != '"' && s[j] != '\\'
    ensures ClosingQuote(s, i, '"', false) == Some(k)
    decreases k - i
  {
    if i < k {
      ClosingQuoteOfPlain(s, i + 1, k);
    }
  }

  lemma LiteralOfPlain(m: string, rest: string)
    requires PlainName(m)
    ensures ParseStringLiteral("\"" + m + "\"" + rest) == Some((m, |m| + 2))
  {
    var s := "\"" + m + "\"" + rest;
    assert forall j | 1 <= j < |m| + 1 :: s[j] == m[j - 1];
    ClosingQuoteOfPlain(s, 1, |m| + 1);
    assert s[1..|m| + 1] == m;
  }

  function MethodField(m: string): string {
    "\"method\": \"" + m + "\""
  }

  lemma MethodFieldName(m: string)
    requires PlainName(m)
    ensures ParsePropertyName(MethodField(m)) == Some("method")
  {
    var rest := ": " + ("\"" + m + "\"");
    assert MethodField(m) == "\"" + "method" + "\"" + rest;
    LiteralOfPlain("method", rest);
    assert MethodField(m)[8..] == rest;
  }

  lemma MethodFieldParses(m: string)
    requires PlainName(m)
    ensures ParseProperty(MethodField(m)) == Some(("method", "\"" + m + "\""))
    ensures ParseStringLiteral("\"" + m + "\"") == Some((m, |m| + 2))
  {
    var field := MethodField(m);
    var value := "\"" + m + "\"" + "";
    MethodFieldName(m);
    assert FindChar(field, ':') == 8 by {
      assert field[8] == ':';
      assert forall j | 0 <= j < 8 :: field[j] != ':';
    }
    assert field[9..] == " " + value;
    TrimStartOver(" ", value);
    LiteralOfPlain(m, "");
    assert value == "\"" + m + "\"";
  }

  lemma {:induction false} PlainKeepsString(s: Scan, m: string)
    requires PlainName(m) && s.delim == Some('"') && !s.escape
    ensures Run(s, m) == s && Uncut(s, m, {','})
    decreases |m|
  {
    if m != "" {
      PlainKeepsString(s, m[1..]);
    }
  }

  /** Scanned from the start, the text has no top-level comma and leaves no string or bracket open. */
  ghost predicate Inert(text: string) {
    Run(START, text) == START && Uncut(START, text, {','})
  }

  lemma InertConcat(a: string, b: string)
    requires Inert(a) && Inert(b)
    ensures Inert(a + b)
  {
    RunConcat(START, a, b);
    UncutConcat(START, a, b, {','});
  }

  lemma ColonInert()
    ensures Inert(": ")
  {
    assert (": ")[1..] == " " && (" ")[1..] == "";
  }

  lemma QuotedScan(m: string)
    requires PlainName(m)
    ensures Inert("\"" + m + "\"")
  {
    var inside := START.(delim := Some('"'));
    PlainKeepsString(inside, m);
    var q := "\"" + m;
    assert q[1..] == m;
    assert Run(START, q) == inside && Uncut(START, q, {','});
    RunConcat(START, q, "\"");
    UncutConcat(START, q, "\"", {','});
    assert Run(inside, "\"") == Run(START, "");
  }

  lemma MethodFieldScan(m: string)
    requires PlainName(m)
    ensures Trimmed(MethodField(m)) && Inert(MethodField(m))
  {
    var a, b := "\"" + "method" + "\"", "\"" + m + "\"";
    QuotedScan("method");
    QuotedScan(m);
    ColonInert();
    InertConcat(a, ": ");
    InertConcat(a + ": ", b);
    assert MethodField(m) == (a + ": ") + b;
  }

  /** An object arm whose first field is its method, as generated. */
  function RenderedArm(m: string, rest: string): string {
    "{" + (" " + (MethodField(m) + ("," + rest))) + "}"
  }

  lemma CutAtComma(cur: string, rest: string)
    ensures SplitFrom(START, cur, "," + rest, {','}) == Part(cur) + SplitFrom(Next(START, ','), "", rest, {','})
  {
    assert ("," + rest)[1..] == rest;
  }

  lemma FirstFieldIs(field: string, rest: string)
    requires field != "" && Trimmed(field) && Inert(field)
    ensures var fields := Split(" " + (field + ("," + rest)), {','}); fields != [] && fields[0] == field
  {
    BlankUncut(START, " ", {','});
    SplitUncut(START, "", " ", field + ("," + rest), {','});
    assert "" + " " == " ";
    FieldToComma(field, rest);
  }

  lemma FieldToComma(field: string, rest: string)
    requires field != "" && Trimmed(field) && Inert(field)
    ensures SplitFrom(START, " ", field + ("," + rest), {','})
         == [field] + SplitFrom(Next(START, ','), "", rest, {','})
  {
    SplitUncut(START, " ", field, "," + rest, {','});
    CutAtComma(" " + field, rest);
    TrimOver(" ", field, "");
    assert " " + field + "" == " " + field;
  }

  lemma MethodOfFirstField(m: string, fields: seq<string>)
    requires PlainName(m) && fields != [] && fields[0] == MethodField(m)
    ensures MethodOfFields(fields) == Some(m)
  {
    MethodFieldParses(m);
    TrimStartOver("", "\"" + m + "\"");
    assert "" + ("\"" + m + "\"") == "\"" + m + "\"";
  }

  /** The filter reads the method name of every generated arm, whatever its other fields hold. */
  lemma MethodOfRenderedArm(m: string, rest: string)
    requires PlainName(m) && Enclosed(" " + (MethodField(m) + ("," + rest)))
    ensures ExtractMethodFromArm(RenderedArm(m, rest)) == Some(m)
  {
    var t := " " + (MethodField(m) + ("," + rest));
    SpanOfObject(t);
    assert ("{" + t + "}")[1..|t| + 1] == t;
    MethodFieldScan(m);
    FirstFieldIs(MethodField(m), rest);
    MethodOfFirstField(m, Split(t, {','}));
  }

  /** A generated arm of the file survives exactly when its method is not experimental. */
  lemma RenderedArmSurvives(content: string, m: string, rest: string, methods: set<string>)
    requires SplitTypeAlias(content).Some?
    requires PlainName(m) && Enclosed(" " + (MethodField(m) + ("," + rest)))
    requires RenderedArm(m, rest) in Split(SplitTypeAlias(content).value.body, ARM_DELIMITERS)
    ensures var after := SplitTypeAlias(FilterClientRequest(content, methods));
      after.Some? && (RenderedArm(m, rest) in Split(after.value.body, ARM_DELIMITERS) <==> m !in methods)
  {
    FilteredFileReparses(content, methods);
    MethodOfRenderedArm(m, rest);
    FilterMembers(KeepArm(methods), Split(SplitTypeAlias(content).value.body, ARM_DELIMITERS), RenderedArm(m, rest));
  }

  // The code itself

  method FindTopLevelBraceSpan(input: string) returns (r: Option<(nat, nat)>)
    ensures r == SpanFrom(START, input, 0, None)
  {
    var state := new ScanState();
    var openIndex: Option<nat> := None;
    for index := 0 to |input|
      invariant fresh(state) && (openIndex.Some? ==> openIndex.value < index)
      invariant SpanFrom(state.View(), input, index, openIndex) == SpanFrom(START, input, 0, None)
    {
      var ch := input[index];
      if state.stringDelim.None? && ch == '{' && state.View().TopLevel() {
        openIndex := Some(index);
      }
      state.Observe(ch);
      if state.stringDelim.None? && ch == '}' && state.View().TopLevel() && openIndex.Some? {
        return Some((openIndex.value, index));
      }
    }
    r := None;
  }

  method MethodIn(fields: seq<string>) returns (r: Option<string>)
    ensures r == MethodOfFields(fields)
  {
    for i := 0 to |fields|
      invariant MethodOfFields(fields[i..]) == MethodOfFields(fields)
    {
      assert fields[i..][1..] == fields[i + 1..];
      var property := ParseProperty(fields[i]);
      if property.None? { continue; }
      if property.value.0 != "method" { continue; }
      var literal := ParseStringLiteral(TrimStart(property.value.1));
      return if literal.Some? then Some(literal.value.0) else None;
    }
    r := None;
  }

  method ExtractMethod(arm: string) returns (r: Option<string>)
    ensures r == ExtractMethodFromArm(arm)
  {
    var span := FindTopLevelBraceSpan(arm);
    if span.None? { return None; }
    var fields := SplitTopLevelMulti(arm[span.value.0 + 1..span.value.1], {','});
    r := MethodIn(fields);
  }

  lemma FilterFrom(keep: string -> bool, ps: seq<string>, i: nat, kept: seq<string>)
    requires i < |ps|
    ensures kept + Filter(keep, ps[i..])
         == (if keep(ps[i]) then kept + [ps[i]] else kept) + Filter(keep, ps[i + 1..])
  {
    assert ps[i..][1..] == ps[i + 1..];
  }

  method KeepArms(arms: seq<string>, methods: set<string>) returns (kept: seq<string>)
    ensures kept == Filter(KeepArm(methods), arms)
  {
    var keep := KeepArm(methods);
    kept := [];
    for i := 0 to |arms|
      invariant kept + Filter(keep, arms[i..]) == Filter(keep, arms)
    {
      FilterFrom(keep, arms, i, kept);
      var m := ExtractMethod(arms[i]);
      assert keep(arms[i]) == (m.None? || m.value !in methods);
      if m.None? || m.value !in methods {
        kept := kept + [arms[i]];
      }
    }
  }

  /** Empty names are dropped first. */
  method FilterClientRequestTs(content: string, experimental: seq<string>) returns (r: string)
    ensures r == FilterClientRequest(content, set m | m in experimental && m != "")
  {
    var methods := set m | m in experimental && m != "";
    var alias := SplitTypeAlias(content);
    if alias.None? { return content; }
    var arms := SplitTopLevelMulti(alias.value.body, ARM_DELIMITERS);
    var kept := KeepArms(arms, methods);
    r := alias.value.(body := Join(kept, ARM_SEPARATOR)).Text();
  }
}
