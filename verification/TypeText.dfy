/**
 Texts made of nested groups and string literals, and what the scanner makes of them: where it cuts, and that it finds
 the method of every object arm of this kind.
 */
module TypeText {
  import opened Seqs
  import opened Text
  import opened Scanner
  import opened TypeAlias

  /** A character of a string literal, as itself or behind a backslash. */
  datatype Unit = Bare(c: char) | Escaped(c: char)

  datatype Piece =
    | Plain(c: char)
    | Quoted(quote: char, units: seq<Unit>)
    | Group(open: char, inner: seq<Piece>)

  function Closing(open: char): char {
    match open
    case '{' => '}'
    case '[' => ']'
    case '(' => ')'
    case _ => '>'
  }

  function UnitText(u: Unit): string {
    if u.Bare? then [u.c] else ['\\', u.c]
  }

  function UnitsText(units: seq<Unit>): string {
    if units == [] then ""
    else UnitText(units[0]) + UnitsText(units[1..])
  }

  function Render(p: Piece): string
    decreases p
  {
    match p
    case Plain(c) => [c]
    case Quoted(quote, units) => [quote] + (UnitsText(units) + [quote])
    case Group(open, inner) => [open] + (RenderAll(inner) + [Closing(open)])
  }

  function RenderAll(ps: seq<Piece>): string
    decreases ps
  {
    if ps == [] then "" else Render(ps[0]) + RenderAll(ps[1..])
  }

  /** Brackets and quotes occur only in pairs; a string literal holds its quote and the backslash only escaped. */
  predicate Balanced(p: Piece) {
    match p
    case Plain(c) => c !in {'"', '\'', '{', '}', '[', ']', '(', ')', '<', '>'}
    case Quoted(quote, units) =>
      && (quote == '"' || quote == '\'')
      && forall i | 0 <= i < |units| && units[i].Bare? :: units[i].c != quote && units[i].c != '\\'
    case Group(open, inner) =>
      open in {'{', '[', '(', '<'} && forall i | 0 <= i < |inner| :: Balanced(inner[i])
  }

  ghost predicate AllBalanced(ps: seq<Piece>) {
    forall i | 0 <= i < |ps| :: Balanced(ps[i])
  }

  // The scanner is back where it was behind every piece

  lemma {:induction false} NeverClosesConcat(s: Scan, a: string, b: string)
    requires NeverCloses(s, a) && NeverCloses(Run(s, a), b)
    ensures NeverCloses(s, a + b)
    decreases |a|
  {
    if a == "" {
      assert a + b == b;
    } else {
      assert (a + b)[1..] == a[1..] + b;
      NeverClosesConcat(Next(s, a[0]), a[1..], b);
    }
  }

  predicate StaysInside(s: Scan, u: Unit) {
    s.delim.Some? && !s.escape && (u.Bare? ==> u.c != s.delim.value && u.c != '\\')
  }

  lemma UnitStaysInside(s: Scan, u: Unit, delims: set<char>)
    requires StaysInside(s, u)
    ensures Run(s, UnitText(u)) == s && Uncut(s, UnitText(u), delims)
    ensures !s.TopLevel() ==> NeverCloses(s, UnitText(u))
  {
    var text := UnitText(u);
    if u.Bare? {
      assert text[1..] == "";
    } else {
      var escaped := Next(s, '\\');
      assert text[1..] == [u.c] && [u.c][1..] == "" && Next(escaped, u.c) == s;
      assert Run(escaped, [u.c]) == Run(s, "") && Uncut(escaped, [u.c], delims);
      assert !s.TopLevel() ==> NeverCloses(escaped, [u.c]);
    }
  }

  lemma {:induction false} UnitsStayInside(s: Scan, units: seq<Unit>, delims: set<char>)
    requires s.delim.Some? && !s.escape && forall i | 0 <= i < |units| :: StaysInside(s, units[i])
    ensures Run(s, UnitsText(units)) == s && Uncut(s, UnitsText(units), delims)
    ensures !s.TopLevel() ==> NeverCloses(s, UnitsText(units))
  {
    if units != [] {
      UnitsStayInside(s, units[1..], delims);
      UnitStaysInside(s, units[0], delims);
      RunConcat(s, UnitText(units[0]), UnitsText(units[1..]));
      UncutConcat(s, UnitText(units[0]), UnitsText(units[1..]), delims);
      if !s.TopLevel() {
        NeverClosesConcat(s, UnitText(units[0]), UnitsText(units[1..]));
      }
    }
  }

  /** Reading in three stretches. */
  lemma ReadAround(s: Scan, first: char, middle: string, last: char, delims: set<char>)
    requires Run(Next(s, first), middle) == Next(s, first) && Next(Next(s, first), last) == s
    requires !IsCut(s, first, delims) && Uncut(Next(s, first), middle, delims) && !IsCut(Next(s, first), last, delims)
    ensures Run(s, [first] + (middle + [last])) == s && Uncut(s, [first] + (middle + [last]), delims)
  {
    var t, text := middle + [last], [first] + (middle + [last]);
    var inside := Next(s, first);
    RunConcat(inside, middle, [last]);
    UncutConcat(inside, middle, [last], delims);
    assert [last][1..] == "" && text[1..] == t;
    assert Run(inside, [last]) == Run(Next(inside, last), "");
  }

  predicate Outside(s: Scan) {
    s.delim.None? && !s.escape
  }

  /** No piece at this place is a delimiter to cut at. */
  ghost predicate CutsNowhere(s: Scan, ps: seq<Piece>, delims: set<char>) {
    s.TopLevel() ==> forall i | 0 <= i < |ps| && ps[i].Plain? :: ps[i].c !in delims
  }

  lemma {:induction false} PieceReturns(s: Scan, p: Piece, delims: set<char>)
    requires Outside(s) && Balanced(p) && ProperDelimiters(delims)
    requires p.Plain? && s.TopLevel() ==> p.c !in delims
    ensures Run(s, Render(p)) == s && Uncut(s, Render(p), delims)
    decreases p
  {
    match p
    case Plain(c) =>
      assert [c][1..] == "";
      assert Run(s, [c]) == Run(Next(s, c), "");
    case Quoted(quote, units) =>
      UnitsStayInside(Next(s, quote), units, delims);
      ReadAround(s, quote, UnitsText(units), quote, delims);
    case Group(open, inner) =>
      var inside := Next(s, open);
      PiecesReturn(inside, inner, delims);
      ReadAround(s, open, RenderAll(inner), Closing(open), delims);
  }

  lemma {:induction false} PiecesReturn(s: Scan, ps: seq<Piece>, delims: set<char>)
    requires Outside(s) && AllBalanced(ps) && ProperDelimiters(delims) && CutsNowhere(s, ps, delims)
    ensures Run(s, RenderAll(ps)) == s && Uncut(s, RenderAll(ps), delims)
    decreases ps
  {
    if ps != [] {
      PieceReturns(s, ps[0], delims);
      PiecesReturn(s, ps[1..], delims);
      RunConcat(s, Render(ps[0]), RenderAll(ps[1..]));
      UncutConcat(s, Render(ps[0]), RenderAll(ps[1..]), delims);
    }
  }

  // Splitting cuts at the delimiters between pieces, and nowhere else

  /** The stretches between plain delimiters, rendered. */
  function Stretches(cur: string, ps: seq<Piece>, delims: set<char>): seq<string>
    decreases |ps|
  {
    if ps == [] then [cur]
    else if ps[0].Plain? && ps[0].c in delims then [cur] + Stretches("", ps[1..], delims)
    else Stretches(cur + Render(ps[0]), ps[1..], delims)
  }

  /** Trimmed, and without those that are blank. */
  function Parts(stretches: seq<string>): seq<string> {
    if stretches == [] then [] else Part(stretches[0]) + Parts(stretches[1..])
  }

  lemma {:induction false} SplitPiecesFrom(cur: string, ps: seq<Piece>, delims: set<char>)
    requires AllBalanced(ps) && ProperDelimiters(delims)
    ensures SplitFrom(START, cur, RenderAll(ps), delims) == Parts(Stretches(cur, ps, delims))
    decreases |ps|
  {
    if ps == [] {
      assert [cur][1..] == [];
      assert Part(cur) + [] == Part(cur);
    } else {
      var p, rest := ps[0], RenderAll(ps[1..]);
      if p.Plain? && p.c in delims {
        SplitPiecesFrom("", ps[1..], delims);
        assert RenderAll(ps) == [p.c] + rest;
        var later := Stretches("", ps[1..], delims);
        assert ([cur] + later)[1..] == later;
      } else {
        PieceReturns(START, p, delims);
        SplitUncut(START, cur, Render(p), rest, delims);
        SplitPiecesFrom(cur + Render(p), ps[1..], delims);
      }
    }
  }

  /** A balanced text is cut exactly at its delimiters outside groups and string literals. */
  lemma {:induction false} SplitOfPieces(ps: seq<Piece>, delims: set<char>)
    requires AllBalanced(ps) && ProperDelimiters(delims)
    ensures Split(RenderAll(ps), delims) == Parts(Stretches("", ps, delims))
  {
    SplitPiecesFrom("", ps, delims);
  }

  // The method of an object arm

  lemma NeverClosesAround(s: Scan, first: char, middle: string, last: char)
    requires !Next(s, first).TopLevel() && NeverCloses(Next(s, first), middle)
    requires Run(Next(s, first), middle) == Next(s, first)
    requires Next(Next(s, first), last) == s && !s.TopLevel()
    ensures NeverCloses(s, [first] + (middle + [last]))
  {
    var t, text := middle + [last], [first] + (middle + [last]);
    assert [last][1..] == "" && text[1..] == t;
    NeverClosesConcat(Next(s, first), middle, [last]);
  }

  lemma {:induction false} PieceNeverCloses(s: Scan, p: Piece)
    requires Outside(s) && Balanced(p) && !s.TopLevel()
    ensures NeverCloses(s, Render(p))
    decreases p
  {
    match p
    case Plain(c) => assert [c][1..] == "";
    case Quoted(quote, units) =>
      UnitsStayInside(Next(s, quote), units, {});
      NeverClosesAround(s, quote, UnitsText(units), quote);
    case Group(open, inner) =>
      PiecesReturn(Next(s, open), inner, {});
      PiecesNeverClose(Next(s, open), inner);
      NeverClosesAround(s, open, RenderAll(inner), Closing(open));
  }

  lemma {:induction false} PiecesNeverClose(s: Scan, ps: seq<Piece>)
    requires Outside(s) && AllBalanced(ps) && !s.TopLevel()
    ensures NeverCloses(s, RenderAll(ps))
    decreases ps
  {
    if ps != [] {
      PieceNeverCloses(s, ps[0]);
      PiecesNeverClose(s, ps[1..]);
      PieceReturns(s, ps[0], {});
      NeverClosesConcat(s, Render(ps[0]), RenderAll(ps[1..]));
    }
  }

  /** The method field and a comma, as pieces. */
  function MethodPieces(m: string): seq<Piece> {
    [Plain(' '), Quoted('"', BareUnits("method")), Plain(':'), Plain(' '), Quoted('"', BareUnits(m)), Plain(',')]
  }

  function BareUnits(m: string): seq<Unit> {
    Map((c: char) => Bare(c), m)
  }

  lemma {:induction false} BareUnitsText(m: string)
    ensures UnitsText(BareUnits(m)) == m
  {
    if m != "" {
      BareUnitsText(m[1..]);
      assert BareUnits(m)[1..] == BareUnits(m[1..]);
    }
  }

  lemma {:induction false} RenderConcat(a: seq<Piece>, b: seq<Piece>)
    ensures RenderAll(a + b) == RenderAll(a) + RenderAll(b)
    decreases |a|
  {
    if a == [] {
      assert a + b == b;
    } else {
      assert (a + b)[1..] == a[1..] + b;
      RenderConcat(a[1..], b);
      Reassociate(Render(a[0]), RenderAll(a[1..]), RenderAll(b));
    }
  }

  lemma RenderCons(p: Piece, ps: seq<Piece>)
    ensures RenderAll([p] + ps) == Render(p) + RenderAll(ps)
  {
    assert ([p] + ps)[1..] == ps;
  }

  function QuotedName(m: string): Piece {
    Quoted('"', BareUnits(m))
  }

  lemma FieldPieces(a: Piece, b: Piece)
    ensures RenderAll([Plain(' '), a, Plain(':'), Plain(' '), b, Plain(',')])
         == [' '] + (Render(a) + ([':'] + ([' '] + (Render(b) + [',']))))
  {
    var p4, p3 := [b] + ([Plain(',')] + []), [Plain(' ')] + ([b] + ([Plain(',')] + []));
    RenderCons(Plain(','), []);
    assert [','] + "" == [','];
    RenderCons(b, [Plain(',')] + []);
    RenderCons(Plain(' '), p4);
    RenderCons(Plain(':'), p3);
    RenderCons(a, [Plain(':')] + p3);
    RenderCons(Plain(' '), [a] + ([Plain(':')] + p3));
    assert [Plain(' '), a, Plain(':'), Plain(' '), b, Plain(',')] == [Plain(' ')] + ([a] + ([Plain(':')] + p3));
  }

  lemma QuotedNameText(m: string)
    ensures Render(QuotedName(m)) == "\"" + m + "\""
  {
    BareUnitsText(m);
  }

  lemma FieldText(a: string, b: string)
    ensures [' '] + (a + ([':'] + ([' '] + (b + [','])))) == " " + (a + ": " + b + ",")
  {
  }

  lemma MethodFieldText(m: string, a: string)
    requires a == "\"method\""
    ensures MethodField(m) == a + ": " + ("\"" + m + "\"")
  {
    assert a + ": " + "\"" == "\"method\": \"";
  }

  lemma MethodPiecesText(m: string)
    ensures RenderAll(MethodPieces(m)) == " " + (MethodField(m) + ",")
  {
    var a, b := QuotedName("method"), QuotedName(m);
    FieldPieces(a, b);
    QuotedNameText("method");
    QuotedNameText(m);
    FieldText(Render(a), Render(b));
    MethodFieldText(m, Render(a));
  }

  lemma MethodPiecesBalanced(m: string)
    requires PlainName(m)
    ensures AllBalanced(MethodPieces(m))
  {
    assert PlainName("method");
  }

  /** The filter reads the method of every generated arm whose other fields are balanced text. */
  lemma {:induction false} MethodOfBalancedArm(m: string, rest: seq<Piece>)
    requires PlainName(m) && AllBalanced(rest)
    ensures ExtractMethodFromArm(RenderedArm(m, RenderAll(rest))) == Some(m)
  {
    var all := MethodPieces(m) + rest;
    MethodPiecesBalanced(m);
    MethodPiecesText(m);
    RenderConcat(MethodPieces(m), rest);
    var t := " " + (MethodField(m) + ("," + RenderAll(rest)));
    assert RenderAll(all) == t;
    PiecesReturn(Next(START, '{'), all, {});
    PiecesNeverClose(Next(START, '{'), all);
    MethodOfRenderedArm(m, RenderAll(rest));
  }

  // A whole generated file

  /** One request type of the union: its method, and its other fields. */
  datatype RequestType = RequestType(name: string, rest: seq<Piece>)

  function ArmOf(t: RequestType): string {
    RenderedArm(t.name, RenderAll(t.rest))
  }

  const ARM_OF: RequestType -> string := (t: RequestType) => ArmOf(t)

  ghost predicate Generated(t: RequestType) {
    PlainName(t.name) && AllBalanced(t.rest)
  }

  lemma ArmIsGroup(t: RequestType)
    ensures ArmOf(t) == Render(Group('{', MethodPieces(t.name) + t.rest))
  {
    MethodPiecesText(t.name);
    RenderConcat(MethodPieces(t.name), t.rest);
    var inner := RenderAll(MethodPieces(t.name) + t.rest);
    assert inner == " " + (MethodField(t.name) + ("," + RenderAll(t.rest)));
    assert "{" + inner + "}" == ['{'] + (inner + ['}']);
  }

  lemma GeneratedIsArm(t: RequestType)
    requires Generated(t)
    ensures Arm(ArmOf(t), ARM_DELIMITERS) && Run(START, ArmOf(t)) == START
  {
    MethodPiecesBalanced(t.name);
    ArmIsGroup(t);
    ArmSeparatorIsProper();
    PieceReturns(START, Group('{', MethodPieces(t.name) + t.rest), ARM_DELIMITERS);
    var arm := ArmOf(t);
    assert arm[0] == '{' && arm[|arm| - 1] == '}';
  }

  /** The request types whose method is not one of these. */
  function Stable(ts: seq<RequestType>, methods: set<string>): seq<RequestType> {
    if ts == [] then [] else (if ts[0].name in methods then [] else [ts[0]]) + Stable(ts[1..], methods)
  }

  lemma StableIsKept(t: RequestType, methods: set<string>)
    requires Generated(t)
    ensures KeepArm(methods)(ArmOf(t)) <==> t.name !in methods
  {
    MethodOfBalancedArm(t.name, t.rest);
  }

  lemma FilterCons(keep: string -> bool, p: string, ps: seq<string>)
    ensures Filter(keep, [p] + ps) == (if keep(p) then [p] else []) + Filter(keep, ps)
  {
    assert ([p] + ps)[1..] == ps;
  }

  lemma {:induction false} StableArmsAreKept(ts: seq<RequestType>, methods: set<string>)
    requires forall i | 0 <= i < |ts| :: Generated(ts[i])
    ensures Filter(KeepArm(methods), Map(ARM_OF, ts)) == Map(ARM_OF, Stable(ts, methods))
  {
    if ts != [] {
      var t, rest := ts[0], ts[1..];
      StableArmsAreKept(rest, methods);
      StableIsKept(t, methods);
      assert ts == [t] + rest;
      MapPrepend(ARM_OF, t, rest);
      FilterCons(KeepArm(methods), ArmOf(t), Map(ARM_OF, rest));
      MapPrepend(ARM_OF, t, Stable(rest, methods));
    }
  }

  /** Filtering a generated file leaves the file that would be generated for the stable request types alone. */
  lemma {:induction false} GeneratedFileFiltered(
    content: string, prefix: string, ts: seq<RequestType>, suffix: string, methods: set<string>)
    requires forall i | 0 <= i < |ts| :: Generated(ts[i])
    requires SplitTypeAlias(content) == Some(Alias(prefix, Join(Map(ARM_OF, ts), ARM_SEPARATOR), suffix))
    ensures FilterClientRequest(content, methods)
         == prefix + Join(Map(ARM_OF, Stable(ts, methods)), ARM_SEPARATOR) + suffix
  {
    var arms := Map(ARM_OF, ts);
    forall i | 0 <= i < |arms| ensures Arm(arms[i], ARM_DELIMITERS) && Run(START, arms[i]) == START {
      GeneratedIsArm(ts[i]);
    }
    ArmSeparatorIsProper();
    SplitOfJoin(arms, ARM_SEPARATOR, ARM_DELIMITERS);
    StableArmsAreKept(ts, methods);
  }
}
