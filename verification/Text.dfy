/** Character and string operations of the Rust standard library that the models share. */
module Text {
  // Lexicographic order by code point, which is also the byte order of UTF-8

  predicate StrLe(a: string, b: string) {
    if a == "" then true
    else if b == "" then false
    else if a[0] != b[0] then a[0] < b[0]
    else StrLe(a[1..], b[1..])
  }

  lemma {:induction false} StrLeTotal(a: string, b: string)
    ensures StrLe(a, b) || StrLe(b, a)
    ensures StrLe(a, b) && StrLe(b, a) ==> a == b
  {
    if a != "" && b != "" && a[0] == b[0] {
      StrLeTotal(a[1..], b[1..]);
      assert a == [a[0]] + a[1..] && b == [b[0]] + b[1..];
    }
  }

  lemma {:induction false} StrLeTransitive(a: string, b: string, c: string)
    requires StrLe(a, b) && StrLe(b, c)
    ensures StrLe(a, c)
  {
    if a != "" && b != "" && c != "" && a[0] == b[0] == c[0] {
      StrLeTransitive(a[1..], b[1..], c[1..]);
    }
  }

  ghost predicate SmallerAt(a: string, b: string, k: nat) {
    k < |a| && k < |b| && a[k] < b[k] && forall j | 0 <= j < k :: a[j] == b[j]
  }

  /** The first different character decides; a proper prefix comes first. */
  lemma {:induction false} StrLeExactly(a: string, b: string)
    ensures StrLe(a, b) <==> a <= b || exists k: nat :: SmallerAt(a, b, k)
  {
    if a != "" && b != "" {
      if a[0] != b[0] {
        assert SmallerAt(a, b, 0) <==> a[0] < b[0];
      } else {
        StrLeExactly(a[1..], b[1..]);
        assert a == [a[0]] + a[1..] && b == [b[0]] + b[1..];
        SmallerInTails(a, b);
      }
    }
  }

  lemma SmallerInTails(a: string, b: string)
    requires a != "" && b != "" && a[0] == b[0]
    ensures (exists k: nat :: SmallerAt(a, b, k)) <==> exists k: nat :: SmallerAt(a[1..], b[1..], k)
  {
    var s, t := a[1..], b[1..];
    if k: nat :| SmallerAt(a, b, k) {
      assert forall j | 0 <= j < k - 1 :: s[j] == a[j + 1] && t[j] == b[j + 1];
      assert SmallerAt(s, t, k - 1);
    }
    if k: nat :| SmallerAt(s, t, k) {
      assert forall j | 0 < j < k + 1 :: a[j] == s[j - 1] && b[j] == t[j - 1];
      assert SmallerAt(a, b, k + 1);
    }
  }

  lemma {:induction false} StrLeAfter(p: string, a: string, b: string)
    ensures StrLe(p + a, p + b) <==> StrLe(a, b)
  {
    if p == "" {
      assert p + a == a && p + b == b;
    } else {
      assert (p + a)[1..] == p[1..] + a && (p + b)[1..] == p[1..] + b;
      StrLeAfter(p[1..], a, b);
    }
  }

  // Prefixes

  predicate HasPrefix(s: string, p: string) {
    p <= s
  }

  lemma CancelPrefix(p: string, x: string, y: string)
    requires p + x == p + y
    ensures x == y
  {
    assert (p + x)[|p|..] == x && (p + y)[|p|..] == y;
  }

  lemma Reassociate(a: string, b: string, c: string)
    ensures (a + b) + c == a + (b + c)
  {
  }

  // Trimming. Rust trims the characters with the Unicode White_Space property.

  predicate IsWhitespace(c: char) {
    || '\U{9}' <= c <= '\U{D}' || c == ' ' || c == '\U{85}' || c == '\U{A0}' || c == '\U{1680}'
    || '\U{2000}' <= c <= '\U{200A}' || c == '\U{2028}' || c == '\U{2029}' || c == '\U{202F}'
    || c == '\U{205F}' || c == '\U{3000}'
  }

  const WHITE_SPACE :=
    "\U{9}\U{A}\U{B}\U{C}\U{D} \U{85}\U{A0}\U{1680}\U{2000}\U{2001}\U{2002}\U{2003}\U{2004}\U{2005}\U{2006}\U{2007}"
    + "\U{2008}\U{2009}\U{200A}\U{2028}\U{2029}\U{202F}\U{205F}\U{3000}"

  /** The 25 characters that the Unicode Character Database lists in PropList.txt. */
  lemma {:induction false} WhitespaceExactly(c: char)
    ensures IsWhitespace(c) <==> c in WHITE_SPACE
  {
  }

  predicate Blank(s: string) {
    forall i | 0 <= i < |s| :: IsWhitespace(s[i])
  }

  function TrimStart(s: string): string {
    if s != "" && IsWhitespace(s[0]) then TrimStart(s[1..]) else s
  }

  function TrimEnd(s: string): string {
    if s != "" && IsWhitespace(s[|s| - 1]) then TrimEnd(s[..|s| - 1]) else s
  }

  function Trim(s: string): string {
    TrimEnd(TrimStart(s))
  }

  predicate Trimmed(s: string) {
    s == "" || (!IsWhitespace(s[0]) && !IsWhitespace(s[|s| - 1]))
  }

  lemma {:induction false} TrimStartParts(s: string) returns (w: string)
    ensures s == w + TrimStart(s) && Blank(w)
    ensures TrimStart(s) != "" ==> !IsWhitespace(TrimStart(s)[0])
  {
    if s != "" && IsWhitespace(s[0]) {
      var rest := TrimStartParts(s[1..]);
      w := [s[0]] + rest;
    } else {
      w := "";
    }
  }

  lemma {:induction false} TrimEndParts(s: string) returns (w: string)
    ensures s == TrimEnd(s) + w && Blank(w)
    ensures TrimEnd(s) != "" ==> !IsWhitespace(TrimEnd(s)[|TrimEnd(s)| - 1])
  {
    if s != "" && IsWhitespace(s[|s| - 1]) {
      var rest := TrimEndParts(s[..|s| - 1]);
      w := rest + [s[|s| - 1]];
      assert TrimEnd(s) + w == (TrimEnd(s) + rest) + [s[|s| - 1]];
    } else {
      w := "";
    }
  }

  /** What trimming removes is blank, and what it leaves is trimmed. */
  lemma TrimParts(s: string) returns (w1: string, w2: string)
    ensures s == w1 + Trim(s) + w2 && Blank(w1) && Blank(w2) && Trimmed(Trim(s))
  {
    w1 := TrimStartParts(s);
    w2 := TrimEndParts(TrimStart(s));
    Reassociate(w1, Trim(s), w2);
    if Trim(s) != "" {
      assert Trim(s)[0] == (Trim(s) + w2)[0] == TrimStart(s)[0];
    }
  }

  lemma {:induction false} TrimStartOver(w: string, s: string)
    requires Blank(w) && (s == "" || !IsWhitespace(s[0]))
    ensures TrimStart(w + s) == s
  {
    if w == "" {
      assert w + s == s;
    } else {
      assert (w + s)[1..] == w[1..] + s;
      TrimStartOver(w[1..], s);
    }
  }

  lemma {:induction false} TrimEndOver(s: string, w: string)
    requires Blank(w) && (s == "" || !IsWhitespace(s[|s| - 1]))
    ensures TrimEnd(s + w) == s
    decreases |w|
  {
    if w == "" {
      assert s + w == s;
    } else {
      assert (s + w)[..|s + w| - 1] == s + w[..|w| - 1];
      TrimEndOver(s, w[..|w| - 1]);
    }
  }

  /** Surrounding a trimmed text with blanks is undone by trimming. */
  lemma TrimOver(w1: string, s: string, w2: string)
    requires Blank(w1) && Blank(w2) && Trimmed(s)
    ensures Trim(w1 + s + w2) == s
  {
    if s == "" {
      assert w1 + s + w2 == (w1 + w2) + "";
      TrimStartOver(w1 + w2, "");
    } else {
      assert w1 + s + w2 == w1 + (s + w2);
      TrimStartOver(w1, s + w2);
      TrimEndOver(s, w2);
    }
  }

  // Decimal numbers

  function Digit(d: nat): char
    requires d < 10
  {
    '0' + d as char
  }

  function Decimal(n: nat): (r: string)
    ensures r != ""
  {
    if n < 10 then [Digit(n)] else Decimal(n / 10) + [Digit(n % 10)]
  }

  lemma {:induction false} DecimalInjective(m: nat, n: nat)
    requires Decimal(m) == Decimal(n)
    ensures m == n
  {
    var a, b := Decimal(m), Decimal(n);
    assert a[|a| - 1] == Digit(m % 10) && b[|b| - 1] == Digit(n % 10);
    if m >= 10 && n >= 10 {
      assert a[..|a| - 1] == Decimal(m / 10) && b[..|b| - 1] == Decimal(n / 10);
      DecimalInjective(m / 10, n / 10);
    }
  }

  /** The number that a row of digits stands for. */
  function NumberOf(s: string): int {
    if s == "" then 0 else 10 * NumberOf(s[..|s| - 1]) + (s[|s| - 1] as int - '0' as int)
  }

  /** Decimal(n) are digits that stand for n, without a leading zero. */
  lemma {:induction false} DecimalExactly(n: nat)
    ensures forall i | 0 <= i < |Decimal(n)| :: '0' <= Decimal(n)[i] <= '9'
    ensures NumberOf(Decimal(n)) == n && (Decimal(n)[0] == '0' ==> n == 0)
  {
    if n >= 10 {
      DecimalExactly(n / 10);
      assert Decimal(n)[..|Decimal(n)| - 1] == Decimal(n / 10);
    } else {
      assert Decimal(n)[..0] == "";
    }
  }
}
