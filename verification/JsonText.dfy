/** Compact JSON text (serde_json::to_string) and its unique readability: different trees have different texts. */
module JsonText {
  import opened Text
  import opened Json

  function HexDigit(n: nat): char
    requires n < 16
  {
    if n < 10 then '0' + n as char else 'a' + (n - 10) as char
  }

  /** How one character is written inside a string literal. */
  function EscapeChar(c: char): string {
    if c == '"' then ['\\', '"']
    else if c == '\\' then ['\\', '\\']
    else if c == '\U{8}' then ['\\', 'b']
    else if c == '\U{C}' then ['\\', 'f']
    else if c == '\n' then ['\\', 'n']
    else if c == '\r' then ['\\', 'r']
    else if c == '\t' then ['\\', 't']
    else if c < ' ' then ['\\', 'u', '0', '0', HexDigit(c as int / 16), HexDigit(c as int % 16)]
    else [c]
  }

  function Escape(s: string): string {
    if s == "" then "" else EscapeChar(s[0]) + Escape(s[1..])
  }

  function Quote(s: string): string {
    "\"" + Escape(s) + "\""
  }

  function ToString(v: Value): (r: string)
    ensures r != ""
  {
    match v
    case Null => "null"
    case Bool(b) => if b then "true" else "false"
    case Number(n) => n
    case Str(s) => Quote(s)
    case Arr(items) => "[" + ItemsText(items, "")
    case Obj(entries) => "{" + EntriesText(entries, "")
  }

  /** The items from here to the closing bracket; sep goes in front of the next item. */
  function ItemsText(items: seq<Value>, sep: string): string {
    if items == [] then "]" else sep + (ToString(items[0]) + ItemsText(items[1..], ","))
  }

  function EntriesText(entries: seq<Entry>, sep: string): string {
    if entries == [] then "}"
    else sep + (Quote(entries[0].key) + (":" + (ToString(entries[0].val) + EntriesText(entries[1..], ","))))
  }

  // Unique readability

  lemma HexDigitInjective(m: nat, n: nat)
    requires m < 16 && n < 16 && HexDigit(m) == HexDigit(n)
    ensures m == n
  {
  }

  lemma EscapeCharPrefix(c: char, x: string, d: char, y: string)
    requires EscapeChar(c) + x == EscapeChar(d) + y
    ensures c == d && x == y
  {
    var l, r := EscapeChar(c) + x, EscapeChar(d) + y;
    assert l[0] == EscapeChar(c)[0] && r[0] == EscapeChar(d)[0];
    if |EscapeChar(c)| > 1 && |EscapeChar(d)| > 1 {
      assert l[1] == EscapeChar(c)[1] && r[1] == EscapeChar(d)[1];
      if |EscapeChar(c)| == 6 && |EscapeChar(d)| == 6 {
        assert l[4] == EscapeChar(c)[4] && r[4] == EscapeChar(d)[4];
        assert l[5] == EscapeChar(c)[5] && r[5] == EscapeChar(d)[5];
        HexDigitInjective(c as int / 16, d as int / 16);
        HexDigitInjective(c as int % 16, d as int % 16);
      }
    }
    assert c == d;
    CancelPrefix(EscapeChar(c), x, y);
  }

  lemma EscapeCharFirst(c: char)
    ensures EscapeChar(c) != "" && EscapeChar(c)[0] != '"'
  {
  }

  lemma EscapeUnfold(s: string, x: string)
    requires s != ""
    ensures Escape(s) + x == EscapeChar(s[0]) + (Escape(s[1..]) + x)
    ensures (Escape(s) + x)[0] != '"'
  {
    EscapeCharFirst(s[0]);
    Reassociate(EscapeChar(s[0]), Escape(s[1..]), x);
  }

  lemma {:induction false} EscapeReadable(s: string, x: string, t: string, y: string)
    requires Escape(s) + ("\"" + x) == Escape(t) + ("\"" + y)
    ensures s == t && x == y
  {
    if s != "" { EscapeUnfold(s, "\"" + x); }
    if t != "" { EscapeUnfold(t, "\"" + y); }
    if s == "" || t == "" {
      assert s == t == "";
      assert "" + ("\"" + x) == "\"" + x && "" + ("\"" + y) == "\"" + y;
      CancelPrefix("\"", x, y);
    } else {
      EscapeCharPrefix(s[0], Escape(s[1..]) + ("\"" + x), t[0], Escape(t[1..]) + ("\"" + y));
      EscapeReadable(s[1..], x, t[1..], y);
      assert s == [s[0]] + s[1..] && t == [t[0]] + t[1..];
    }
  }

  lemma QuoteReadable(s: string, x: string, t: string, y: string)
    requires Quote(s) + x == Quote(t) + y
    ensures s == t && x == y
  {
    assert Quote(s) + x == "\"" + (Escape(s) + ("\"" + x));
    assert Quote(t) + y == "\"" + (Escape(t) + ("\"" + y));
    CancelPrefix("\"", Escape(s) + ("\"" + x), Escape(t) + ("\"" + y));
    EscapeReadable(s, x, t, y);
  }

  /** What may follow a value inside a larger text. */
  predicate Delimited(r: string) {
    r != "" ==> r[0] == ',' || r[0] == ']' || r[0] == '}'
  }

  lemma NumeralLength(m: Numeral, x: string, n: Numeral, y: string)
    requires Delimited(x) && m + x == n + y
    ensures |n| <= |m|
  {
    var t := m + x;
    assert forall k | 0 <= k < |n| :: t[k] == n[k];
    assert forall k | |m| <= k < |t| :: t[k] == x[k - |m|];
    var c := if |m| < |t| then t[|m|] else '0';
  }

  lemma NumeralReadable(m: Numeral, x: string, n: Numeral, y: string)
    requires Delimited(x) && Delimited(y) && m + x == n + y
    ensures m == n && x == y
  {
    NumeralLength(m, x, n, y);
    NumeralLength(n, y, m, x);
    assert (m + x)[..|m|] == m && (n + y)[..|m|] == n;
    CancelPrefix(m, x, y);
  }

  lemma FirstChar(v: Value, x: string)
    ensures var c := (ToString(v) + x)[0];
            match v
            case Null => c == 'n'
            case Bool(b) => c == if b then 't' else 'f'
            case Number(n) => IsNumChar(c)
            case Str(_) => c == '"'
            case Arr(_) => c == '['
            case Obj(_) => c == '{'
  {
  }

  lemma {:induction false} Readable(v: Value, x: string, w: Value, y: string)
    requires Delimited(x) && Delimited(y) && ToString(v) + x == ToString(w) + y
    ensures v == w && x == y
    decreases v, 1
  {
    FirstChar(v, x);
    FirstChar(w, y);
    match v
    case Null => CancelPrefix("null", x, y);
    case Bool(b) => CancelPrefix(ToString(v), x, y);
    case Number(n) => NumeralReadable(n, x, w.n, y);
    case Str(s) => QuoteReadable(s, x, w.s, y);
    case Arr(items) => ArrayReadable(v, x, w, y);
    case Obj(entries) => ObjectReadable(v, x, w, y);
  }

  lemma {:induction false} ArrayReadable(v: Value, x: string, w: Value, y: string)
    requires v.Arr? && w.Arr? && ToString(v) + x == ToString(w) + y
    ensures v == w && x == y
    decreases v, 0
  {
    var tv, tw := ItemsText(v.items, "") + x, ItemsText(w.items, "") + y;
    assert ToString(v) + x == "[" + tv && ToString(w) + y == "[" + tw;
    CancelPrefix("[", tv, tw);
    ItemsReadable(v.items, x, w.items, y, "");
  }

  lemma {:induction false} ObjectReadable(v: Value, x: string, w: Value, y: string)
    requires v.Obj? && w.Obj? && ToString(v) + x == ToString(w) + y
    ensures v == w && x == y
    decreases v, 0
  {
    var tv, tw := EntriesText(v.entries, "") + x, EntriesText(w.entries, "") + y;
    assert ToString(v) + x == "{" + tv && ToString(w) + y == "{" + tw;
    CancelPrefix("{", tv, tw);
    EntriesReadable(v.entries, x, w.entries, y, "");
  }

  lemma ItemsTextDelimited(items: seq<Value>, x: string)
    ensures Delimited(ItemsText(items, ",") + x)
  {
  }

  lemma EntriesTextDelimited(entries: seq<Entry>, x: string)
    ensures Delimited(EntriesText(entries, ",") + x)
  {
  }

  lemma ItemsTextUnfold(a: seq<Value>, x: string, sep: string)
    requires a != []
    ensures ItemsText(a, sep) + x == sep + (ToString(a[0]) + (ItemsText(a[1..], ",") + x))
  {
    assert ItemsText(a, sep) == sep + (ToString(a[0]) + ItemsText(a[1..], ","));
  }

  lemma EntriesTextUnfold(a: seq<Entry>, x: string, sep: string)
    requires a != []
    ensures EntriesText(a, sep) + x
         == sep + (Quote(a[0].key) + (":" + (ToString(a[0].val) + (EntriesText(a[1..], ",") + x))))
  {
    var q, t := Quote(a[0].key), ToString(a[0].val);
    var rest := EntriesText(a[1..], ",");
    assert EntriesText(a, sep) == sep + (q + (":" + (t + rest)));
    assert (sep + (q + (":" + (t + rest)))) + x == sep + (q + (":" + (t + (rest + x))));
  }

  lemma ItemsNotClosed(items: seq<Value>, x: string, sep: string)
    requires items != [] && (sep == "" || sep == ",")
    ensures (ItemsText(items, sep) + x)[0] != ']'
  {
    ItemsTextUnfold(items, x, sep);
    FirstChar(items[0], ItemsText(items[1..], ",") + x);
  }

  lemma EntriesNotClosed(entries: seq<Entry>, x: string, sep: string)
    requires entries != [] && (sep == "" || sep == ",")
    ensures (EntriesText(entries, sep) + x)[0] != '}'
  {
    EntriesTextUnfold(entries, x, sep);
  }

  lemma {:induction false} ItemsReadable(a: seq<Value>, x: string, b: seq<Value>, y: string, sep: string)
    requires (sep == "" || sep == ",") && ItemsText(a, sep) + x == ItemsText(b, sep) + y
    ensures a == b && x == y
    decreases a, 2
  {
    if a == [] || b == [] {
      if a != [] { ItemsNotClosed(a, x, sep); }
      if b != [] { ItemsNotClosed(b, y, sep); }
      assert a == b == [];
      CancelPrefix("]", x, y);
    } else {
      ItemsTextUnfold(a, x, sep);
      ItemsTextUnfold(b, y, sep);
      var ta, tb := ItemsText(a[1..], ",") + x, ItemsText(b[1..], ",") + y;
      CancelPrefix(sep, ToString(a[0]) + ta, ToString(b[0]) + tb);
      ItemsTextDelimited(a[1..], x);
      ItemsTextDelimited(b[1..], y);
      Readable(a[0], ta, b[0], tb);
      ItemsReadable(a[1..], x, b[1..], y, ",");
      assert a == [a[0]] + a[1..] && b == [b[0]] + b[1..];
    }
  }

  lemma {:induction false} EntriesReadable(a: seq<Entry>, x: string, b: seq<Entry>, y: string, sep: string)
    requires (sep == "" || sep == ",") && EntriesText(a, sep) + x == EntriesText(b, sep) + y
    ensures a == b && x == y
    decreases a, 2
  {
    if a == [] || b == [] {
      if a != [] { EntriesNotClosed(a, x, sep); }
      if b != [] { EntriesNotClosed(b, y, sep); }
      assert a == b == [];
      CancelPrefix("}", x, y);
    } else {
      FirstEntryReadable(a, x, b, y, sep);
      EntriesReadable(a[1..], x, b[1..], y, ",");
      assert a == [a[0]] + a[1..] && b == [b[0]] + b[1..];
    }
  }

  lemma {:induction false} FirstEntryReadable(a: seq<Entry>, x: string, b: seq<Entry>, y: string, sep: string)
    requires (sep == "" || sep == ",") && EntriesText(a, sep) + x == EntriesText(b, sep) + y
    requires a != [] && b != []
    ensures a[0] == b[0] && EntriesText(a[1..], ",") + x == EntriesText(b[1..], ",") + y
    decreases a, 1
  {
    EntriesTextUnfold(a, x, sep);
    EntriesTextUnfold(b, y, sep);
    var ta, tb := EntriesText(a[1..], ",") + x, EntriesText(b[1..], ",") + y;
    var va, vb := ToString(a[0].val) + ta, ToString(b[0].val) + tb;
    CancelPrefix(sep, Quote(a[0].key) + (":" + va), Quote(b[0].key) + (":" + vb));
    QuoteReadable(a[0].key, ":" + va, b[0].key, ":" + vb);
    CancelPrefix(":", va, vb);
    EntriesTextDelimited(a[1..], x);
    EntriesTextDelimited(b[1..], y);
    Readable(a[0].val, ta, b[0].val, tb);
  }

  lemma ToStringInjective(v: Value, w: Value)
    requires ToString(v) == ToString(w)
    ensures v == w
  {
    assert ToString(v) + "" == ToString(v) && ToString(w) + "" == ToString(w);
    Readable(v, "", w, "");
  }
}
