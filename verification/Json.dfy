/** JSON trees as serde_json holds them: an object is a list of entries with distinct keys, in insertion order. */
module Json {
  import opened Seqs

  predicate IsNumChar(c: char) {
    '0' <= c <= '9' || c == '-' || c == '+' || c == '.' || c == 'e' || c == 'E'
  }

  /** A number is the text it renders to. */
  type Numeral = s: string | s != "" && forall i | 0 <= i < |s| :: IsNumChar(s[i]) witness "0"

  datatype Entry = Entry(key: string, val: Value)

  datatype Value =
    | Null
    | Bool(b: bool)
    | Number(n: Numeral)
    | Str(s: string)
    | Arr(items: seq<Value>)
    | Obj(entries: seq<Entry>)

  // Objects as maps

  /** The position of the key, or the number of entries when it is absent. */
  function Find(es: seq<Entry>, key: string): (i: nat)
    ensures i <= |es|
    ensures i < |es| ==> es[i].key == key
    ensures forall j | 0 <= j < i :: es[j].key != key
  {
    if es == [] || es[0].key == key then 0 else 1 + Find(es[1..], key)
  }

  predicate Has(es: seq<Entry>, key: string) {
    Find(es, key) < |es|
  }

  function Get(es: seq<Entry>, key: string): Option<Value> {
    var i := Find(es, key);
    if i < |es| then Some(es[i].val) else None
  }

  /** Map::insert: replaces in place, or appends. */
  function Put(es: seq<Entry>, key: string, val: Value): seq<Entry> {
    var i := Find(es, key);
    if i < |es| then es[i := Entry(key, val)] else es + [Entry(key, val)]
  }

  /** Map::remove in insertion order: the last entry takes the place of the removed one. */
  function Remove(es: seq<Entry>, key: string): seq<Entry> {
    var i := Find(es, key);
    if i == |es| then es
    else if i == |es| - 1 then es[..i]
    else es[..|es| - 1][i := es[|es| - 1]]
  }

  ghost predicate Distinct(es: seq<Entry>) {
    forall i, j | 0 <= i < j < |es| :: es[i].key != es[j].key
  }

  function Keys(es: seq<Entry>): set<string> {
    set i | 0 <= i < |es| :: es[i].key
  }

  /** value.get(key): None unless the value is an object. */
  function Member(v: Value, key: string): Option<Value> {
    if v.Obj? then Get(v.entries, key) else None
  }

  function AsStr(v: Option<Value>): Option<string> {
    if v.Some? && v.value.Str? then Some(v.value.s) else None
  }

  /** Every object in the tree has distinct keys. */
  ghost predicate WellFormed(v: Value) {
    match v
    case Arr(items) => forall i | 0 <= i < |items| :: WellFormed(items[i])
    case Obj(es) => Distinct(es) && forall i | 0 <= i < |es| :: WellFormed(es[i].val)
    case _ => true
  }

  // Places of a tree

  /** The value at the end of a path of child positions. */
  function At(v: Value, path: seq<nat>): Option<Value>
    decreases |path|
  {
    if path == [] then Some(v)
    else
      match v
      case Arr(items) => if path[0] < |items| then At(items[path[0]], path[1..]) else None
      case Obj(es) => if path[0] < |es| then At(es[path[0]].val, path[1..]) else None
      case _ => None
  }

  lemma FindUnique(es: seq<Entry>, i: nat)
    requires Distinct(es) && i < |es|
    ensures Find(es, es[i].key) == i
  {
    var j := Find(es, es[i].key);
    assert j <= i;
  }

  lemma FindIs(es: seq<Entry>, key: string, i: nat)
    requires i <= |es| && (i < |es| ==> es[i].key == key)
    requires forall j | 0 <= j < i :: es[j].key != key
    ensures Find(es, key) == i
  {
  }

  lemma GetPut(es: seq<Entry>, key: string, val: Value, other: string)
    ensures Get(Put(es, key, val), other) == if other == key then Some(val) else Get(es, other)
  {
    var i, j := Find(es, key), Find(es, other);
    var ps := Put(es, key, val);
    if other == key {
      FindIs(ps, key, i);
    } else if j < |es| {
      FindIs(ps, other, j);
    } else {
      FindIs(ps, other, |ps|);
    }
  }

  /** Positions depend on the keys only. */
  lemma FindSameKeys(es: seq<Entry>, fs: seq<Entry>, key: string)
    requires |es| == |fs| && forall i | 0 <= i < |es| :: es[i].key == fs[i].key
    ensures Find(es, key) == Find(fs, key)
  {
  }
}
