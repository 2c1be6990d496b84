/**
  The values that travel between the maintenance table and the JSON files:
  what a column of the `maintenance` table holds, what `json.load` returns,
  how Python iterates over and unpacks such a value, and how the `sqlite3`
  module binds it as a statement parameter.
 */
module Values {
  import opened Wrappers

  /** A value stored in a column: SQL NULL, an integer, a float or text. */
  datatype Value =
    | Null
    | Int(i: int)
    | Real(repr: string)   // a Python float, kept opaque as its decimal text
    | Text(s: string)

  /** SQLite integers are signed 64-bit. */
  const MinInt64: int := -0x8000_0000_0000_0000
  const MaxInt64: int := 0x7fff_ffff_ffff_ffff

  /** A value that SQLite can hold: integers fit in 64 bits. */
  predicate Storable(v: Value)
  {
    v.Int? ==> MinInt64 <= v.i <= MaxInt64
  }

  /**
    A JSON document as `json.load` returns it: `None`, a bool, an int, a
    float, a str, a list, or a dict (its keys in file order, distinct).
   */
  datatype Json =
    | JNull
    | JBool(b: bool)
    | JInt(n: int)
    | JFloat(repr: string)
    | JStr(s: string)
    | JList(elems: seq<Json>)
    | JDict(entries: seq<(string, Json)>)

  /**
    What a Python `for` loop (or a tuple unpacking) draws from `j`: the
    elements of a list, the one-character strings of a str, the keys of a
    dict; `None` when the value is not iterable (a TypeError).
   */
  function Items(j: Json): (r: Option<seq<Json>>)
    ensures r.None? <==> (j.JNull? || j.JBool? || j.JInt? || j.JFloat?)
    ensures j.JList? ==> r == Some(j.elems)
    ensures j.JStr? ==> r.Some? && |r.value| == |j.s|
    ensures j.JStr? ==> forall k :: 0 <= k < |j.s| ==> r.value[k] == JStr([j.s[k]])
    ensures j.JDict? ==> r.Some? && |r.value| == |j.entries|
    ensures j.JDict? ==> forall k :: 0 <= k < |j.entries| ==> r.value[k] == JStr(j.entries[k].0)
  {
    match j
    case JList(xs) => Some(xs)
    case JStr(s) => Some(seq(|s|, k requires 0 <= k < |s| => JStr([s[k]])))
    case JDict(es) => Some(seq(|es|, k requires 0 <= k < |es| => JStr(es[k].0)))
    case _ => None
  }

  /**
    The value `sqlite3` binds for a Python parameter: `None` is NULL, a bool
    is the integer 0 or 1, an int outside 64 bits raises OverflowError, a
    list or a dict is not a supported parameter type (`None` here).
   */
  function Bind(j: Json): (r: Option<Value>)
    ensures r.Some? ==> Storable(r.value)
    ensures r.None? <==> (j.JList? || j.JDict? || (j.JInt? && !(MinInt64 <= j.n <= MaxInt64)))
    ensures j.JBool? ==> r == Some(Int(if j.b then 1 else 0))
    ensures j.JNull? ==> r == Some(Null)
    ensures j.JStr? ==> r == Some(Text(j.s))
    ensures j.JFloat? ==> r == Some(Real(j.repr))
    ensures j.JInt? && r.Some? ==> r.value == Int(j.n)
  {
    match j
    case JNull => Some(Null)
    case JBool(b) => Some(Int(if b then 1 else 0))
    case JInt(n) => if MinInt64 <= n <= MaxInt64 then Some(Int(n)) else None
    case JFloat(r) => Some(Real(r))
    case JStr(s) => Some(Text(s))
    case JList(_) => None
    case JDict(_) => None
  }

  /** The JSON value `json.dump` writes for a column value. */
  function ToJson(v: Value): (j: Json)
    ensures !j.JList? && !j.JDict? && !j.JBool?
  {
    match v
    case Null => JNull
    case Int(i) => JInt(i)
    case Real(r) => JFloat(r)
    case Text(s) => JStr(s)
  }

  /** Binding a dumped value gives back the stored value. */
  lemma BindToJson(v: Value)
    requires Storable(v)
    ensures Bind(ToJson(v)) == Some(v)
  {
  }
}
