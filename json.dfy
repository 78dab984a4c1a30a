/**
 * A decoded JSON document, as `json.load` hands it to the three programs,
 * together with the few Python operations they apply to it: truthiness,
 * `dict.get`, `str()` (inside f-strings) and `int()`.
 */
module Json {
  import opened Basics
  import Decimal

  /**
   * Objects keep their members in document order, as Python dicts do.
   * Numbers are the integral JSON numbers (Python ints).
   */
  datatype Json =
    | JNull
    | JBool(b: bool)
    | JNum(n: int)
    | JStr(s: string)
    | JArr(elems: seq<Json>)
    | JObj(fields: seq<(string, Json)>)

  /** `bool(v)` in Python for the decoded value v. */
  predicate Truthy(j: Json) {
    match j
    case JNull => false
    case JBool(b) => b
    case JNum(n) => n != 0
    case JStr(s) => s != ""
    case JArr(xs) => xs != []
    case JObj(fs) => fs != []
  }

  /** The value bound to `key` in an object's members, if any. */
  function Lookup(fields: seq<(string, Json)>, key: string): (r: Option<Json>)
    ensures r.None? <==> forall i :: 0 <= i < |fields| ==> fields[i].0 != key
    ensures r.Some? ==> exists i :: 0 <= i < |fields| && fields[i] == (key, r.value)
  {
    if fields == [] then None
    else if fields[0].0 == key then Some(fields[0].1)
    else Lookup(fields[1..], key)
  }

  /** `d.get(key, default)` on a dict d with members `fields`. */
  function GetOr(fields: seq<(string, Json)>, key: string, default: Json): (r: Json)
    ensures Lookup(fields, key).None? ==> r == default
    ensures Lookup(fields, key).Some? ==> r == Lookup(fields, key).value
  {
    match Lookup(fields, key)
    case Some(v) => v
    case None => default
  }

  /** `", ".join(parts)` and friends. */
  function Join(sep: string, parts: seq<string>): (s: string) {
    if parts == [] then ""
    else if |parts| == 1 then parts[0]
    else parts[0] + sep + Join(sep, parts[1..])
  }

  /** `repr(s)` for a string, without Python's escaping and quote choice. */
  function QuoteString(s: string): (q: string) {
    "'" + s + "'"
  }

  /** `repr(v)`: what `str()` shows for v when v sits inside a list or dict. */
  function PyRepr(j: Json): (s: string)
    decreases j, 1
  {
    match j
    case JStr(s) => QuoteString(s)
    case _ => PyStr(j)
  }

  /** `str(v)`, which is what `f"{v}"` inserts. */
  function PyStr(j: Json): (s: string)
    decreases j, 0
  {
    match j
    case JNull => "None"
    case JBool(b) => if b then "True" else "False"
    case JNum(n) => Decimal.IntToString(n)
    case JStr(s) => s
    case JArr(xs) =>
      "[" + Join(", ", seq(|xs|, i requires 0 <= i < |xs| => PyRepr(xs[i]))) + "]"
    case JObj(fs) =>
      "{" + Join(", ", seq(|fs|, i requires 0 <= i < |fs| =>
        QuoteString(fs[i].0) + ": " + PyRepr(fs[i].1))) + "}"
  }

  /** `int(v)`; None where Python raises ValueError or TypeError. */
  function PyInt(j: Json): (r: Option<int>)
    ensures j.JNum? ==> r == Some(j.n)
    ensures j.JNull? || j.JArr? || j.JObj? ==> r.None?
  {
    match j
    case JBool(b) => Some(if b then 1 else 0)
    case JNum(n) => Some(n)
    case JStr(s) => Decimal.ParseInt(s)
    case _ => None
  }

  /** An example: `int("30") == 30`, the display's default duration. */
  lemma PyIntOfDefaultDuration()
    ensures PyInt(JStr("30")) == Some(30)
  {
    Decimal.IntToStringRoundTrip(30);
    assert Decimal.NatToString(30) == "30";
  }

  /**
   * `int(str(n)) == n` for a JSON number: `json.load` only yields integers
   * within the digit limit, and for those the round trip holds.
   */
  lemma PyIntOfPyStr(n: int)
    ensures Decimal.WithinDigitLimit(n) ==> PyInt(JStr(PyStr(JNum(n)))) == Some(n)
    ensures !Decimal.WithinDigitLimit(n) ==> PyInt(JStr(PyStr(JNum(n)))).None?
  {
    Decimal.IntToStringRoundTrip(n);
  }
}
