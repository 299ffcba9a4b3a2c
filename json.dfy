/**
 * JSON values as Python's `json` module loads them, and the Python
 * operations the merger and the web layer apply to them: truthiness,
 * `dict.get`, `a or b`, `int(x)` and `str(x)`.
 */
module Json {
  import opened Wrappers
  import opened Text

  datatype Json =
    | JNull
    | JBool(b: bool)
    | JInt(i: int)
    | JNum(r: real)   // a number written with a fraction or exponent: a Python float
    | JStr(s: string)
    | JList(items: seq<Json>)
    | JObject(fields: map<string, Json>)

  /** A JSON object as a Python dict. */
  type Dict = map<string, Json>

  /** Python truthiness. */
  predicate Truthy(j: Json) {
    match j
    case JNull => false
    case JBool(b) => b
    case JInt(i) => i != 0
    case JNum(r) => r != 0.0
    case JStr(s) => |s| > 0
    case JList(items) => |items| > 0
    case JObject(fields) => |fields| > 0
  }

  /** `d.get(key, default)`. */
  function GetOr(d: Dict, key: string, default: Json): Json {
    if key in d then d[key] else default
  }

  /** `d.get(key)`: None when the key is absent. */
  function Get(d: Dict, key: string): Json {
    GetOr(d, key, JNull)
  }

  /** Python's `a or b`: the first operand when it is truthy, else the second. */
  function PyOr(a: Json, b: Json): (r: Json)
    ensures Truthy(r) <==> Truthy(a) || Truthy(b)
    ensures Truthy(a) ==> r == a
  {
    if Truthy(a) then a else b
  }

  /** `int(x)` on a float: truncation toward zero. */
  function Truncate(x: real): (r: int)
    ensures 0.0 <= x ==> r as real <= x < r as real + 1.0
    ensures x < 0.0 ==> r as real - 1.0 < x <= r as real
  {
    if x >= 0.0 then x.Floor else -((-x).Floor)
  }

  /** Python's `int(x)`; None where it raises ValueError or TypeError. */
  function ToInt(j: Json): (r: Option<int>)
    ensures j.JInt? ==> r == Some(j.i)
    ensures j.JBool? ==> r == Some(if j.b then 1 else 0)
    ensures j.JNum? ==> r.Some? && (0.0 <= j.r ==> r.value as real <= j.r < r.value as real + 1.0)
                                && (j.r < 0.0 ==> r.value as real - 1.0 < j.r <= r.value as real)
    ensures j.JStr? ==> r == ParseInt(j.s)
    ensures j.JNull? || j.JList? || j.JObject? ==> r.None?
  {
    match j
    case JBool(b) => Some(if b then 1 else 0)
    case JInt(i) => Some(i)
    case JNum(x) => Some(Truncate(x))
    case JStr(s) => ParseInt(s)
    case _ => None
  }


  /** Python's `str(x)` (and `f"{x}"`).  The text of a float, list or dict
      (Python's shortest round-trip float formatting and `repr` of
      containers) is not computed here: `reprOf` supplies it. */
  function StrOf(j: Json, reprOf: Json -> string): (r: string)
    ensures j.JStr? ==> r == j.s
    ensures j.JInt? ==> r == IntToString(j.i)
    ensures j.JNull? ==> r == "None"
    ensures j.JBool? ==> r == (if j.b then "True" else "False")
    ensures j.JNum? || j.JList? || j.JObject? ==> r == reprOf(j)
  {
    match j
    case JNull => "None"
    case JBool(b) => if b then "True" else "False"
    case JInt(i) => IntToString(i)
    case JStr(s) => s
    case _ => reprOf(j)
  }

  /** `int(str(x)) == int(x)` for an integer or a string. */
  lemma ToIntOfStrOf(j: Json, reprOf: Json -> string)
    requires j.JInt? || j.JStr?
    ensures ToInt(JStr(StrOf(j, reprOf))) == ToInt(j)
  {
    if j.JInt? {
      IntToStringRoundTrip(j.i);
    }
  }

  /** The text of a value the source treats as a string (empty otherwise). */
  function TextOf(j: Json): string {
    if j.JStr? then j.s else ""
  }
}
