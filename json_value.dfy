/**
 * Decoded JSON values as the Python code sees them after `json.loads`:
 * `None`, booleans, numbers, strings, lists and dicts. A number carries
 * its value and the text Python's `str()` gives for it; a dict keeps its
 * keys in document order, each key once.
 */
module JsonValue {
  import opened Wrappers
  import Text
  import Numerals

  datatype Json =
    | JNull
    | JBool(b: bool)
    | JNum(value: real, text: string)
    | JStr(s: string)
    | JArr(elems: seq<Json>)
    | JObj(fields: seq<(string, Json)>)

  /** `d.get(key)`: the value stored under `key`, if any. */
  function Get(fields: seq<(string, Json)>, key: string): Option<Json>
    decreases |fields|
  {
    if fields == [] then None
    else if fields[0].0 == key then Some(fields[0].1)
    else Get(fields[1..], key)
  }

  /** `key in d` for a dict. */
  predicate HasKey(fields: seq<(string, Json)>, key: string) {
    Get(fields, key).Some?
  }

  /** A key is present exactly when some entry has it, and `Get` returns the first such entry's value. */
  lemma {:induction false} GetFirst(fields: seq<(string, Json)>, key: string)
    ensures HasKey(fields, key) <==> exists i :: 0 <= i < |fields| && fields[i].0 == key
    ensures HasKey(fields, key) ==>
      exists i :: 0 <= i < |fields| && fields[i] == (key, Get(fields, key).value)
        && forall j :: 0 <= j < i ==> fields[j].0 != key
    decreases |fields|
  {
    if fields != [] && fields[0].0 != key {
      GetFirst(fields[1..], key);
      if HasKey(fields, key) {
        var i :| 0 <= i < |fields[1..]| && fields[1..][i] == (key, Get(fields, key).value)
          && forall j :: 0 <= j < i ==> fields[1..][j].0 != key;
        assert fields[i + 1] == fields[1..][i];
        forall j | 0 <= j < i + 1
          ensures fields[j].0 != key
        {
          if j > 0 {
            assert fields[j] == fields[1..][j - 1];
          }
        }
      }
      if exists i :: 0 <= i < |fields| && fields[i].0 == key {
        var i :| 0 <= i < |fields| && fields[i].0 == key;
        assert fields[1..][i - 1] == fields[i];
      }
    } else if fields != [] {
      assert fields[0] == (key, Get(fields, key).value);
    }
  }

  /** `d.get(key, default)` on a JSON dict. */
  function GetOr(fields: seq<(string, Json)>, key: string, default: Json): Json {
    Get(fields, key).GetOr(default)
  }

  /** Python truthiness of a decoded value. */
  predicate Truthy(v: Json) {
    match v
    case JNull => false
    case JBool(b) => b
    case JNum(x, _) => x != 0.0
    case JStr(s) => s != []
    case JArr(e) => e != []
    case JObj(f) => f != []
  }

  /** Python's `repr()`; strings are quoted with `'` and not escaped. */
  function Repr(v: Json): (r: string)
    ensures r != []
    decreases v
  {
    match v
    case JNull => "None"
    case JBool(b) => if b then "True" else "False"
    case JNum(_, t) => if t == [] then "0" else t
    case JStr(s) => "'" + s + "'"
    case JArr(e) => "[" + Text.Join(seq(|e|, i requires 0 <= i < |e| => Repr(e[i])), ", ") + "]"
    case JObj(f) =>
      "{" + Text.Join(seq(|f|, i requires 0 <= i < |f| => "'" + f[i].0 + "': " + Repr(f[i].1)), ", ") + "}"
  }

  /** Python's `str()`: a string is itself, anything else its `repr()`. */
  function PyStr(v: Json): (r: string)
    ensures !v.JStr? ==> r != []
    ensures v.JArr? ==> r[0] == '['
    ensures v.JObj? ==> r[0] == '{'
  {
    if v.JStr? then v.s else Repr(v)
  }

  /** Python's `key in container`: `None` when the container type raises `TypeError`. */
  function PyIn(key: string, container: Json): Option<bool> {
    match container
    case JObj(f) => Some(HasKey(f, key))
    case JArr(e) => Some(JStr(key) in e)
    case JStr(s) => Some(Text.IsSubstring(key, s))
    case _ => None
  }

  /** Python's `container[key]`: `None` when it raises (missing key, or not a dict). */
  function PyIndex(container: Json, key: string): Option<Json> {
    match container
    case JObj(f) => Get(f, key)
    case _ => None
  }

  /** Python's `float(v)` on a decoded value: `None` where it raises. */
  function PyFloat(v: Json): Option<real> {
    match v
    case JNum(x, _) => Some(x)
    case JStr(s) => Numerals.ParseFloat(s)
    case JBool(b) => Some(if b then 1.0 else 0.0)
    case _ => None
  }

  /** `v.get(key, default)`: `None` when `v` is not a dict and the call raises. */
  function DictGet(v: Json, key: string, default: Json): Option<Json> {
    match v
    case JObj(f) => Some(GetOr(f, key, default))
    case _ => None
  }
}
