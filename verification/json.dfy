/** Decoded JSON payloads as the provider parsers see them, and the few
    Python operations the parsers apply to them.  Each operation fails
    exactly where the Python one raises on a value of the wrong shape.
    Numbers are integers; JSON fractions do not occur in the fields read.
 */
module Json {
  import opened Wrappers
  import Text

  datatype Json =
    | JNull
    | JBool(b: bool)
    | JNum(n: int)
    | JStr(s: string)
    | JArr(items: seq<Json>)
    | JObj(fields: map<string, Json>)

  /** Python truthiness of a decoded value (`if x:`). */
  predicate Truthy(j: Json) {
    match j
    case JNull => false
    case JBool(b) => b
    case JNum(n) => n != 0
    case JStr(s) => |s| > 0
    case JArr(xs) => |xs| > 0
    case JObj(m) => |m| > 0
  }

  /** `j.get(key, default)`: only a dict has `.get`. */
  function Get(j: Json, key: string, default: Json): (r: Result<Json>)
    ensures r.Err? <==> !j.JObj?
    ensures r.Err? ==> r.error == AttributeError
  {
    match j
    case JObj(m) => if key in m then Ok(m[key]) else Ok(default)
    case _ => Err(AttributeError)
  }

  /** The members of a value that is about to be asked for `.get`. */
  function AsObject(j: Json): (r: Result<map<string, Json>>)
    ensures r.Ok? <==> j.JObj?
    ensures r.Ok? ==> r.value == j.fields
    ensures r.Err? ==> r.error == AttributeError
  {
    if j.JObj? then Ok(j.fields) else Err(AttributeError)
  }

  /** `m.get(key, default)` on a value already known to be an object. */
  function Field(m: map<string, Json>, key: string, default: Json): Json {
    if key in m then m[key] else default
  }

  /** `key in j`: a key of a dict, an element of a list, a substring of a
      string; anything else is not iterable. */
  function HasMember(j: Json, key: string): Result<bool> {
    match j
    case JObj(m) => Ok(key in m)
    case JArr(xs) => Ok(JStr(key) in xs)
    case JStr(s) => Ok(Text.Contains(s, key))
    case _ => Err(TypeError)
  }

  /** `j[0]`. */
  function First(j: Json): Result<Json> {
    match j
    case JArr(xs) => if |xs| > 0 then Ok(xs[0]) else Err(IndexError)
    case JStr(s) => if |s| > 0 then Ok(JStr([s[0]])) else Err(IndexError)
    case JObj(_) => Err(KeyError)
    case _ => Err(TypeError)
  }

  /** Iterating `j` where every element is then asked for `.get`: a list
      gives its elements; an empty string or dict gives nothing; a
      non-empty string or dict gives strings, which have no `.get`; other
      values are not iterable. */
  function Records(j: Json): Result<seq<Json>> {
    match j
    case JArr(xs) => Ok(xs)
    case JStr(s) => if |s| == 0 then Ok([]) else Err(AttributeError)
    case JObj(m) => if |m| == 0 then Ok([]) else Err(AttributeError)
    case _ => Err(TypeError)
  }

  // ---------------------------------------------------------------------
  // pydantic field validation of decoded values

  /** A `str` field. */
  function AsStr(j: Json): Result<string> {
    if j.JStr? then Ok(j.s) else Err(ValidationError)
  }

  /** A `str | None` field. */
  function AsOptStr(j: Json): Result<Option<string>> {
    match j
    case JNull => Ok(None)
    case JStr(s) => Ok(Some(s))
    case _ => Err(ValidationError)
  }

  predicate AllStr(xs: seq<Json>) { forall i :: 0 <= i < |xs| ==> xs[i].JStr? }

  function StrValues(xs: seq<Json>): (r: seq<string>)
    requires AllStr(xs)
    ensures |r| == |xs| && forall i :: 0 <= i < |xs| ==> r[i] == xs[i].s
  {
    if |xs| == 0 then [] else [xs[0].s] + StrValues(xs[1..])
  }

  /** A `list[str]` field. */
  function AsStrList(j: Json): Result<seq<string>> {
    if j.JArr? && AllStr(j.items) then Ok(StrValues(j.items)) else Err(ValidationError)
  }

  /** `str(j)` for the scalar values; containers are rendered by a fixed
      placeholder rather than by Python's `repr`. */
  function PyStr(j: Json): string {
    match j
    case JNull => "None"
    case JBool(b) => if b then "True" else "False"
    case JNum(n) => Text.IntToString(n)
    case JStr(s) => s
    case JArr(_) => "[...]"
    case JObj(_) => "{...}"
  }

  /** One single-key object per string: `[{key: x} for x in xs]`. */
  function KeyedObjects(key: string, xs: seq<string>): (r: seq<Json>)
    ensures |r| == |xs|
    ensures forall k :: 0 <= k < |xs| ==> r[k] == JObj(map[key := JStr(xs[k])])
  {
    if |xs| == 0 then [] else [JObj(map[key := JStr(xs[0])])] + KeyedObjects(key, xs[1..])
  }
}
