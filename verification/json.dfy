/** The decoded form of a persisted slice: what `JSON.parse` hands the
    normalizers, plus the two JavaScript coercions they apply to it
    (property access on "an object, else {}" and `Number(value)`). */
module Json {
  import opened Wrappers

  /** A JSON value. Numbers are finite; an object is its key/value map. */
  datatype Json =
    | JNull
    | JBool(b: bool)
    | JNum(n: real)
    | JStr(s: string)
    | JArr(items: seq<Json>)
    | JObj(fields: map<string, Json>)

  /** `value && typeof value === "object" ? value : {}`, seen through its
      named properties: an array passes the test but has none of them. */
  function Fields(v: Json): (m: map<string, Json>)
    ensures v.JObj? ==> m == v.fields
    ensures !v.JObj? ==> m == map[]
  {
    if v.JObj? then v.fields else map[]
  }

  /** `source[key]`, with `None` for `undefined`. */
  function Get(v: Json, key: string): Option<Json> {
    var m := Fields(v);
    if key in m then Some(m[key]) else None
  }

  /** `typeof x === "string" ? x : undefined`. */
  function AsString(x: Option<Json>): (r: Option<string>)
    ensures r.Some? <==> x.Some? && x.value.JStr?
    ensures r.Some? ==> x.value == JStr(r.value)
  {
    if x.Some? && x.value.JStr? then Some(x.value.s) else None
  }

  /** `typeof x === "boolean" ? x : undefined`. */
  function AsBool(x: Option<Json>): (r: Option<bool>)
    ensures r.Some? <==> x.Some? && x.value.JBool?
    ensures r.Some? ==> x.value == JBool(r.value)
  {
    if x.Some? && x.value.JBool? then Some(x.value.b) else None
  }

  /** `Array.isArray(x) ? x : undefined`. */
  function AsArray(x: Option<Json>): (r: Option<seq<Json>>)
    ensures r.Some? <==> x.Some? && x.value.JArr?
    ensures r.Some? ==> x.value == JArr(r.value)
  {
    if x.Some? && x.value.JArr? then Some(x.value.items) else None
  }

  /** `Number(x)`, with `None` for NaN and the infinities. `numStr` is the
      string-to-number conversion of the JavaScript engine, which the model
      does not define. An array converts through its string form: `[]` is
      `""` (0), a one-element array is its element's string, and two or more
      elements join with a comma, which never reads as a number. */
  function ToNumber(x: Option<Json>, numStr: string -> Option<real>): (r: Option<real>)
    ensures x.Some? && x.value.JNum? ==> r == Some(x.value.n)
    ensures x.None? ==> r.None?
    ensures x.Some? && x.value.JObj? ==> r.None?
  {
    if x.None? then None else JsonToNumber(x.value, numStr)
  }

  function JsonToNumber(v: Json, numStr: string -> Option<real>): Option<real>
    decreases v, 0
  {
    match v
    case JNull => Some(0.0)
    case JBool(b) => Some(if b then 1.0 else 0.0)
    case JNum(n) => Some(n)
    case JStr(s) => numStr(s)
    case JArr(items) =>
      if |items| == 0 then Some(0.0)
      else if |items| == 1 then ElementToNumber(items[0], numStr)
      else None
    case JObj(_) => None
  }

  /** `Number(String([e]))`: `null` prints as the empty string, a boolean
      as a word, an object as "[object Object]". */
  function ElementToNumber(e: Json, numStr: string -> Option<real>): Option<real>
    decreases e, 1
  {
    match e
    case JNull => Some(0.0)
    case JBool(_) => None
    case JNum(n) => Some(n)
    case JStr(s) => numStr(s)
    case JArr(_) => JsonToNumber(e, numStr)
    case JObj(_) => None
  }

  function Strs(xs: seq<string>): (r: seq<Json>)
    ensures |r| == |xs|
    ensures forall i :: 0 <= i < |xs| ==> r[i] == JStr(xs[i])
  {
    seq(|xs|, i requires 0 <= i < |xs| => JStr(xs[i]))
  }

  /** The string elements of an array, in order. */
  function StringsOf(items: seq<Json>): (r: seq<string>)
    ensures forall s :: s in r <==> JStr(s) in items
    ensures |r| <= |items|
  {
    if |items| == 0 then []
    else if items[0].JStr? then [items[0].s] + StringsOf(items[1..])
    else StringsOf(items[1..])
  }

  lemma {:induction false} StringsOfStrs(xs: seq<string>)
    ensures StringsOf(Strs(xs)) == xs
  {
    if |xs| > 0 {
      assert Strs(xs)[1..] == Strs(xs[1..]);
      StringsOfStrs(xs[1..]);
    }
  }
}
