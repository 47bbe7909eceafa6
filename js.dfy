/** JavaScript values as the handlers and provider clients see them after
    `JSON.parse`: the JSON data model, `undefined` as `None`, truthiness,
    property access and `String(v)`. */
module Js {
  import opened JsText

  datatype Option<+T> = None | Some(value: T)

  /** A computation that returns a value or throws an `Error` with a message. */
  datatype Outcome<+T> = Ok(value: T) | Throw(message: string)

  /** The outcomes of `Array.prototype.map`'s calls, in order, as one outcome: the
      first throw ends the map, otherwise every value is kept in order. */
  function Collect<T>(outs: seq<Outcome<T>>): (r: Outcome<seq<T>>)
    ensures r.Throw? <==> exists k :: 0 <= k < |outs| && outs[k].Throw?
    ensures r.Ok? ==> |r.value| == |outs| && forall k :: 0 <= k < |outs| ==> outs[k] == Ok(r.value[k])
  {
    if outs == [] then Ok([])
    else
      match outs[0]
      case Throw(m) => Throw(m)
      case Ok(v) =>
        var rest := Collect(outs[1..]);
        assert forall k :: 1 <= k < |outs| ==> outs[k] == outs[1..][k - 1];
        match rest
        case Throw(m) => Throw(m)
        case Ok(vs) => Ok([v] + vs)
  }

  /** Outcomes that are all values collect to those values. */
  lemma {:induction false} CollectAllOk<T>(outs: seq<Outcome<T>>, vs: seq<T>)
    requires |outs| == |vs| && forall k :: 0 <= k < |vs| ==> outs[k] == Ok(vs[k])
    ensures Collect(outs) == Ok(vs)
    decreases |vs|
  {
    if vs != [] {
      CollectAllOk(outs[1..], vs[1..]);
      assert [vs[0]] + vs[1..] == vs;
    }
  }

  /** A value produced by `JSON.parse`. Numbers are integers in this model. */
  datatype Json =
    | JNull
    | JBool(b: bool)
    | JNum(n: int)
    | JStr(s: string)
    | JArr(items: seq<Json>)
    | JObj(fields: map<string, Json>)

  /** How a `fetch` to a provider ended: aborted by the 30-second timer, rejected
      with an error message, or answered with a status, a status text, the body
      text and the result of reading the body as JSON. */
  datatype FetchResult =
    | Aborted
    | Failed(message: string)
    | Reply(status: int, statusText: string, bodyText: string, json: Outcome<Json>)

  /** `response.ok`. */
  predicate IsOk(status: int) {
    200 <= status <= 299
  }

  /** The message of the `AbortError` a `fetch` rejects with when its signal fires. */
  const ABORT_MESSAGE: string := "This operation was aborted"

  /** The message of the `TypeError` the engine throws when a property of
      `null`/`undefined` is read or a non-function is called. Its exact wording
      belongs to the engine; none of the substrings the handlers test for occurs in it. */
  const TYPE_ERROR: string := "TypeError"

  /** JavaScript truthiness. */
  predicate Truthy(v: Json) {
    match v
    case JNull => false
    case JBool(b) => b
    case JNum(n) => n != 0
    case JStr(s) => s != []
    case JArr(_) => true
    case JObj(_) => true
  }

  /** Truthiness of a value that may be `undefined`. */
  predicate Defined(v: Option<Json>) {
    v.Some? && Truthy(v.value)
  }

  /** `a || b`. */
  function Or(a: Option<Json>, b: Option<Json>): (r: Option<Json>)
    ensures Defined(a) ==> r == a
    ensures !Defined(a) ==> r == b
  {
    if Defined(a) then a else b
  }

  /** `v || d` for a string default `d`. */
  function OrText(v: Option<Json>, d: string): (r: Json)
    ensures Defined(v) ==> r == v.value
    ensures !Defined(v) ==> r == JStr(d)
  {
    if Defined(v) then v.value else JStr(d)
  }

  /** `v.key` on a value that is neither `null` nor `undefined`: only objects
      carry the keys the handlers read. */
  function Get(v: Json, key: string): Option<Json> {
    match v
    case JObj(m) => if key in m then Some(m[key]) else None
    case _ => None
  }

  /** `v.key` on any value: throws on `null` and `undefined`. */
  function Member(v: Option<Json>, key: string): (r: Outcome<Option<Json>>)
    ensures r.Throw? <==> v.None? || v == Some(JNull)
  {
    match v
    case None => Throw(TYPE_ERROR)
    case Some(JNull) => Throw(TYPE_ERROR)
    case Some(x) => Ok(Get(x, key))
  }

  /** `v?.key`: optional chaining yields `undefined` on `null` and `undefined`. */
  function OptGet(v: Option<Json>, key: string): Option<Json> {
    match v
    case None => None
    case Some(JNull) => None
    case Some(x) => Get(x, key)
  }

  /** `v[0]` on a value that is neither `null` nor `undefined`. */
  function Index0(v: Json): Option<Json> {
    match v
    case JArr(xs) => if xs != [] then Some(xs[0]) else None
    case JObj(m) => if "0" in m then Some(m["0"]) else None
    case JStr(s) => if s != [] then Some(JStr([s[0]])) else None
    case _ => None
  }

  /** `v?.[0]`. */
  function OptIndex0(v: Option<Json>): Option<Json> {
    match v
    case None => None
    case Some(JNull) => None
    case Some(x) => Index0(x)
  }

  /** `String(v)`; arrays join their elements with `,`, writing `null` as nothing. */
  function ToJsString(v: Json): string
    decreases v
  {
    match v
    case JNull => "null"
    case JBool(b) => if b then "true" else "false"
    case JNum(n) => IntToString(n)
    case JStr(s) => s
    case JArr(xs) =>
      Join(seq(|xs|, i requires 0 <= i < |xs| => if xs[i] == JNull then "" else ToJsString(xs[i])), ",")
    case JObj(_) => "[object Object]"
  }

  /** `${v}` in a template literal, where `undefined` prints as `undefined`. */
  function Interpolate(v: Option<Json>): string {
    match v
    case None => "undefined"
    case Some(x) => ToJsString(x)
  }
}
