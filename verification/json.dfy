/**
  A JSON value tree with the JavaScript semantics the configuration code
  relies on: truthiness, property reads that throw on `undefined`/`null`,
  and loose equality with the empty string. A property that is `undefined`
  is an absent key; an `Option<Json>` is a value that may be `undefined`.
 */
module Json {
  import opened Wrappers

  datatype Json =
    | JNull
    | JBool(b: bool)
    | JNum(n: int)
    | JStr(s: string)
    | JArr(a: seq<Json>)
    | JObj(m: map<string, Json>)

  /** The only error the modelled code can raise: reading a property of `undefined` or `null`. */
  datatype JsError = TypeError

  /** JavaScript truthiness; `undefined` is falsy. */
  predicate Truthy(v: Option<Json>) {
    match v
    case None => false
    case Some(JNull) => false
    case Some(JBool(b)) => b
    case Some(JNum(n)) => n != 0
    case Some(JStr(s)) => s != ""
    case Some(JArr(_)) => true
    case Some(JObj(_)) => true
  }

  /** `undefined` or `null`: the values whose properties cannot be read. */
  predicate Nullish(v: Option<Json>) {
    v.None? || v == Some(JNull)
  }

  /** `m[key]` on an object's own keys. */
  function Field(m: map<string, Json>, key: string): (r: Option<Json>)
    ensures r.Some? <==> key in m
    ensures r.Some? ==> r.value == m[key]
  {
    if key in m then Some(m[key]) else None
  }

  /** `v.key` for a value that is not nullish: only objects have the keys the code reads. */
  function Get(v: Json, key: string): (r: Option<Json>)
    ensures r.Some? ==> v.JObj? && key in v.m && r.value == v.m[key]
    ensures v.JObj? ==> r == Field(v.m, key)
  {
    match v
    case JObj(m) => Field(m, key)
    case _ => None
  }

  /** `v.key` for a value that may be nullish: a `TypeError` when it is. */
  function Prop(v: Option<Json>, key: string): (r: Result<Option<Json>, JsError>)
    ensures r.Failure? <==> Nullish(v)
    ensures r.Success? ==> r.value == Get(v.value, key)
  {
    if Nullish(v) then Failure(TypeError) else Success(Get(v.value, key))
  }

  /** An object literal entry `key: v`; an `undefined` value leaves the key out. */
  function With(m: map<string, Json>, key: string, v: Option<Json>): (r: map<string, Json>)
    ensures v.Some? ==> r == m[key := v.value]
    ensures v.None? ==> r == m
  {
    if v.Some? then m[key := v.value] else m
  }

  /** The string `Array.prototype.join` writes for an element is empty. */
  predicate PrintsEmpty(v: Json) {
    match v
    case JNull => true
    case JStr(s) => s == ""
    case JArr(a) => |a| == 0 || (|a| == 1 && PrintsEmpty(a[0]))
    case _ => false
  }

  /**
    `v == ''` with JavaScript's loose equality: `false`, `0`, `''` and arrays
    that print as the empty string compare equal; `null` and objects do not.
   */
  predicate LooseEqualsEmpty(v: Json) {
    match v
    case JNull => false
    case JBool(b) => !b
    case JNum(n) => n == 0
    case JStr(s) => s == ""
    case JArr(_) => PrintsEmpty(v)
    case JObj(_) => false
  }
}
