/**
 * The JavaScript values the request handler reads out of parsed JSON
 * bodies: JSON values themselves, `undefined` for a property that is not
 * there, JavaScript truthiness, and the optional-chaining reads `x?.name`
 * and `x?.[0]`.
 */
module JsonValue {

  /** A value produced by `JSON.parse` (what `req.json()` and `response.json()` resolve to). */
  datatype Json =
    | JNull
    | JBool(b: bool)
    | JNumber(n: real)
    | JString(s: string)
    | JArray(elems: seq<Json>)
    | JObject(fields: map<string, Json>)

  /** A property read in JavaScript: `undefined`, or a JSON value. */
  datatype Lookup = Undefined | Defined(value: Json)

  /** The JSON values JavaScript treats as false (`-0` parses to the same value as `0`). */
  const FalsyValues: set<Json> := {JNull, JBool(false), JNumber(0.0), JString("")}

  /**
   * `Boolean(v)` for a JSON value: `null`, `false`, zero and the empty
   * string are falsy; every other value, every array and every object
   * (empty ones included) is truthy.
   */
  predicate Truthy(v: Json) {
    match v
    case JNull => false
    case JBool(b) => b
    case JNumber(n) => n != 0.0
    case JString(s) => s != ""
    case JArray(_) => true
    case JObject(_) => true
  }

  /** `Boolean(x)` for a property read: `undefined` is falsy. */
  predicate IsTruthy(x: Lookup) {
    x.Defined? && Truthy(x.value)
  }

  /**
   * Exactly the listed values are falsy among JSON values, and a property
   * read is falsy exactly when it is `undefined` or one of them.
   */
  lemma FalsyTable(v: Json, x: Lookup)
    ensures Truthy(v) <==> v !in FalsyValues
    ensures IsTruthy(x) <==> x != Undefined && x.value !in FalsyValues
  {
  }

  /**
   * `v.name` for a non-null value and a property name that no array, string,
   * number or boolean carries (neither `length` nor an index) and that is
   * not inherited from `Object.prototype` either (so not `constructor` or
   * `toString`): only an object that has the field yields a value.
   */
  function Member(v: Json, name: string): (r: Lookup)
    requires !v.JNull?
    ensures r.Defined? <==> v.JObject? && name in v.fields
    ensures r.Defined? ==> r.value == v.fields[name]
  {
    match v
    case JObject(fields) => if name in fields then Defined(fields[name]) else Undefined
    case _ => Undefined
  }

  /**
   * `x?.name` (same restriction on `name` as `Member`): short-circuits to
   * `undefined` on `null` and `undefined`, so it never throws, and yields a
   * value only for an object that has the field.
   */
  function OptMember(x: Lookup, name: string): (r: Lookup)
    ensures r.Defined? <==> x.Defined? && x.value.JObject? && name in x.value.fields
    ensures r.Defined? ==> r.value == x.value.fields[name]
  {
    if x.Undefined? || x.value.JNull? then Undefined else Member(x.value, name)
  }

  /**
   * The container element at index `0`: the first element of a non-empty
   * array, or the field `"0"` of an object.
   */
  function Element0(v: Json): (r: Lookup)
    ensures r.Defined? <==> (v.JArray? && v.elems != []) || (v.JObject? && "0" in v.fields)
    ensures r.Defined? && v.JArray? ==> r.value == v.elems[0]
    ensures r.Defined? && v.JObject? ==> r.value == v.fields["0"]
  {
    match v
    case JArray(elems) => if elems != [] then Defined(elems[0]) else Undefined
    case JObject(fields) => if "0" in fields then Defined(fields["0"]) else Undefined
    case _ => Undefined
  }

  /**
   * `x?.[0]`: short-circuits on `null` and `undefined`; otherwise element
   * `0` of an array or object, the first character of a string (as a
   * one-character string), and `undefined` for numbers and booleans.
   */
  function OptFirst(x: Lookup): (r: Lookup)
    ensures x.Defined? && x.value.JArray? && x.value.elems != [] ==> r == Defined(x.value.elems[0])
    ensures x.Defined? && x.value.JString? && x.value.s != [] ==> r == Defined(JString(x.value.s[..1]))
    ensures r.Defined? ==> x.Defined? && (x.value.JArray? || x.value.JObject? || x.value.JString?)
  {
    if x.Undefined? then Undefined
    else match x.value
      case JString(s) =>
        if s != "" then assert [s[0]] == s[..1]; Defined(JString([s[0]])) else Undefined
      case _ => Element0(x.value)
  }
}
