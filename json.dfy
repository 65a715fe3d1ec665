/**
 * JSON values as a request body carries them. An object is a map from
 * field name to value; a field whose value is `undefined` is not written
 * by `JSON.stringify`, so it is simply absent from the map.
 *
 * The same map also stands for the update record the server hands to the
 * query builder, which may hold a JavaScript `Date` (`JDate`) besides
 * JSON values; a parsed request body never holds one.
 */
module JsonValues {
  import opened Wrappers
  import opened Schema
  import Calendar

  datatype Json =
    | JNull
    | JBool(b: bool)
    | JNumber(n: int)
    | JString(s: string)
    | JArray(items: seq<Json>)
    | JDate(t: Time)

  type Body = map<string, Json>

  /** Adds the field `name` unless its value is undefined. */
  function Put(body: Body, name: string, value: Option<Json>): Body {
    if value.Some? then body[name := value.value] else body
  }

  /** `name` is in `body` exactly when `v` is defined, and then holds it. */
  predicate Carries(body: Body, name: string, v: Option<Json>) {
    (name in body <==> v.Some?) && (v.Some? ==> body[name] == v.value)
  }

  /**
   * What `JSON.stringify` writes for a `Date`: its ISO string, or `null`
   * for a time outside the range a `Date` can hold.
   */
  function DateJson(t: Time): (r: Json)
    ensures r.JString? <==> Calendar.IsValidTime(t)
    ensures !r.JString? ==> r == JNull
  {
    if Calendar.IsValidTime(t) then JString(Calendar.IsoString(t)) else JNull
  }

  /** The string written for a `Date` reads back as that `Date`. */
  lemma DateJsonParsesBack(t: Time)
    requires Calendar.IsValidTime(t)
    ensures DateJson(t).JString? && Calendar.ParseIso(DateJson(t).s) == Some(t)
  {
    Calendar.ParseIsoString(t);
  }

  // ---------------------------------------------------------------- JavaScript truthiness

  /** `s || undefined` for a string: the empty string is falsy. */
  function Truthy(s: string): (r: Option<string>)
    ensures r.None? <==> s == ""
    ensures r.Some? ==> r.value == s
  {
    if s == "" then None else Some(s)
  }

  /** `n || undefined` for a number field holding a number or nothing: zero is falsy. */
  function NonZero(n: Option<int>): (r: Option<int>)
    ensures r.None? <==> n.None? || n.value == 0
    ensures r.Some? ==> r == n
  {
    if n.Some? && n.value != 0 then n else None
  }

  /** `b || false` for a flag that may be null: only true counts. */
  function Ticked(b: Option<bool>): (r: bool)
    ensures r <==> b == Some(true)
  {
    b.Some? && b.value
  }

  /** A string field sent only when non-empty. */
  function TextField(s: string): (r: Option<Json>)
    ensures r.None? <==> s == ""
    ensures r.Some? ==> r.value == JString(s)
  {
    if s == "" then None else Some(JString(s))
  }

  /** A number field sent only when non-zero. */
  function NumberField(n: Option<int>): (r: Option<Json>)
    ensures r.None? <==> n.None? || n.value == 0
    ensures r.Some? ==> r.value == JNumber(n.value)
  {
    if n.Some? && n.value != 0 then Some(JNumber(n.value)) else None
  }
}
