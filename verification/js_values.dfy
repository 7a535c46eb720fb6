/** The few JavaScript value semantics the handlers' guards depend on. */
module JsValues {
  import opened Wrappers

  /**
   * Truthiness of an optional string taken from a request: `undefined` and `""` are falsy,
   * every other string is truthy (so `!x` holds exactly when this is false).
   */
  predicate Truthy(s: Option<string>) {
    s.Some? && s.value != ""
  }

  function LowerChar(c: char): (d: char)
    ensures 'A' <= c <= 'Z' ==> 'a' <= d <= 'z'
    ensures !('A' <= c <= 'Z') ==> d == c
  {
    if 'A' <= c <= 'Z' then (c as int - 'A' as int + 'a' as int) as char else c
  }

  /** String.prototype.toLowerCase restricted to ASCII letters. */
  function ToLower(s: string): (r: string)
    ensures |r| == |s|
    ensures forall i :: 0 <= i < |s| ==> r[i] == LowerChar(s[i])
  {
    if |s| == 0 then "" else [LowerChar(s[0])] + ToLower(s[1..])
  }

  /**
   * The setter of a schema path declared `lowercase: true`. Mongoose applies it to a value
   * stored in the path and to a value a query filter compares with the path.
   */
  function Lowercased(s: Option<string>): (r: Option<string>)
    ensures r.None? <==> s.None?
    ensures r.Some? ==> |r.value| == |s.value| && r.value == ToLower(s.value)
  {
    match s
    case None => None
    case Some(v) => Some(ToLower(v))
  }
}
