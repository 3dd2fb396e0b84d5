/**
 * JavaScript values as the pages read them: a value that may be `null` or
 * `undefined` is an `Option`, and the `||` operator picks its right operand
 * exactly when the left one is falsy. Objects and arrays are always truthy;
 * a string is falsy only when it is empty; a number only when it is zero.
 */
module JsValues {

  datatype Option<+T> = None | Some(value: T)

  /** `xs || []` for a fetched list: any present array, even `[]`, is truthy. */
  function OrEmpty<T>(xs: Option<seq<T>>): (r: seq<T>)
    ensures xs.Some? ==> r == xs.value
    ensures xs.None? ==> r == []
  {
    if xs.Some? then xs.value else []
  }

  /** The truthiness of a string that may be missing: `s || ""` is non-empty exactly when `s` is truthy. */
  predicate TruthyText(s: Option<string>)
    ensures TruthyText(s) <==> OrEmptyText(s) != ""
  {
    s.Some? && s.value != ""
  }

  /** `s || ""` for a string that may be missing. */
  function OrEmptyText(s: Option<string>): (r: string)
    ensures s.Some? ==> r == s.value
    ensures s.None? ==> r == ""
  {
    if s.Some? then s.value else ""
  }

  /** `n || 0` for a number that may be missing. */
  function OrZero(n: Option<int>): (r: int)
    ensures r == 0 <==> n.None? || n.value == 0
    ensures r != 0 ==> n == Some(r)
  {
    if n.Some? && n.value != 0 then n.value else 0
  }
}
