/**
 * The small part of JavaScript's value semantics that the weather handler
 * leans on: values that may be `undefined`, the outcome of a settled
 * Promise, truthiness, and the `||` and `?.` operators.
 */
module Js {

  /** A value that may be `undefined`. */
  datatype Option<+T> = None | Some(value: T)

  /** How a Promise settles: resolved with a value or rejected with a reason. */
  datatype Settled<+T, +E> = Resolved(value: T) | Rejected(reason: E)

  /** A string (or `undefined`) is truthy exactly when it is a non-empty string. */
  predicate Truthy(s: Option<string>) {
    s.Some? && s.value != ""
  }

  /** `a || fallback` for a string-or-undefined `a`. */
  function OrElse(a: Option<string>, fallback: string): string {
    if Truthy(a) then a.value else fallback
  }

  /** `params?.[name]` for a query-string map that may itself be `null`. */
  function Lookup(params: Option<map<string, string>>, name: string): Option<string> {
    if params.Some? && name in params.value then Some(params.value[name]) else None
  }
}
