/** Shared vocabulary of the model: optional request values, handler
    results, and the JavaScript truthiness rules the controllers rely on
    (`if (!x)`, `x || fallback`). */
module Common {

  /** A value that a request body may or may not carry. */
  datatype Option<+T> = None | Some(value: T)

  /** The status codes a handler can answer with besides success:
      400 for validation and duplicate keys, 404 for a missing row, and
      500 for anything the `catch` block turns into "Server error". */
  datatype ErrorCode = BadRequest | NotFound | ServerError

  /** The outcome of a handler: the success value, or an error code.
      A failing handler produces no store, so the store it was given is
      the store that remains. */
  datatype Result<+T> = Ok(value: T) | Err(code: ErrorCode)

  /** JavaScript truthiness of an optional string: absent and "" are falsy. */
  predicate Truthy(o: Option<string>) {
    o.Some? && o.value != ""
  }

  /** JavaScript truthiness of an optional number: absent and 0 are falsy. */
  predicate TruthyInt(o: Option<int>) {
    o.Some? && o.value != 0
  }

  /** `o || fallback` on strings. */
  function OrStr(o: Option<string>, fallback: string): string {
    if Truthy(o) then o.value else fallback
  }

  /** `o || fallback` on numbers. */
  function OrInt(o: Option<int>, fallback: int): int {
    if TruthyInt(o) then o.value else fallback
  }

  /** A present enum value is always truthy, so `o || fallback` and
      "absent keeps the old value" coincide for enums. */
  function OrElse<T>(o: Option<T>, fallback: T): T {
    if o.Some? then o.value else fallback
  }
}
