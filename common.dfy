/** Result shapes shared by the server actions. */
module Common {

  /** A value that may be missing: a JavaScript `null`/`undefined`. */
  datatype Option<T> = None | Some(value: T)

  /** The object a server action returns to the page: `{ success: true, ... }`
      on success, `{ error }` (or `{ success: false, error }`) on failure. */
  datatype Response<T> = Ok(data: T) | Err(error: string)

  /** How an action that rethrows ends: it returns a value or throws an
      `Error` whose message is given. */
  datatype Completion<T> = Returned(value: T) | Threw(message: string)

  function Min(a: int, b: int): (r: int)
    ensures r <= a && r <= b && (r == a || r == b)
  {
    if a <= b then a else b
  }

  function Abs(x: int): (r: int)
    ensures r >= 0 && (r == x || r == -x)
  {
    if x < 0 then -x else x
  }
}
