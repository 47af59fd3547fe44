/** Shared vocabulary of the point-of-sale model: optional request fields,
    how JavaScript's truthiness reads them, and what a route handler answers. */
module Common {

  /** A request field: `None` when the client did not send it. */
  datatype Option<+T> = None | Some(value: T)

  /** An HTTP error answer: its status code and the message of its `{error}` body. */
  datatype Error = Error(status: nat, message: string)

  /** What a route handler answers: a success payload or an HTTP error. */
  datatype Result<+T> = Ok(value: T) | Err(error: Error)

  function BadRequest(message: string): Error
  {
    Error(400, message)
  }

  function Unauthorized(message: string): Error
  {
    Error(401, message)
  }

  function NotFound(message: string): Error
  {
    Error(404, message)
  }

  /** `if (s)` on a string field: present and not the empty string. */
  predicate Given(s: Option<string>) {
    s.Some? && s.value != ""
  }

  /** `if (x)` on a numeric field: present and not zero. */
  predicate GivenNumber(x: Option<real>) {
    x.Some? && x.value != 0.0
  }

  /** `if (id)` on an integer field: present and not zero. */
  predicate GivenInt(x: Option<int>) {
    x.Some? && x.value != 0
  }

  /** `if (table)` on a table number: present and not zero. */
  predicate GivenTable(t: Option<nat>) {
    t.Some? && t.value != 0
  }

  function Min(a: real, b: real): (m: real)
    ensures m <= a && m <= b && (m == a || m == b)
  {
    if a <= b then a else b
  }
}
