/** The outcome of a request handler: the status it answers with and the JSON
    body, or the fixed message of an error answer. */
module Http {
  import opened Schema

  datatype Response<T> =
    | Ok(body: T)                   // 200
    | Created(body: T)              // 201
    | BadRequest(message: string)   // 400
    | Unauthorized(message: string) // 401
    | NotFound(message: string)     // 404

  /** The `{ message: ... }` body of a successful delete or revoke. */
  datatype Message = Message(text: string)

  /** A query-string parameter is used only when it is present and not
      empty (`if (studentId)` in the handlers). */
  predicate Truthy(q: Option<string>)
  {
    q.Some? && q.value != ""
  }
}
