/** How the two controllers turn a service outcome into an HTTP answer: the
    `catch` clauses of their write endpoints. */
module Replies {
  import opened Base

  /** The `catch` ladder of `CreateOrder` and `CreateProductionLog`:
      argument and invalid-operation errors are 400, a refused save is 409,
      and anything else falls through to the generic 503. */
  function CreateReply<T>(r: Result<T>): (reply: Reply<T>)
    ensures reply.Done? <==> r.Ok?
    ensures r.Ok? ==> reply == Done(r.value)
    ensures reply == BadRequest <==> r == Err(ArgumentError) || r == Err(InvalidOperation)
    ensures reply == Conflict <==> r == Err(DbUpdate)
    ensures reply != NotFound
  {
    match r
    case Ok(v) => Done(v)
    case Err(e) =>
      if e == ArgumentError || e == InvalidOperation then BadRequest
      else if e == DbUpdate then Conflict
      else Unavailable
  }

  /** The `catch` ladder of `UpdateOrder`: as for a create, except that a
      `KeyNotFoundException` is a 404. */
  function UpdateReply<T>(r: Result<T>): (reply: Reply<T>)
    ensures reply.Done? <==> r.Ok?
    ensures r.Ok? ==> reply == Done(r.value)
    ensures reply == NotFound <==> r == Err(KeyNotFound)
    ensures r != Err(KeyNotFound) ==> reply == CreateReply(r)
  {
    if r == Err(KeyNotFound) then NotFound else CreateReply(r)
  }
}
