/**
 * The `protect` and `admin` gates, reduced to what the handlers see: the
 * identity resolved from the request, if any, and its administrator flag.
 */
module Auth {
  import opened Wrappers
  import opened Mongo

  /** The identity `protect` attaches to the request. */
  datatype Caller = Caller(id: Id, isAdmin: bool)

  /** The error outcomes of the handlers. */
  datatype HttpError =
    | BadRequest     // 400: a required body field is falsy
    | NotAuthorized  // 401: no identity could be resolved
    | Forbidden      // 403: the identity is not an administrator
    | NotFound       // 404: the named event or booking is not stored
    | ServerError    // 500: a schema validator rejected the document

  /** The HTTP status each error is answered with. */
  function StatusCode(e: HttpError): (code: int)
    ensures code == 400 <==> e == BadRequest
    ensures code == 401 <==> e == NotAuthorized
    ensures code == 403 <==> e == Forbidden
    ensures code == 404 <==> e == NotFound
    ensures code == 500 <==> e == ServerError
  {
    match e
    case BadRequest => 400
    case NotAuthorized => 401
    case Forbidden => 403
    case NotFound => 404
    case ServerError => 500
  }

  /** `protect`: the request goes on only with a resolved identity. */
  function Protect(caller: Option<Caller>): (r: Result<Caller, HttpError>)
    ensures r.Success? <==> caller.Some?
    ensures r.Success? ==> r.value == caller.value
    ensures r.Failure? ==> r.error == NotAuthorized
  {
    match caller
    case None => Failure(NotAuthorized)
    case Some(c) => Success(c)
  }

  /** `protect` then `admin`: the request goes on only for an administrator. */
  function Admin(caller: Option<Caller>): (r: Result<Caller, HttpError>)
    ensures r.Success? <==> caller.Some? && caller.value.isAdmin
    ensures r.Success? ==> r.value == caller.value
    ensures r.Failure? ==> r.error == (if caller.None? then NotAuthorized else Forbidden)
  {
    match Protect(caller)
    case Failure(e) => Failure(e)
    case Success(c) => if c.isAdmin then Success(c) else Failure(Forbidden)
  }
}
