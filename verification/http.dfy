/**
 * The request, the error thrown by a collaborator, and the outcome every stage
 * of the pipeline returns. Express's implicit `next()` chaining becomes an
 * explicit value: a stage either continues with an updated context, fails with
 * one HTTP error (what `next(createHttpError(status, message))` forwards), or
 * responds with a status and a JSON body.
 */
module Http {
  import opened Common

  const OK := 200
  const CREATED := 201
  const BAD_REQUEST := 400
  const UNAUTHORIZED := 401
  const FORBIDDEN := 403
  const NOT_FOUND := 404
  const INTERNAL_SERVER_ERROR := 500

  /** Document identifiers (the string form of a storage object id). */
  type Id = string

  /** An exception raised by storage or a collaborator: its `name` and (possibly absent) `message`. */
  datatype Thrown = Thrown(name: string, message: Option<string>)

  /** The authenticated identity the auth stage attaches as `req.user`. */
  datatype Principal = Principal(id: string, role: string)

  /**
   * The parts of an Express request the core reads: the `Authorization`
   * header, the string-valued fields of the JSON body, the route parameters,
   * the query string, and the principal attached by authentication.
   */
  datatype Request = Request(
    authorization: Option<string>,
    body: map<string, string>,
    params: map<string, string>,
    query: map<string, string>,
    user: Option<Principal>)

  /** A named field of a string map, absent as `None`. */
  function Field(m: map<string, string>, name: string): (r: Option<string>)
    ensures r.Some? <==> name in m
    ensures r.Some? ==> r.value == m[name]
  {
    if name in m then Some(m[name]) else None
  }

  /** What a pipeline stage produces. */
  datatype Outcome<+C, +B> =
    | Continue(ctx: C)
    | Fail(status: int, message: string)
    | Respond(status: int, body: B)
  {
    /** A handler's outcome ends the request: it never continues. */
    predicate Terminal() {
      !Continue?
    }
  }

  /** A resource handler's result: its outcome and the store it leaves behind. */
  datatype Handled<+S, +B> = Handled(outcome: Outcome<(), B>, store: S)
}
