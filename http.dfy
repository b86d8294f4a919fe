/**
 * The slice of Express the core touches: a handler ends by sending a status
 * code and a JSON body, and a middleware either passes the request on or
 * answers it itself.
 */
module Http {
  /** A sent reply; `res.json(...)` without `res.status(...)` sends 200. */
  datatype Response<B> = Response(status: int, body: B)

  /** What a middleware does with a request: call `next()`, or answer it. */
  datatype Gate<B> = Next | Answer(response: Response<B>)
}
