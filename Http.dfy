/** What an Express handler sends back: a 200 JSON body, or an error status with its message. */
module Http {

  datatype Reply<+T> =
    | Ok(body: T)                        // res.json(body), status 200
    | Fail(status: int, error: string)   // res.status(status).json({ error })

  /** Statuses the handlers of this model use. */
  const BadRequest := 400
  const Unauthorized := 401
  const Forbidden := 403
  const NotFound := 404
  const ServerError := 500
}
