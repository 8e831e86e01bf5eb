/** The part of an HTTP exchange the handlers decide: a status code and a body. */
module Http {
  import opened Json

  datatype Body =
    | JsonBody(json: Value)   // res.json(...)
    | TextBody(text: string)  // res.send('...')
    | NoBody                  // res.send() with no content

  datatype Response = Response(status: int, body: Body)

  /** `res.json(v)` without an explicit status. */
  function Ok(v: Value): Response {
    Response(200, JsonBody(v))
  }
}
