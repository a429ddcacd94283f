/** What a handler sends back: a status code and a JSON body. */
module Http {

  import opened Json

  datatype Response = Response(status: int, body: Json)

  /** `res.status(code).json({ error: message })`. */
  function Error(code: int, message: string): (r: Response)
    ensures r.status == code
    ensures Get(r.body, "error") == Some(JStr(message)) && Keys(r.body.fields) == ["error"]
  {
    Response(code, JObj([("error", JStr(message))]))
  }

  /** `res.json(body)`: Express's default status is 200. */
  function Ok(body: Json): Response
  {
    Response(200, body)
  }
}
