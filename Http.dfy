/** The HTTP exchange with the Glide API, reduced to an oracle: every request
    the client sends receives the response the oracle gives for it. */
module Http {
  import opened Json
  import opened Errors

  /** One entry of the `GET tables` listing. */
  datatype TableRef = TableRef(name: string, id: string)

  datatype Request =
    | Get(url: string)
    | Put(url: string, body: Json)
    | Post(url: string, body: Json)

  /** `tables` is the "data" field of a `GET tables` body, None when the body
      has no such field; other responses leave it unused. */
  datatype Response = Response(status: int, text: string, tables: Option<seq<TableRef>>)

  /** "Content Too Large", section 15.5.14 of RFC 9110. */
  const ContentTooLarge: int := 413

  /** `raise_for_status` raises exactly for client (4xx) and server (5xx) errors. */
  predicate IsHttpError(status: int) {
    400 <= status < 600
  }

  /** The remote service, as seen by the client. */
  type Server = Request -> Response
}
