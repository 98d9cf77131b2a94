/** The responses the two handlers produce: a bare status with no body
    (`Response(status=...)`, or Flask's own error page for an exception that
    escapes a handler, whose text is not modelled), a JSON `{'message': ...}`
    with a status, or the JSON stock report of `/instock`. */
module Http {
  import Tables

  const OK: int := 200
  const BAD_REQUEST: int := 400
  const SERVER_ERROR: int := 500

  datatype Response =
    | Empty(code: int)
    | Message(code: int, text: string)
    | Stock(count: int, inStock: seq<Tables.Id>)
  {
    /** The HTTP status; a returned dict is served with 200. */
    function Status(): int {
      match this
      case Empty(c) => c
      case Message(c, _) => c
      case Stock(_, _) => OK
    }
  }

  /** What a handler yields: the response and the committed database after the call. */
  datatype Reply = Reply(response: Response, db: Tables.Db)
}
