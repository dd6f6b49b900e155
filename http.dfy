/** What a route handler sends back: a status code and a JSON body. */
module Http {
  import opened Schema

  const OK: int := 200
  const CREATED: int := 201
  const BAD_REQUEST: int := 400
  const UNAUTHORIZED: int := 401
  const FORBIDDEN: int := 403
  const NOT_FOUND: int := 404
  const INTERNAL_ERROR: int := 500

  datatype Payload =
    | Error(error: string)
    | TokenPair(accessToken: Token, refreshToken: Token)
    | LoginToken(token: Token)
    | CreatedUser(user: User)
    | CreatedRequisition(message: string, requisition: Requisition)
    | RequisitionList(requisitions: seq<Requisition>)

  datatype Response = Response(status: int, body: Payload)
}
