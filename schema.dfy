/** The rows of the four tables the backend keeps (user, complex, requisition,
    token), the identity a verified token carries, and the shape of a JSON
    request field. */
module Schema {
  import opened Seqs

  type UserId = int
  type ComplexId = int

  /** A user's `type` column. The named values live in two constants modules that
      are not part of this model (NAO_VALIDADO in one, MORADOR in another); each
      decision that depends on one takes it from its own RoleConstants argument. */
  type Role = int

  datatype RoleConstants = RoleConstants(morador: Role, naoValidado: Role)

  /** A signed token as the client sees it. Its encoding and signature are not modelled. */
  type Token = string

  /** The payload every token of the system carries: `{ id, username, type }`. */
  datatype Claims = Claims(id: UserId, username: string, userType: Role)

  /** `jwt.sign(claims, secret, { expiresIn })`: the claims, the issued-at time in
      whole seconds, and the lifetime in seconds determine the token. */
  type Signer = (Claims, int, int) -> Token

  /** A value read out of a JSON request body. Only absent and string values are modelled. */
  datatype Field = Missing | Str(s: string)

  /** JavaScript truthiness of a body field: absent and "" are falsy. */
  predicate Truthy(f: Field) {
    f.Str? && f.s != ""
  }

  datatype TokenRow = TokenRow(idUser: UserId, accessToken: Token, refreshToken: Token, expiresAt: int)

  datatype User = User(
    id: UserId,
    name: string,
    username: string,
    password: string,
    idComplex: ComplexId,
    userType: Role,
    status: bool,
    complement: string)

  datatype Complex = Complex(id: ComplexId, name: string)

  /** The requisition states. Only PENDING is set by the code modelled here. */
  datatype RequisitionState = Pending | OtherState(code: int)

  datatype Requisition = Requisition(
    id: int,
    idUser: UserId,
    idComplex: ComplexId,
    title: string,
    content: string,
    location: string,
    imgUrl: Option<string>,
    status: RequisitionState,
    priority: string)
}
