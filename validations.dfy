/** The requisition-creation gate (src/middleware/validations.js). */
module Validations {
  import opened Schema
  import opened Http

  const NOT_VALIDATED_MSG: string := "Usuário não validado. Você não pode criar requisições."

  /** What a middleware does with a request: call `next()` or answer it itself. */
  datatype Decision = Next | Halt(response: Response)

  /** authorizeRequisitionCreation: an unvalidated user is answered 403 and the chain
      stops; every other type is passed on. */
  function AuthorizeRequisitionCreation(roles: RoleConstants, user: Claims): (d: Decision)
    ensures d.Halt? <==> user.userType == roles.naoValidado
    ensures d.Next? <==> user.userType != roles.naoValidado
    ensures d.Halt? ==> d.response == Response(FORBIDDEN, Error(NOT_VALIDATED_MSG))
  {
    if user.userType == roles.naoValidado then Halt(Response(FORBIDDEN, Error(NOT_VALIDATED_MSG)))
    else Next
  }

  /** The decision reads the user's type and nothing else of the identity. */
  lemma GateDependsOnlyOnType(roles: RoleConstants, x: Claims, y: Claims)
    requires x.userType == y.userType
    ensures AuthorizeRequisitionCreation(roles, x) == AuthorizeRequisitionCreation(roles, y)
  {
  }
}
