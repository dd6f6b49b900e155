/** The POST /requisition and GET /allRequisition handlers (src/route/requisitionRoute.js).
    Both sit behind verifyToken, whose outcome is passed in; POST also sits behind
    the requisition-creation gate. */
module RequisitionRoute {
  import opened Seqs
  import opened Schema
  import opened Http
  import opened Validations
  import opened RequisitionServices
  import opened UserServices

  const CREATED_MSG: string := "Requisição criada com sucesso"
  const MISSING_FIELDS_MSG: string := "Todos os campos obrigatórios devem ser preenchidos"
  const CREATE_FAILED_MSG: string := "Erro ao criar requisição"

  /** What verifyToken did: decoded the identity into `req.user`, or answered the request itself. */
  datatype Authentication = Authenticated(user: Claims) | Unauthenticated(response: Response)

  /** The request body. `idUser` and `idComplex` stand for fields a client may add; the
      handler never reads them. */
  datatype RequisitionBody = RequisitionBody(
    title: Field, content: Field, location: Field, imgUrl: Field, priority: Field,
    idUser: Field, idComplex: Field)

  /** The required fields; `imgUrl` is optional. */
  predicate RequiredFieldsPresent(b: RequisitionBody) {
    Truthy(b.title) && Truthy(b.content) && Truthy(b.location) && Truthy(b.priority)
  }

  /** POST /requisition: verifyToken, then authorizeRequisitionCreation, then the handler.
      `getUserComplexId` stands for the lookup of the creator's complex; its failure
      (None) is a thrown error, answered 500. */
  method HandlePostRequisition(
    store: RequisitionStore,
    roles: RoleConstants,
    auth: Authentication,
    body: RequisitionBody,
    getUserComplexId: UserId -> Option<ComplexId>)
    returns (resp: Response)
    requires store.Valid()
    modifies store
    ensures store.Valid()
    ensures auth.Unauthenticated? ==> resp == auth.response && unchanged(store)
    ensures auth.Authenticated? && auth.user.userType == roles.naoValidado ==>
              resp == Response(FORBIDDEN, Error(NOT_VALIDATED_MSG)) && unchanged(store)
    ensures auth.Authenticated? && auth.user.userType != roles.naoValidado && !RequiredFieldsPresent(body) ==>
              resp == Response(BAD_REQUEST, Error(MISSING_FIELDS_MSG)) && unchanged(store)
    ensures auth.Authenticated? && auth.user.userType != roles.naoValidado && RequiredFieldsPresent(body) ==>
              match getUserComplexId(auth.user.id)
              case None =>
                resp == Response(INTERNAL_ERROR, Error(CREATE_FAILED_MSG)) && unchanged(store)
              case Some(idComplex) =>
                var r := NewRequisition(old(store.nextId), auth.user.id, idComplex,
                                        body.title.s, body.content.s, body.location.s, body.imgUrl, body.priority.s);
                && resp == Response(CREATED, CreatedRequisition(CREATED_MSG, r))
                && store.rows == old(store.rows) + [r]
  {
    if auth.Unauthenticated? {
      return auth.response;
    }
    var gate := AuthorizeRequisitionCreation(roles, auth.user);
    if gate.Halt? {
      return gate.response;
    }
    var idUser := auth.user.id;
    if !RequiredFieldsPresent(body) {
      return Response(BAD_REQUEST, Error(MISSING_FIELDS_MSG));
    }
    var idComplex := getUserComplexId(idUser);
    if idComplex.None? {
      return Response(INTERNAL_ERROR, Error(CREATE_FAILED_MSG));
    }
    var requisition := store.CreateRequisition(idUser, idComplex.value, body.title.s, body.content.s,
                                               body.location.s, body.imgUrl, body.priority.s);
    resp := Response(CREATED, CreatedRequisition(CREATED_MSG, requisition));
  }

  /** GET /allRequisition: 200 with the listing for the caller's id and type. */
  function HandleAllRequisition(roles: RoleConstants, auth: Authentication, rows: seq<Requisition>)
    : (resp: Response)
    ensures auth.Unauthenticated? ==> resp == auth.response
    ensures auth.Authenticated? ==>
              && resp.status == OK
              && resp.body.RequisitionList?
              && forall x :: x in resp.body.requisitions <==>
                   x in rows && (auth.user.userType == roles.morador ==> x.idUser == auth.user.id)
    ensures auth.Authenticated? && auth.user.userType == roles.morador ==>
              forall x :: multiset(resp.body.requisitions)[x] ==
                if x.idUser == auth.user.id then multiset(rows)[x] else 0
    ensures auth.Authenticated? && auth.user.userType != roles.morador ==>
              resp == Response(OK, RequisitionList(rows))
  {
    match auth
    case Unauthenticated(response) => response
    case Authenticated(user) =>
      Response(OK, RequisitionList(GetRequisitionsByUserType(roles, rows, user.id, user.userType)))
  }

  /** Where the unseen NAO_VALIDADO constant is the initial type 9, a freshly registered
      user is refused requisition creation until its type changes. */
  lemma NewUserIsGated(
    roles: RoleConstants, id: UserId, name: string, username: string, password: string,
    idComplex: ComplexId, complement: string)
    requires roles.naoValidado == INITIAL_TYPE
    ensures var u := NewUser(id, name, username, password, idComplex, complement);
            AuthorizeRequisitionCreation(roles, Claims(u.id, u.username, u.userType)).Halt?
  {
  }
}
