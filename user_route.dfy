/** The POST /register and POST /login handlers (src/route/userRoute.js). */
module UserRoute {
  import opened Seqs
  import opened Schema
  import opened Http
  import opened ComplexServices
  import opened UserServices
  import TokenHandler

  /** The `expiresIn` of the login token, "1h", in seconds. */
  const LOGIN_EXPIRES_IN: int := 60 * 60

  const REGISTER_MISSING_MSG: string := "Todos os campos são obrigatórios"
  const COMPLEX_NOT_FOUND_MSG: string := "Complexo não encontrado"
  const REGISTER_FAILED_MSG: string := "Erro ao criar usuário"
  const LOGIN_MISSING_MSG: string := "Usuário e senha são obrigatórios"
  const INVALID_CREDENTIALS_MSG: string := "Credenciais inválidas"

  datatype RegisterBody = RegisterBody(name: Field, username: Field, password: Field, complexName: Field, complement: Field)

  datatype LoginBody = LoginBody(username: Field, password: Field)

  predicate RegisterFieldsPresent(b: RegisterBody) {
    Truthy(b.name) && Truthy(b.username) && Truthy(b.password) && Truthy(b.complexName) && Truthy(b.complement)
  }

  /** POST /register. `encryptPassword` stands for the bcrypt hash. The errors modelled as
      thrown are the complex lookup failing and the insert failing on a taken username;
      both yield 500 and write nothing. */
  method HandleRegister(
    store: UserStore,
    complexes: seq<Complex>,
    body: RegisterBody,
    encryptPassword: string -> string)
    returns (resp: Response)
    requires store.Valid()
    modifies store
    ensures store.Valid()
    ensures !RegisterFieldsPresent(body) ==>
              resp == Response(BAD_REQUEST, Error(REGISTER_MISSING_MSG)) && unchanged(store)
    ensures RegisterFieldsPresent(body) && GetComplexByName(complexes, body.complexName.s).NoComplex? ==>
              resp == Response(NOT_FOUND, Error(COMPLEX_NOT_FOUND_MSG)) && unchanged(store)
    ensures RegisterFieldsPresent(body) && GetComplexByName(complexes, body.complexName.s).LookupFailed? ==>
              resp == Response(INTERNAL_ERROR, Error(REGISTER_FAILED_MSG)) && unchanged(store)
    ensures RegisterFieldsPresent(body) && GetComplexByName(complexes, body.complexName.s).FoundComplex? ==>
              var complex := GetComplexByName(complexes, body.complexName.s).complex;
              var u := NewUser(old(store.nextId), body.name.s, body.username.s, encryptPassword(body.password.s),
                               complex.id, body.complement.s);
              if UsernameTaken(old(store.users), body.username.s) then
                resp == Response(INTERNAL_ERROR, Error(REGISTER_FAILED_MSG)) && unchanged(store)
              else
                resp == Response(CREATED, CreatedUser(u)) && store.users == old(store.users) + [u]
  {
    if !RegisterFieldsPresent(body) {
      return Response(BAD_REQUEST, Error(REGISTER_MISSING_MSG));
    }
    var complex := GetComplexByName(complexes, body.complexName.s);
    if complex.NoComplex? {
      return Response(NOT_FOUND, Error(COMPLEX_NOT_FOUND_MSG));
    }
    if complex.LookupFailed? {
      return Response(INTERNAL_ERROR, Error(REGISTER_FAILED_MSG));
    }
    var encryptedPassword := encryptPassword(body.password.s);
    var newUser := store.CreateNewUser(body.name.s, body.username.s, encryptedPassword,
                                       complex.complex.id, body.complement.s);
    if newUser.None? {
      return Response(INTERNAL_ERROR, Error(REGISTER_FAILED_MSG));
    }
    resp := Response(CREATED, CreatedUser(newUser.value));
  }

  /** `prisma.user.findUnique({ where: { username } })`. */
  function FindUserByUsername(users: seq<User>, username: string): Option<User> {
    FindFirst(users, (x: User) => x.username == username)
  }

  /** The claims the login token carries. */
  function LoginClaims(u: User): Claims {
    Claims(u.id, u.username, u.userType)
  }

  /** The user `username` names holds a password the oracle accepts. */
  predicate CredentialsMatch(users: seq<User>, username: string, password: string, checkPassword: (string, string) -> bool) {
    exists i :: 0 <= i < |users| && users[i].username == username && checkPassword(password, users[i].password)
  }

  /** POST /login. `checkPassword` stands for the bcrypt comparison; it is not consulted
      when no user has the username. The user table is only read and the token table is
      not touched. */
  function HandleLogin(
    users: seq<User>,
    body: LoginBody,
    checkPassword: (string, string) -> bool,
    sign: Signer,
    now: int)
    : (resp: Response)
    requires UsernamesUnique(users)
    ensures resp.status == BAD_REQUEST <==> !Truthy(body.username) || !Truthy(body.password)
    ensures resp.status == OK <==>
              Truthy(body.username) && Truthy(body.password) &&
              CredentialsMatch(users, body.username.s, body.password.s, checkPassword)
    ensures resp.status == OK ==>
              exists i :: 0 <= i < |users| && users[i].username == body.username.s &&
                resp.body == LoginToken(sign(LoginClaims(users[i]), TokenHandler.IssuedAt(now), LOGIN_EXPIRES_IN))
    ensures resp.status != OK && resp.status != BAD_REQUEST ==>
              resp == Response(UNAUTHORIZED, Error(INVALID_CREDENTIALS_MSG))
  {
    if !Truthy(body.username) || !Truthy(body.password) then
      Response(BAD_REQUEST, Error(LOGIN_MISSING_MSG))
    else
      match FindUserByUsername(users, body.username.s)
      case None =>
        assert forall i :: 0 <= i < |users| ==> users[i] in users;
        Response(UNAUTHORIZED, Error(INVALID_CREDENTIALS_MSG))
      case Some(user) =>
        if !checkPassword(body.password.s, user.password) then
          Response(UNAUTHORIZED, Error(INVALID_CREDENTIALS_MSG))
        else
          Response(OK, LoginToken(sign(LoginClaims(user), TokenHandler.IssuedAt(now), LOGIN_EXPIRES_IN)))
  }

  /** Login never looks at a user's type or status: changing them changes the answer's
      status code for no request. An unvalidated user with the right password gets 200. */
  lemma LoginIgnoresTypeAndStatus(
    users: seq<User>, k: int, newType: Role, newStatus: bool,
    body: LoginBody, checkPassword: (string, string) -> bool, sign: Signer, now: int)
    requires UsernamesUnique(users)
    requires 0 <= k < |users|
    ensures UsernamesUnique(users[k := users[k].(userType := newType, status := newStatus)])
    ensures HandleLogin(users[k := users[k].(userType := newType, status := newStatus)], body, checkPassword, sign, now).status
            == HandleLogin(users, body, checkPassword, sign, now).status
  {
    var changed := users[k := users[k].(userType := newType, status := newStatus)];
    assert forall i :: 0 <= i < |users| ==>
      changed[i].username == users[i].username && changed[i].password == users[i].password;
    if Truthy(body.username) && Truthy(body.password) {
      var name, pw := body.username.s, body.password.s;
      if CredentialsMatch(users, name, pw, checkPassword) {
        var i :| 0 <= i < |users| && users[i].username == name && checkPassword(pw, users[i].password);
        assert changed[i].username == name && checkPassword(pw, changed[i].password);
      }
      if CredentialsMatch(changed, name, pw, checkPassword) {
        var i :| 0 <= i < |changed| && changed[i].username == name && checkPassword(pw, changed[i].password);
        assert users[i].username == name && checkPassword(pw, users[i].password);
      }
    }
  }
}
