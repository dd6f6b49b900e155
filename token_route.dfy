/** The POST /refresh handler (src/route/tokenRoute.js): check the body's refresh
    token, have it validated, generate a new pair for the identity it carries and
    save that pair as a new row. The user's earlier rows are not deleted. */
module TokenRoute {
  import opened Seqs
  import opened Schema
  import opened Http
  import opened TokenHandler

  /** What validateRefreshToken yields for a refresh token it accepts. The shape is
      assumed from the three fields the handler reads. */
  datatype TokenData = TokenData(idUser: UserId, username: string, userType: Role)

  /** generateAccessToken / generateRefreshToken: the claims and the clock reading
      (milliseconds) at the call determine the token. */
  type TokenGenerator = (Claims, int) -> Token

  const MISSING_REFRESH_MSG: string := "Refresh token é obrigatório"
  const INVALID_REFRESH_MSG: string := "Refresh token inválido ou expirado"
  const REFRESH_FAILED_MSG: string := "Erro interno ao processar o refresh token"

  /** The identity the new pair is generated for: `{ id: id_User, username, type }`. */
  function RefreshClaims(d: TokenData): (c: Claims)
    ensures c.id == d.idUser && c.username == d.username && c.userType == d.userType
  {
    Claims(d.idUser, d.username, d.userType)
  }

  /** POST /refresh. The only thrown error modelled is the insert failing on an access
      token the table already holds; it yields 500 and writes nothing. */
  method HandleRefresh(
    store: TokenStore,
    refreshToken: Field,
    validateRefreshToken: string -> Option<TokenData>,
    generateAccessToken: TokenGenerator,
    generateRefreshToken: TokenGenerator,
    now: int)
    returns (resp: Response)
    requires store.Valid()
    modifies store
    ensures store.Valid()
    ensures !Truthy(refreshToken) ==>
              resp == Response(BAD_REQUEST, Error(MISSING_REFRESH_MSG)) && store.rows == old(store.rows)
    ensures Truthy(refreshToken) && validateRefreshToken(refreshToken.s).None? ==>
              resp == Response(FORBIDDEN, Error(INVALID_REFRESH_MSG)) && store.rows == old(store.rows)
    ensures Truthy(refreshToken) && validateRefreshToken(refreshToken.s).Some? ==>
              var d := validateRefreshToken(refreshToken.s).value;
              var a := generateAccessToken(RefreshClaims(d), now);
              var r := generateRefreshToken(RefreshClaims(d), now);
              if HoldsAccess(old(store.rows), a) then
                resp == Response(INTERNAL_ERROR, Error(REFRESH_FAILED_MSG)) && store.rows == old(store.rows)
              else
                resp == Response(OK, TokenPair(a, r)) && store.rows == Saved(old(store.rows), d.idUser, a, r, now)
  {
    if !Truthy(refreshToken) {
      return Response(BAD_REQUEST, Error(MISSING_REFRESH_MSG));
    }
    var tokenData := validateRefreshToken(refreshToken.s);
    if tokenData.None? {
      return Response(FORBIDDEN, Error(INVALID_REFRESH_MSG));
    }
    var user := RefreshClaims(tokenData.value);
    var newAccessToken := generateAccessToken(user, now);
    var newRefreshToken := generateRefreshToken(user, now);
    var saved := store.SaveToken(user.id, newAccessToken, newRefreshToken, now);
    if saved.None? {
      return Response(INTERNAL_ERROR, Error(REFRESH_FAILED_MSG));
    }
    resp := Response(OK, TokenPair(newAccessToken, newRefreshToken));
  }

  /** A refresh after createToken leaves the user with two rows, and the access token
      issued first stays valid for its own seven days beside the new one. */
  lemma RefreshKeepsEarlierToken(
    rows: seq<TokenRow>, u: UserId,
    a1: Token, r1: Token, t1: int,
    a2: Token, r2: Token, t2: int,
    now: int)
    requires !HoldsAccess(WithoutUser(rows, u), a1)
    requires !HoldsAccess(Created(rows, u, a1, r1, t1), a2)
    ensures var after := Saved(Created(rows, u, a1, r1, t1), u, a2, r2, t2);
            && RowsOf(after, u) == [NewRow(u, a1, r1, t1), NewRow(u, a2, r2, t2)]
            && (IsValidAt(after, a1, now) <==> now < t1 + ROW_LIFETIME_MS)
            && (IsValidAt(after, a2, now) <==> now < t2 + ROW_LIFETIME_MS)
  {
    var created := Created(rows, u, a1, r1, t1);
    CreateTokenLeavesOneRow(rows, u, a1, r1, t1);
    SaveTokenEffect(created, u, a2, r2, t2, u);
    FindSavedRow(WithoutUser(rows, u), u, a1, r1, t1);
    assert created[|created| - 1].accessToken == a1;
    SaveKeepsLookup(created, u, a2, r2, t2, a1);
    FindSavedRow(created, u, a2, r2, t2);
  }
}
