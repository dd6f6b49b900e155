/** The token table (src/middleware/tokenHandler.js): one row per issued
    access/refresh pair, keyed for lookup by its access token, with an expiry
    instant seven days after it was saved. */
module TokenHandler {
  import opened Seqs
  import opened Schema

  /** `expiresAt.setDate(expiresAt.getDate() + 7)`, taken as a fixed seven days, in milliseconds. */
  const ROW_LIFETIME_MS: int := 7 * 24 * 60 * 60 * 1000
  /** The `expiresIn` values createToken signs with, "15m" and "7d", in seconds. */
  const ACCESS_EXPIRES_IN: int := 15 * 60
  const REFRESH_EXPIRES_IN: int := 7 * 24 * 60 * 60

  /** The JWT `iat` claim for a clock reading in milliseconds (whole seconds, rounded down). */
  function IssuedAt(now: int): int {
    now / 1000
  }

  datatype IssuedTokens = IssuedTokens(accessToken: Token, refreshToken: Token)

  // ---------------------------------------------------------------------------
  // The table as a value

  /** The rows `deleteMany({ where: { id_User } })` would remove. */
  function RowsOf(rows: seq<TokenRow>, u: UserId): seq<TokenRow> {
    Filter(rows, (t: TokenRow) => t.idUser == u)
  }

  /** The table after `deleteMany({ where: { id_User } })`. */
  function WithoutUser(rows: seq<TokenRow>, u: UserId): seq<TokenRow> {
    Filter(rows, (t: TokenRow) => t.idUser != u)
  }

  predicate HoldsAccess(rows: seq<TokenRow>, a: Token) {
    exists i :: 0 <= i < |rows| && rows[i].accessToken == a
  }

  /** The table's unique constraint on `accessToken`. */
  ghost predicate AccessTokensUnique(rows: seq<TokenRow>) {
    forall i, j :: 0 <= i < j < |rows| ==> rows[i].accessToken != rows[j].accessToken
  }

  /** The row saveToken writes at clock `now`. */
  function NewRow(u: UserId, a: Token, r: Token, now: int): TokenRow {
    TokenRow(u, a, r, now + ROW_LIFETIME_MS)
  }

  /** The table after a successful saveToken. */
  function Saved(rows: seq<TokenRow>, u: UserId, a: Token, r: Token, now: int): seq<TokenRow> {
    rows + [NewRow(u, a, r, now)]
  }

  /** The table after a successful createToken: the user's rows deleted, then one saved. */
  function Created(rows: seq<TokenRow>, u: UserId, a: Token, r: Token, now: int): seq<TokenRow> {
    Saved(WithoutUser(rows, u), u, a, r, now)
  }

  /** `findUnique({ where: { accessToken } })`. */
  function FindByAccess(rows: seq<TokenRow>, a: Token): Option<TokenRow> {
    FindFirst(rows, (t: TokenRow) => t.accessToken == a)
  }

  /** What validateToken answers at clock `now`. */
  function IsValidAt(rows: seq<TokenRow>, a: Token, now: int): bool {
    match FindByAccess(rows, a)
    case None => false
    case Some(t) => t.expiresAt > now
  }

  // ---------------------------------------------------------------------------
  // Properties of the table operations

  /** deleteToken(u) leaves no row for `u` and every other user's rows exactly as they were. */
  lemma DeleteTokenEffect(rows: seq<TokenRow>, u: UserId, v: UserId)
    ensures forall t :: t in WithoutUser(rows, u) ==> t.idUser != u
    ensures RowsOf(WithoutUser(rows, u), u) == []
    ensures v != u ==> RowsOf(WithoutUser(rows, u), v) == RowsOf(rows, v)
  {
    var w := WithoutUser(rows, u);
    forall i | 0 <= i < |w|
      ensures w[i].idUser != u
    {
      assert w[i] in w;
    }
    FilterKeepsNone(w, (t: TokenRow) => t.idUser == u);
    if v != u {
      FilterOfFilter(rows, (t: TokenRow) => t.idUser != u, (t: TokenRow) => t.idUser == v);
    }
  }

  /** saveToken appends one row for `u`, removes nothing and leaves other users' rows alone. */
  lemma SaveTokenEffect(rows: seq<TokenRow>, u: UserId, a: Token, r: Token, now: int, v: UserId)
    ensures |Saved(rows, u, a, r, now)| == |rows| + 1
    ensures Saved(rows, u, a, r, now)[..|rows|] == rows
    ensures RowsOf(Saved(rows, u, a, r, now), u) == RowsOf(rows, u) + [NewRow(u, a, r, now)]
    ensures v != u ==> RowsOf(Saved(rows, u, a, r, now), v) == RowsOf(rows, v)
  {
    FilterAppend(rows, [NewRow(u, a, r, now)], (t: TokenRow) => t.idUser == u);
    FilterAppend(rows, [NewRow(u, a, r, now)], (t: TokenRow) => t.idUser == v);
  }

  /** After createToken(u) the user has exactly one row, holding the pair just issued. */
  lemma CreateTokenLeavesOneRow(rows: seq<TokenRow>, u: UserId, a: Token, r: Token, now: int)
    ensures RowsOf(Created(rows, u, a, r, now), u) == [TokenRow(u, a, r, now + ROW_LIFETIME_MS)]
  {
    DeleteTokenEffect(rows, u, u);
    SaveTokenEffect(WithoutUser(rows, u), u, a, r, now, u);
  }

  /** createToken(u) does not touch another user's rows. */
  lemma CreateTokenKeepsOthers(rows: seq<TokenRow>, u: UserId, a: Token, r: Token, now: int, v: UserId)
    requires v != u
    ensures RowsOf(Created(rows, u, a, r, now), v) == RowsOf(rows, v)
  {
    DeleteTokenEffect(rows, u, v);
    SaveTokenEffect(WithoutUser(rows, u), u, a, r, now, v);
  }

  /** Deleting rows keeps the access tokens unique. */
  lemma {:induction false} WithoutUserKeepsUnique(rows: seq<TokenRow>, u: UserId)
    requires AccessTokensUnique(rows)
    ensures AccessTokensUnique(WithoutUser(rows, u))
  {
    if |rows| > 0 {
      var tail := WithoutUser(rows[1..], u);
      WithoutUserKeepsUnique(rows[1..], u);
      if rows[0].idUser != u {
        assert WithoutUser(rows, u) == [rows[0]] + tail;
        forall j | 0 <= j < |tail|
          ensures tail[j].accessToken != rows[0].accessToken
        {
          assert tail[j] in rows[1..];
        }
      } else {
        assert WithoutUser(rows, u) == tail;
      }
    }
  }

  /** A saved row with a new access token keeps the access tokens unique. */
  lemma SavedKeepsUnique(rows: seq<TokenRow>, u: UserId, a: Token, r: Token, now: int)
    requires AccessTokensUnique(rows)
    requires !HoldsAccess(rows, a)
    ensures AccessTokensUnique(Saved(rows, u, a, r, now))
  {
  }

  /** With unique access tokens, validateToken holds exactly when some row carries the
      token and expires strictly after `now`. */
  lemma IsValidAtIff(rows: seq<TokenRow>, a: Token, now: int)
    requires AccessTokensUnique(rows)
    ensures IsValidAt(rows, a, now) <==>
            exists i :: 0 <= i < |rows| && rows[i].accessToken == a && rows[i].expiresAt > now
  {
    var found := FindByAccess(rows, a);
    if found.Some? {
      var k :| 0 <= k < |rows| && rows[k] == found.value;
      forall i | 0 <= i < |rows| && rows[i].accessToken == a
        ensures i == k
      {
      }
    } else {
      forall i | 0 <= i < |rows| && rows[i].accessToken == a
        ensures false
      {
        assert rows[i] in rows;
      }
    }
  }

  /** validateToken rejects an access token that no row holds, at every clock reading. */
  lemma UnknownTokenIsInvalid(rows: seq<TokenRow>, a: Token, now: int)
    requires !HoldsAccess(rows, a)
    ensures !IsValidAt(rows, a, now)
  {
    forall t | t in rows
      ensures t.accessToken != a
    {
      var k :| 0 <= k < |rows| && rows[k] == t;
    }
  }

  /** After a successful save, looking up the new access token finds the new row. */
  lemma FindSavedRow(rows: seq<TokenRow>, u: UserId, a: Token, r: Token, now: int)
    requires !HoldsAccess(rows, a)
    ensures FindByAccess(Saved(rows, u, a, r, now), a) == Some(NewRow(u, a, r, now))
  {
    var p := (x: TokenRow) => x.accessToken == a;
    FindFirstAppend(rows, [NewRow(u, a, r, now)], p);
    forall x | x in rows
      ensures !p(x)
    {
      var k :| 0 <= k < |rows| && rows[k] == x;
    }
  }

  /** Saving a row does not change what an already stored access token looks up. */
  lemma SaveKeepsLookup(rows: seq<TokenRow>, u: UserId, a: Token, r: Token, now: int, b: Token)
    requires HoldsAccess(rows, b)
    ensures FindByAccess(Saved(rows, u, a, r, now), b) == FindByAccess(rows, b)
  {
    var p := (x: TokenRow) => x.accessToken == b;
    FindFirstAppend(rows, [NewRow(u, a, r, now)], p);
    var k :| 0 <= k < |rows| && rows[k].accessToken == b;
    assert rows[k] in rows;
  }

  /** A freshly saved access token is valid until, and not at, seven days after it was
      saved: the row's expiry, not the JWT's own fifteen-minute lifetime, decides. */
  lemma SavedTokenExpiry(rows: seq<TokenRow>, u: UserId, a: Token, r: Token, now: int, t: int)
    requires !HoldsAccess(rows, a)
    ensures IsValidAt(Saved(rows, u, a, r, now), a, t) <==> t < now + ROW_LIFETIME_MS
    ensures IsValidAt(Saved(rows, u, a, r, now), a, now + ACCESS_EXPIRES_IN * 1000)
    ensures !IsValidAt(Saved(rows, u, a, r, now), a, now + ROW_LIFETIME_MS)
  {
    FindSavedRow(rows, u, a, r, now);
  }

  /** Issuing twice for the same user revokes the first access token (when the second
      differs from it) and leaves the second valid for seven days. */
  lemma CreateTwiceRevokesFirst(
    rows: seq<TokenRow>, u: UserId,
    a1: Token, r1: Token, t1: int,
    a2: Token, r2: Token, t2: int,
    now: int)
    requires !HoldsAccess(WithoutUser(rows, u), a1)
    requires !HoldsAccess(WithoutUser(rows, u), a2)
    requires a1 != a2
    ensures var twice := Created(Created(rows, u, a1, r1, t1), u, a2, r2, t2);
            && !IsValidAt(twice, a1, now)
            && (IsValidAt(twice, a2, now) <==> now < t2 + ROW_LIFETIME_MS)
  {
    var w := WithoutUser(rows, u);
    var once := Created(rows, u, a1, r1, t1);
    calc {
      WithoutUser(once, u);
      { FilterAppend(w, [NewRow(u, a1, r1, t1)], (t: TokenRow) => t.idUser != u); }
      WithoutUser(w, u) + [];
      { FilterKeepsAll(w, (t: TokenRow) => t.idUser != u); }
      w;
    }
    var twice := Saved(w, u, a2, r2, t2);
    assert !HoldsAccess(twice, a1) by {
      forall i | 0 <= i < |twice|
        ensures twice[i].accessToken != a1
      {
        if i < |w| {
          assert twice[i] == w[i];
        }
      }
    }
    UnknownTokenIsInvalid(twice, a1, now);
    SavedTokenExpiry(w, u, a2, r2, t2, now);
  }

  // ---------------------------------------------------------------------------
  // The table as the store mutates it

  class TokenStore {
    var rows: seq<TokenRow>

    ghost predicate Valid()
      reads this
    {
      AccessTokensUnique(rows)
    }

    constructor ()
      ensures Valid() && rows == []
    {
      rows := [];
    }

    /** checkIfTokenExists: does any row belong to `u`? */
    method CheckIfTokenExists(u: UserId) returns (found: bool)
      ensures found <==> exists t :: t in rows && t.idUser == u
    {
      found := FindFirst(rows, (t: TokenRow) => t.idUser == u).Some?;
    }

    /** deleteToken: remove every row of `u`. */
    method DeleteToken(u: UserId)
      requires Valid()
      modifies this
      ensures Valid()
      ensures rows == WithoutUser(old(rows), u)
    {
      WithoutUserKeepsUnique(rows, u);
      rows := WithoutUser(rows, u);
    }

    /** saveToken: append a row expiring seven days from `now`. The insert fails, and
        the table is unchanged, when the access token is already stored. */
    method SaveToken(u: UserId, a: Token, r: Token, now: int) returns (saved: Option<TokenRow>)
      requires Valid()
      modifies this
      ensures Valid()
      ensures saved.Some? <==> !HoldsAccess(old(rows), a)
      ensures saved.Some? ==> saved.value == NewRow(u, a, r, now) && rows == old(rows) + [saved.value]
      ensures saved.None? ==> rows == old(rows)
    {
      if HoldsAccess(rows, a) {
        saved := None;
      } else {
        SavedKeepsUnique(rows, u, a, r, now);
        saved := Some(NewRow(u, a, r, now));
        rows := rows + [saved.value];
      }
    }

    /** createToken: delete the user's rows if there are any, sign a fifteen-minute access
        token and a seven-day refresh token over the same claims, save them. When the save
        fails the deletion has already happened. */
    method CreateToken(u: UserId, username: string, userType: Role, sign: Signer, now: int)
      returns (issued: Option<IssuedTokens>)
      requires Valid()
      modifies this
      ensures Valid()
      ensures var c := Claims(u, username, userType);
              var a := sign(c, IssuedAt(now), ACCESS_EXPIRES_IN);
              var r := sign(c, IssuedAt(now), REFRESH_EXPIRES_IN);
              && (issued.Some? <==> !HoldsAccess(WithoutUser(old(rows), u), a))
              && (issued.Some? ==> issued.value == IssuedTokens(a, r) && rows == Created(old(rows), u, a, r, now))
              && (issued.None? ==> rows == WithoutUser(old(rows), u))
    {
      var hasRow := CheckIfTokenExists(u);
      if hasRow {
        DeleteToken(u);
      } else {
        FilterKeepsAll(rows, (t: TokenRow) => t.idUser != u);
      }
      var c := Claims(u, username, userType);
      var a := sign(c, IssuedAt(now), ACCESS_EXPIRES_IN);
      var r := sign(c, IssuedAt(now), REFRESH_EXPIRES_IN);
      var saved := SaveToken(u, a, r, now);
      issued := if saved.Some? then Some(IssuedTokens(a, r)) else None;
    }

    /** validateToken: the row holding the access token must exist and expire strictly after `now`. */
    method ValidateToken(a: Token, now: int) returns (valid: bool)
      requires Valid()
      ensures valid <==> exists i :: 0 <= i < |rows| && rows[i].accessToken == a && rows[i].expiresAt > now
    {
      IsValidAtIff(rows, a, now);
      var token := FindByAccess(rows, a);
      if token.None? {
        return false;
      }
      valid := token.value.expiresAt > now;
    }
  }
}
