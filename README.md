# FixHub backend: credential store, request gates and record construction

This project models the core of a small maintenance-request backend. Residents register under a housing complex and log in. They file maintenance requisitions. Access and refresh tokens are kept in a token table.

The model covers:

- **Token store** (`TokenHandler`): the token table as a sequence of rows `{id_User, accessToken, refreshToken, expiresAt}`. `TokenStore` is a class whose methods read or change that sequence: check and validate only read it, while delete-all-for-user, save and create (delete then save) change it in place. Pure functions describe the table after each operation. Lemmas state what each operation keeps and changes.
- **Refresh flow** (`TokenRoute`): the `/refresh` handler. A missing token gives 400, an invalid one gives 403, and otherwise a new pair is saved as an extra row.
- **Role gate** (`Validations`): `authorizeRequisitionCreation`.
- **Requisitions** (`RequisitionServices`, `RequisitionRoute`): record defaults, the insert, the per-user and all-rows listings, the role-based dispatch, and the POST/GET handlers.
- **Complexes** (`ComplexServices`): the substring pre-check, the exact-name lookup that can throw, and the name listing.
- **Users** (`UserServices`, `UserRoute`): record defaults, the insert, and the `/register` and `/login` handlers.

Shared pieces: `Seqs` (filter and first-match over a sequence, standing in for the ORM's `findMany`/`findFirst`), `Schema` (the table rows, JSON body fields, claims), and `Http` (status code plus payload).

Outside inputs are passed in as parameters: the clock (`now`, in milliseconds), the JWT signer, the refresh-token validator and generators, `verifyToken`'s outcome, `getUserComplexId`, and bcrypt's hash and compare. The role constants come from two modules, neither part of this model: `NAO_VALIDADO` is read from `USER_ROLES` in `../config/constants.js` (src/middleware/validations.js:1), and `MORADOR` from a different `USER_ROLES` in `../constant/userRole.js` (src/services/requisitionServices.js:3). Each decision that needs one takes it from its own `RoleConstants` argument. The only concrete type value in the code is the initial type 9.

The unique constraints behind `findUnique` are modelled:

- `accessToken` is unique in the token table. A save with an access token already stored fails, like the ORM's insert throwing, and writes nothing.
- `username` is unique in the user table. Registering a taken username therefore reaches the handler's catch and yields 500.

The model follows the code as written in these places:

- `/refresh` calls `saveToken` without deleting the user's earlier rows (src/route/tokenRoute.js:71). It does not update a row in place. The access token issued before a refresh stays valid for its own seven days (`TokenRoute.RefreshKeepsEarlierToken`). The token table is taken to have no unique constraint on `id_User`, and under that reading the user then holds two rows, so "at most one row per user" holds only right after `createToken`.
- `/login` does not block unvalidated users and does not check `status`. Any stored user with the right password gets 200 (`UserRoute.LoginIgnoresTypeAndStatus`).
- `/login` signs a single one-hour token with `jwt.sign`. It writes nothing to the token table.
- The complex lookup compares the stored name against the lowercased query, and the ORM's `contains` is taken as case-sensitive. A complex whose stored name has an upper-case letter, such as "Alpha", is then not found even by its exact name, unless another stored name contains the lowercased form (`ComplexServices.CapitalisedNameIsNotFound`).

## Model

| member | source | states |
|---|---|---|
| `TokenHandler.TokenStore.CheckIfTokenExists` | src/middleware/tokenHandler.js:4-10 | true iff some row belongs to the user |
| `TokenHandler.TokenStore.DeleteToken` | src/middleware/tokenHandler.js:12-16 | the table becomes the old table with exactly the user's rows removed; access tokens stay unique |
| `TokenHandler.TokenStore.SaveToken` | src/middleware/tokenHandler.js:40-52 | when the access token is new, appends one row expiring now + 7 days and returns it; otherwise the insert fails and the table is unchanged |
| `TokenHandler.TokenStore.CreateToken` | src/middleware/tokenHandler.js:18-38 | deletes the user's rows, signs a 15-minute access and a 7-day refresh token over `{id, username, type}` at the current second, saves them and returns that pair; if the save fails, the deletion has still happened |
| `TokenHandler.TokenStore.ValidateToken` | src/middleware/tokenHandler.js:54-64 | true iff a row holds the access token and its `expiresAt` is strictly after `now` |
| `TokenHandler.DeleteTokenEffect` | src/middleware/tokenHandler.js:12-16 | after deleteToken(u) no row of u remains, and every other user's rows are exactly as before |
| `TokenHandler.SaveTokenEffect` | src/middleware/tokenHandler.js:40-52 | saveToken adds exactly one row, keeps every earlier row in place, adds that row to u's rows only, and leaves other users' rows unchanged |
| `TokenHandler.CreateTokenLeavesOneRow` | src/middleware/tokenHandler.js:18-37 | after createToken(u) exactly one row belongs to u, and it holds the returned pair with the 7-day expiry |
| `TokenHandler.CreateTokenKeepsOthers` | src/middleware/tokenHandler.js:18-21 | createToken(u) leaves every other user's rows unchanged |
| `TokenHandler.WithoutUserKeepsUnique` | src/middleware/tokenHandler.js:12-16 | deleting a user's rows keeps access tokens unique |
| `TokenHandler.SavedKeepsUnique` | src/middleware/tokenHandler.js:44-51 | saving a row whose access token is new keeps access tokens unique |
| `TokenHandler.IsValidAtIff` | src/middleware/tokenHandler.js:54-64 | the lookup-then-compare answer equals "some row holds the token and expires strictly after now" |
| `TokenHandler.UnknownTokenIsInvalid` | src/middleware/tokenHandler.js:55-59 | an access token no row holds is rejected at every clock reading |
| `TokenHandler.FindSavedRow` | src/middleware/tokenHandler.js:44-57 | after a successful save, looking up the new access token finds the new row |
| `TokenHandler.SaveKeepsLookup` | src/middleware/tokenHandler.js:44-57 | saving a row does not change what an already stored access token looks up |
| `TokenHandler.SavedTokenExpiry` | src/middleware/tokenHandler.js:40-64 | a saved token is valid iff now < save time + 7 days, so it is invalid at exact equality; it is still valid when its 15-minute JWT has expired |
| `TokenHandler.CreateTwiceRevokesFirst` | src/middleware/tokenHandler.js:18-64 | after createToken(u) twice with different access tokens, the first access token fails validation at every clock reading, and the second is valid for 7 days |
| `TokenRoute.RefreshClaims` | src/route/tokenRoute.js:67 | the new pair's claims are exactly tokenData's id_User, username and type |
| `TokenRoute.HandleRefresh` | src/route/tokenRoute.js:54-78 | a falsy token gives 400 and a rejected token gives 403, with no write in either case; otherwise the pair generated for tokenData's identity is appended as one row and returned with 200; a failed insert gives 500 with no write |
| `TokenRoute.RefreshKeepsEarlierToken` | src/route/tokenRoute.js:71 | after createToken then a refresh the user holds two rows, and both access tokens are valid, each for its own 7 days |
| `Validations.AuthorizeRequisitionCreation` | src/middleware/validations.js:3-11 | answers 403 (and does not call next) iff the type is NAO_VALIDADO; calls next iff it is not |
| `Validations.GateDependsOnlyOnType` | src/middleware/validations.js:3-11 | two identities with the same type get the same decision |
| `RequisitionServices.NewRequisition` | src/services/requisitionServices.js:5-17 | status is PENDING whatever the arguments; a falsy imgUrl is stored as null and a truthy one unchanged; the other fields are copied verbatim |
| `RequisitionServices.RequisitionStore.CreateRequisition` | src/services/requisitionServices.js:5-18 | appends exactly that record with a fresh id and keeps every existing row |
| `RequisitionServices.GetUserRequisitions` | src/services/requisitionServices.js:20-24 | returns exactly the stored requisitions whose creator is the user, each as many times as it is stored and no other row |
| `RequisitionServices.GetRequisitionsByUserType` | src/services/requisitionServices.js:30-35 | MORADOR gets exactly its own requisitions, with their multiplicities; every other type, NAO_VALIDADO included, gets all rows |
| `RequisitionServices.ListingIsSubsetOfAll` | src/services/requisitionServices.js:26-35 | every listing is contained in the all-requisitions result |
| `RequisitionServices.NewRequisitionListedForCreatorOnly` | src/services/requisitionServices.js:5-24 | a new requisition is added last to its creator's listing and to no other user's |
| `ComplexServices.ToLower` | src/services/complexServices.js:19 | lowercasing keeps the length and maps each ASCII capital to its small letter |
| `ComplexServices.IsComplexNameContained` | src/services/complexServices.js:15-25 | true iff some stored name contains the lowercased query |
| `ComplexServices.GetComplexByName` | src/services/complexServices.js:3-13 | null iff the pre-check fails; a returned complex is stored and named exactly the query; the lookup throws iff the pre-check passes and no name equals the query |
| `ComplexServices.GetAllComplexesNames` | src/services/complexServices.js:27-31 | one entry per stored complex, in order, holding its name |
| `ComplexServices.LowercaseNameIsFound` | src/services/complexServices.js:3-25 | a complex whose stored name is all lower case is found by that name |
| `ComplexServices.NameMissesOwnLowercase` | src/services/complexServices.js:4-8 | a name with an upper-case letter never contains its own lowercased form |
| `ComplexServices.CapitalisedNameIsNotFound` | src/services/complexServices.js:4-8 | for every table, a stored name with an upper-case letter queried exactly gives null, unless another stored name contains its lowercased form |
| `ComplexServices.UppercaseQueryFails` | src/services/complexServices.js:3-12 | for every table, a query whose lowercasing is a stored name, where no stored name equals the query itself, passes the pre-check and then the lookup throws |
| `ComplexServices.CaseExamples` | src/services/complexServices.js:3-12 | "Alpha" stored and queried as "Alpha" gives null; "alpha" stored and queried as "ALPHA" throws |
| `UserServices.NewUser` | src/services/userServices.js:4-16 | type is 9 and status true for every new user; the password is stored as given; name, username, complex and complement are copied verbatim |
| `UserServices.UserStore.CreateNewUser` | src/services/userServices.js:4-16 | adds exactly that one user with a fresh id when the username is free; otherwise the insert fails and nothing changes |
| `UserRoute.HandleRegister` | src/route/userRoute.js:10-32 | any missing field gives 400, an unknown complex 404, and a failed lookup or taken username 500, with no user created in each case; otherwise 201 with a user holding complex.id and the hashed password |
| `UserRoute.HandleLogin` | src/route/userRoute.js:34-63 | a missing field gives 400; the answer is 200 iff the named user exists and the password check passes, with a 1-hour token over that user's `{id, username, type}`; unknown user and wrong password give the same 401 |
| `UserRoute.LoginIgnoresTypeAndStatus` | src/route/userRoute.js:42-57 | changing a user's type or status never changes login's status code |
| `RequisitionRoute.HandlePostRequisition` | src/route/requisitionRoute.js:73-92 | verifyToken's own answer passes through; NAO_VALIDADO gets 403 before the field check; a falsy title, content, location or priority gives 400; a failed complex lookup gives 500; none of these writes. Otherwise 201 with the record created for req.user.id and the user's complex, whatever the body says |
| `RequisitionRoute.HandleAllRequisition` | src/route/requisitionRoute.js:117-128 | an unauthenticated request gets verifyToken's response; otherwise 200 with the stored requisitions, limited to exactly the caller's own, with their multiplicities, when the caller is MORADOR and exactly all rows, in order, for any other type |
| `RequisitionRoute.NewUserIsGated` | src/services/userServices.js:11 | if NAO_VALIDADO is the initial type 9, a just-created user is refused requisition creation |

## Left out

- JWT signing and verification are not modelled. `jwt.sign` is a `Signer` parameter of claims, issued-at second and lifetime. `verifyToken`, `validateRefreshToken`, `generateAccessToken` and `generateRefreshToken` are parameters or their outcomes are inputs. src/route/tokenRoute.js:2 and src/route/requisitionRoute.js:3-4 import these four and `getUserComplexId` from src/middleware/tokenHandler.js and src/services/userServices.js, which do not export them. As written, those ES modules would fail to link. The model supplies all five as parameters.
- Token freshness is not derived from the signer. Lemmas that need two tokens to differ state it as a precondition.
- bcrypt (`encryptPassword`, `checkPassword`) is a foreign library. Both are function parameters.
- The clock is a parameter `now` in milliseconds. `setDate(getDate() + 7)` is taken as a fixed offset of 7 × 24 hours, so daylight-saving shifts are ignored.
- `toLowerCase` is modelled for ASCII letters only.
- Database collation is not modelled. `contains` is case-sensitive substring matching.
- Request bodies hold only absent or string values. Other JSON values (numbers, booleans, null) and their truthiness are not modelled.
- Thrown errors are modelled only where this code can cause them: the unique-constraint violations on the access token and the username, `findFirstOrThrow` finding nothing, and a failed `getUserComplexId`. Connection failures and other database errors are not modelled. Neither is the 500 path of GET /allRequisition.
- In POST /requisition's 500 body, the thrown error's own message is replaced by the handler's fallback message.
- Only the access-token unique constraint of the token table is modelled. The schema is not part of this model, so whether `refreshToken` or `id_User` is also unique is unknown. The token table is assumed to have no unique constraint on `id_User`. With one, the insert behind /refresh (src/middleware/tokenHandler.js:44, reached from src/route/tokenRoute.js:71) would throw for a user who already holds a row, and /refresh would answer 500 with the table unchanged. `TokenRoute.HandleRefresh` and `TokenRoute.RefreshKeepsEarlierToken` describe the unconstrained table.
- Row ids are modelled as an auto-incremented counter.
- The race window between delete and save in `createToken` is not modelled, and neither is concurrent request handling. Every operation runs to completion on its own.
- The named role values are not modelled. Only the initial type 9 appears in the code.
- Nothing in the model relates the two `USER_ROLES` objects. The gate reads `naoValidado` and the listing reads `morador`, each from its own `RoleConstants` argument, and no lemma assumes the two modules agree.
- The result of `validateRefreshToken` is assumed to have the shape `{id_User, username, type}`, because the handler reads those three fields. The function is not part of this model, and no shape visible in the code (a token row or the JWT claims) has exactly these fields.
- `src/middleware/loginLimiter.js`, `swagger.js`, `src/index.js` and `src/route/complexRoute.js` are not part of this model. They configure rate limiting, docs, server start-up and a pass-through listing.
- `RequisitionServices.GetAllRequisitions` returns the whole table. It has no row of its own because `GetRequisitionsByUserType` states what it returns.
