# TripPlanner API authentication, modelled in Dafny

The TripPlanner API authenticates its clients with bearer tokens. The
`AuthenticateController` has two endpoints:

- **login** looks the user up by name and checks the password. On success it
  builds the claim list: the user's name, a fresh token identifier (`jti`,
  section 4.1.7 of RFC 7519), then one role claim per assigned role. It
  returns a JSON Web Token signed with HMAC-SHA-256 (`HS256`, section 3.2 of
  RFC 7518). The token names the configured issuer and audience and expires
  two hours after issuance (`exp`, section 4.1.4 of RFC 7519). The response
  also carries that expiry. In every other case login answers 401. Because the
  controller is an API controller, the framework fills that answer's body with
  its standard problem description. The description is the same whether the
  user is unknown or the password is wrong.
- **register** refuses a user name that is already taken. Otherwise it builds a
  user from the request, with a fresh security stamp, and asks the user store
  to create it. The store's answer is mapped to one of three fixed responses.

Every protected endpoint checks an incoming token with the JwtBearer handler.
That handler is configured at start-up with the same issuer, audience and
secret.

Files:

- `identity.dfy` (module `Identity`): the user store as a class whose field
  is the user table, a map from user name to user record. The record holds the
  e-mail, security stamp, password hash and roles. The module also holds the
  store's creation step.
- `tokens.dfy` (module `Tokens`): claims, the claim list of a login, and the
  token with its header, payload and signature.
- `validation.dfy` (module `Validation`): the validation parameters
  installed at start-up and the token check they drive.
- `authenticate.dfy` (module `Authenticate`): the controller class, with
  `Login` and `Register`, the functions that specify them, and the lemmas
  that relate the two endpoints to each other and to validation.

Several things are inputs to the model:

- The clock, as UTC seconds since the epoch.
- Each fresh GUID, as a string.
- Password verification, as a function from (stored hash, password) to bool.
- Password hashing, as a function from password to hash.
- The store's own creation rules, such as the password policy. They are a
  function that returns the list of violations.
- The HMAC signer, as a function from (header, payload, key) to a signature.

Behaviours of the program a reader might not expect:

- When the store refuses a creation, the controller returns one fixed message.
  It does not pass on the store's reason (`AuthenticateController.cs:96-103`).
  The model follows the code.
- The validator does not refuse a token at its expiry instant. The JwtBearer
  handler keeps its default clock skew of 300 seconds, and start-up does not
  change it. A token is therefore refused only once the time is past `exp` +
  300. The model states that tolerance.
- The audience check ignores one trailing '/'. The handler keeps its default for
  this as well, so a token for `https://a/` passes where `https://a` is
  expected. A blank issuer or audience never passes, and blank includes
  Unicode white space such as a no-break space.

## Model

| member | source | states |
|---|---|---|
| `Identity.UserStore.FindByName` | TripPlanner.API/TripPlanner.API/Controllers/AuthenticateController.cs:39 | a user is found exactly when the name is in the table; in a well-keyed table the record found carries that same user name |
| `Identity.CreateResult` | TripPlanner.API/TripPlanner.API/Controllers/AuthenticateController.cs:95 | creation succeeds exactly when the name is free and the store's rules report no violation; success adds exactly that user, with the hash of its password, and keeps every other user; failure carries at least one error and leaves the table unchanged; the table grows by one or not at all and stays well keyed |
| `Identity.UserStore.Create` | TripPlanner.API/TripPlanner.API/Controllers/AuthenticateController.cs:95-96 | the store's answer and its new table are those of `CreateResult` on the old table, and the store stays well keyed |
| `Tokens.RoleClaims` | TripPlanner.API/TripPlanner.API/Controllers/AuthenticateController.cs:50-51 | the projection yields one claim per role, and the claim at position i is the Role claim for role i, so the store's order is kept |
| `Tokens.AuthClaims` | TripPlanner.API/TripPlanner.API/Controllers/AuthenticateController.cs:44-51 | the claim list has length 2 + number of roles; the Name claim for the given user name comes first and the jti claim second; every later claim is the Role claim for the role at that position, so the store's order is kept |
| `Tokens.AuthClaimsCounts` | TripPlanner.API/TripPlanner.API/Controllers/AuthenticateController.cs:44-51 | the claim list holds exactly one Name claim, exactly one jti claim and one Role claim per role, counted independently of position |
| `Tokens.TypeUriInjective` | TripPlanner.API/TripPlanner.API/Controllers/AuthenticateController.cs:46-51 | the three claim-type strings written into the token (name, `jti`, role) are pairwise distinct, so counting claims by type is counting them by the string the token carries |
| `Tokens.CreateToken` | TripPlanner.API/TripPlanner.API/Controllers/AuthenticateController.cs:53-61 | the token expires exactly two hours after issuance, so strictly later; its algorithm is HS256; its issuer and audience are the configured ones; it carries the given claims; it is signed with the configured secret |
| `Validation.ConfiguredParameters` | TripPlanner.API/TripPlanner.API/Startup.cs:72-79 | the validator expects the configured issuer and audience, verifies with the configured secret, and keeps the default 300-second clock skew |
| `Validation.ValidateToken` | TripPlanner.API/TripPlanner.API/Startup.cs:72-79 | an empty secret leaves the handler without a signing key, and then every token is refused; otherwise a token is accepted exactly when all four checks pass: signature; lifetime (up to the skew past `exp`); audience, equal to the expected one up to one trailing '/'; issuer, equal to the expected one. A blank audience or issuer never passes, where blank means empty or only the characters .NET counts as white space, Unicode ones included. An accepted token exposes its own claims. Once a key exists, a bad signature is reported as such whatever else holds, and a correctly signed token past its lifetime is reported as expired |
| `Validation.TrailingSlashAudience` | TripPlanner.API/TripPlanner.API/Startup.cs:72-79 | with the default left in place at start-up, a token audience that ends in one extra '/' matches the configured audience, and so does one missing the '/' the configured audience ends with |
| `Validation.NoBreakSpaceIsBlank` | TripPlanner.API/TripPlanner.API/Startup.cs:76-77 | an issuer or audience made only of Unicode white space, such as a no-break space, counts as missing |
| `Authenticate.LoginResult` | TripPlanner.API/TripPlanner.API/Controllers/AuthenticateController.cs:37-70 | login yields a token exactly when the user exists and the password verifies against the stored hash, and otherwise the single `Unauthorized` answer, identical for an unknown user and a wrong password; a token carries the stored name, the fresh jti and the stored roles, in order; its expiry and the returned `expiration` are both issuance + 2 h; it has the configured issuer and audience and an HS256 signature under the secret |
| `Authenticate.NewUser` | TripPlanner.API/TripPlanner.API/Controllers/AuthenticateController.cs:88-93 | the user built for registration carries the request's user name and e-mail, the fresh security stamp, and no roles |
| `Authenticate.RegisterResult` | TripPlanner.API/TripPlanner.API/Controllers/AuthenticateController.cs:74-107 | registration answers one of three fixed responses; "User already exists!" (500) exactly when the name is taken, with the table unchanged; "User created successfully!" (200) exactly when the name is free and the store accepts; then the table gains exactly the user with the request's name and e-mail, the fresh stamp, the hashed password and no roles; any other answer leaves the table unchanged; the table grows by one or not at all and stays well keyed |
| `Authenticate.AuthenticateController.constructor` | TripPlanner.API/TripPlanner.API/Controllers/AuthenticateController.cs:25-33 | the controller keeps the user store and the configuration it is given |
| `Authenticate.AuthenticateController.Login` | TripPlanner.API/TripPlanner.API/Controllers/AuthenticateController.cs:37-70 | the step-by-step login answers exactly `LoginResult` on the current table and does not write to the store |
| `Authenticate.AuthenticateController.Register` | TripPlanner.API/TripPlanner.API/Controllers/AuthenticateController.cs:74-107 | the step-by-step registration answers, and leaves the store in, exactly what `RegisterResult` gives for the old table; the store stays well keyed |
| `Authenticate.LoginClaims` | TripPlanner.API/TripPlanner.API/Controllers/AuthenticateController.cs:44-51 | a successful login's first claim is Name = the stored user's name and its second is jti = the fresh id; then come the stored roles in order; there is exactly one Name claim and one jti claim; in a well-keyed table the Name claim is the user name the client sent |
| `Authenticate.DistinctIdentifiers` | TripPlanner.API/TripPlanner.API/Controllers/AuthenticateController.cs:47 | two logins that draw different GUIDs issue tokens with different jti claims, so the tokens differ |
| `Authenticate.IssuedTokenValidates` | TripPlanner.API/TripPlanner.API/Controllers/AuthenticateController.cs:55-66 | with a non-empty secret and an issuer and audience that are not blank (Unicode white space included), a token just issued is accepted by the application's own validator, with its claims, up to the skew past the returned expiration; after that it is refused as expired |
| `Authenticate.MisconfiguredTokensRejected` | TripPlanner.API/TripPlanner.API/Controllers/AuthenticateController.cs:55-57 | with an empty secret, or an issuer or audience configured blank (empty or only white space, Unicode white space included), no token the application issues is ever accepted by its own validator |
| `Authenticate.AlteredSignatureRejected` | TripPlanner.API/TripPlanner.API/Controllers/AuthenticateController.cs:53-60 | an issued token whose signature is replaced by any other signature value is never accepted, at any time; with a non-empty secret it is refused for its signature |
| `Authenticate.ForeignIssuerRejected` | TripPlanner.API/TripPlanner.API/Controllers/AuthenticateController.cs:55-57 | a token issued under one issuer is never accepted by a validator that expects another issuer, at any time, whatever secrets the two use, including a shared one |
| `Authenticate.RegisterTwice` | TripPlanner.API/TripPlanner.API/Controllers/AuthenticateController.cs:76-85 | registering one name twice: unless the store's rules refused the first attempt, the second gets "User already exists!" and leaves the table as it was; the table grows by at most one user, and by exactly one when the first attempt succeeded |
| `Authenticate.RegisterThenLogin` | TripPlanner.API/TripPlanner.API/Controllers/AuthenticateController.cs:88-95 | when the hasher and the verifier agree on the chosen password, a user just registered can log in with it; the token's claims are exactly [Name, jti], because a new user has no roles |

## Left out

- User-name normalisation: ASP.NET Identity looks users up by a normalised name. The model files and finds users under the exact name.
- Authenticate.LoginClaims: its clause that the Name claim equals the name the client sent depends on exact lookup. With Identity's normalisation, a login as "ALICE" for the stored user "alice" issues Name = "alice". The clause that the Name claim is the stored user's name holds either way.
- Identity's own work inside `CreateAsync` is not modelled: rotating the security stamp, normalising the e-mail and setting lockout flags. The stored stamp is the one the controller built.
- Password hashing, verification and the store's validation rules: these are library code. They are the function parameters above.
- Identity.CreateResult: checks the name before the store's rules. Identity checks the password first, so for a request that breaks both, the error list differs (a password error instead of `DuplicateUserName`). The outcome and the table are the same, and the controller never shows the list.
- The compact serialisation of the token (base64url parts joined by dots) and the HMAC-SHA-256 computation: these are library code. The signer is a parameter, and the response carries the structured token rather than its string.
- UTF-8 encoding of the secret: the key is the secret string itself.
- `DateTime.Now`, its conversion from local time to UTC, and the sub-second truncation of `exp`: the clock is an input in whole UTC seconds.
- Tokens.CreateToken: the expiry is computed as local wall-clock time plus two hours and only then converted to UTC. So `exp` = issuance + 2 h holds only while the server's UTC offset stays the same over those two hours. Across a daylight-saving change the real lifetime is 1 h or 3 h.
- Authenticate.LoginResult: the same two-hour equality, with the same proviso about the server's UTC offset.
- Tokens.CreateToken: a missing or empty `JWT:Secret` throws when the key is built, and a secret too short for HS256 throws when the token is written. Either way login ends in a 500 with no token. The model issues a token for any secret.
- Authenticate.LoginResult: does not model those configuration failures either. It answers with a token for any configured secret.
- Validation.ValidateToken: refuses everything only for an empty secret. A non-empty secret shorter than the minimum HMAC key size of the token library, counted in UTF-8 bytes, is also refused when a signature is checked, so the program accepts nothing then either. The model accepts correctly signed tokens under such a secret. That minimum depends on the library version, which is not part of this model.
- Authenticate.AuthenticateController.Login: `CheckPasswordAsync` may rewrite the stored hash and security stamp when the hasher asks for a rehash. The model's password check is a pure function, so login never writes to the store.
- `Guid.NewGuid`: each GUID is an input. `DistinctIdentifiers` needs the two GUIDs to differ; it does not prove that they do.
- Concurrency: each request is one sequential step. The race between the existence check and `CreateAsync` under concurrent registrations is therefore not modelled.
- The `[Required]` checks on the request models: ASP.NET model binding enforces them, with a 400 answer, before the controller runs.
- HTTP plumbing: responses are plain datatypes.
- Parts of the token library's validation: the header algorithm against the key, `nbf`, replay detection, tokens without `exp`, and the mapping of claim types on the way in. Accepted claims are exposed exactly as stored in the payload.
- The role manager the controller receives: it is never used.
- The rest of start-up (dependency injection, database, Swagger, CORS, middleware) and the trip, point and place repositories: they hold no authentication logic.
