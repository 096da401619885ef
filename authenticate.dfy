/** The authentication controller: login issues a signed token for a user
    whose password checks out, registration adds a user whose name is free.
    The clock (UTC seconds since the epoch) and the fresh GUIDs are inputs;
    password checking, hashing, the store's rules and signing are functions
    supplied by the caller. */
module Authenticate {
  import opened Identity
  import opened Tokens
  import opened Validation

  datatype LoginModel = LoginModel(Username: string, Password: string)

  datatype RegisterModel = RegisterModel(Username: string, Email: string, Password: string)

  /** Outcome of a login: 200 with the token and its expiry, or 401 with the
      framework's fixed problem description, which carries nothing about the
      user or about which check failed. */
  datatype LoginResponse = Unauthorized | Ok(token: Jwt, expiration: int)

  /** The body every registration answer carries. */
  datatype Response = Response(Status: string, Message: string)

  datatype RegisterResponse = RegisterResponse(StatusCode: int, Body: Response)

  const Status200OK := 200
  const Status500InternalServerError := 500

  const UserExistsResponse :=
    RegisterResponse(Status500InternalServerError, Response("Error", "User already exists!"))
  const CreationFailedResponse :=
    RegisterResponse(Status500InternalServerError,
      Response("Error", "User creation failed! Please check user details and try again."))
  const CreatedResponse :=
    RegisterResponse(Status200OK, Response("Success", "User created successfully!"))

  /** The user the controller builds from a registration request: name and
      e-mail copied, a fresh security stamp, no password hash yet, no roles. */
  function NewUser(model: RegisterModel, stamp: string): (user: ApplicationUser)
    ensures user.UserName == model.Username && user.Email == model.Email
    ensures user.SecurityStamp == stamp && user.Roles == []
  {
    ApplicationUser(model.Username, model.Email, stamp, "", [])
  }

  /** What a login answers against the user table `users`, at time now, with
      jti as the fresh token identifier. */
  function LoginResult(users: map<string, ApplicationUser>, settings: JwtSettings, model: LoginModel,
                       now: int, jti: string, verify: PasswordVerifier, sign: Signer)
    : (r: LoginResponse)
    ensures r.Ok? <==>
              model.Username in users && verify(users[model.Username].PasswordHash, model.Password)
    ensures r.Ok? ==>
              var user := users[model.Username];
              r.token.payload.claims == AuthClaims(user.UserName, jti, user.Roles) &&
              r.expiration == ValidTo(r.token) == now + TokenLifetime &&
              r.token.header.alg == HmacSha256 &&
              r.token.payload.iss == settings.ValidIssuer &&
              r.token.payload.aud == settings.ValidAudience &&
              SignedWith(r.token, settings.Secret, sign)
  {
    if model.Username in users && verify(users[model.Username].PasswordHash, model.Password) then
      var user := users[model.Username];
      var token := CreateToken(settings, AuthClaims(user.UserName, jti, user.Roles), now, sign);
      Ok(token, ValidTo(token))
    else
      Unauthorized
  }

  /** What a registration answers and the user table afterwards. */
  function RegisterResult(users: map<string, ApplicationUser>, model: RegisterModel, stamp: string,
                          hasher: PasswordHasher, validate: UserValidator)
    : (r: (RegisterResponse, map<string, ApplicationUser>))
    ensures r.0 == UserExistsResponse || r.0 == CreationFailedResponse || r.0 == CreatedResponse
    ensures r.0 == UserExistsResponse <==> model.Username in users
    ensures r.0 == CreatedResponse <==>
              model.Username !in users && validate(NewUser(model, stamp), model.Password) == []
    ensures r.0 == CreatedResponse ==>
              r.1 == users[model.Username :=
                ApplicationUser(model.Username, model.Email, stamp, hasher(model.Password), [])]
    ensures r.0 != CreatedResponse ==> r.1 == users
    ensures |r.1| == if r.0 == CreatedResponse then |users| + 1 else |users|
    ensures WellKeyed(users) ==> WellKeyed(r.1)
  {
    if model.Username in users then
      (UserExistsResponse, users)
    else
      var (result, users') := CreateResult(users, NewUser(model, stamp), model.Password, hasher, validate);
      assert result.Succeeded? ==> users' == users[model.Username :=
        ApplicationUser(model.Username, model.Email, stamp, hasher(model.Password), [])];
      (if result.Succeeded? then CreatedResponse else CreationFailedResponse, users')
  }

  class AuthenticateController {
    const userManager: UserStore
    const configuration: JwtSettings

    constructor (userManager: UserStore, configuration: JwtSettings)
      ensures this.userManager == userManager && this.configuration == configuration
    {
      this.userManager := userManager;
      this.configuration := configuration;
    }

    /** POST api/authenticate/login. Reads the store; the model's store has
        no state that a password check could change. */
    method Login(model: LoginModel, now: int, guid: string, verify: PasswordVerifier, sign: Signer)
      returns (r: LoginResponse)
      ensures r == LoginResult(userManager.users, configuration, model, now, guid, verify, sign)
    {
      var user := userManager.FindByName(model.Username);
      if user.Some? && verify(user.value.PasswordHash, model.Password) {
        var userRoles := user.value.Roles;
        var authClaims := [Claim(Name, user.value.UserName), Claim(Jti, guid)];
        authClaims := authClaims + RoleClaims(userRoles);
        var token := CreateToken(configuration, authClaims, now, sign);
        return Ok(token, ValidTo(token));
      }
      return Unauthorized;
    }

    /** POST api/authenticate/register: refuse a taken name without touching
        the store, otherwise ask the store to create the user once and map
        its answer to one of the fixed responses. */
    method Register(model: RegisterModel, stamp: string, hasher: PasswordHasher, validate: UserValidator)
      returns (r: RegisterResponse)
      requires userManager.Valid()
      modifies userManager
      ensures userManager.Valid()
      ensures (r, userManager.users) ==
                RegisterResult(old(userManager.users), model, stamp, hasher, validate)
    {
      var userExists := userManager.FindByName(model.Username);
      if userExists.Some? {
        return UserExistsResponse;
      }
      var user := NewUser(model, stamp);
      var result := userManager.Create(user, model.Password, hasher, validate);
      if result.Failed? {
        return CreationFailedResponse;
      }
      return CreatedResponse;
    }
  }

  /** A successful login's claims are: the stored user's name, the fresh
      identifier, then one Role claim per stored role in the stored order;
      there is exactly one Name claim and one identifier claim. In a store
      that files every user under its own name, the Name claim is the name
      the client logged in with. */
  lemma LoginClaims(users: map<string, ApplicationUser>, settings: JwtSettings, model: LoginModel,
                    now: int, jti: string, verify: PasswordVerifier, sign: Signer)
    requires LoginResult(users, settings, model, now, jti, verify, sign).Ok?
    ensures var cs := LoginResult(users, settings, model, now, jti, verify, sign).token.payload.claims;
      var roles := users[model.Username].Roles;
      |cs| == 2 + |roles| &&
      cs[0] == Claim(Name, users[model.Username].UserName) && cs[1] == Claim(Jti, jti) &&
      (WellKeyed(users) ==> cs[0] == Claim(Name, model.Username)) &&
      (forall i :: 2 <= i < |cs| ==> cs[i] == Claim(Role, roles[i - 2])) &&
      Count(cs, Name) == 1 && Count(cs, Jti) == 1 && Count(cs, Role) == |roles|
  {
    var user := users[model.Username];
    AuthClaimsCounts(user.UserName, jti, user.Roles);
  }

  /** Two logins that draw different identifiers issue different tokens. */
  lemma DistinctIdentifiers(users: map<string, ApplicationUser>, settings: JwtSettings,
                            model1: LoginModel, model2: LoginModel, now1: int, now2: int,
                            jti1: string, jti2: string, verify: PasswordVerifier, sign: Signer)
    requires jti1 != jti2
    requires LoginResult(users, settings, model1, now1, jti1, verify, sign).Ok?
    requires LoginResult(users, settings, model2, now2, jti2, verify, sign).Ok?
    ensures var t1 := LoginResult(users, settings, model1, now1, jti1, verify, sign).token;
      var t2 := LoginResult(users, settings, model2, now2, jti2, verify, sign).token;
      t1.payload.claims[1] != t2.payload.claims[1] && t1 != t2
  {
  }

  /** In a well-configured application, a token just issued is accepted by
      a protected endpoint of the same application, with the claims it was
      issued with, until the clock skew after its expiry; after that it is
      refused as expired. */
  lemma IssuedTokenValidates(users: map<string, ApplicationUser>, settings: JwtSettings,
                             model: LoginModel, now: int, jti: string, verify: PasswordVerifier,
                             sign: Signer, later: int)
    requires WellConfigured(settings)
    requires LoginResult(users, settings, model, now, jti, verify, sign).Ok?
    ensures var r := LoginResult(users, settings, model, now, jti, verify, sign);
      var v := ValidateToken(ConfiguredParameters(settings), r.token, later, sign);
      (later <= r.expiration + DefaultClockSkew ==> v == Valid(r.token.payload.claims)) &&
      (later > r.expiration + DefaultClockSkew ==> v == Expired)
  {
  }

  /** An issued token whose signature has been altered is never accepted;
      once a signing key exists, it is refused for its signature. */
  lemma AlteredSignatureRejected(users: map<string, ApplicationUser>, settings: JwtSettings,
                                 model: LoginModel, now: int, jti: string, verify: PasswordVerifier,
                                 sign: Signer, forged: string, later: int)
    requires LoginResult(users, settings, model, now, jti, verify, sign).Ok?
    requires forged != LoginResult(users, settings, model, now, jti, verify, sign).token.signature
    ensures var t := LoginResult(users, settings, model, now, jti, verify, sign).token;
      var v := ValidateToken(ConfiguredParameters(settings), t.(signature := forged), later, sign);
      !v.Valid? && (settings.Secret != "" ==> v == InvalidSignature)
  {
  }

  /** With an empty secret, or a blank issuer or audience, in the
      configuration, no token the application issues is ever accepted by its
      own endpoints. */
  lemma MisconfiguredTokensRejected(users: map<string, ApplicationUser>, settings: JwtSettings,
                                    model: LoginModel, now: int, jti: string, verify: PasswordVerifier,
                                    sign: Signer, later: int)
    requires !WellConfigured(settings)
    requires LoginResult(users, settings, model, now, jti, verify, sign).Ok?
    ensures var t := LoginResult(users, settings, model, now, jti, verify, sign).token;
      !ValidateToken(ConfiguredParameters(settings), t, later, sign).Valid?
  {
  }

  /** A token issued under one issuer is refused by an application that
      expects another, whatever secret either side uses, so even when the
      two share the signing secret. */
  lemma ForeignIssuerRejected(users: map<string, ApplicationUser>, issuing: JwtSettings,
                              checking: JwtSettings, model: LoginModel, now: int, jti: string,
                              verify: PasswordVerifier, sign: Signer, later: int)
    requires issuing.ValidIssuer != checking.ValidIssuer
    requires LoginResult(users, issuing, model, now, jti, verify, sign).Ok?
    ensures var t := LoginResult(users, issuing, model, now, jti, verify, sign).token;
      !ValidateToken(ConfiguredParameters(checking), t, later, sign).Valid?
  {
  }

  /** Registering the same name twice: unless the first attempt was refused
      by the store's rules, the second is refused as a duplicate and leaves
      the store as the first left it; the store grows by at most one user,
      and by exactly one when the first attempt succeeded. */
  lemma RegisterTwice(users: map<string, ApplicationUser>, model: RegisterModel,
                      stamp1: string, stamp2: string, hasher: PasswordHasher, validate: UserValidator)
    ensures var (r1, users1) := RegisterResult(users, model, stamp1, hasher, validate);
      var (r2, users2) := RegisterResult(users1, model, stamp2, hasher, validate);
      (r1 != CreationFailedResponse ==> r2 == UserExistsResponse && users2 == users1) &&
      (r1 == CreatedResponse ==> |users2| == |users| + 1) &&
      |users2| <= |users| + 1
  {
  }

  /** A user who has just registered can log in with the password they chose,
      provided the store's hasher and verifier agree on it; the token names
      them and carries no roles. */
  lemma RegisterThenLogin(users: map<string, ApplicationUser>, model: RegisterModel, stamp: string,
                          hasher: PasswordHasher, validate: UserValidator, settings: JwtSettings,
                          now: int, jti: string, verify: PasswordVerifier, sign: Signer)
    requires verify(hasher(model.Password), model.Password)
    requires RegisterResult(users, model, stamp, hasher, validate).0 == CreatedResponse
    ensures var users' := RegisterResult(users, model, stamp, hasher, validate).1;
      var r := LoginResult(users', settings, LoginModel(model.Username, model.Password), now, jti, verify, sign);
      r.Ok? && r.token.payload.claims == [Claim(Name, model.Username), Claim(Jti, jti)]
  {
  }
}
