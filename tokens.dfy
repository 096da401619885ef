/** The claim list a successful login assembles and the JSON Web Token
    (RFC 7519) that carries it, signed with HMAC-SHA-256 ("HS256", section 3.2
    of RFC 7518). Serialisation and the HMAC computation itself belong to the
    token library and are represented by a signer function. */
module Tokens {

  /** The three claim types the controller emits. */
  datatype ClaimType = Name | Jti | Role

  /** The type string each claim type is written with (ClaimTypes.Name,
      JwtRegisteredClaimNames.Jti, ClaimTypes.Role). */
  function TypeUri(t: ClaimType): string
  {
    match t
    case Name => "http://schemas.xmlsoap.org/ws/2005/05/identity/claims/name"
    case Jti => "jti"
    case Role => "http://schemas.microsoft.com/ws/2008/06/identity/claims/role"
  }

  datatype Claim = Claim(Type: ClaimType, Value: string)

  /** The projection of the user's roles to Role claims, one per role, in the
      order the store lists the roles. */
  function RoleClaims(roles: seq<string>): (cs: seq<Claim>)
    ensures |cs| == |roles|
    ensures forall i :: 0 <= i < |roles| ==> cs[i] == Claim(Role, roles[i])
  {
    if roles == [] then [] else [Claim(Role, roles[0])] + RoleClaims(roles[1..])
  }

  /** The claim list of a login: the user's name, a fresh token identifier
      (section 4.1.7 of RFC 7519), then the Role claims, one per role in
      the order given. */
  function AuthClaims(userName: string, jti: string, roles: seq<string>): (cs: seq<Claim>)
    ensures |cs| == 2 + |roles|
    ensures cs[0] == Claim(Name, userName) && cs[1] == Claim(Jti, jti)
    ensures forall i :: 2 <= i < |cs| ==> cs[i] == Claim(Role, roles[i - 2])
  {
    [Claim(Name, userName), Claim(Jti, jti)] + RoleClaims(roles)
  }

  /** The three type strings differ, so claims told apart by ClaimType are
      told apart by the type string the token carries. */
  lemma TypeUriInjective(a: ClaimType, b: ClaimType)
    ensures TypeUri(a) == TypeUri(b) <==> a == b
  {
  }

  /** How many claims of type t a list holds. */
  function Count(cs: seq<Claim>, t: ClaimType): nat
  {
    if cs == [] then 0 else (if cs[0].Type == t then 1 else 0) + Count(cs[1..], t)
  }

  lemma {:induction false} CountAppend(a: seq<Claim>, b: seq<Claim>, t: ClaimType)
    ensures Count(a + b, t) == Count(a, t) + Count(b, t)
  {
    if a == [] {
      assert a + b == b;
    } else {
      assert (a + b)[1..] == a[1..] + b;
      CountAppend(a[1..], b, t);
    }
  }

  /** Role claims hold one claim per role and nothing but Role claims. */
  lemma {:induction false} RoleClaimsCount(roles: seq<string>, t: ClaimType)
    ensures Count(RoleClaims(roles), t) == if t == Role then |roles| else 0
  {
    if roles != [] {
      RoleClaimsCount(roles[1..], t);
    }
  }

  /** The claim list holds exactly one Name claim, one Jti claim and one
      Role claim per role. */
  lemma AuthClaimsCounts(userName: string, jti: string, roles: seq<string>)
    ensures var cs := AuthClaims(userName, jti, roles);
      Count(cs, Name) == 1 && Count(cs, Jti) == 1 && Count(cs, Role) == |roles|
  {
    var head := [Claim(Name, userName), Claim(Jti, jti)];
    forall t: ClaimType ensures Count(head + RoleClaims(roles), t) == Count(head, t) + Count(RoleClaims(roles), t) {
      CountAppend(head, RoleClaims(roles), t);
    }
    RoleClaimsCount(roles, Name);
    RoleClaimsCount(roles, Jti);
    RoleClaimsCount(roles, Role);
  }

  /** The signing algorithm the controller asks for (SecurityAlgorithms.HmacSha256). */
  const HmacSha256 := "HS256"

  /** The lifetime of an issued token: two hours, in seconds. */
  const TokenLifetime := 2 * 60 * 60

  /** The JOSE header of the token. */
  datatype JwtHeader = JwtHeader(alg: string, typ: string)

  /** The payload: issuer, audience, expiry (the "exp" claim, section 4.1.4 of
      RFC 7519, in seconds since the epoch) and the claim list. */
  datatype JwtPayload = JwtPayload(iss: string, aud: string, exp: int, claims: seq<Claim>)

  /** A signed token as the library writes it. */
  datatype Jwt = Jwt(header: JwtHeader, payload: JwtPayload, signature: string)

  /** The HMAC-SHA-256 signature over header and payload under a key. */
  type Signer = (JwtHeader, JwtPayload, string) -> string

  /** The configuration section "JWT": the signing secret and the issuer and
      audience written into (and expected in) every token. */
  datatype JwtSettings = JwtSettings(Secret: string, ValidIssuer: string, ValidAudience: string)

  /** The token carries the signature the signer computes under the key. */
  predicate SignedWith(t: Jwt, key: string, sign: Signer)
  {
    t.signature == sign(t.header, t.payload, key)
  }

  /** The token's expiry (JwtSecurityToken.ValidTo). */
  function ValidTo(t: Jwt): int
  {
    t.payload.exp
  }

  /** new JwtSecurityToken(...) followed by WriteToken: a token for the claims,
      issued at now, with the configured issuer and audience, expiring two
      hours later, signed with the configured secret using HS256. An empty
      issuer or audience is left out of the payload; here it stays the empty
      string, which the validator treats the same way. */
  function CreateToken(settings: JwtSettings, claims: seq<Claim>, now: int, sign: Signer): (t: Jwt)
    ensures ValidTo(t) == now + TokenLifetime && ValidTo(t) > now
    ensures t.header.alg == HmacSha256
    ensures t.payload.iss == settings.ValidIssuer && t.payload.aud == settings.ValidAudience
    ensures t.payload.claims == claims
    ensures SignedWith(t, settings.Secret, sign)
  {
    var header := JwtHeader(HmacSha256, "JWT");
    var payload := JwtPayload(settings.ValidIssuer, settings.ValidAudience, now + TokenLifetime, claims);
    Jwt(header, payload, sign(header, payload, settings.Secret))
  }
}
