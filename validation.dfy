/** How a protected endpoint checks an incoming bearer token: the JwtBearer
    handler with the validation parameters the application configures at
    start-up (expected issuer and audience, the shared signing secret) and the
    library's defaults for the rest (lifetime checked, five minutes of clock
    skew). The checks run in the library's order: signature, lifetime,
    audience, issuer. */
module Validation {
  import opened Tokens

  /** TokenValidationParameters.DefaultClockSkew, in seconds. */
  const DefaultClockSkew := 300

  datatype TokenValidationParameters = TokenValidationParameters(
    ValidIssuer: string,
    ValidAudience: string,
    IssuerSigningKey: string,
    ClockSkew: nat)

  /** The parameters the application installs: issuer, audience and key
      all taken from the same "JWT" configuration section the issuer uses. */
  function ConfiguredParameters(settings: JwtSettings): (p: TokenValidationParameters)
    ensures p.ValidIssuer == settings.ValidIssuer && p.ValidAudience == settings.ValidAudience
    ensures p.IssuerSigningKey == settings.Secret && p.ClockSkew == DefaultClockSkew
  {
    TokenValidationParameters(settings.ValidIssuer, settings.ValidAudience, settings.Secret, DefaultClockSkew)
  }

  /** The characters .NET counts as white space (char.IsWhiteSpace). */
  predicate IsWhiteSpace(c: char)
  {
    '\t' <= c <= '\r' || c == ' ' || c == '\U{85}' || c == '\U{A0}' || c == '\U{1680}' ||
    '\U{2000}' <= c <= '\U{200A}' || c == '\U{2028}' || c == '\U{2029}' ||
    c == '\U{202F}' || c == '\U{205F}' || c == '\U{3000}'
  }

  /** A string the validator treats as missing (string.IsNullOrWhiteSpace):
      empty or only white space. */
  predicate Blank(s: string)
  {
    forall i :: 0 <= i < |s| ==> IsWhiteSpace(s[i])
  }

  /** The audience comparison with the library's default of ignoring one
      trailing '/': neither side may be blank, and the two are equal or
      differ only by a '/' at the end of one of them. */
  predicate AudienceMatches(tokenAudience: string, validAudience: string)
  {
    !Blank(tokenAudience) && !Blank(validAudience) &&
    (tokenAudience == validAudience ||
     tokenAudience == validAudience + "/" ||
     validAudience == tokenAudience + "/")
  }

  /** The issuer comparison: the token's issuer must not be blank and must be
      the expected one, character for character. */
  predicate IssuerMatches(tokenIssuer: string, validIssuer: string)
  {
    !Blank(tokenIssuer) && tokenIssuer == validIssuer
  }

  /** A configuration under which issued tokens can be accepted: a secret
      to build the signing key from, and an issuer and an audience that
      are not blank. */
  predicate WellConfigured(settings: JwtSettings)
  {
    settings.Secret != "" && !Blank(settings.ValidIssuer) && !Blank(settings.ValidAudience)
  }

  /** The outcome of validating one token: its claims, or why it was refused.
      NoSigningKey stands for the handler failing to build its key from an
      empty secret, so that it never gets as far as looking at the token. */
  datatype ValidationResult =
    | Valid(claims: seq<Claim>)
    | NoSigningKey
    | InvalidSignature
    | Expired
    | InvalidAudience
    | InvalidIssuer

  /** Validation of a token presented at time now (seconds since the epoch).
      An empty secret gives no signing key, and then nothing is accepted.
      Otherwise a token is accepted exactly when its signature is the one the
      key gives, it has not expired beyond the clock skew, its audience matches
      the expected one up to a trailing '/', and its issuer is the expected
      one; the accepted token's claims are exposed. A blank audience or
      issuer is refused even when the validator was configured with that
      same blank value. */
  function ValidateToken(p: TokenValidationParameters, t: Jwt, now: int, sign: Signer)
    : (r: ValidationResult)
    ensures r.Valid? <==>
              p.IssuerSigningKey != "" &&
              SignedWith(t, p.IssuerSigningKey, sign) && now <= ValidTo(t) + p.ClockSkew &&
              AudienceMatches(t.payload.aud, p.ValidAudience) &&
              IssuerMatches(t.payload.iss, p.ValidIssuer)
    ensures r.Valid? ==> r.claims == t.payload.claims
    ensures r.Valid? ==> !Blank(t.payload.aud) && !Blank(t.payload.iss) && !Blank(p.ValidAudience)
    ensures p.IssuerSigningKey == "" <==> r == NoSigningKey
    ensures p.IssuerSigningKey != "" && !SignedWith(t, p.IssuerSigningKey, sign) ==> r == InvalidSignature
    ensures (p.IssuerSigningKey != "" && SignedWith(t, p.IssuerSigningKey, sign) &&
             now > ValidTo(t) + p.ClockSkew) ==> r == Expired
  {
    if p.IssuerSigningKey == "" then NoSigningKey
    else if !SignedWith(t, p.IssuerSigningKey, sign) then InvalidSignature
    else if ValidTo(t) + p.ClockSkew < now then Expired
    else if !AudienceMatches(t.payload.aud, p.ValidAudience) then InvalidAudience
    else if !IssuerMatches(t.payload.iss, p.ValidIssuer) then InvalidIssuer
    else Valid(t.payload.claims)
  }

  /** A token audience with a trailing '/' is accepted against the same
      audience configured without it, and the other way round. */
  lemma TrailingSlashAudience(audience: string)
    requires !Blank(audience)
    ensures AudienceMatches(audience + "/", audience) && AudienceMatches(audience, audience + "/")
  {
    assert (audience + "/")[|audience|] == '/';
  }

  /** A no-break space (U+00A0) alone is blank, so an issuer or audience
      made of it counts as missing. */
  lemma NoBreakSpaceIsBlank()
    ensures Blank("\U{A0}") && Blank(" \U{3000}")
  {
  }
}
