/**
 * Issuing and checking the access and refresh tokens. The signing library is
 * a pair of function parameters: `sign(payload, secret, options)` returns a
 * token, `verify(token, secret)` returns the decoded payload or throws. The
 * two secrets come from the environment and may be unset.
 */
module Token {
  import opened Wrappers

  /** A claim value in a decoded payload. Numbers are modelled as integers. */
  datatype Claim = NumberClaim(n: int) | StringClaim(s: string) | OtherClaim

  type Claims = map<string, Claim>

  /** What verification decodes: a bare string payload, or an object of claims. */
  datatype Decoded = DecodedString(text: string) | DecodedObject(claims: Claims)

  datatype TokenPayload = TokenPayload(id: int)

  /** `JWT_ACCESS_TOKEN_SECRET` and `JWT_REFRESH_TOKEN_SECRET` as read from the environment. */
  datatype Secrets = Secrets(access: Option<string>, refresh: Option<string>)

  datatype SignOptions = SignOptions(expiresIn: string)

  datatype TokenPair = TokenPair(accessToken: string, refreshToken: string)

  type Signer = (Claims, string, SignOptions) -> string

  type Verifier = (string, string) -> Result<Decoded, string>

  const AccessSecretName := "JWT_ACCESS_TOKEN_SECRET"
  const RefreshSecretName := "JWT_REFRESH_TOKEN_SECRET"
  const AccessExpiry := SignOptions("1h")
  const RefreshExpiry := SignOptions("7d")
  const InvalidPayload := "Invalid token payload"

  /** The configured secret, or the error "<name> is not configured" when it is unset or empty. */
  function AssertSecret(secret: Option<string>, name: string): (r: Result<string, string>)
    ensures r.Ok? <==> secret.Some? && secret.value != ""
    ensures r.Ok? ==> r.value == secret.value
    ensures r.Err? ==> r.error == name + " is not configured"
  {
    if !TruthyString(secret) then Err(name + " is not configured") else Ok(secret.value)
  }

  /**
   * Accepts only an object payload whose `id` is a number, and keeps only
   * that id. A string payload is not an object; an empty one is also falsy.
   */
  function ParsePayload(decoded: Decoded): (r: Result<TokenPayload, string>)
    ensures r.Ok? <==> decoded.DecodedObject? && "id" in decoded.claims && decoded.claims["id"].NumberClaim?
    ensures r.Ok? ==> r.value == TokenPayload(decoded.claims["id"].n)
    ensures r.Err? ==> r.error == InvalidPayload
  {
    if decoded.DecodedString? || "id" !in decoded.claims || !decoded.claims["id"].NumberClaim? then
      Err(InvalidPayload)
    else
      Ok(TokenPayload(decoded.claims["id"].n))
  }

  /** Every claim other than `id` is dropped: payloads that agree on `id` parse alike. */
  lemma ParsePayloadKeepsOnlyId(c1: Claims, c2: Claims)
    requires ("id" in c1) == ("id" in c2)
    requires "id" in c1 ==> c1["id"] == c2["id"]
    ensures ParsePayload(DecodedObject(c1)) == ParsePayload(DecodedObject(c2))
  {
  }

  /** The payload both tokens carry: `{ id: userId }`. */
  function IdClaims(userId: int): Claims {
    map["id" := NumberClaim(userId)]
  }

  /** Signs `{ id: userId }` with each secret, after checking the access secret and then the refresh secret. */
  function GenerateTokens(userId: int, secrets: Secrets, sign: Signer): (r: Result<TokenPair, string>)
    ensures !TruthyString(secrets.access) ==> r == Err(AccessSecretName + " is not configured")
    ensures TruthyString(secrets.access) && !TruthyString(secrets.refresh) ==>
              r == Err(RefreshSecretName + " is not configured")
    ensures r.Ok? <==> TruthyString(secrets.access) && TruthyString(secrets.refresh)
    ensures r.Ok? ==> r.value.accessToken == sign(IdClaims(userId), secrets.access.value, AccessExpiry)
    ensures r.Ok? ==> r.value.refreshToken == sign(IdClaims(userId), secrets.refresh.value, RefreshExpiry)
  {
    var accessSecret := AssertSecret(secrets.access, AccessSecretName);
    if accessSecret.Err? then Err(accessSecret.error)
    else
      var refreshSecret := AssertSecret(secrets.refresh, RefreshSecretName);
      if refreshSecret.Err? then Err(refreshSecret.error)
      else
        Ok(TokenPair(sign(IdClaims(userId), accessSecret.value, AccessExpiry),
                     sign(IdClaims(userId), refreshSecret.value, RefreshExpiry)))
  }

  /** Checks the secret, verifies the token with it, and returns the payload's id as `userId`. */
  function VerifyWith(token: string, secret: Option<string>, name: string, verify: Verifier): (r: Result<int, string>)
    ensures r.Ok? <==> TruthyString(secret) && verify(token, secret.value).Ok?
                       && ParsePayload(verify(token, secret.value).value).Ok?
    ensures r.Ok? ==> r.value == ParsePayload(verify(token, secret.value).value).value.id
  {
    var s := AssertSecret(secret, name);
    if s.Err? then Err(s.error)
    else
      var decoded := verify(token, s.value);
      if decoded.Err? then Err(decoded.error)
      else
        var payload := ParsePayload(decoded.value);
        if payload.Err? then Err(payload.error) else Ok(payload.value.id)
  }

  /** Verification under the access secret; an unset one fails naming `JWT_ACCESS_TOKEN_SECRET`. */
  function VerifyAccessToken(token: string, secrets: Secrets, verify: Verifier): (r: Result<int, string>)
    ensures !TruthyString(secrets.access) ==> r == Err(AccessSecretName + " is not configured")
    ensures r.Ok? <==> TruthyString(secrets.access) && verify(token, secrets.access.value).Ok?
                       && ParsePayload(verify(token, secrets.access.value).value).Ok?
    ensures r.Ok? ==> r.value == ParsePayload(verify(token, secrets.access.value).value).value.id
  {
    VerifyWith(token, secrets.access, AccessSecretName, verify)
  }

  /** Verification under the refresh secret; an unset one fails naming `JWT_REFRESH_TOKEN_SECRET`. */
  function VerifyRefreshToken(token: string, secrets: Secrets, verify: Verifier): (r: Result<int, string>)
    ensures !TruthyString(secrets.refresh) ==> r == Err(RefreshSecretName + " is not configured")
    ensures r.Ok? <==> TruthyString(secrets.refresh) && verify(token, secrets.refresh.value).Ok?
                       && ParsePayload(verify(token, secrets.refresh.value).value).Ok?
    ensures r.Ok? ==> r.value == ParsePayload(verify(token, secrets.refresh.value).value).value.id
  {
    VerifyWith(token, secrets.refresh, RefreshSecretName, verify)
  }

  /** Each verification reads only its own secret. */
  lemma VerifyUsesOwnSecret(token: string, s1: Secrets, s2: Secrets, verify: Verifier)
    ensures s1.access == s2.access ==> VerifyAccessToken(token, s1, verify) == VerifyAccessToken(token, s2, verify)
    ensures s1.refresh == s2.refresh ==> VerifyRefreshToken(token, s1, verify) == VerifyRefreshToken(token, s2, verify)
  {
  }

  /**
   * What the signing library is taken to promise: a token verifies under the
   * secret it was signed with, and its decoded payload contains the signed
   * claims (possibly with more, such as `iat` and `exp`).
   */
  ghost predicate SignedTokensVerify(sign: Signer, verify: Verifier) {
    forall c, s, o :: verify(sign(c, s, o), s).Ok? && verify(sign(c, s, o), s).value.DecodedObject? &&
                      c.Items <= verify(sign(c, s, o), s).value.claims.Items
  }

  /** ... and a token does not verify under a secret other than the one it was signed with. */
  ghost predicate SecretsNotInterchangeable(sign: Signer, verify: Verifier) {
    forall c, s1, s2, o :: s1 != s2 ==> verify(sign(c, s1, o), s2).Err?
  }

  /** Both issued tokens verify back to the user they were issued for, each with its own secret. */
  lemma GeneratedTokensVerify(userId: int, secrets: Secrets, sign: Signer, verify: Verifier)
    requires SignedTokensVerify(sign, verify)
    requires TruthyString(secrets.access) && TruthyString(secrets.refresh)
    ensures VerifyAccessToken(GenerateTokens(userId, secrets, sign).value.accessToken, secrets, verify) == Ok(userId)
    ensures VerifyRefreshToken(GenerateTokens(userId, secrets, sign).value.refreshToken, secrets, verify) == Ok(userId)
  {
    var pair := GenerateTokens(userId, secrets, sign).value;
    var c := IdClaims(userId);
    assert ("id", NumberClaim(userId)) in c.Items;
    var d1 := verify(sign(c, secrets.access.value, AccessExpiry), secrets.access.value);
    assert ("id", NumberClaim(userId)) in d1.value.claims.Items;
    var d2 := verify(sign(c, secrets.refresh.value, RefreshExpiry), secrets.refresh.value);
    assert ("id", NumberClaim(userId)) in d2.value.claims.Items;
  }

  /** With two different secrets, an access token is refused where a refresh token is expected, and back. */
  lemma TokensNotInterchangeable(userId: int, secrets: Secrets, sign: Signer, verify: Verifier)
    requires SecretsNotInterchangeable(sign, verify)
    requires TruthyString(secrets.access) && TruthyString(secrets.refresh)
    requires secrets.access != secrets.refresh
    ensures VerifyRefreshToken(GenerateTokens(userId, secrets, sign).value.accessToken, secrets, verify).Err?
    ensures VerifyAccessToken(GenerateTokens(userId, secrets, sign).value.refreshToken, secrets, verify).Err?
  {
    var c := IdClaims(userId);
    assert verify(sign(c, secrets.access.value, AccessExpiry), secrets.refresh.value).Err?;
    assert verify(sign(c, secrets.refresh.value, RefreshExpiry), secrets.access.value).Err?;
  }
}
