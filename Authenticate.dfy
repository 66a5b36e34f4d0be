/**
 * The authentication middleware. It reads the access-token cookie; with no
 * token (or an empty one) it lets an optional route through anonymously and
 * answers 401 otherwise. With a token it verifies it and looks the user up;
 * either of those throwing is treated exactly like a missing token. On
 * success it sets `req.user` to the lookup result, which may be null, and
 * passes the request on whether or not the route is optional.
 */
module Authenticate {
  import opened Wrappers
  import opened Records
  import Token

  const AccessTokenCookieName := "access-token"

  datatype AuthenticateOptions = AuthenticateOptions(optional: bool)

  /** `authenticate()` without arguments. */
  const DefaultOptions := AuthenticateOptions(optional := false)

  /** `req.user`: never assigned, or assigned the lookup result (a user or null). */
  datatype RequestUser = Unassigned | Assigned(row: Option<User>)

  /** What the middleware does with the request. */
  datatype Decision =
    | PassOn                          // next() with req.user untouched
    | PassOnAs(user: Option<User>)    // req.user := user; next()
    | Reject(status: int, message: string)

  type TokenCheck = string -> Result<int, string>

  type UserLookup = int -> Result<Option<User>, string>

  /** The access token the request carries, if its cookie is set to a non-empty value. */
  function AccessToken(cookies: map<string, string>): (r: Option<string>)
    ensures r.Some? <==> AccessTokenCookieName in cookies && cookies[AccessTokenCookieName] != ""
    ensures r.Some? ==> r.value == cookies[AccessTokenCookieName] && r.value != ""
  {
    if AccessTokenCookieName in cookies && cookies[AccessTokenCookieName] != "" then
      Some(cookies[AccessTokenCookieName])
    else None
  }

  function Anonymous(options: AuthenticateOptions): Decision {
    if options.optional then PassOn else Reject(401, "Unauthorized")
  }

  /** The decision, given the verifier of access tokens and the user lookup (either may throw). */
  function Decide(options: AuthenticateOptions, cookies: map<string, string>,
                  verify: TokenCheck, findUser: UserLookup): (d: Decision)
    ensures d.Reject? ==> !options.optional && d == Reject(401, "Unauthorized")
    ensures d.PassOnAs? ==>
              AccessToken(cookies).Some? && verify(AccessToken(cookies).value).Ok?
              && findUser(verify(AccessToken(cookies).value).value) == Ok(d.user)
  {
    var token := AccessToken(cookies);
    if token.None? then Anonymous(options)
    else
      var userId := verify(token.value);
      if userId.Err? then Anonymous(options)
      else
        var user := findUser(userId.value);
        if user.Err? then Anonymous(options)
        else PassOnAs(user.value)
  }

  /**
   * With the token check the middleware uses, verification of the cookie's
   * token under the access secret: an unset or empty secret makes every
   * request anonymous (401 on a mandatory route), and a request passes on
   * with a user only when its token verified under the access secret to the
   * id that was looked up.
   */
  lemma DecideWithAccessSecret(options: AuthenticateOptions, cookies: map<string, string>, secrets: Token.Secrets,
                               verify: Token.Verifier, findUser: UserLookup)
    ensures var d := Decide(options, cookies, (tok: string) => Token.VerifyAccessToken(tok, secrets, verify), findUser);
            && (!TruthyString(secrets.access) ==> d == Anonymous(options))
            && (d.PassOnAs? ==>
                  && TruthyString(secrets.access) && AccessToken(cookies).Some?
                  && Token.VerifyAccessToken(AccessToken(cookies).value, secrets, verify).Ok?
                  && findUser(Token.VerifyAccessToken(AccessToken(cookies).value, secrets, verify).value) == Ok(d.user))
  {
  }

  /** Without a usable token an optional route goes on anonymously and a mandatory one gets 401. */
  lemma MissingToken(options: AuthenticateOptions, cookies: map<string, string>,
                     verify: TokenCheck, findUser: UserLookup)
    requires AccessTokenCookieName !in cookies || cookies[AccessTokenCookieName] == ""
    ensures options.optional ==> Decide(options, cookies, verify, findUser) == PassOn
    ensures !options.optional ==> Decide(options, cookies, verify, findUser) == Reject(401, "Unauthorized")
  {
  }

  /** A failed verification or lookup is indistinguishable from having no token. */
  lemma FailureLikeMissingToken(options: AuthenticateOptions, cookies: map<string, string>,
                                verify: TokenCheck, findUser: UserLookup)
    requires AccessToken(cookies).Some?
    requires verify(AccessToken(cookies).value).Err?
             || findUser(verify(AccessToken(cookies).value).value).Err?
    ensures Decide(options, cookies, verify, findUser)
            == Decide(options, cookies - {AccessTokenCookieName}, verify, findUser)
  {
  }

  /** A verified token always passes the request on with the lookup result, optional or not. */
  lemma VerifiedTokenPassesOn(options: AuthenticateOptions, cookies: map<string, string>,
                              verify: TokenCheck, findUser: UserLookup, token: string, userId: int)
    requires AccessTokenCookieName in cookies && cookies[AccessTokenCookieName] == token && token != ""
    requires verify(token) == Ok(userId) && findUser(userId).Ok?
    ensures Decide(options, cookies, verify, findUser) == PassOnAs(findUser(userId).value)
  {
  }

  /** The id a handler sees as its caller: `req.user.id` when `req.user` is truthy. */
  function CallerId(user: RequestUser): Option<int> {
    if user.Assigned? && user.row.Some? then Some(user.row.value.id) else None
  }

  class Request {
    var cookies: map<string, string>
    var user: RequestUser

    constructor (cookies: map<string, string>)
      ensures this.cookies == cookies && user == Unassigned
    {
      this.cookies := cookies;
      user := Unassigned;
    }

    /** Runs the middleware on this request; `next` is called iff the result is not a rejection. */
    method Authenticate(options: AuthenticateOptions, verify: TokenCheck, findUser: UserLookup)
      returns (d: Decision)
      modifies this`user
      ensures d == Decide(options, cookies, verify, findUser)
      ensures user == if d.PassOnAs? then Assigned(d.user) else old(user)
    {
      var accessToken := AccessToken(cookies);
      if accessToken.None? {
        if options.optional {
          return PassOn;
        }
        return Reject(401, "Unauthorized");
      }
      var userId := verify(accessToken.value);
      if userId.Err? {
        return Anonymous(options);
      }
      var found := findUser(userId.value);
      if found.Err? {
        return Anonymous(options);
      }
      user := Assigned(found.value);
      return PassOnAs(found.value);
    }
  }

  /**
   * A route behind the mandatory middleware runs its handler only with an
   * authenticated caller, unless the lookup found no row: then `req.user` is
   * null and the handler sees an anonymous caller.
   */
  lemma MandatoryRouteCaller(cookies: map<string, string>, verify: TokenCheck, findUser: UserLookup)
    requires Decide(DefaultOptions, cookies, verify, findUser) != Reject(401, "Unauthorized")
    ensures Decide(DefaultOptions, cookies, verify, findUser).PassOnAs?
    ensures var d := Decide(DefaultOptions, cookies, verify, findUser);
            CallerId(Assigned(d.user)).Some? <==> d.user.Some?
  {
  }
}
