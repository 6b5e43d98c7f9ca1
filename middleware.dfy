/** The request guards: token extraction and the authentication guard
    (frontend/temp_repo/backend/middleware/index.js, and its standalone twin
    backend/auth/requireAuth.js), the role guards of both middleware files
    (frontend/temp_repo/backend/middleware/roleCheck.js) and the defaults of
    the central error handler. A guard's answer is a `Verdict`: carry on to
    the next handler, or reject with a status and the JSON body's `error`
    and `message`. */
module Middleware {
  import opened Common
  import opened Text

  /** The decoded access-token payload; `role` may be absent from it. */
  datatype Claims = Claims(id: string, role: Option<string>, email: string)

  /** `verifyAccess`: the decoded payload, or the message of the error it
      throws. */
  type Verifier = string -> Result<Claims, string>

  datatype Verdict = Continue | Reject(status: int, error: string, message: string)

  const BearerPrefix: string := "Bearer "
  const NoTokenMessage: string := "No authentication token provided"
  const InvalidTokenMessage: string := "Invalid authentication token"

  /** `extractToken`: the Authorization header without `Bearer `, otherwise
      the `accessToken` cookie, otherwise nothing. */
  function ExtractToken(authorization: Option<string>, cookie: Option<string>): (token: Option<string>)
    ensures token.Some? ==> Truthy(authorization) || Truthy(cookie)
    ensures token.Some? && !(Truthy(authorization) && StartsWith(authorization.value, BearerPrefix)) ==> token == cookie
  {
    if Truthy(authorization) && StartsWith(authorization.value, BearerPrefix) then Some(authorization.value[7..])
    else if Truthy(cookie) then cookie
    else None
  }

  /** The token written after `Bearer ` is the token extracted. */
  lemma BearerRoundTrip(token: string, cookie: Option<string>)
    ensures ExtractToken(Some(BearerPrefix + token), cookie) == Some(token)
  {
    assert (BearerPrefix + token)[..7] == BearerPrefix;
  }

  /** A `Bearer ` header takes precedence: the cookie is never looked at. */
  lemma HeaderTakesPrecedence(authorization: string, cookie1: Option<string>, cookie2: Option<string>)
    requires StartsWith(authorization, BearerPrefix)
    ensures ExtractToken(Some(authorization), cookie1) == ExtractToken(Some(authorization), cookie2)
  {
  }

  /** Without a `Bearer ` header the cookie is the token, if it is set. */
  lemma CookieFallback(authorization: Option<string>, cookie: string)
    requires !(Truthy(authorization) && StartsWith(authorization.value, BearerPrefix))
    ensures ExtractToken(authorization, Some(cookie)) == if cookie == "" then None else Some(cookie)
  {
  }

  /** The authentication decision of both `requireAuth`s: the decoded
      payload, or the 401 message. */
  function Authenticate(token: Option<string>, verify: Verifier): (r: Result<Claims, string>)
    ensures !Truthy(token) ==> r == Err(NoTokenMessage)
    ensures r.Ok? <==> Truthy(token) && verify(token.value).Ok?
    ensures r.Ok? ==> r == verify(token.value)
    ensures r.Err? ==> r.error != ""
  {
    if !Truthy(token) then Err(NoTokenMessage)
    else match verify(token.value)
      case Ok(claims) => Ok(claims)
      case Err(message) => Err(if message != "" then message else InvalidTokenMessage)
  }

  /** A header of exactly `Bearer ` yields an empty token, which is
      rejected even when a usable cookie is present. */
  lemma EmptyBearerRejected(cookie: Option<string>, verify: Verifier)
    ensures Authenticate(ExtractToken(Some(BearerPrefix), cookie), verify) == Err(NoTokenMessage)
  {
    assert BearerPrefix[7..] == "";
  }

  /** One HTTP exchange as the guards see it: the credentials it arrived
      with, the `req.user` they attach and the `X-User-Role` header. */
  class Exchange {
    const authorization: Option<string>
    const accessTokenCookie: Option<string>
    var user: Option<Claims>
    var roleHeader: Option<string>

    constructor(authorization: Option<string>, accessTokenCookie: Option<string>)
      ensures this.authorization == authorization && this.accessTokenCookie == accessTokenCookie
      ensures user == None && roleHeader == None
    {
      this.authorization := authorization;
      this.accessTokenCookie := accessTokenCookie;
      user := None;
      roleHeader := None;
    }

    /** `requireAuth` of the middleware file: on success attach the payload
        and echo its role in `X-User-Role`; otherwise 401 and nothing
        attached. */
    method RequireAuth(verify: Verifier) returns (v: Verdict)
      modifies this
      ensures match Authenticate(ExtractToken(authorization, accessTokenCookie), verify)
        case Ok(claims) => v == Continue && user == Some(claims) && roleHeader == claims.role
        case Err(message) =>
          v == Reject(401, "Unauthorized", message) && user == old(user) && roleHeader == old(roleHeader)
    {
      var token := ExtractToken(authorization, accessTokenCookie);
      var decision := Authenticate(token, verify);
      match decision {
        case Ok(claims) =>
          user := Some(claims);
          roleHeader := claims.role;
          v := Continue;
        case Err(message) =>
          v := Reject(401, "Unauthorized", message);
      }
    }

    /** backend/auth/requireAuth.js: the token is picked by an if/else into
        a local; the decision is that of `RequireAuth`, and no role header
        is written. */
    method RequireAuthStandalone(verify: Verifier) returns (v: Verdict)
      modifies this
      ensures roleHeader == old(roleHeader)
      ensures match Authenticate(ExtractToken(authorization, accessTokenCookie), verify)
        case Ok(claims) => v == Continue && user == Some(claims)
        case Err(message) => v == Reject(401, "Unauthorized", message) && user == old(user)
    {
      var token: Option<string> := None;
      if Truthy(authorization) && StartsWith(authorization.value, BearerPrefix) {
        token := Some(authorization.value[7..]);
      } else if Truthy(accessTokenCookie) {
        token := accessTokenCookie;
      }
      if !Truthy(token) {
        return Reject(401, "Unauthorized", NoTokenMessage);
      }
      var decoded := verify(token.value);
      if decoded.Err? {
        return Reject(401, "Unauthorized", if decoded.error != "" then decoded.error else InvalidTokenMessage);
      }
      user := Some(decoded.value);
      v := Continue;
    }
  }

  /* ---------------- role guards ---------------- */

  /** `requireRole(...roles)`: 403 unless there is a user whose role is
      listed. */
  function RequireRole(user: Option<Claims>, roles: seq<string>): (v: Verdict)
    ensures v == Continue || v == Reject(403, "Forbidden", "Insufficient role")
  {
    if user.None? || user.value.role.None? || user.value.role.value !in roles then Reject(403, "Forbidden", "Insufficient role")
    else Continue
  }

  /** Whether `req.user?.role` equals `role`. */
  predicate HasRole(user: Option<Claims>, role: string) {
    user.Some? && user.value.role == Some(role)
  }

  /** `isAdmin`. */
  function IsAdmin(user: Option<Claims>): (v: Verdict)
    ensures v == Continue || v == Reject(403, "Admin access required", "")
  {
    if !HasRole(user, "admin") then Reject(403, "Admin access required", "") else Continue
  }

  /** `isStudent`. */
  function IsStudent(user: Option<Claims>): (v: Verdict)
    ensures v == Continue || v == Reject(403, "Student access required", "")
  {
    if !HasRole(user, "student") then Reject(403, "Student access required", "") else Continue
  }

  /** `requireRole` lets a user through exactly when the user holds one of
      the listed roles. */
  lemma RequireRoleMeaning(user: Option<Claims>, roles: seq<string>)
    ensures RequireRole(user, roles) == Continue <==> exists i :: 0 <= i < |roles| && HasRole(user, roles[i])
  {
    if user.Some? && user.value.role.Some? && user.value.role.value in roles {
      var i :| 0 <= i < |roles| && roles[i] == user.value.role.value;
      assert HasRole(user, roles[i]);
    }
  }

  /** Allowing more roles never shuts anyone out. */
  lemma RequireRoleWidens(user: Option<Claims>, roles: seq<string>, more: seq<string>)
    requires RequireRole(user, roles) == Continue
    ensures RequireRole(user, roles + more) == Continue && RequireRole(user, more + roles) == Continue
  {
  }

  /** The two middleware files agree: `isAdmin` is `requireRole('admin')`
      and `isStudent` is `requireRole('student')`, up to the message. */
  lemma GuardsAgree(user: Option<Claims>)
    ensures IsAdmin(user).Continue? <==> RequireRole(user, ["admin"]).Continue?
    ensures IsStudent(user).Continue? <==> RequireRole(user, ["student"]).Continue?
  {
  }

  /** No user passes both `isAdmin` and `isStudent`; a request without a
      user passes neither. */
  lemma NoUserPassesBothGuards(user: Option<Claims>)
    ensures !(IsAdmin(user).Continue? && IsStudent(user).Continue?)
    ensures user.None? ==> IsAdmin(user).Reject? && IsStudent(user).Reject?
  {
  }

  /* ---------------- error handler ---------------- */

  /** The fields of a thrown error the handler reads; a non-numeric
      `status` is `None`. */
  datatype ErrorInfo = ErrorInfo(status: Option<int>, code: Option<string>, message: Option<string>)

  /** `errorHandler`: `err.status || 500`, `err.code || 'ServerError'`,
      `err.message || 'Something went wrong'`. */
  function ErrorHandler(err: ErrorInfo): (v: Verdict)
    ensures v.Reject? && v.status != 0 && v.error != "" && v.message != ""
    ensures v.status == 500 <==> !NumberTruthy(err.status) || err.status.value == 500
    ensures v.error == "ServerError" <==> !Truthy(err.code) || err.code.value == "ServerError"
    ensures NumberTruthy(err.status) ==> v.status == err.status.value
    ensures Truthy(err.code) ==> v.error == err.code.value
    ensures Truthy(err.message) ==> v.message == err.message.value
    ensures !Truthy(err.message) ==> v.message == "Something went wrong"
  {
    Reject(if NumberTruthy(err.status) then err.status.value else 500,
           if Truthy(err.code) then err.code.value else "ServerError",
           if Truthy(err.message) then err.message.value else "Something went wrong")
  }
}
