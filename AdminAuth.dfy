/**
 * Admin authorisation: the `requireAdmin` middleware of middleware/adminAuth.js and the
 * `adminLoginHandler` of controllers/adminAuthController.js.
 *
 * Environment variables are inputs, the empty string standing for an unset one. `jwt.verify`
 * is a `Verifier` and `jwt.sign` a `Signer`, both parameters: the middleware's default secret
 * ('changeme') and the controller's ('devsecret') live inside them and are not modelled.
 * Header and body fields are strings, the empty string standing for an absent one.
 */
module AdminAuth {
  import opened Wrappers
  import opened Http
  import opened JsText
  import opened Secrets

  // ---------------------------------------------------------------- requireAdmin

  /** `req.headers.authorization || req.headers.Authorization || ''`. */
  function HeaderOf(authorization: string, capitalized: string): string {
    if authorization != "" then authorization else capitalized
  }

  /** `auth.split(' ')[1]`; a header that starts with "Bearer " always has a second field. */
  function BearerToken(auth: string): (token: string)
    requires StartsWith(auth, "Bearer ")
    ensures var rest := auth[7..];
      token == if ' ' in rest then rest[..IndexOfChar(rest, ' ')] else rest
  {
    assert auth[..7] == "Bearer ";
    assert auth[6] == ' ' && forall j :: 0 <= j < 6 ==> auth[j] != ' ';
    SplitFirst(auth, ' ', 6);
    Split(auth, ' ')[1]
  }

  /** A token without spaces, sent as "Bearer <token>", is read back whole. */
  lemma BearerTokenRoundTrip(token: string)
    requires ' ' !in token
    ensures StartsWith("Bearer " + token, "Bearer ")
    ensures BearerToken("Bearer " + token) == token
  {
    assert ("Bearer " + token)[..7] == "Bearer ";
    assert ("Bearer " + token)[7..] == token;
  }

  /** `(process.env.ADMIN_EMAIL || '').trim().toLowerCase()`. */
  function AdminKey(adminEmailEnv: string): string {
    ToLower(Trim(adminEmailEnv))
  }

  /** The fallback: a configured ADMIN_EMAIL that the payload's email matches, ignoring case. */
  predicate MatchesAdminEmail(p: Payload, adminEmailEnv: string) {
    AdminKey(adminEmailEnv) != "" && p.email != "" && ToLower(p.email) == AdminKey(adminEmailEnv)
  }

  /**
   * `requireAdmin`: Ok(payload) is `next()` with `req.admin` set to the decoded payload.
   * The branches run in the order of the source.
   */
  function RequireAdmin(authorization: string, capitalized: string, verify: Verifier, adminEmailEnv: string): Reply<Payload> {
    var auth := HeaderOf(authorization, capitalized);
    if auth == "" || !StartsWith(auth, "Bearer ") then Fail(Unauthorized, "Missing auth token")
    else
      match verify(BearerToken(auth))
      case None => Fail(Unauthorized, "Invalid or expired token")
      case Some(p) =>
        if p.isAdmin then Ok(p)
        else if MatchesAdminEmail(p, adminEmailEnv) then Ok(p)
        else Fail(Forbidden, "Not an admin")
  }

  /**
   * The decision in full: 401 without a "Bearer " header or with a token the verifier
   * refuses; otherwise access exactly when the payload says isAdmin or carries the configured
   * admin email, and 403 in every other case. A granted request carries the decoded payload.
   */
  lemma RequireAdminCases(authorization: string, capitalized: string, verify: Verifier, adminEmailEnv: string)
    ensures var auth := HeaderOf(authorization, capitalized);
      var r := RequireAdmin(authorization, capitalized, verify, adminEmailEnv);
      && (!StartsWith(auth, "Bearer ") ==> r == Fail(Unauthorized, "Missing auth token"))
      && (StartsWith(auth, "Bearer ") ==>
            var decoded := verify(BearerToken(auth));
            && (decoded.None? ==> r == Fail(Unauthorized, "Invalid or expired token"))
            && (decoded.Some? ==>
                  && (r.Ok? <==> decoded.value.isAdmin || MatchesAdminEmail(decoded.value, adminEmailEnv))
                  && (r.Ok? ==> r.body == decoded.value)
                  && (r.Fail? ==> r == Fail(Forbidden, "Not an admin"))))
  {
    var auth := HeaderOf(authorization, capitalized);
    if StartsWith(auth, "Bearer ") {
      assert auth != "";
    }
  }

  /** With ADMIN_EMAIL unset or blank only an isAdmin payload is let through. */
  lemma NoAdminEmailOnlyFlag(authorization: string, capitalized: string, verify: Verifier, adminEmailEnv: string)
    requires Trim(adminEmailEnv) == ""
    ensures var r := RequireAdmin(authorization, capitalized, verify, adminEmailEnv);
      r.Ok? ==> r.body.isAdmin
  {
    assert ToLower("") == "";
  }

  // ---------------------------------------------------------------- adminLoginHandler

  /** The configured credentials: `(process.env.X || '').trim()`. */
  datatype AdminEnv = AdminEnv(adminEmail: string, adminPassword: string)

  /** `jwt.sign(payload, JWT_SECRET, { expiresIn: TOKEN_TTL })`, with secret and lifetime inside. */
  type Signer = Payload -> string

  /** The success body: the token, and `admin: { email }` echoing the configured address. */
  datatype AdminGrant = AdminGrant(token: string, claims: Payload, adminEmail: string)

  /** The claims an admin token carries; the user id claim is absent. */
  function AdminClaims(adminEmail: string): Payload {
    Payload("", adminEmail, true, "admin")
  }

  /** `adminLoginHandler`: the guard chain, then the grant. */
  function AdminLogin(email: string, password: string, env: AdminEnv, sign: Signer): Reply<AdminGrant> {
    var adminEmail := Trim(env.adminEmail);
    var adminPassword := Trim(env.adminPassword);
    if email == "" || password == "" then Fail(BadRequest, "Email and password required")
    else if adminEmail == "" || adminPassword == "" then Fail(ServerError, "Server not configured for admin login")
    else if ToLower(Trim(email)) != ToLower(adminEmail) || password != adminPassword then
      Fail(Unauthorized, "Invalid credentials")
    else
      var claims := AdminClaims(adminEmail);
      Ok(AdminGrant(sign(claims), claims, adminEmail))
  }

  /**
   * Missing fields are a 400; an unconfigured server a 500 whatever the credentials; then
   * access is granted exactly when the email matches the configured one after trimming and
   * ignoring case and the password matches exactly. Every mismatch gets the same 401, and a
   * grant carries the admin claims for the configured (trimmed) email.
   */
  lemma AdminLoginCases(email: string, password: string, env: AdminEnv, sign: Signer)
    ensures var r := AdminLogin(email, password, env, sign);
      var adminEmail := Trim(env.adminEmail);
      var configured := adminEmail != "" && Trim(env.adminPassword) != "";
      && (email == "" || password == "" ==> r == Fail(BadRequest, "Email and password required"))
      && (email != "" && password != "" && !configured ==> r == Fail(ServerError, "Server not configured for admin login"))
      && (email != "" && password != "" && configured ==>
            && (r.Ok? <==> ToLower(Trim(email)) == ToLower(adminEmail) && password == Trim(env.adminPassword))
            && (r.Fail? ==> r == Fail(Unauthorized, "Invalid credentials")))
      && (r.Ok? ==>
            && r.body.claims == Payload("", adminEmail, true, "admin")
            && r.body.adminEmail == adminEmail
            && r.body.token == sign(r.body.claims))
  {
  }

  /** The address may be sent in any case and with surrounding white space. */
  lemma AdminLoginIgnoresCase(email: string, other: string, password: string, env: AdminEnv, sign: Signer)
    requires email != "" && other != ""
    requires ToLower(Trim(other)) == ToLower(Trim(email))
    ensures AdminLogin(other, password, env, sign) == AdminLogin(email, password, env, sign)
  {
  }

  /**
   * A token issued by the login, presented to the middleware as "Bearer <token>", is let
   * through with the issued claims, provided the middleware's verifier decodes what the
   * controller's signer produced (the two secrets agree) and the token has no space.
   */
  lemma LoginThenAccess(email: string, password: string, env: AdminEnv, sign: Signer,
                        verify: Verifier, adminEmailEnv: string, capitalized: string)
    requires AdminLogin(email, password, env, sign).Ok?
    requires var g := AdminLogin(email, password, env, sign).body;
      verify(g.token) == Some(g.claims) && ' ' !in g.token
    ensures var g := AdminLogin(email, password, env, sign).body;
      RequireAdmin("Bearer " + g.token, capitalized, verify, adminEmailEnv) == Ok(g.claims)
  {
    var g := AdminLogin(email, password, env, sign).body;
    BearerTokenRoundTrip(g.token);
  }

  /**
   * The granted claims also satisfy the middleware's fallback: with ADMIN_EMAIL the same,
   * a payload carrying the issued email would pass even without the isAdmin flag.
   */
  lemma GrantedEmailIsAdminEmail(email: string, password: string, env: AdminEnv, sign: Signer)
    requires AdminLogin(email, password, env, sign).Ok?
    ensures var g := AdminLogin(email, password, env, sign).body;
      MatchesAdminEmail(g.claims.(isAdmin := false), env.adminEmail)
  {
    var adminEmail := Trim(env.adminEmail);
    assert AdminKey(env.adminEmail) == ToLower(adminEmail);
    assert ToLower(adminEmail) != "" by {
      assert |ToLower(adminEmail)| == |adminEmail|;
    }
  }
}
