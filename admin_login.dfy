/**
 * The admin login (`POST /api/admin/auth/login`): the submitted credentials
 * are compared with the configured ones, which default to `admin` /
 * `changeme123` when unset or empty; a match sets the session cookie.
 */
module AdminLogin {
  import opened Wrappers
  import opened Text
  import opened Http

  /** The environment the handler reads. `None` is an unset variable. */
  datatype Env = Env(adminUsername: Option<string>, adminPassword: Option<string>, nodeEnv: Option<string>)

  /** A cookie as the handler sets it. */
  datatype Cookie = Cookie(
    name: string,
    value: string,
    path: string,
    httpOnly: bool,
    secure: bool,
    sameSite: string,
    maxAge: nat)

  /** The reply and the cookie set with it, if any. */
  datatype LoginResult = LoginResult(reply: Reply<bool>, cookie: Option<Cookie>)

  const DefaultUsername := "admin"
  const DefaultPassword := "changeme123"

  /** `env.ADMIN_USERNAME || 'admin'` */
  function ConfiguredUsername(env: Env): (r: string)
    ensures Truthy(env.adminUsername) ==> r == env.adminUsername.value
    ensures !Truthy(env.adminUsername) ==> r == DefaultUsername
  {
    OrElse(env.adminUsername, Some(DefaultUsername)).value
  }

  /** `env.ADMIN_PASSWORD || 'changeme123'` */
  function ConfiguredPassword(env: Env): (r: string)
    ensures Truthy(env.adminPassword) ==> r == env.adminPassword.value
    ensures !Truthy(env.adminPassword) ==> r == DefaultPassword
  {
    OrElse(env.adminPassword, Some(DefaultPassword)).value
  }

  /** The session cookie: valid for a day on the whole site, HTTP-only, strict, secure only in production. */
  function SessionCookie(env: Env): (c: Cookie)
    ensures c.name == "admin_session" && c.value == "authenticated"
    ensures c.path == "/" && c.httpOnly && c.sameSite == "strict"
    ensures c.secure <==> env.nodeEnv == Some("production")
    ensures c.maxAge == 86400
  {
    Cookie("admin_session", "authenticated", "/", true, env.nodeEnv == Some("production"), "strict", 60 * 60 * 24)
  }

  /**
   * The login decision on the body's `username` and `password` (`None` when
   * absent): success with the session cookie exactly when both equal the
   * configured values, otherwise a 401 and no cookie.
   */
  function Login(username: Option<string>, password: Option<string>, env: Env): (r: LoginResult)
    ensures r.reply.Ok? <==> username == Some(ConfiguredUsername(env)) && password == Some(ConfiguredPassword(env))
    ensures r.reply.Ok? ==> r.reply == Ok(OK, true) && r.cookie == Some(SessionCookie(env))
    ensures r.reply.Err? ==> r.reply == Err(UNAUTHORIZED, "Invalid credentials") && r.cookie.None?
  {
    if username == Some(ConfiguredUsername(env)) && password == Some(ConfiguredPassword(env)) then
      LoginResult(Ok(OK, true), Some(SessionCookie(env)))
    else
      LoginResult(Err(UNAUTHORIZED, "Invalid credentials"), None)
  }

  /** With neither variable set, or both set empty, `admin` / `changeme123` logs in. */
  lemma DefaultCredentials(env: Env)
    requires !Truthy(env.adminUsername) && !Truthy(env.adminPassword)
    ensures Login(Some("admin"), Some("changeme123"), env).reply.Ok?
  {
  }

  /** An empty variable behaves as an unset one. */
  lemma EmptyIsUnset(username: Option<string>, password: Option<string>, env: Env)
    ensures Login(username, password, env.(adminUsername := Some(""))) == Login(username, password, env.(adminUsername := None))
    ensures Login(username, password, env.(adminPassword := Some(""))) == Login(username, password, env.(adminPassword := None))
  {
  }

  /** Once a username is configured, the default one no longer logs in. */
  lemma ConfiguredReplacesDefault(password: Option<string>, env: Env)
    requires Truthy(env.adminUsername) && env.adminUsername.value != DefaultUsername
    ensures Login(Some(DefaultUsername), password, env).reply.Err?
    ensures Login(Some(DefaultUsername), password, env).cookie.None?
  {
  }
}
