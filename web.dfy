/** What the authentication routes share: the signing key, the HMAC primitive, the service URL
    handed to CAS and the `cas_user` cookie. */
module Web {
  import opened Util
  import opened Encoding

  /** HMAC-SHA-256 (RFC 2104) of a message under a key, both as bytes; left uninterpreted. */
  type Hmac = (seq<Byte>, seq<Byte>) -> seq<Byte>

  const DefaultSigningKey: string := "dev-secret-change-me"

  /** `process.env.CAS_SIGNING_KEY || 'dev-secret-change-me'`: never empty. */
  function SigningKey(env: Option<string>): (key: string)
    ensures key != ""
    ensures Truthy(env) ==> key == env.value
    ensures !Truthy(env) ==> key == DefaultSigningKey
  {
    if Truthy(env) then env.value else DefaultSigningKey
  }

  const CallbackPath: string := "/api/auth/cas/callback?redirect="

  /** `${origin}/api/auth/cas/callback?redirect=${encodeURIComponent(target)}`. */
  function ServiceUrl(origin: string, target: string): (u: string)
    ensures StartsWith(u, origin + CallbackPath)
    ensures PercentDecode(u[|origin + CallbackPath|..]) == Utf8(target)
  {
    var u := origin + CallbackPath + EncodeUriComponent(target);
    assert u[|origin + CallbackPath|..] == EncodeUriComponent(target);
    DecodeEncode(target);
    u
  }

  const CookieName: string := "cas_user"

  /** The attributes of a `Set-Cookie` the routes emit (section 4.1 of RFC 6265). */
  datatype Cookie = Cookie(
    name: string,
    value: string,
    httpOnly: bool,
    secure: bool,
    sameSite: string,
    path: string,
    maxAge: int)

  /** The session cookie set by the callback: eight hours, HTTP only, secure, `SameSite=Lax`. */
  function SessionCookie(value: string): (c: Cookie)
    ensures c.name == CookieName && c.value == value
    ensures c.httpOnly && c.secure && c.sameSite == "lax" && c.path == "/"
    ensures c.maxAge == 8 * 60 * 60
  {
    Cookie(CookieName, value, true, true, "lax", "/", 28800)
  }

  /** The cookie logout sets: same name and path, empty, `Max-Age=0` so the user agent drops it
      at once (section 5.2.2 of RFC 6265). */
  function ExpiredCookie(): (c: Cookie)
    ensures c.name == CookieName && c.value == "" && c.maxAge == 0
    ensures c.httpOnly && c.secure && c.sameSite == "lax" && c.path == "/"
  {
    Cookie(CookieName, "", true, true, "lax", "/", 0)
  }

  /** A redirect response, with the cookie it sets, if any. */
  datatype RedirectResponse = RedirectResponse(location: string, cookie: Option<Cookie>)

  /** `url.searchParams.get('redirect') || '/'`. */
  function RedirectTarget(param: Option<string>): (target: string)
    ensures target != ""
    ensures Truthy(param) ==> target == param.value
    ensures !Truthy(param) ==> target == "/"
  {
    if Truthy(param) then param.value else "/"
  }
}
