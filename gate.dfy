/** The request gate of `src/middleware.ts`: which requests reach the application, which are sent
    to the CAS login page, and the one store mutation it may make. */
module Gate {
  import opened Util
  import opened Encoding
  import opened SessionStore
  import opened Web

  /** Whether WebCrypto's `subtle` is available, and the HMAC it computes when it is. */
  datatype MacImpl = Subtle(hmac: Hmac) | NoSubtle

  /** `hmacHex(key, data)`: the bytes of the MAC (or, without `subtle`, of the data itself),
      each rendered as exactly two lowercase hexadecimal digits. */
  function HmacHex(impl: MacImpl, key: string, data: string): (h: string)
    ensures |h| % 2 == 0 && forall k :: 0 <= k < |h| ==> IsLowerHex(h[k])
    ensures Unhex(h) == (if impl.Subtle? then impl.hmac(Utf8(key), Utf8(data)) else Utf8(data))
  {
    var bytes := if impl.Subtle? then impl.hmac(Utf8(key), Utf8(data)) else Utf8(data);
    UnhexHex(bytes);
    Hex(bytes)
  }

  /** Without `subtle` the "signature" of `sid` is a function of `sid` alone: anyone can compute
      it, whatever the signing key. */
  lemma HmacHexWithoutSubtleIsPublic(key: string, data: string)
    ensures HmacHex(NoSubtle, key, data) == Hex(Utf8(data))
    ensures HmacHex(NoSubtle, key, data) == HmacHex(NoSubtle, DefaultSigningKey, data)
  {
  }

  // ---------------------------------------------------------------------------------------
  // Requests and decisions

  /** What the gate looks at: the path, the origin and full URL for the login redirect, the
      value of the `cas_user` cookie if one was sent, and the `User-Agent` header. */
  datatype Request = Request(
    pathname: string,
    origin: string,
    href: string,
    cookie: Option<string>,
    userAgent: Option<string>)

  /** `NextResponse.next()` or `NextResponse.redirect(location)`. */
  datatype Decision = Next | Redirect(location: string)

  datatype GateOutcome = GateOutcome(decision: Decision, state: StoreState)

  /** Framework and API paths are never gated. */
  predicate IsBypassed(pathname: string)
    // Only absolute paths under one of the four prefixes are skipped; the pages, `/` among
    // them, are gated.
    ensures IsBypassed(pathname) ==> |pathname| >= 5 && pathname[0] == '/' && pathname != "/"
  {
    || StartsWith(pathname, "/api/") || StartsWith(pathname, "/_next/")
    || StartsWith(pathname, "/static/") || StartsWith(pathname, "/favicon.ico")
  }

  const CasLogin: string := "https://cas.unicaen.fr/login?service="

  /** The CAS login URL whose `service` parameter brings the browser back to the callback,
      which in turn sends it on to `href`. */
  function LoginUrl(origin: string, href: string): (u: string)
    ensures StartsWith(u, CasLogin)
    ensures PercentDecode(u[|CasLogin|..]) == Utf8(ServiceUrl(origin, href))
  {
    var u := CasLogin + EncodeUriComponent(ServiceUrl(origin, href));
    assert u[|CasLogin|..] == EncodeUriComponent(ServiceUrl(origin, href));
    DecodeEncode(ServiceUrl(origin, href));
    u
  }

  /** `const [sid, sig] = value.split('.')`: the text before the first dot, and the text between
      the first and the second dot (empty when there is no dot, like `undefined`). */
  function CookieParts(value: string): (p: (string, string))
    ensures '.' !in p.0 && '.' !in p.1
    ensures StartsWith(value, p.0)
    ensures |p.0| == |value| ==> p.1 == ""
    ensures |p.0| < |value| ==> value[|p.0|] == '.' && StartsWith(value[|p.0| + 1..], p.1)
    // The second segment runs to the end of the value or to the next dot.
    ensures |p.0| < |value| ==> |p.0| + 1 + |p.1| == |value| || value[|p.0| + 1 + |p.1|] == '.'
  {
    var parts := Split(value, '.');
    SplitHead(value, '.');
    if |parts| == 1 then
      JoinSplit(value, '.');
      (parts[0], "")
    else
      CookiePartsSecond(value);
      (parts[0], parts[1])
  }

  lemma {:induction false} CookiePartsSecond(value: string)
    requires |Split(value, '.')| > 1
    ensures |Split(value, '.')[0]| < |value|
    ensures StartsWith(value[|Split(value, '.')[0]| + 1..], Split(value, '.')[1])
    ensures var n := |Split(value, '.')[0]| + 1 + |Split(value, '.')[1]|;
      n == |value| || (n < |value| && value[n] == '.')
  {
    var parts := Split(value, '.');
    JoinSplit(value, '.');
    assert Join(parts, '.') == parts[0] + ['.'] + Join(parts[1..], '.');
    var rest := Join(parts[1..], '.');
    assert value[|parts[0]| + 1..] == rest;
    assert parts[1..][0] == parts[1];
    JoinStartsWithHead(parts[1..], '.');
    SplitJoin(parts[1..], '.');
    SplitHead(rest, '.');
  }

  lemma JoinStartsWithHead(parts: seq<string>, c: char)
    requires |parts| >= 1
    ensures StartsWith(Join(parts, c), parts[0])
  {
    if |parts| > 1 {
      assert Join(parts, c) == parts[0] + [c] + Join(parts[1..], c);
      assert (parts[0] + [c] + Join(parts[1..], c))[..|parts[0]|] == parts[0];
    }
  }

  /** The conditions under which a gated request carrying a cookie is let through: a non-empty
      session id and signature, the signature is the id's MAC, the session exists, and its
      recorded User-Agent hash is empty or matches this request's User-Agent. */
  predicate Admitted(req: Request, st: StoreState, impl: MacImpl, key: string)
    // The cookie begins with `<id>.<MAC of id>` for a stored session.
    ensures Admitted(req, st, impl, key) ==>
      && req.cookie.Some?
      && var sid := CookieParts(req.cookie.value).0;
      && sid != "" && sid in st.sessions
      && StartsWith(req.cookie.value, sid + "." + HmacHex(impl, key, sid))
  {
    && req.cookie.Some?
    && var (sid, sig) := CookieParts(req.cookie.value);
    && sid != "" && sig != ""
    && sig == HmacHex(impl, key, sid)
    && Get(st, sid).Some?
    && (!Truthy(Get(st, sid).value.uaHash) || Get(st, sid).value.uaHash.value == HmacHex(impl, key, UserAgentText(req)))
  }

  /** `request.headers.get('user-agent') || ''`. */
  function UserAgentText(req: Request): string
  {
    if Truthy(req.userAgent) then req.userAgent.value else ""
  }

  /** The gate as the source means it (lines 9-53 of the middleware). */
  function GateDecision(req: Request, st: StoreState, impl: MacImpl, keyEnv: Option<string>): (r: GateOutcome)
    ensures IsBypassed(req.pathname) ==> r == GateOutcome(Next, st)
    ensures !IsBypassed(req.pathname) ==> (r.decision == Next <==> Admitted(req, st, impl, SigningKey(keyEnv)))
    ensures r.decision.Redirect? ==> r.decision.location == LoginUrl(req.origin, req.href)
    ensures r.state == st || (r.decision.Redirect? && req.cookie.Some? && r.state == DeleteById(st, CookieParts(req.cookie.value).0).state)
  {
    var login := GateOutcome(Redirect(LoginUrl(req.origin, req.href)), st);
    if IsBypassed(req.pathname) then GateOutcome(Next, st)
    else if req.cookie.None? then login
    else
      var (sid, sig) := CookieParts(req.cookie.value);
      var key := SigningKey(keyEnv);
      if sid == "" || sig == "" then login
      else if sig != HmacHex(impl, key, sid) then login
      else if Get(st, sid).None? then login
      else
        var session := Get(st, sid).value;
        if Truthy(session.uaHash) && session.uaHash.value != HmacHex(impl, key, UserAgentText(req)) then
          GateOutcome(Redirect(LoginUrl(req.origin, req.href)), DeleteById(st, sid).state)
        else GateOutcome(Next, st)
  }

  /** The gate as written: line 7 returns `NextResponse.next()` before anything is inspected. */
  function GateAsWritten(req: Request, st: StoreState, impl: MacImpl, keyEnv: Option<string>): (o: GateOutcome)
    ensures o.decision == Next && o.state == st
  {
    GateOutcome(Next, st)
  }

  /** As written, every request passes and the store is never touched, whatever it carries. */
  lemma GateAsWrittenLetsEverythingThrough(req: Request, st: StoreState, impl: MacImpl, keyEnv: Option<string>)
    ensures GateAsWritten(req, st, impl, keyEnv) == GateOutcome(Next, st)
  {
  }

  /** A page request without any cookie: the written gate lets it through, the intended gate
      sends it to the CAS login page. */
  lemma {:induction false} GateAsWrittenAdmitsAnonymous(st: StoreState, impl: MacImpl, keyEnv: Option<string>)
    ensures var req := Request("/", "https://portal.example", "https://portal.example/", None, None);
      && GateAsWritten(req, st, impl, keyEnv).decision == Next
      && GateDecision(req, st, impl, keyEnv).decision.Redirect?
  {
    var req := Request("/", "https://portal.example", "https://portal.example/", None, None);
    assert !StartsWith("/", "/api/") && !StartsWith("/", "/_next/");
    assert !StartsWith("/", "/static/") && !StartsWith("/", "/favicon.ico");
  }

  // ---------------------------------------------------------------------------------------
  // Properties of the intended gate

  /** A signature that is not the MAC of the id is refused, and the store is left alone. */
  lemma BadSignatureRejected(req: Request, st: StoreState, impl: MacImpl, keyEnv: Option<string>)
    requires !IsBypassed(req.pathname) && req.cookie.Some?
    requires CookieParts(req.cookie.value).1 != HmacHex(impl, SigningKey(keyEnv), CookieParts(req.cookie.value).0)
    ensures GateDecision(req, st, impl, keyEnv) == GateOutcome(Redirect(LoginUrl(req.origin, req.href)), st)
  {
  }

  /** A missing cookie, or one with an empty id or signature, ends in the login redirect with the
      store unchanged, exactly as if no cookie had been sent. */
  lemma {:induction false} MalformedCookieIsNoCookie(req: Request, st: StoreState, impl: MacImpl, keyEnv: Option<string>)
    requires !IsBypassed(req.pathname) && req.cookie.Some?
    requires CookieParts(req.cookie.value).0 == "" || CookieParts(req.cookie.value).1 == ""
    ensures GateDecision(req, st, impl, keyEnv) == GateDecision(req.(cookie := None), st, impl, keyEnv)
    ensures GateDecision(req, st, impl, keyEnv).state == st
  {
  }

  /** A well-signed cookie for a session that no longer exists is refused without mutation. */
  lemma UnknownSessionRejected(req: Request, st: StoreState, impl: MacImpl, keyEnv: Option<string>)
    requires !IsBypassed(req.pathname) && req.cookie.Some?
    requires Get(st, CookieParts(req.cookie.value).0) == None
    ensures GateDecision(req, st, impl, keyEnv) == GateOutcome(Redirect(LoginUrl(req.origin, req.href)), st)
  {
  }

  /** The one mutation: a valid cookie presented from another browser (a User-Agent whose hash
      differs from the recorded one) destroys the session, and the request is redirected. */
  lemma UserAgentMismatchDestroysSession(req: Request, st: StoreState, impl: MacImpl, keyEnv: Option<string>)
    requires !IsBypassed(req.pathname) && req.cookie.Some?
    requires var (sid, sig) := CookieParts(req.cookie.value);
      && sid != "" && sig == HmacHex(impl, SigningKey(keyEnv), sid) && sig != ""
      && Get(st, sid).Some? && Truthy(Get(st, sid).value.uaHash)
      && Get(st, sid).value.uaHash.value != HmacHex(impl, SigningKey(keyEnv), UserAgentText(req))
    ensures var r := GateDecision(req, st, impl, keyEnv);
      && r.decision.Redirect?
      && Get(r.state, CookieParts(req.cookie.value).0) == None
      && !GateDecision(req, r.state, impl, keyEnv).decision.Next?
  {
  }

  /** Whatever the gate decides, the two-index invariant of the store survives. */
  lemma GateKeepsConsistent(req: Request, st: StoreState, impl: MacImpl, keyEnv: Option<string>)
    requires Consistent(st)
    ensures Consistent(GateDecision(req, st, impl, keyEnv).state)
  {
    if !IsBypassed(req.pathname) && req.cookie.Some? {
      DeleteByIdKeepsConsistent(st, CookieParts(req.cookie.value).0);
    }
  }

  /** A cookie whose id and signature hold no dot splits back into them. */
  lemma CookiePartsOfSigned(sid: string, sig: string)
    requires '.' !in sid && '.' !in sig
    ensures CookieParts(sid + "." + sig) == (sid, sig)
  {
    SplitPrefix(sid, sig, '.');
    SplitNoSeparator(sig, '.');
    assert sid + "." + sig == sid + ['.'] + sig;
  }

  /** Only the first two dot-separated segments matter: anything after a second dot is ignored. */
  lemma CookiePartsIgnoresRest(sid: string, sig: string, rest: string)
    requires '.' !in sid && '.' !in sig
    ensures CookieParts(sid + "." + sig + "." + rest) == (sid, sig)
  {
    SplitPrefix(sig, rest, '.');
    SplitPrefix(sid, sig + ['.'] + rest, '.');
    assert sid + "." + sig + "." + rest == sid + ['.'] + (sig + ['.'] + rest);
  }

  /** Without `subtle`, a cookie anyone can compute from a known session id passes the
      signature check, whatever the configured key. */
  lemma ForgeableWithoutSubtle(sid: string, keyEnv: Option<string>)
    requires sid != "" && '.' !in sid
    ensures var (s, sig) := CookieParts(sid + "." + Hex(Utf8(sid)));
      s == sid && sig != "" && sig == HmacHex(NoSubtle, SigningKey(keyEnv), sid)
  {
    var sig := Hex(Utf8(sid));
    HexIsLowerHex(Utf8(sid));
    assert '.' !in sig by {
      forall k | 0 <= k < |sig| ensures sig[k] != '.' { assert IsLowerHex(sig[k]); }
    }
    CookiePartsOfSigned(sid, sig);
    HmacHexWithoutSubtleIsPublic(SigningKey(keyEnv), sid);
  }

  // ---------------------------------------------------------------------------------------
  // The gate run against the store object

  /** `middleware(request)` with the intended logic, reading and (on a User-Agent mismatch)
      deleting from the store in place. */
  method Middleware(store: Store, req: Request, impl: MacImpl, keyEnv: Option<string>) returns (d: Decision)
    modifies store
    ensures GateOutcome(d, store.State()) == GateDecision(req, old(store.State()), impl, keyEnv)
    ensures old(store.Valid()) ==> store.Valid()
  {
    if IsBypassed(req.pathname) {
      return Next;
    }
    var login := Redirect(LoginUrl(req.origin, req.href));
    if req.cookie.None? {
      return login;
    }
    var (sid, sig) := CookieParts(req.cookie.value);
    if sid == "" || sig == "" {
      return login;
    }
    var key := SigningKey(keyEnv);
    if sig != HmacHex(impl, key, sid) {
      return login;
    }
    var session := store.GetSession(sid);
    if session.None? {
      return login;
    }
    var uaHash := HmacHex(impl, key, UserAgentText(req));
    if Truthy(session.value.uaHash) && session.value.uaHash.value != uaHash {
      var _ := store.DeleteSessionById(sid);
      return login;
    }
    return Next;
  }
}
