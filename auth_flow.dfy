/** How the authentication routes fit together: a cookie issued by the callback opens the gate
    from the same browser, and logout or a CAS single logout closes it again. */
module AuthFlow {
  import opened Util
  import opened Encoding
  import opened SessionStore
  import opened Web
  import opened Gate
  import opened CasCallback
  import opened Slo
  import opened Logout

  /** HMAC-SHA-256 always yields 32 bytes. */
  ghost predicate IsSha256Mac(h: Hmac)
  {
    forall k, m :: |h(k, m)| == 32
  }

  /** The cookie a successful callback sets, and the id it carries. */
  function IssuedCookie(r: CallbackOutcome): string
    requires r.response.cookie.Some?
  {
    r.response.cookie.value.value
  }

  /** With WebCrypto available, the gate's `hmacHex` and the callback's `sign` agree. */
  lemma SignIsHmacHex(h: Hmac, keyEnv: Option<string>, value: string)
    ensures Sign(h, keyEnv, value) == HmacHex(Subtle(h), SigningKey(keyEnv), value)
  {
  }

  /** A cookie `id.sig` with the right MAC, naming a live session whose User-Agent hash is this
      request's, passes the gate. */
  lemma SignedCookieAdmitted(req: Request, st: StoreState, impl: MacImpl, keyEnv: Option<string>, id: string, sig: string)
    requires !IsBypassed(req.pathname)
    requires '.' !in id && id != "" && '.' !in sig && sig != ""
    requires req.cookie == Some(id + "." + sig)
    requires sig == HmacHex(impl, SigningKey(keyEnv), id)
    requires Get(st, id).Some? && Get(st, id).value.uaHash == Some(HmacHex(impl, SigningKey(keyEnv), UserAgentText(req)))
    ensures GateDecision(req, st, impl, keyEnv) == GateOutcome(Next, st)
  {
    CookiePartsOfSigned(id, sig);
    assert Admitted(req, st, impl, SigningKey(keyEnv));
  }

  /** A session is stored under `id` and holds the User-Agent hash `uaHash`. */
  predicate LiveWithUaHash(st: StoreState, id: string, uaHash: string)
  {
    Get(st, id).Some? && Get(st, id).value.uaHash == Some(uaHash)
  }

  /** What a successful callback leaves behind: the cookie `id.sign(id)` with a dot-free id, and
      a live session under that id holding the signed User-Agent. */
  lemma {:induction false} IssuedSession(st: StoreState, creq: CallbackRequest, fetch: string -> Fetched, h: Hmac,
                                        keyEnv: Option<string>, uuid: Option<string>, rand: nat -> Nibble, now: int)
    requires !Truthy(uuid) || '.' !in uuid.value
    ensures var r := Callback(st, creq, fetch, h, keyEnv, uuid, rand, now);
      r.response.cookie.Some? ==>
        var id := NewId(uuid, rand);
        && '.' !in id
        && IssuedCookie(r) == id + "." + Sign(h, keyEnv, id)
        && LiveWithUaHash(r.state, id, Sign(h, keyEnv, if Truthy(creq.userAgent) then creq.userAgent.value else ""))
  {
    var r := Callback(st, creq, fetch, h, keyEnv, uuid, rand, now);
    var id := NewId(uuid, rand);
    if !Truthy(uuid) {
      UuidHasNoDot(id);
    }
    if r.response.cookie.Some? {
      var text := fetch(ValidateUrl(ServiceUrl(creq.origin, RedirectTarget(creq.redirect)), creq.ticket.value)).text;
      var d := SessionDataOf(text, creq.ticket.value, h, keyEnv, creq.userAgent, now);
      assert r.state == Create(st, d, id, now);
      assert Get(r.state, id) == Some(NewSession(d, id, now));
    }
  }

  /** The cookie of a successful callback, presented back by the same browser on a gated page,
      is admitted, and the store is left alone. */
  lemma {:induction false} IssuedCookieAdmitted(st: StoreState, creq: CallbackRequest, fetch: string -> Fetched, h: Hmac,
                                               keyEnv: Option<string>, uuid: Option<string>, rand: nat -> Nibble, now: int,
                                               pathname: string, href: string)
    requires IsSha256Mac(h)
    requires !Truthy(uuid) || '.' !in uuid.value
    requires !IsBypassed(pathname)
    ensures var r := Callback(st, creq, fetch, h, keyEnv, uuid, rand, now);
      r.response.cookie.Some? ==>
        GateDecision(Request(pathname, creq.origin, href, Some(IssuedCookie(r)), creq.userAgent), r.state, Subtle(h), keyEnv)
          == GateOutcome(Next, r.state)
  {
    var r := Callback(st, creq, fetch, h, keyEnv, uuid, rand, now);
    if r.response.cookie.Some? {
      IssuedSession(st, creq, fetch, h, keyEnv, uuid, rand, now);
      var id := NewId(uuid, rand);
      var sig := Sign(h, keyEnv, id);
      assert |sig| == 64;
      var greq := Request(pathname, creq.origin, href, Some(IssuedCookie(r)), creq.userAgent);
      SignIsHmacHex(h, keyEnv, id);
      SignIsHmacHex(h, keyEnv, UserAgentText(greq));
      SignedCookieAdmitted(greq, r.state, Subtle(h), keyEnv, id, sig);
    }
  }

  /** A signed cookie whose session is gone is sent to the login page. */
  lemma GoneSessionRedirects(req: Request, st: StoreState, impl: MacImpl, keyEnv: Option<string>, id: string, sig: string)
    requires !IsBypassed(req.pathname)
    requires '.' !in id && '.' !in sig
    requires req.cookie == Some(id + "." + sig)
    requires Get(st, id) == None
    ensures GateDecision(req, st, impl, keyEnv).decision.Redirect?
  {
    CookiePartsOfSigned(id, sig);
    assert !Admitted(req, st, impl, SigningKey(keyEnv));
  }

  /** Logging out with a signed cookie deletes the session its id names. */
  lemma LogoutOfSigned(st: StoreState, redirect: Option<string>, id: string, sig: string)
    requires '.' !in id && id != ""
    ensures Get(LogoutGet(st, redirect, Some(id + "." + sig)).state, id) == None
  {
    HeadOfJoined(id, sig, '.');
    assert id + "." + sig == id + ['.'] + sig;
    assert SessionIdOf(id + "." + sig) == id;
  }

  /** After logout with the issued cookie, the same cookie no longer opens the gate. */
  lemma {:induction false} LogoutRevokesCookie(st: StoreState, creq: CallbackRequest, fetch: string -> Fetched, h: Hmac,
                                              keyEnv: Option<string>, uuid: Option<string>, rand: nat -> Nibble, now: int,
                                              redirect: Option<string>, pathname: string, href: string, impl: MacImpl)
    requires !Truthy(uuid) || '.' !in uuid.value
    requires !IsBypassed(pathname)
    ensures var r := Callback(st, creq, fetch, h, keyEnv, uuid, rand, now);
      r.response.cookie.Some? ==>
        var after := LogoutGet(r.state, redirect, Some(IssuedCookie(r))).state;
        && Get(after, NewId(uuid, rand)) == None
        && GateDecision(Request(pathname, creq.origin, href, Some(IssuedCookie(r)), creq.userAgent), after, impl, keyEnv).decision.Redirect?
  {
    var r := Callback(st, creq, fetch, h, keyEnv, uuid, rand, now);
    if r.response.cookie.Some? {
      var id := NewId(uuid, rand);
      if !Truthy(uuid) {
        UuidHasNoDot(id);
      }
      var sig := Sign(h, keyEnv, id);
      assert IssuedCookie(r) == id + "." + sig;
      LogoutOfSigned(r.state, redirect, id, sig);
      var after := LogoutGet(r.state, redirect, Some(IssuedCookie(r))).state;
      GoneSessionRedirects(Request(pathname, creq.origin, href, Some(IssuedCookie(r)), creq.userAgent), after, impl, keyEnv, id, sig);
    }
  }

  /** CAS single logout for the ticket a session was opened with removes that session, reports
      it, and the session's cookie no longer opens the gate. */
  lemma {:induction false} SingleLogoutRevokesCookie(st: StoreState, creq: CallbackRequest, fetch: string -> Fetched, h: Hmac,
                                                    keyEnv: Option<string>, uuid: Option<string>, rand: nat -> Nibble, now: int,
                                                    pathname: string, href: string, impl: MacImpl)
    requires !Truthy(uuid) || '.' !in uuid.value
    requires !IsBypassed(pathname)
    requires creq.ticket.Some? && '<' !in creq.ticket.value
    ensures var r := Callback(st, creq, fetch, h, keyEnv, uuid, rand, now);
      r.response.cookie.Some? ==>
        var slo := SloPost(r.state, IndexOpen + creq.ticket.value + IndexClose);
        && slo.0 == Acknowledged(true)
        && Get(slo.1, NewId(uuid, rand)) == None
        && GateDecision(Request(pathname, creq.origin, href, Some(IssuedCookie(r)), creq.userAgent), slo.1, impl, keyEnv).decision.Redirect?
  {
    var r := Callback(st, creq, fetch, h, keyEnv, uuid, rand, now);
    if r.response.cookie.Some? {
      var ticket := creq.ticket.value;
      var id := NewId(uuid, rand);
      if !Truthy(uuid) {
        UuidHasNoDot(id);
      }
      SessionIndexOfElement(ticket, "");
      assert IndexOpen + ticket + IndexClose + "" == IndexOpen + ticket + IndexClose;
      assert FindIdByTicket(r.state, ticket) == Some(id);
      CookiePartsOfSigned(id, Sign(h, keyEnv, id));
    }
  }
}
