/** `GET /api/auth/logout` (`src/app/api/auth/logout/route.ts`): drop the session the cookie
    names and expire the cookie. */
module Logout {
  import opened Util
  import opened SessionStore
  import opened Web

  datatype LogoutOutcome = LogoutOutcome(response: RedirectResponse, state: StoreState)

  /** `const [sid] = value.split('.')`: the text before the first dot. No signature is checked. */
  function SessionIdOf(value: string): (sid: string)
    ensures '.' !in sid && StartsWith(value, sid)
    ensures |sid| < |value| ==> value[|sid|] == '.'
  {
    SplitHead(value, '.');
    Split(value, '.')[0]
  }

  /** The response always redirects to the `redirect` parameter (default `/`) and expires the
      cookie; the session named by a non-empty id prefix is deleted, and nothing else changes. */
  function LogoutGet(st: StoreState, redirect: Option<string>, cookie: Option<string>): (r: LogoutOutcome)
    ensures r.response == RedirectResponse(RedirectTarget(redirect), Some(ExpiredCookie()))
    ensures cookie.None? || SessionIdOf(cookie.value) == "" ==> r.state == st
    ensures cookie.Some? && SessionIdOf(cookie.value) != "" ==> r.state == DeleteById(st, SessionIdOf(cookie.value)).state
  {
    var response := RedirectResponse(RedirectTarget(redirect), Some(ExpiredCookie()));
    if cookie.Some? && SessionIdOf(cookie.value) != "" then
      LogoutOutcome(response, DeleteById(st, SessionIdOf(cookie.value)).state)
    else LogoutOutcome(response, st)
  }

  /** Logging out with an id that names no session leaves the store as it was. */
  lemma LogoutUnknownIsNoOp(st: StoreState, redirect: Option<string>, value: string)
    requires SessionIdOf(value) !in st.sessions
    ensures LogoutGet(st, redirect, Some(value)).state == st
  {
  }

  /** Only the id counts: any two signatures (or none) log out the same session. */
  lemma {:induction false} LogoutIgnoresSignature(st: StoreState, redirect: Option<string>, sid: string, sig1: string, sig2: string)
    requires '.' !in sid
    ensures LogoutGet(st, redirect, Some(sid + "." + sig1)) == LogoutGet(st, redirect, Some(sid + "." + sig2))
    ensures LogoutGet(st, redirect, Some(sid + "." + sig1)) == LogoutGet(st, redirect, Some(sid))
  {
    HeadOfJoined(sid, sig1, '.');
    HeadOfJoined(sid, sig2, '.');
    assert sid + "." + sig1 == sid + ['.'] + sig1;
    assert sid + "." + sig2 == sid + ['.'] + sig2;
    SplitNoSeparator(sid, '.');
  }

  /** Logging out keeps the two-index invariant. */
  lemma LogoutKeepsConsistent(st: StoreState, redirect: Option<string>, cookie: Option<string>)
    requires Consistent(st)
    ensures Consistent(LogoutGet(st, redirect, cookie).state)
  {
    if cookie.Some? && SessionIdOf(cookie.value) != "" {
      DeleteByIdKeepsConsistent(st, SessionIdOf(cookie.value));
    }
  }

  /** `GET` against the store object. */
  method HandleLogout(store: Store, redirect: Option<string>, cookie: Option<string>) returns (resp: RedirectResponse)
    modifies store
    ensures LogoutOutcome(resp, store.State()) == LogoutGet(old(store.State()), redirect, cookie)
    ensures old(store.Valid()) ==> store.Valid()
  {
    var redirectTo := RedirectTarget(redirect);
    if cookie.Some? {
      var sid := SessionIdOf(cookie.value);
      if sid != "" {
        var _ := store.DeleteSessionById(sid);
      }
    }
    resp := RedirectResponse(redirectTo, Some(ExpiredCookie()));
  }
}
