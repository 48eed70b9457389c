/** The CAS single-logout receiver of `src/app/api/auth/cas/slo/route.ts`: the back-channel
    request names the service ticket in a `SessionIndex` element, and the session opened with
    that ticket is dropped. */
module Slo {
  import opened Util
  import opened SessionStore

  const IndexOpen: string := "<SessionIndex>"
  const IndexClose: string := "</SessionIndex>"

  /** The length of the run of characters other than `<` starting at `j`. */
  function NonLtRun(t: string, j: int): (n: int)
    requires 0 <= j <= |t|
    decreases |t| - j
    ensures 0 <= n && j + n <= |t|
    ensures forall m :: j <= m < j + n ==> t[m] != '<'
    ensures j + n == |t| || t[j + n] == '<'
  {
    if j == |t| || t[j] == '<' then 0 else 1 + NonLtRun(t, j + 1)
  }

  /** `/<SessionIndex>([^<]+)<\/SessionIndex>/i` matches at `p`. The greedy `[^<]+` takes the
      whole run of non-`<` characters; backing off is useless, since the closing tag starts with
      `<` and every shorter capture is followed by a character that is not `<`. */
  predicate IndexMatchAt(t: string, p: int)
  {
    && 0 <= p && p + |IndexOpen| <= |t|
    && MatchesAtCI(t, p, IndexOpen)
    && NonLtRun(t, p + |IndexOpen|) >= 1
    && MatchesAtCI(t, p + |IndexOpen| + NonLtRun(t, p + |IndexOpen|), IndexClose)
  }

  /** The capture of a match at `p`. */
  function CaptureAt(t: string, p: int): string
    requires IndexMatchAt(t, p)
  {
    t[p + |IndexOpen|..p + |IndexOpen| + NonLtRun(t, p + |IndexOpen|)]
  }

  /** The leftmost match at or after `p`. */
  function FirstIndexMatch(t: string, p: int): (r: Option<int>)
    requires 0 <= p
    decreases |t| + 1 - p
    ensures r.Some? ==> p <= r.value && IndexMatchAt(t, r.value)
    ensures r.Some? ==> forall q :: p <= q < r.value ==> !IndexMatchAt(t, q)
    ensures r.None? ==> forall q :: p <= q ==> !IndexMatchAt(t, q)
  {
    if p + |IndexOpen| > |t| then None
    else if IndexMatchAt(t, p) then Some(p)
    else FirstIndexMatch(t, p + 1)
  }

  /** `body.match(...)?.[1]`: the ticket named by the first `SessionIndex` element. It is never
      empty and never holds `<`. */
  function SessionIndexOf(body: string): (r: Option<string>)
    ensures r.Some? ==> r.value != "" && '<' !in r.value
    ensures r.Some? ==> exists p ::
      (IndexMatchAt(body, p) && r.value == CaptureAt(body, p) && forall q :: 0 <= q < p ==> !IndexMatchAt(body, q))
    ensures r.None? <==> forall q :: !IndexMatchAt(body, q)
  {
    match FirstIndexMatch(body, 0)
    case None => None
    case Some(p) =>
      var c := CaptureAt(body, p);
      assert forall m :: 0 <= m < |c| ==> c[m] == body[p + |IndexOpen| + m];
      Some(c)
  }

  /** A well-formed element is read back: the ticket between the tags is returned whole. */
  lemma SessionIndexOfElement(ticket: string, rest: string)
    requires ticket != "" && '<' !in ticket
    ensures SessionIndexOf(IndexOpen + ticket + IndexClose + rest) == Some(ticket)
  {
    var t := IndexOpen + ticket + IndexClose + rest;
    var j := |IndexOpen|;
    assert t[..j] == IndexOpen;
    assert t[j..j + |ticket|] == ticket;
    assert t[j + |ticket|..j + |ticket| + |IndexClose|] == IndexClose;
    forall m | 0 <= m < |IndexOpen| ensures AsciiLower(t[m]) == AsciiLower(IndexOpen[m]) {
      assert t[m] == t[..j][m];
    }
    forall m | 0 <= m < |IndexClose| ensures AsciiLower(t[j + |ticket| + m]) == AsciiLower(IndexClose[m]) {
      assert t[j + |ticket| + m] == t[j + |ticket|..j + |ticket| + |IndexClose|][m];
    }
    RunIsTicket(t, j, ticket);
    assert IndexMatchAt(t, 0);
    var r := SessionIndexOf(t);
    var p :| IndexMatchAt(t, p) && r.value == CaptureAt(t, p) && forall q :: 0 <= q < p ==> !IndexMatchAt(t, q);
    assert p == 0;
  }

  lemma RunIsTicket(t: string, j: int, ticket: string)
    requires 0 <= j && j + |ticket| < |t| && t[j..j + |ticket|] == ticket && '<' !in ticket && t[j + |ticket|] == '<'
    ensures NonLtRun(t, j) == |ticket|
    decreases |ticket|
  {
    if ticket != [] {
      assert t[j] == ticket[0];
      assert t[j + 1..j + 1 + |ticket[1..]|] == ticket[1..];
      RunIsTicket(t, j + 1, ticket[1..]);
    }
  }

  /** The JSON replies of the endpoint. */
  datatype SloReply =
    | Rejected(status: int, error: string)
    | Acknowledged(removed: bool)
    | Alive(message: string)

  /** `POST /api/auth/cas/slo`: no `SessionIndex` is a 400 with the store untouched; otherwise
      exactly one delete-by-ticket, whose result is reported. */
  function SloPost(st: StoreState, body: string): (r: (SloReply, StoreState))
    ensures SessionIndexOf(body).None? ==> r == (Rejected(400, "no SessionIndex"), st)
    ensures SessionIndexOf(body).Some? ==>
      var del := DeleteByTicket(st, SessionIndexOf(body).value);
      r == (Acknowledged(del.removed), del.state)
    ensures SessionIndexOf(body).Some? ==> (r.0 == Acknowledged(true) <==> FindIdByTicket(st, SessionIndexOf(body).value).Some?)
  {
    match SessionIndexOf(body)
    case None => (Rejected(400, "no SessionIndex"), st)
    case Some(ticket) =>
      var del := DeleteByTicket(st, ticket);
      (Acknowledged(del.removed), del.state)
  }

  /** The same logout request delivered twice: the second reports that nothing was removed and
      changes nothing. */
  lemma SloPostTwice(st: StoreState, body: string)
    ensures var once := SloPost(st, body).1;
      SloPost(once, body).1 == once && !(SloPost(once, body).0.Acknowledged? && SloPost(once, body).0.removed)
  {
    if SessionIndexOf(body).Some? {
      DeleteByTicketTwice(st, SessionIndexOf(body).value);
    }
  }

  /** `POST` against the store object. */
  method HandleSloPost(store: Store, body: string) returns (reply: SloReply)
    modifies store
    ensures (reply, store.State()) == SloPost(old(store.State()), body)
    ensures old(store.Valid()) ==> store.Valid()
  {
    var ticket := SessionIndexOf(body);
    if ticket.None? {
      return Rejected(400, "no SessionIndex");
    }
    var removed := store.DeleteSessionByTicket(ticket.value);
    reply := Acknowledged(removed);
  }

  /** `GET /api/auth/cas/slo`: a fixed acknowledgement; the store is not in its frame. */
  method HandleSloGet(store: Store) returns (reply: SloReply)
    ensures reply == Alive("CAS SLO endpoint")
  {
    reply := Alive("CAS SLO endpoint");
  }
}
