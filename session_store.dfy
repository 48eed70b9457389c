/** The in-memory session registry of `src/lib/sessionStore.ts`: a map from session id to
    session and a map from CAS service ticket to session id, both updated in place. */
module SessionStore {
  import opened Util
  import opened Encoding

  /** Identity attributes; an absent field means "unknown". */
  datatype UserAttrs = UserAttrs(
    displayName: Option<string>,
    givenName: Option<string>,
    familyName: Option<string>,
    mail: Option<string>,
    roles: Option<seq<string>>)

  /** `authDate?: string | number`: the CAS-reported text, or milliseconds of the server clock. */
  datatype AuthDate = DateText(text: string) | DateMillis(millis: int)

  datatype Session = Session(
    id: string,
    ticket: Option<string>,
    user: UserAttrs,
    authDate: Option<AuthDate>,
    clientIp: Option<string>,
    uaHash: Option<string>,
    createdAt: int)

  /** What a caller hands to `createSession`: a session without `id` and `createdAt`. */
  datatype SessionData = SessionData(
    ticket: Option<string>,
    user: UserAttrs,
    authDate: Option<AuthDate>,
    clientIp: Option<string>,
    uaHash: Option<string>)

  /** The two module-level maps, as one value. */
  datatype StoreState = StoreState(sessions: map<string, Session>, ticketIndex: map<string, string>)

  /** The result of a deletion: the new maps and whether a session was removed. */
  datatype Removal = Removal(state: StoreState, removed: bool)

  const Empty := StoreState(map[], map[])

  // ---------------------------------------------------------------------------------------
  // Specification of the operations on values

  /** `getSession(id)`: the stored session or `null`; it changes nothing. */
  function Get(st: StoreState, id: string): (r: Option<Session>)
    ensures r.Some? <==> id in st.sessions
    ensures r.Some? ==> r.value == st.sessions[id]
  {
    if id in st.sessions then Some(st.sessions[id]) else None
  }

  /** `findSessionIdByTicket(ticket)`: the indexed id, or `null` when absent (or empty, which
      `|| null` also turns into `null`). */
  function FindIdByTicket(st: StoreState, ticket: string): (r: Option<string>)
    ensures r.Some? <==> ticket in st.ticketIndex && st.ticketIndex[ticket] != ""
    ensures r.Some? ==> r.value == st.ticketIndex[ticket]
  {
    if ticket in st.ticketIndex && st.ticketIndex[ticket] != "" then Some(st.ticketIndex[ticket]) else None
  }

  /** `{ ...data, id, createdAt: Date.now() }`. */
  function NewSession(d: SessionData, id: string, now: int): Session
  {
    Session(id, d.ticket, d.user, d.authDate, d.clientIp, d.uaHash, now)
  }

  /** `createSession` with the id already drawn: the session is stored under `id`, and a truthy
      ticket is (re)pointed at `id`, overwriting any earlier entry for that ticket. */
  function Create(st: StoreState, d: SessionData, id: string, now: int): (r: StoreState)
    ensures Get(r, id) == Some(NewSession(d, id, now))
    ensures forall other :: other != id ==> Get(r, other) == Get(st, other)
    ensures Truthy(d.ticket) && id != "" ==> FindIdByTicket(r, d.ticket.value) == Some(id)
    ensures Truthy(d.ticket) ==> forall t :: t != d.ticket.value ==> FindIdByTicket(r, t) == FindIdByTicket(st, t)
    ensures !Truthy(d.ticket) ==> r.ticketIndex == st.ticketIndex
  {
    StoreState(
      st.sessions[id := NewSession(d, id, now)],
      if Truthy(d.ticket) then st.ticketIndex[d.ticket.value := id] else st.ticketIndex)
  }

  /** `deleteSessionById(id)`. An unknown id changes nothing and reports false. A known id loses
      its session and the index entry keyed by that session's ticket, whichever id the entry
      points at by now; nothing else changes. */
  function DeleteById(st: StoreState, id: string): (r: Removal)
    ensures r.removed <==> id in st.sessions
    ensures !r.removed ==> r.state == st
    ensures r.removed ==> Get(r.state, id) == None
    ensures forall other :: other != id ==> Get(r.state, other) == Get(st, other)
    ensures r.removed && Truthy(st.sessions[id].ticket) ==>
      r.state.ticketIndex == st.ticketIndex - {st.sessions[id].ticket.value}
    ensures r.removed && !Truthy(st.sessions[id].ticket) ==> r.state.ticketIndex == st.ticketIndex
  {
    if id !in st.sessions then Removal(st, false)
    else
      var s := st.sessions[id];
      var index := if Truthy(s.ticket) then st.ticketIndex - {s.ticket.value} else st.ticketIndex;
      Removal(StoreState(st.sessions - {id}, index), true)
  }

  /** `deleteSessionByTicket(ticket)`. A ticket that resolves to no id changes nothing and
      reports false; otherwise the resolved session and the ticket's entry go, nothing else
      does, and the ticket resolves to nothing afterwards. */
  function DeleteByTicket(st: StoreState, ticket: string): (r: Removal)
    ensures r.removed <==> FindIdByTicket(st, ticket).Some?
    ensures !r.removed ==> r.state == st
    ensures r.removed ==> Get(r.state, FindIdByTicket(st, ticket).value) == None
    ensures r.removed ==> forall other :: other != FindIdByTicket(st, ticket).value ==> Get(r.state, other) == Get(st, other)
    ensures FindIdByTicket(r.state, ticket) == None
    ensures forall t :: t != ticket ==> FindIdByTicket(r.state, t) == FindIdByTicket(st, t)
  {
    if ticket !in st.ticketIndex || st.ticketIndex[ticket] == "" then Removal(st, false)
    else Removal(StoreState(st.sessions - {st.ticketIndex[ticket]}, st.ticketIndex - {ticket}), true)
  }

  /** `clearAllSessions()`: nothing is found by id or by ticket afterwards. */
  function Clear(st: StoreState): (r: StoreState)
    ensures forall id :: Get(r, id) == None
    ensures forall t :: FindIdByTicket(r, t) == None
  {
    Empty
  }

  // ---------------------------------------------------------------------------------------
  // The two-index invariant

  /** Every session is stored under its own non-empty id, and every index entry `t -> id`
      points at a live session whose ticket is `t`. */
  ghost predicate Consistent(st: StoreState)
  {
    && (forall id :: id in st.sessions ==> st.sessions[id].id == id && id != "")
    && (forall t :: t in st.ticketIndex ==>
          t != "" && st.ticketIndex[t] in st.sessions && st.sessions[st.ticketIndex[t]].ticket == Some(t))
  }

  lemma EmptyConsistent()
    ensures Consistent(Empty)
  {
  }

  /** Creating under a fresh, non-empty id keeps the invariant. */
  lemma CreateKeepsConsistent(st: StoreState, d: SessionData, id: string, now: int)
    requires Consistent(st)
    requires id !in st.sessions && id != ""
    ensures Consistent(Create(st, d, id, now))
  {
    var r := Create(st, d, id, now);
    forall t | t in r.ticketIndex
      ensures t != "" && r.ticketIndex[t] in r.sessions && r.sessions[r.ticketIndex[t]].ticket == Some(t)
    {
      if Truthy(d.ticket) && t == d.ticket.value {
      } else {
        assert t in st.ticketIndex && r.ticketIndex[t] == st.ticketIndex[t];
        assert st.ticketIndex[t] != id;
      }
    }
  }

  lemma DeleteByIdKeepsConsistent(st: StoreState, id: string)
    requires Consistent(st)
    ensures Consistent(DeleteById(st, id).state)
  {
    var r := DeleteById(st, id).state;
    if id in st.sessions {
      var s := st.sessions[id];
      forall t | t in r.ticketIndex
        ensures t != "" && r.ticketIndex[t] in r.sessions && r.sessions[r.ticketIndex[t]].ticket == Some(t)
      {
        assert t in st.ticketIndex && r.ticketIndex[t] == st.ticketIndex[t];
        assert s.ticket != Some(t);
        assert st.ticketIndex[t] != id;
      }
    }
  }

  lemma DeleteByTicketKeepsConsistent(st: StoreState, ticket: string)
    requires Consistent(st)
    ensures Consistent(DeleteByTicket(st, ticket).state)
  {
    var r := DeleteByTicket(st, ticket).state;
    if FindIdByTicket(st, ticket).Some? {
      var id := st.ticketIndex[ticket];
      assert st.sessions[id].ticket == Some(ticket);
      forall t | t in r.ticketIndex
        ensures t != "" && r.ticketIndex[t] in r.sessions && r.sessions[r.ticketIndex[t]].ticket == Some(t)
      {
        assert t != ticket && t in st.ticketIndex;
        assert st.ticketIndex[t] != id;
      }
    }
  }

  lemma ClearKeepsConsistent(st: StoreState)
    ensures Consistent(Clear(st))
  {
  }

  /** Under the invariant, a ticket resolves exactly when it has an index entry, and to a live
      session carrying that ticket; so `deleteSessionByTicket`'s `!id` guard never fires. */
  lemma {:induction false} IndexedTicketResolves(st: StoreState, ticket: string)
    requires Consistent(st)
    ensures FindIdByTicket(st, ticket).Some? <==> ticket in st.ticketIndex
    ensures FindIdByTicket(st, ticket).Some? ==>
      Get(st, FindIdByTicket(st, ticket).value).Some? &&
      Get(st, FindIdByTicket(st, ticket).value).value.ticket == Some(ticket)
  {
    if ticket in st.ticketIndex {
      var id := st.ticketIndex[ticket];
      assert id in st.sessions;
      assert st.sessions[id].id == id && id != "";
    }
  }

  // ---------------------------------------------------------------------------------------
  // Properties relating several operations

  /** The index keeps only the newest session per ticket: after two creations with the same
      ticket the ticket finds the second id, while the first session stays reachable by id. */
  lemma SameTicketRepointsIndex(st: StoreState, d1: SessionData, d2: SessionData, id1: string, id2: string, t1: int, t2: int)
    requires Truthy(d1.ticket) && d2.ticket == d1.ticket
    requires id1 != id2 && id1 != "" && id2 != ""
    ensures var r := Create(Create(st, d1, id1, t1), d2, id2, t2);
      FindIdByTicket(r, d1.ticket.value) == Some(id2) && Get(r, id1) == Some(NewSession(d1, id1, t1))
  {
  }

  /** The asymmetry of the two deletions: deleting the OLDER session of a re-used ticket by id
      also removes the ticket's entry, although that entry points at the newer session, which
      stays alive but can no longer be found (nor removed) by ticket. */
  lemma {:induction false} DeleteByIdDropsRepointedEntry(st: StoreState, d1: SessionData, d2: SessionData, id1: string, id2: string, t1: int, t2: int)
    requires Truthy(d1.ticket) && d2.ticket == d1.ticket
    requires id1 != id2 && id1 != "" && id2 != ""
    ensures var r := DeleteById(Create(Create(st, d1, id1, t1), d2, id2, t2), id1);
      && r.removed
      && Get(r.state, id2) == Some(NewSession(d2, id2, t2))
      && FindIdByTicket(r.state, d1.ticket.value) == None
      && !DeleteByTicket(r.state, d1.ticket.value).removed
  {
    var s2 := Create(Create(st, d1, id1, t1), d2, id2, t2);
    assert Get(s2, id1) == Some(NewSession(d1, id1, t1));
    assert s2.sessions[id1].ticket == d1.ticket;
  }

  /** Delete-by-ticket twice: the second call finds nothing and changes nothing. */
  lemma DeleteByTicketTwice(st: StoreState, ticket: string)
    ensures var once := DeleteByTicket(st, ticket).state;
      !DeleteByTicket(once, ticket).removed && DeleteByTicket(once, ticket).state == once
  {
  }

  /** Delete-by-id twice: the second call finds nothing and changes nothing. */
  lemma DeleteByIdTwice(st: StoreState, id: string)
    ensures var once := DeleteById(st, id).state;
      !DeleteById(once, id).removed && DeleteById(once, id).state == once
  {
  }

  // ---------------------------------------------------------------------------------------
  // Session ids

  type Nibble = x: int | 0 <= x < 16

  /** `k` placeholder characters `x`. */
  function Xs(k: nat): (s: string)
    ensures |s| == k && forall j :: 0 <= j < k ==> s[j] == 'x'
  {
    if k == 0 then "" else "x" + Xs(k - 1)
  }

  /** The template `generateFallbackUUID` fills in, written segment by segment. */
  const UuidTemplate: string := Xs(8) + "-" + Xs(4) + "-4" + Xs(3) + "-y" + Xs(3) + "-" + Xs(12)

  lemma UuidTemplateText()
    ensures UuidTemplate == "xxxxxxxx-xxxx-4xxx-yxxx-xxxxxxxxxxxx"
  {
  }

  /** `template.replace(/[xy]/g, ...)`: every `x` becomes a random digit, every `y` a random
      digit forced into `8..b` by `(r & 0x3) | 0x8`; `rand(n)` is the n-th `Math.random() * 16 | 0`. */
  function Fill(template: string, rand: nat -> Nibble, n: nat): (s: string)
    ensures |s| == |template|
  {
    if template == [] then ""
    else if template[0] == 'x' then [LowerHexDigit(rand(n))] + Fill(template[1..], rand, n + 1)
    else if template[0] == 'y' then [LowerHexDigit(rand(n) % 4 + 8)] + Fill(template[1..], rand, n + 1)
    else [template[0]] + Fill(template[1..], rand, n)
  }

  /** Each position of the filled string follows its template character. */
  lemma {:induction false} FillAt(template: string, rand: nat -> Nibble, n: nat, i: int)
    requires 0 <= i < |template|
    ensures template[i] == 'x' ==> IsLowerHex(Fill(template, rand, n)[i])
    ensures template[i] == 'y' ==> Fill(template, rand, n)[i] in "89ab"
    ensures template[i] != 'x' && template[i] != 'y' ==> Fill(template, rand, n)[i] == template[i]
  {
    if i > 0 {
      var m := if template[0] == 'x' || template[0] == 'y' then n + 1 else n;
      FillAt(template[1..], rand, m, i - 1);
      assert Fill(template, rand, n)[i] == Fill(template[1..], rand, m)[i - 1];
    } else if template[0] == 'y' {
      var d := rand(n) % 4 + 8;
      assert LowerHexDigit(d) == "89ab"[d - 8];
    }
  }

  /** `generateFallbackUUID()`: the template filled from `rand`, always a version-4 UUID. */
  function GenerateFallbackUuid(rand: nat -> Nibble): (id: string)
    ensures IsUuidV4(id)
  {
    FallbackIsUuidV4(rand);
    Fill(UuidTemplate, rand, 0)
  }

  /** The layout of a version-4 UUID (section 4.4 of RFC 4122), lowercase. */
  predicate IsUuidV4(s: string)
  {
    && |s| == 36
    && s[8] == '-' && s[13] == '-' && s[18] == '-' && s[23] == '-'
    && s[14] == '4'
    && s[19] in "89ab"
    && forall i :: 0 <= i < 36 && i !in {8, 13, 14, 18, 19, 23} ==> IsLowerHex(s[i])
  }

  /** Filling the template always yields the version-4 layout. */
  lemma FallbackIsUuidV4(rand: nat -> Nibble)
    ensures IsUuidV4(Fill(UuidTemplate, rand, 0))
  {
    var s := Fill(UuidTemplate, rand, 0);
    forall i | 0 <= i < 36
      ensures i in {8, 13, 18, 23} ==> s[i] == '-'
      ensures i == 14 ==> s[i] == '4'
      ensures i == 19 ==> s[i] in "89ab"
      ensures i !in {8, 13, 14, 18, 19, 23} ==> IsLowerHex(s[i])
    {
      FillAt(UuidTemplate, rand, 0, i);
    }
  }

  /** A UUID holds no dot, so it can head a `"<id>.<signature>"` cookie. */
  lemma UuidHasNoDot(s: string)
    requires IsUuidV4(s)
    ensures '.' !in s && s != ""
  {
    forall i | 0 <= i < |s|
      ensures s[i] != '.'
    {
    }
  }

  /** `crypto?.randomUUID?.() || generateFallbackUUID()`: `uuid` is what `randomUUID` returned,
      `None` when the platform has none. */
  function NewId(uuid: Option<string>, rand: nat -> Nibble): (id: string)
    ensures id != ""
    ensures Truthy(uuid) ==> id == uuid.value
    ensures !Truthy(uuid) ==> IsUuidV4(id)
  {
    if Truthy(uuid) then uuid.value else GenerateFallbackUuid(rand)
  }

  // ---------------------------------------------------------------------------------------
  // The store itself, as the source has it: two maps updated in place

  class Store {
    var sessions: map<string, Session>
    var ticketIndex: map<string, string>

    function State(): StoreState
      reads this
    {
      StoreState(sessions, ticketIndex)
    }

    ghost predicate Valid()
      reads this
    {
      Consistent(State())
    }

    /** A process starts with both maps empty. */
    constructor ()
      ensures State() == Empty && Valid()
    {
      sessions := map[];
      ticketIndex := map[];
    }

    method CreateSession(d: SessionData, uuid: Option<string>, rand: nat -> Nibble, now: int) returns (s: Session)
      modifies this
      ensures s.id == NewId(uuid, rand) && s == NewSession(d, s.id, now)
      ensures State() == Create(old(State()), d, s.id, now)
      ensures old(Valid()) && s.id !in old(sessions) ==> Valid()
    {
      var id := NewId(uuid, rand);
      s := NewSession(d, id, now);
      sessions := sessions[id := s];
      if Truthy(d.ticket) {
        ticketIndex := ticketIndex[d.ticket.value := id];
      }
      if old(Valid()) && id !in old(sessions) {
        CreateKeepsConsistent(old(State()), d, id, now);
      }
    }

    method GetSession(id: string) returns (s: Option<Session>)
      ensures s == Get(State(), id)
    {
      if id in sessions {
        s := Some(sessions[id]);
      } else {
        s := None;
      }
    }

    method DeleteSessionById(id: string) returns (removed: bool)
      modifies this
      ensures Removal(State(), removed) == DeleteById(old(State()), id)
      ensures old(Valid()) ==> Valid()
    {
      if id !in sessions {
        return false;
      }
      var s := sessions[id];
      sessions := sessions - {id};
      if Truthy(s.ticket) {
        ticketIndex := ticketIndex - {s.ticket.value};
      }
      removed := true;
      if old(Valid()) {
        DeleteByIdKeepsConsistent(old(State()), id);
      }
    }

    method DeleteSessionByTicket(ticket: string) returns (removed: bool)
      modifies this
      ensures Removal(State(), removed) == DeleteByTicket(old(State()), ticket)
      ensures old(Valid()) ==> Valid()
    {
      if ticket !in ticketIndex || ticketIndex[ticket] == "" {
        return false;
      }
      var id := ticketIndex[ticket];
      sessions := sessions - {id};
      ticketIndex := ticketIndex - {ticket};
      removed := true;
      if old(Valid()) {
        DeleteByTicketKeepsConsistent(old(State()), ticket);
      }
    }

    method FindSessionIdByTicket(ticket: string) returns (id: Option<string>)
      ensures id == FindIdByTicket(State(), ticket)
    {
      if ticket in ticketIndex && ticketIndex[ticket] != "" {
        id := Some(ticketIndex[ticket]);
      } else {
        id := None;
      }
    }

    method ClearAllSessions()
      modifies this
      ensures State() == Clear(old(State())) && Valid()
    {
      sessions := map[];
      ticketIndex := map[];
    }
  }
}
