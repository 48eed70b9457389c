/** The CAS ticket callback of `src/app/api/auth/cas/callback/route.ts`: validate the service
    ticket against `/p3/serviceValidate` (section 2.8 of the CAS Protocol 3.0 specification),
    read the user's attributes out of the response, create one session and set the signed
    `cas_user` cookie. */
module CasCallback {
  import opened Util
  import opened Encoding
  import opened SessionStore
  import opened Web

  // ---------------------------------------------------------------------------------------
  // extractTag: the first `<cas:TAG>...</cas:TAG>` element, ASCII case ignored

  /** Which characters the capture group accepts: `[\s\S]` (any character) as intended, or
      `[sS]` (the letter s) as the template literal actually builds it. */
  datatype CaptureClass = AnyChar | LetterS

  predicate InClass(ch: char, cls: CaptureClass)
  {
    cls.AnyChar? || ch == 's' || ch == 'S'
  }

  /** Every character of `t[a..b]` is in the capture class. */
  predicate AllInClass(t: string, a: int, b: int, cls: CaptureClass)
    requires 0 <= a <= b <= |t|
  {
    forall m :: a <= m < b ==> InClass(t[m], cls)
  }

  /** The pattern `open(CLASS*?)close` matches at `p` with a capture of length `k`. */
  predicate MatchAt(t: string, p: int, k: int, open: string, close: string, cls: CaptureClass)
  {
    && 0 <= p && 0 <= k && p + |open| + k <= |t|
    && MatchesAtCI(t, p, open)
    && AllInClass(t, p + |open|, p + |open| + k, cls)
    && MatchesAtCI(t, p + |open| + k, close)
  }

  /** The match a JavaScript regular expression reports: the leftmost start, and for a lazy
      quantifier the shortest capture at that start. */
  ghost predicate IsFirstMatch(t: string, p: int, k: int, open: string, close: string, cls: CaptureClass)
  {
    && MatchAt(t, p, k, open, close, cls)
    && (forall q, j :: 0 <= q < p && 0 <= j ==> !MatchAt(t, q, j, open, close, cls))
    && (forall j :: 0 <= j < k ==> !MatchAt(t, p, j, open, close, cls))
  }

  /** The lazy scan for the closing tag from position `j`: the first position where `close`
      matches, as long as the characters passed over are in the class. */
  function ScanClose(t: string, j: int, close: string, cls: CaptureClass): (r: Option<int>)
    requires 0 <= j <= |t|
    decreases |t| - j
    ensures r.Some? ==> j <= r.value <= |t| && AllInClass(t, j, r.value, cls) && MatchesAtCI(t, r.value, close)
    ensures r.Some? ==> forall m :: j <= m < r.value ==> !MatchesAtCI(t, m, close)
    ensures r.None? ==> forall m :: j <= m <= |t| && AllInClass(t, j, m, cls) ==> !MatchesAtCI(t, m, close)
  {
    if MatchesAtCI(t, j, close) then Some(j)
    else if j < |t| && InClass(t[j], cls) then ScanClose(t, j + 1, close, cls)
    else None
  }

  /** The leftmost match at or after `i`, as the start and the capture length. */
  function FindFrom(t: string, i: int, open: string, close: string, cls: CaptureClass): (r: Option<(int, int)>)
    requires 0 <= i
    decreases |t| + 1 - i
    ensures r.Some? ==> i <= r.value.0 && IsFirstMatchFrom(t, i, r.value.0, r.value.1, open, close, cls)
    ensures r.None? ==> forall q, j :: i <= q && 0 <= j ==> !MatchAt(t, q, j, open, close, cls)
  {
    if i + |open| > |t| then None
    else
      var sc := ScanClose(t, i + |open|, close, cls);
      if MatchesAtCI(t, i, open) && sc.Some? then
        ShortestAt(t, i, open, close, cls);
        Some((i, sc.value - (i + |open|)))
      else
        NoMatchAt(t, i, open, close, cls);
        var r := FindFrom(t, i + 1, open, close, cls);
        if r.Some? then
          FirstMatchFromEarlier(t, i, r.value.0, r.value.1, open, close, cls);
          r
        else r
  }

  /** A first match from `i + 1` is the first from `i` when nothing matches at `i`. */
  lemma FirstMatchFromEarlier(t: string, i: int, p: int, k: int, open: string, close: string, cls: CaptureClass)
    requires i + 1 <= p && IsFirstMatchFrom(t, i + 1, p, k, open, close, cls)
    requires forall j :: 0 <= j ==> !MatchAt(t, i, j, open, close, cls)
    ensures IsFirstMatchFrom(t, i, p, k, open, close, cls)
  {
  }

  /** When the opening tag matches at `i` and the scan finds a closing tag, that is the shortest
      match starting at `i`. */
  lemma ShortestAt(t: string, i: int, open: string, close: string, cls: CaptureClass)
    requires 0 <= i && i + |open| <= |t|
    requires MatchesAtCI(t, i, open) && ScanClose(t, i + |open|, close, cls).Some?
    ensures var k := ScanClose(t, i + |open|, close, cls).value - (i + |open|);
      MatchAt(t, i, k, open, close, cls) && forall j :: 0 <= j < k ==> !MatchAt(t, i, j, open, close, cls)
  {
  }

  /** Without the opening tag at `i`, or without a closing tag reachable through the class,
      nothing matches at `i`. */
  lemma NoMatchAt(t: string, i: int, open: string, close: string, cls: CaptureClass)
    requires 0 <= i && i + |open| <= |t|
    requires !MatchesAtCI(t, i, open) || ScanClose(t, i + |open|, close, cls).None?
    ensures forall j :: 0 <= j ==> !MatchAt(t, i, j, open, close, cls)
  {
  }

  /** `IsFirstMatch` restricted to starts at or after `i`. */
  ghost predicate IsFirstMatchFrom(t: string, i: int, p: int, k: int, open: string, close: string, cls: CaptureClass)
  {
    && MatchAt(t, p, k, open, close, cls)
    && (forall q, j :: i <= q < p && 0 <= j ==> !MatchAt(t, q, j, open, close, cls))
    && (forall j :: 0 <= j < k ==> !MatchAt(t, p, j, open, close, cls))
  }

  function OpenTag(tag: string): string { "<cas:" + tag + ">" }
  function CloseTag(tag: string): string { "</cas:" + tag + ">" }

  /** The capture of the first match of `open(CLASS*?)close`, or `undefined`. */
  function FirstCapture(t: string, open: string, close: string, cls: CaptureClass): Option<string>
  {
    match FindFrom(t, 0, open, close, cls)
    case None => None
    case Some((p, k)) => Some(t[p + |open|..p + |open| + k])
  }

  /** `undefined` iff nothing matches; otherwise the capture of the first, shortest match. */
  lemma FirstCaptureSpec(t: string, open: string, close: string, cls: CaptureClass)
    ensures FirstCapture(t, open, close, cls).None? ==> forall p, k :: 0 <= p && 0 <= k ==> !MatchAt(t, p, k, open, close, cls)
    ensures FirstCapture(t, open, close, cls).Some? ==> exists p, k ::
      (IsFirstMatch(t, p, k, open, close, cls) && FirstCapture(t, open, close, cls).value == t[p + |open|..p + |open| + k])
  {
    match FindFrom(t, 0, open, close, cls)
    case None =>
    case Some((p, k)) =>
      assert IsFirstMatch(t, p, k, open, close, cls);
  }

  /** The capture of the first match of `<cas:TAG>(CLASS*?)</cas:TAG>` with the `i` flag, or
      `undefined`. */
  function ExtractWith(xml: string, tag: string, cls: CaptureClass): (r: Option<string>)
    ensures r.None? ==> forall p, k :: 0 <= p && 0 <= k ==> !MatchAt(xml, p, k, OpenTag(tag), CloseTag(tag), cls)
    ensures r.Some? ==> exists p, k ::
      (IsFirstMatch(xml, p, k, OpenTag(tag), CloseTag(tag), cls) && r.value == xml[p + |OpenTag(tag)|..p + |OpenTag(tag)| + k])
  {
    FirstCaptureSpec(xml, OpenTag(tag), CloseTag(tag), cls);
    FirstCapture(xml, OpenTag(tag), CloseTag(tag), cls)
  }

  /** `extractTag(xml, tag)` as evidently intended: the capture `[\s\S]*?` takes any text. */
  function ExtractTag(xml: string, tag: string): (r: Option<string>)
    ensures r.None? ==> forall p, k :: 0 <= p && 0 <= k ==> !MatchAt(xml, p, k, OpenTag(tag), CloseTag(tag), AnyChar)
    ensures r.Some? ==> exists p, k ::
      (IsFirstMatch(xml, p, k, OpenTag(tag), CloseTag(tag), AnyChar) && r.value == xml[p + |OpenTag(tag)|..p + |OpenTag(tag)| + k])
  {
    ExtractWith(xml, tag, AnyChar)
  }

  /** `extractTag(xml, tag)` as written: inside the template literal `\s` and `\S` lose their
      backslash, so the capture class is `[sS]`. */
  function ExtractTagAsWritten(xml: string, tag: string): (r: Option<string>)
    ensures r.None? ==> forall p, k :: 0 <= p && 0 <= k ==> !MatchAt(xml, p, k, OpenTag(tag), CloseTag(tag), LetterS)
    ensures r.Some? ==> forall m :: 0 <= m < |r.value| ==> r.value[m] in "sS"
  {
    CaptureOnlyS(xml, OpenTag(tag), CloseTag(tag));
    ExtractWith(xml, tag, LetterS)
  }

  /** With the class `[sS]`, whatever is captured is made of the letter s only. */
  lemma {:induction false} CaptureOnlyS(t: string, open: string, close: string)
    ensures FirstCapture(t, open, close, LetterS).Some? ==>
      forall m :: 0 <= m < |FirstCapture(t, open, close, LetterS).value| ==>
        FirstCapture(t, open, close, LetterS).value[m] in "sS"
  {
    var r := FirstCapture(t, open, close, LetterS);
    FirstCaptureSpec(t, open, close, LetterS);
    if r.Some? {
      var p, k :| IsFirstMatch(t, p, k, open, close, LetterS) && r.value == t[p + |open|..p + |open| + k];
      forall m | 0 <= m < |r.value| ensures r.value[m] in "sS" {
        assert r.value[m] == t[p + |open| + m];
        assert InClass(t[p + |open| + m], LetterS);
      }
    }
  }

  /** As written, whatever is captured is made of the letter s only. */
  lemma AsWrittenCapturesOnlyS(xml: string, tag: string)
    ensures ExtractTagAsWritten(xml, tag).Some? ==>
      forall m :: 0 <= m < |ExtractTagAsWritten(xml, tag).value| ==>
        ExtractTagAsWritten(xml, tag).value[m] in "sS"
  {
    CaptureOnlyS(xml, OpenTag(tag), CloseTag(tag));
  }

  /** There is only one first match. */
  lemma FirstMatchUnique(t: string, p1: int, k1: int, p2: int, k2: int, open: string, close: string, cls: CaptureClass)
    requires IsFirstMatch(t, p1, k1, open, close, cls) && IsFirstMatch(t, p2, k2, open, close, cls)
    ensures p1 == p2 && k1 == k2
  {
  }

  /** A string matches itself, case ignored. */
  lemma MatchesAtExactly(t: string, i: int, s: string)
    requires 0 <= i && i + |s| <= |t| && t[i..i + |s|] == s
    ensures MatchesAtCI(t, i, s)
  {
    forall k | 0 <= k < |s| ensures AsciiLower(t[i + k]) == AsciiLower(s[k]) {
      assert t[i + k] == t[i..i + |s|][k];
    }
  }

  /** A closing tag starts with `<`, which folds only onto itself. */
  lemma NoCloseAtNonLt(t: string, m: int, tag: string)
    requires 0 <= m < |t| && t[m] != '<'
    ensures !MatchesAtCI(t, m, CloseTag(tag))
  {
    assert CloseTag(tag)[0] == '<';
    assert AsciiLower(t[m]) != '<';
  }

  /** An element whose text holds no `<` is the first match, with the whole text captured. */
  lemma {:induction false} FirstMatchOfElement(open: string, v: string, close: string, rest: string)
    requires |close| > 0 && close[0] == '<' && '<' !in v
    ensures IsFirstMatch(open + v + close + rest, 0, |v|, open, close, AnyChar)
  {
    var t := open + v + close + rest;
    assert t[..|open|] == open;
    assert t[|open| + |v|..|open| + |v| + |close|] == close;
    MatchesAtExactly(t, 0, open);
    MatchesAtExactly(t, |open| + |v|, close);
    assert MatchAt(t, 0, |v|, open, close, AnyChar);
    forall j | 0 <= j < |v| ensures !MatchAt(t, 0, j, open, close, AnyChar) {
      assert t[|open| + j] == v[j];
      assert AsciiLower(t[|open| + j]) != AsciiLower(close[0]);
    }
  }

  /** An element whose text holds no `<` is captured whole. */
  lemma {:induction false} CaptureOfElement(open: string, v: string, close: string, rest: string)
    requires |close| > 0 && close[0] == '<' && '<' !in v
    ensures FirstCapture(open + v + close + rest, open, close, AnyChar) == Some(v)
  {
    var t := open + v + close + rest;
    ElementText(open, v, close, rest);
    ElementFound(open, v, close, rest);
    CaptureAtStart(t, open, close, AnyChar, v);
  }

  /** A match found at the start yields the text right after the opening tag. */
  lemma {:induction false} CaptureAtStart(t: string, open: string, close: string, cls: CaptureClass, v: string)
    requires |open| + |v| <= |t| && t[|open|..|open| + |v|] == v
    requires FindFrom(t, 0, open, close, cls) == Some((0, |v|))
    ensures FirstCapture(t, open, close, cls) == Some(v)
  {
  }

  /** The search finds the element at the start, capturing its whole text. */
  lemma {:induction false} ElementFound(open: string, v: string, close: string, rest: string)
    requires |close| > 0 && close[0] == '<' && '<' !in v
    ensures FindFrom(open + v + close + rest, 0, open, close, AnyChar) == Some((0, |v|))
  {
    var t := open + v + close + rest;
    FirstMatchOfElement(open, v, close, rest);
    var m := FindFrom(t, 0, open, close, AnyChar);
    assert MatchAt(t, 0, |v|, open, close, AnyChar);
    assert IsFirstMatch(t, m.value.0, m.value.1, open, close, AnyChar);
    FirstMatchUnique(t, 0, |v|, m.value.0, m.value.1, open, close, AnyChar);
  }

  lemma {:induction false} ElementText(open: string, v: string, close: string, rest: string)
    ensures (open + v + close + rest)[|open|..|open| + |v|] == v
  {
    var t := open + v + close + rest;
    assert forall i :: 0 <= i < |v| ==> t[|open| + i] == v[i];
  }

  /** An element whose text holds no `<` is read back whole by the intended extractor. */
  lemma {:induction false} ExtractTagOfElement(tag: string, v: string, rest: string)
    requires '<' !in v
    ensures ExtractTag(OpenTag(tag) + v + CloseTag(tag) + rest, tag) == Some(v)
  {
    assert CloseTag(tag)[0] == '<';
    CaptureOfElement(OpenTag(tag), v, CloseTag(tag), rest);
  }

  /** The discrepancy: on an ordinary attribute the written extractor finds nothing, while the
      intended one returns the address. */
  lemma AsWrittenMissesMail()
    ensures ExtractTagAsWritten(MailElement, "mail") == None
    ensures ExtractTag(MailElement, "mail") == Some("a@b.fr")
  {
    assert MailElement == OpenTag("mail") + "a@b.fr" + CloseTag("mail") + "";
    ExtractTagOfElement("mail", "a@b.fr", "");
    AsWrittenFindsNoMail(MailElement);
  }

  const MailElement: string := "<cas:mail>a@b.fr</cas:mail>"

  lemma MatchesAtFirst(t: string, i: int, s: string)
    requires MatchesAtCI(t, i, s) && |s| > 0
    ensures AsciiLower(t[i]) == AsciiLower(s[0])
  {
    assert AsciiLower(t[i + 0]) == AsciiLower(s[0]);
  }

  /** In the mail element, only position 0 holds a `<` before position 16. */
  lemma MailElementLt(i: int)
    requires 0 <= i <= 15 && AsciiLower(MailElement[i]) == '<'
    ensures i == 0
  {
  }

  lemma MailNoSCapture(t: string, k: int)
    requires t == MailElement && 0 <= k && 10 + k <= |t|
    ensures !(AllInClass(t, 10, 10 + k, LetterS) && MatchesAtCI(t, 10 + k, CloseTag("mail")))
  {
    if k == 0 {
      if MatchesAtCI(t, 10, CloseTag("mail")) {
        MatchesAtFirst(t, 10, CloseTag("mail"));
        MailElementLt(10);
      }
    } else {
      assert t[10] == 'a';
      assert !InClass(t[10], LetterS);
    }
  }

  lemma AsWrittenFindsNoMail(t: string)
    requires t == MailElement
    ensures ExtractTagAsWritten(t, "mail") == None
  {
    var open, close := OpenTag("mail"), CloseTag("mail");
    var m := FindFrom(t, 0, open, close, LetterS);
    if m.Some? {
      var p, k := m.value.0, m.value.1;
      assert MatchAt(t, p, k, open, close, LetterS);
      MatchesAtFirst(t, p, open);
      MailElementLt(p);
      assert |open| == 10;
      MailNoSCapture(t, k);
    }
  }

  // ---------------------------------------------------------------------------------------
  // Roles: `rolesRaw.split(/[;,\s]+/).filter(Boolean)`

  predicate IsRoleSeparator(ch: char)
  {
    ch == ';' || ch == ',' || IsJsSpace(ch)
  }

  predicate NoRoleSeparator(w: string)
  {
    forall m :: 0 <= m < |w| ==> !IsRoleSeparator(w[m])
  }

  /** The maximal runs of non-separator characters, in order: what splitting on runs of `;`,
      `,` and white space and then dropping the empty strings leaves. */
  function SplitRoles(s: string): (roles: seq<string>)
    ensures forall i :: 0 <= i < |roles| ==> roles[i] != "" && NoRoleSeparator(roles[i])
    ensures |s| > 0 && !IsRoleSeparator(s[0]) ==> |roles| > 0 && roles[0][0] == s[0]
  {
    if s == [] then []
    else if IsRoleSeparator(s[0]) then SplitRoles(s[1..])
    else
      var rest := SplitRoles(s[1..]);
      if |s| > 1 && !IsRoleSeparator(s[1]) then [[s[0]] + rest[0]] + rest[1..]
      else [[s[0]]] + rest
  }

  function Concat(parts: seq<string>): string
  {
    if parts == [] then "" else parts[0] + Concat(parts[1..])
  }

  /** `s` with every separator character dropped. */
  function WithoutSeparators(s: string): (r: string)
    ensures NoRoleSeparator(r)
  {
    if s == [] then ""
    else if IsRoleSeparator(s[0]) then WithoutSeparators(s[1..])
    else [s[0]] + WithoutSeparators(s[1..])
  }

  /** Splitting loses only the separators: the roles, put end to end, are the input with its
      separators removed. */
  lemma {:induction false} SplitRolesKeepsText(s: string)
    ensures Concat(SplitRoles(s)) == WithoutSeparators(s)
  {
    if s != [] {
      SplitRolesKeepsText(s[1..]);
      if !IsRoleSeparator(s[0]) {
        var rest := SplitRoles(s[1..]);
        if |s| > 1 && !IsRoleSeparator(s[1]) {
          var roles := SplitRoles(s);
          assert roles[0] == [s[0]] + rest[0] && roles[1..] == rest[1..];
          assert Concat(rest) == rest[0] + Concat(rest[1..]);
          assert Concat(roles) == roles[0] + Concat(roles[1..]);
        } else {
          assert ([[s[0]]] + rest)[1..] == rest;
        }
      }
    }
  }

  /** A non-empty, separator-free word followed by a separator (or the end) is a role of its own. */
  lemma {:induction false} SplitRolesWord(w: string, rest: string)
    requires w != "" && NoRoleSeparator(w)
    requires rest == [] || IsRoleSeparator(rest[0])
    ensures SplitRoles(w + rest) == [w] + SplitRoles(rest)
  {
    var s := w + rest;
    assert s[1..] == w[1..] + rest;
    if |w| > 1 {
      SplitRolesWord(w[1..], rest);
      assert s[1] == w[1];
      assert [s[0]] + w[1..] == w;
    } else {
      assert s[1..] == rest && [s[0]] == w;
      assert |s| > 1 ==> s[1] == rest[0];
    }
  }

  predicate AllRoleSeparators(w: string)
  {
    forall m :: 0 <= m < |w| ==> IsRoleSeparator(w[m])
  }

  /** A run of separators in front of the text produces no role and does not change where
      the roles break. */
  lemma {:induction false} SplitRolesSkipsSeparators(sep: string, s: string)
    requires AllRoleSeparators(sep)
    ensures SplitRoles(sep + s) == SplitRoles(s)
  {
    if sep == [] {
      assert sep + s == s;
    } else {
      var t := sep + s;
      assert t[0] == sep[0] && t[1..] == sep[1..] + s;
      assert IsRoleSeparator(t[0]);
      assert SplitRoles(t) == SplitRoles(t[1..]);
      SplitRolesSkipsSeparators(sep[1..], s);
    }
  }

  /** Each role followed by its run of separators. */
  function Spaced(roles: seq<string>, seps: seq<string>): string
    requires |seps| == |roles|
  {
    if roles == [] then "" else roles[0] + seps[0] + Spaced(roles[1..], seps[1..])
  }

  /** Roles written out with any separator runs between them (at least one separator between
      two roles, any number before the first and after the last) are split back into exactly
      those roles. */
  lemma {:induction false} SplitRolesSpaced(lead: string, roles: seq<string>, seps: seq<string>)
    requires AllRoleSeparators(lead)
    requires |seps| == |roles|
    requires forall i :: 0 <= i < |roles| ==> roles[i] != "" && NoRoleSeparator(roles[i]) && AllRoleSeparators(seps[i])
    requires forall i :: 0 <= i < |roles| - 1 ==> seps[i] != ""
    ensures SplitRoles(lead + Spaced(roles, seps)) == roles
    decreases |roles|
  {
    SplitRolesSkipsSeparators(lead, Spaced(roles, seps));
    if roles != [] {
      var tail := seps[0] + Spaced(roles[1..], seps[1..]);
      assert Spaced(roles, seps) == roles[0] + tail;
      if seps[0] == "" {
        assert roles[1..] == [];
        assert tail == "";
      }
      SplitRolesWord(roles[0], tail);
      SplitRolesSpaced(seps[0], roles[1..], seps[1..]);
      assert [roles[0]] + roles[1..] == roles;
    }
  }

  /** The inverse direction: roles written out with commas are split back into the same list. */
  lemma {:induction false} SplitRolesJoin(roles: seq<string>)
    requires forall i :: 0 <= i < |roles| ==> roles[i] != "" && NoRoleSeparator(roles[i])
    ensures SplitRoles(Join(roles, ',')) == roles
  {
    if |roles| == 1 {
      SplitRolesWord(roles[0], "");
      assert roles[0] + "" == roles[0];
    } else if |roles| > 1 {
      var tail := Join(roles[1..], ',');
      SplitRolesWord(roles[0], [','] + tail);
      assert roles[0] + [','] + tail == roles[0] + ([','] + tail);
      assert ([','] + tail)[1..] == tail;
      SplitRolesJoin(roles[1..]);
      assert [roles[0]] + roles[1..] == roles;
    }
  }

  // ---------------------------------------------------------------------------------------
  // Attribute derivation

  /** `x || ''`. */
  function OrEmpty(o: Option<string>): string
  {
    if o.Some? then o.value else ""
  }

  /** `x || undefined`: an empty string is not kept. */
  function Present(o: Option<string>): (r: Option<string>)
    ensures r.Some? ==> r.value != ""
    ensures Truthy(o) ==> r == o
    ensures !Truthy(o) ==> r == None
  {
    if Truthy(o) then o else None
  }

  /** The user attributes read from a successful validation response, every tag read with
      capture class `cls`. */
  function AttributesWith(text: string, cls: CaptureClass): (u: UserAttrs)
    ensures u.displayName.Some? ==> u.displayName.value != ""
    ensures u.givenName.Some? ==> u.givenName.value != ""
    ensures u.familyName.Some? ==> u.familyName.value != ""
    ensures u.mail.Some? ==> u.mail.value != ""
    ensures u.roles.Some?
    ensures forall i :: 0 <= i < |u.roles.value| ==> u.roles.value[i] != "" && NoRoleSeparator(u.roles.value[i])
  {
    var givenName := ExtractWith(text, "givenName", cls);
    var sn := Or(ExtractWith(text, "sn", cls), ExtractWith(text, "familyName", cls));
    var displayName := Or(ExtractWith(text, "displayName", cls), Some(Trim(OrEmpty(givenName) + " " + OrEmpty(sn))));
    var mail := Or(ExtractWith(text, "mail", cls), ExtractWith(text, "email", cls));
    var rolesRaw := Or(Or(ExtractWith(text, "roles", cls), ExtractWith(text, "memberOf", cls)), ExtractWith(text, "groups", cls));
    var roles := if Truthy(rolesRaw) then SplitRoles(rolesRaw.value) else [];
    UserAttrs(Present(displayName), Present(givenName), Present(sn), Present(mail), Some(roles))
  }

  /** The attributes as evidently intended: tags read with `[\s\S]*?`. The session the
      callback creates carries these. */
  function Attributes(text: string): (u: UserAttrs)
    ensures u.givenName.Some? ==> u.givenName.value != "" && ExtractTag(text, "givenName") == u.givenName
    ensures u.mail.Some? ==> u.mail.value != ""
    ensures u.roles.Some?
    ensures forall i :: 0 <= i < |u.roles.value| ==> u.roles.value[i] != "" && NoRoleSeparator(u.roles.value[i])
  {
    AttributesWith(text, AnyChar)
  }

  /** The attributes as written: tags read with `[sS]*?`. */
  function AttributesAsWritten(text: string): (u: UserAttrs)
    ensures OnlyS(u.givenName) && OnlyS(u.familyName) && OnlyS(u.mail)
  {
    AsWrittenAttributesOnlyS(text);
    AttributesWith(text, LetterS)
  }

  /** A present value made of the letters `s` and `S` alone. */
  predicate OnlyS(o: Option<string>)
  {
    o.Some? ==> forall m :: 0 <= m < |o.value| ==> o.value[m] in "sS"
  }

  /** As written, a given name, family name or mail address is stored only when it is made of
      the letter s alone; any real address is lost. */
  lemma AsWrittenAttributesOnlyS(text: string)
    ensures OnlyS(AttributesWith(text, LetterS).givenName)
    ensures OnlyS(AttributesWith(text, LetterS).familyName)
    ensures OnlyS(AttributesWith(text, LetterS).mail)
  {
    var u := AttributesWith(text, LetterS);
    AsWrittenCapturesOnlyS(text, "givenName");
    assert u.givenName == Present(ExtractTagAsWritten(text, "givenName"));
    FallbackOnlyS(text, "sn", "familyName");
    assert u.familyName == Present(Or(ExtractTagAsWritten(text, "sn"), ExtractTagAsWritten(text, "familyName")));
    FallbackOnlyS(text, "mail", "email");
    assert u.mail == Present(Or(ExtractTagAsWritten(text, "mail"), ExtractTagAsWritten(text, "email")));
  }

  lemma FallbackOnlyS(text: string, tag1: string, tag2: string)
    ensures OnlyS(Present(Or(ExtractTagAsWritten(text, tag1), ExtractTagAsWritten(text, tag2))))
  {
    AsWrittenCapturesOnlyS(text, tag1);
    AsWrittenCapturesOnlyS(text, tag2);
  }

  /** The fallback chains: the first attribute with a non-empty value wins. */
  lemma AttributeFallbacks(text: string)
    ensures var u := Attributes(text);
      && (Truthy(ExtractTag(text, "sn")) ==> u.familyName == ExtractTag(text, "sn"))
      && (!Truthy(ExtractTag(text, "sn")) ==> u.familyName == Present(ExtractTag(text, "familyName")))
      && (Truthy(ExtractTag(text, "mail")) ==> u.mail == ExtractTag(text, "mail"))
      && (!Truthy(ExtractTag(text, "mail")) ==> u.mail == Present(ExtractTag(text, "email")))
      && (Truthy(ExtractTag(text, "roles")) ==> u.roles == Some(SplitRoles(ExtractTag(text, "roles").value)))
      && (!Truthy(ExtractTag(text, "roles")) && Truthy(ExtractTag(text, "memberOf")) ==>
            u.roles == Some(SplitRoles(ExtractTag(text, "memberOf").value)))
      && (!Truthy(ExtractTag(text, "roles")) && !Truthy(ExtractTag(text, "memberOf")) && Truthy(ExtractTag(text, "groups")) ==>
            u.roles == Some(SplitRoles(ExtractTag(text, "groups").value)))
      && (!Truthy(ExtractTag(text, "roles")) && !Truthy(ExtractTag(text, "memberOf")) && !Truthy(ExtractTag(text, "groups")) ==>
            u.roles == Some([]))
  {
  }

  /** Without a `displayName` attribute the display name is the given name and the family name
      joined by a space and trimmed, with a missing part read as empty; all blank means none. */
  lemma DisplayNameFallback(text: string)
    requires !Truthy(ExtractTag(text, "displayName"))
    ensures var composed := Trim(OrEmpty(ExtractTag(text, "givenName")) + " " + OrEmpty(Attributes(text).familyName));
      Attributes(text).displayName == (if composed == "" then None else Some(composed))
  {
  }

  // ---------------------------------------------------------------------------------------
  // The callback request

  /** The response of the validation request, or a network failure. */
  datatype Fetched = Body(text: string) | FetchFailed

  /** The query parameters `ticket` and `redirect`, the origin and the `User-Agent` header. */
  datatype CallbackRequest = CallbackRequest(
    ticket: Option<string>,
    redirect: Option<string>,
    origin: string,
    userAgent: Option<string>)

  datatype CallbackOutcome = CallbackOutcome(response: RedirectResponse, state: StoreState)

  const ValidatePrefix: string := "https://cas.unicaen.fr/cas/p3/serviceValidate?service="

  /** The `/p3/serviceValidate` URL: the service and the ticket each percent-encoded, so the `&`
      between them is the only one. */
  function ValidateUrl(service: string, ticket: string): (u: string)
    ensures StartsWith(u, ValidatePrefix)
    ensures forall m :: |ValidatePrefix| <= m < |u| && u[m] == '&' ==>
      m == |ValidatePrefix| + |EncodeUriComponent(service)|
  {
    var es, et := EncodeUriComponent(service), EncodeUriComponent(ticket);
    OnlySeparatorAmpersand(ValidatePrefix, es, et);
    ValidatePrefix + es + "&ticket=" + et
  }

  /** In `p + es + "&ticket=" + et`, with `&`-free `es` and `et`, the only `&` after `p` is the
      separator. */
  lemma OnlySeparatorAmpersand(p: string, es: string, et: string)
    requires forall m :: 0 <= m < |es| ==> es[m] != '&'
    requires forall m :: 0 <= m < |et| ==> et[m] != '&'
    ensures forall m :: |p| <= m < |p + es + "&ticket=" + et| && (p + es + "&ticket=" + et)[m] == '&' ==> m == |p| + |es|
  {
    var u := p + es + "&ticket=" + et;
    forall m | |p| <= m < |u| && m != |p| + |es|
      ensures u[m] != '&'
    {
      if m < |p| + |es| {
        assert u[m] == es[m - |p|];
      } else if m > |p| + |es| + 7 {
        assert u[m] == et[m - |p| - |es| - 8];
      } else {
        assert u[m] == "&ticket="[m - |p| - |es|];
      }
    }
  }

  /** `sign(value)`: the lowercase hexadecimal HMAC of the value under the signing key. */
  function Sign(h: Hmac, keyEnv: Option<string>, value: string): (sig: string)
    ensures forall m :: 0 <= m < |sig| ==> IsLowerHex(sig[m])
    ensures '.' !in sig
  {
    var mac := h(Utf8(SigningKey(keyEnv)), Utf8(value));
    HexHasNoDot(mac);
    Hex(mac)
  }

  /** The body announces a successful authentication (`/authenticationSuccess/.test(text)`). */
  predicate Succeeded(f: Fetched)
    ensures Succeeded(f) <==> f.Body? && exists i :: OccursAt(f.text, "authenticationSuccess", i)
  {
    match f
    case FetchFailed => false
    case Body(text) =>
      ContainsAt(text, "authenticationSuccess");
      Contains(text, "authenticationSuccess")
  }

  /** What is handed to `createSession` for a successful validation. */
  function SessionDataOf(text: string, ticket: string, h: Hmac, keyEnv: Option<string>, userAgent: Option<string>, now: int): (d: SessionData)
    ensures d.ticket == Some(ticket) && d.user == Attributes(text)
    ensures Truthy(ExtractTag(text, "authenticationDate")) ==> d.authDate == Some(DateText(ExtractTag(text, "authenticationDate").value))
    ensures !Truthy(ExtractTag(text, "authenticationDate")) ==> d.authDate == Some(DateMillis(now))
    ensures d.clientIp == Present(ExtractTag(text, "clientIpAddress"))
    ensures d.uaHash == Some(Sign(h, keyEnv, if Truthy(userAgent) then userAgent.value else ""))
  {
    var authDate := ExtractTag(text, "authenticationDate");
    var ua := if Truthy(userAgent) then userAgent.value else "";
    SessionData(
      Some(ticket),
      Attributes(text),
      Some(if Truthy(authDate) then DateText(authDate.value) else DateMillis(now)),
      Present(ExtractTag(text, "clientIpAddress")),
      Some(Sign(h, keyEnv, ua)))
  }

  /** `GET /api/auth/cas/callback`: `fetch` is the network, `h` the HMAC, `uuid` and `rand` the
      sources of the new id, `now` the clock. */
  function Callback(st: StoreState, req: CallbackRequest, fetch: string -> Fetched, h: Hmac, keyEnv: Option<string>,
                    uuid: Option<string>, rand: nat -> Nibble, now: int): (r: CallbackOutcome)
    ensures r.response.location == RedirectTarget(req.redirect)
    ensures r.response.cookie.None? ==> r.state == st
    ensures r.response.cookie.Some? <==>
      Truthy(req.ticket) && Succeeded(fetch(ValidateUrl(ServiceUrl(req.origin, RedirectTarget(req.redirect)), req.ticket.value)))
    ensures r.response.cookie.Some? ==>
      var id := NewId(uuid, rand);
      var text := fetch(ValidateUrl(ServiceUrl(req.origin, RedirectTarget(req.redirect)), req.ticket.value)).text;
      && r.state == Create(st, SessionDataOf(text, req.ticket.value, h, keyEnv, req.userAgent, now), id, now)
      && r.response.cookie == Some(SessionCookie(id + "." + Sign(h, keyEnv, id)))
  {
    var redirectTo := RedirectTarget(req.redirect);
    var bare := CallbackOutcome(RedirectResponse(redirectTo, None), st);
    if !Truthy(req.ticket) then bare
    else
      var fetched := fetch(ValidateUrl(ServiceUrl(req.origin, redirectTo), req.ticket.value));
      if !Succeeded(fetched) then bare
      else
        var id := NewId(uuid, rand);
        var d := SessionDataOf(fetched.text, req.ticket.value, h, keyEnv, req.userAgent, now);
        var st' := Create(st, d, id, now);
        assert Get(st', id).Some?;
        CallbackOutcome(RedirectResponse(redirectTo, Some(SessionCookie(id + "." + Sign(h, keyEnv, id)))), st')
  }

  /** A successful callback creates exactly one session, stored under the id the cookie names
      before its first dot, reachable by its ticket, and touches no other session. */
  lemma {:induction false} CallbackCreatesOneSession(st: StoreState, req: CallbackRequest, fetch: string -> Fetched, h: Hmac,
                                                     keyEnv: Option<string>, uuid: Option<string>, rand: nat -> Nibble, now: int)
    requires !Truthy(uuid) || '.' !in uuid.value
    ensures var r := Callback(st, req, fetch, h, keyEnv, uuid, rand, now);
      r.response.cookie.Some? ==>
        var id := Split(r.response.cookie.value.value, '.')[0];
        && id == NewId(uuid, rand)
        && Get(r.state, id).Some? && Get(r.state, id).value.ticket == req.ticket
        && FindIdByTicket(r.state, req.ticket.value) == Some(id)
        && (forall other :: other != id ==> Get(r.state, other) == Get(st, other))
  {
    var r := Callback(st, req, fetch, h, keyEnv, uuid, rand, now);
    if r.response.cookie.Some? {
      var id := NewId(uuid, rand);
      if !Truthy(uuid) {
        UuidHasNoDot(id);
      }
      HeadOfJoined(id, Sign(h, keyEnv, id), '.');
      assert id + "." + Sign(h, keyEnv, id) == id + ['.'] + Sign(h, keyEnv, id);
    }
  }

  /** `GET` against the store object: validation, one `createSession`, the signed cookie. */
  method HandleCallback(store: Store, req: CallbackRequest, fetch: string -> Fetched, h: Hmac, keyEnv: Option<string>,
                        uuid: Option<string>, rand: nat -> Nibble, now: int) returns (resp: RedirectResponse)
    modifies store
    ensures CallbackOutcome(resp, store.State()) == Callback(old(store.State()), req, fetch, h, keyEnv, uuid, rand, now)
  {
    var redirectTo := RedirectTarget(req.redirect);
    if !Truthy(req.ticket) {
      return RedirectResponse(redirectTo, None);
    }
    var fetched := fetch(ValidateUrl(ServiceUrl(req.origin, redirectTo), req.ticket.value));
    if !Succeeded(fetched) {
      return RedirectResponse(redirectTo, None);
    }
    var d := SessionDataOf(fetched.text, req.ticket.value, h, keyEnv, req.userAgent, now);
    var session := store.CreateSession(d, uuid, rand, now);
    resp := RedirectResponse(redirectTo, Some(SessionCookie(session.id + "." + Sign(h, keyEnv, session.id))));
  }
}
