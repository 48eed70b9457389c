# Unified portal: CAS session handling and portal logic in Dafny

This project models the core of a university web portal built with Next.js. The portal has two halves.

**Authentication.** Users sign in through the CAS single sign-on server. A callback route validates the CAS ticket, reads the user's attributes from the XML answer, creates a server-side session and sets a signed `cas_user` cookie. An edge middleware is meant to check that cookie on every page. A single-logout (SLO) endpoint lets CAS revoke a session by its ticket. A logout route deletes the session and expires the cookie.

**Portal page.** The page shows application cards filtered by role and search, and lets users pin applications. An editor modal builds application records. A translations route keeps the English and French dictionaries in step with renamed or deleted name keys. A small i18n provider translates keys and remembers the chosen locale.

Modules, one per source file:

- `SessionStore` (`session_store.dfy`) models `src/lib/sessionStore.ts`.
  - The two module-level maps are the fields of the class `Store`.
  - Each method is proved against a pure function on `StoreState`.
  - A consistency invariant ties the ticket index to the sessions.
- `Gate` (`gate.dfy`) models `src/middleware.ts`.
  - It covers the cookie check and the login redirect, and `hmacHex`.
  - The function as written returns at its first line, which is recorded under Findings.
- `CasCallback`, `Slo` and `Logout` model the three auth routes.
  - The attributes are read with a capture class: `CasCallback.AttributesAsWritten` uses the `[sS]` class the code actually builds, and `CasCallback.Attributes` the intended `[\s\S]`. The callback, the session it creates and the `AuthFlow` lemmas use the intended one (see Findings).
  - `Web` holds what they share: the signing key, cookie attributes, the service URL and the redirect target.
  - `AuthFlow` states end-to-end properties across them. A cookie issued by the callback passes the gate, and logout or SLO revokes it.
- `Translations` models `src/app/api/translations/route.ts`.
  - The per-locale dictionaries are a `map` field of a class.
  - They are updated in place inside the loop over the locales.
- `Portal` models `src/app/page.tsx`: role matching, availability, pins, the two search filters and the click handler.
- `AppEditor` models `src/app/components/AppEditorModal.tsx`.
  - The form state is a class.
  - It covers the save derivation, the sub-choice edits and the icon-library lookup (longest prefix first).
- `I18n` models `src/lib/i18n.tsx`: `t`, the default-locale detection and the persisted locale.
- `Util` and `Encoding` model the JavaScript built-ins the code relies on:
  - string trimming, splitting and joining;
  - `TextEncoder` (UTF-8);
  - lowercase hexadecimal;
  - `encodeURIComponent`.

Inputs the source draws from its environment are parameters:

- the HMAC function (WebCrypto, or `node:crypto`);
- `crypto.randomUUID` and `Math.random`;
- `Date.now`;
- the CAS answer, which is either a body or a failure;
- whether `localStorage` works;
- the browser's `navigator`;
- the translation function and the lower-casing used by the search;
- the dynamic icon-module import;
- the `displayName` property of each icon component, which the editor reads when it opens an application.

## Model

| member | source | states |
|---|---|---|
| Util.Trim | src/app/components/AppEditorModal.tsx:108 | `trim()` drops white space at both ends and keeps the middle of the string unchanged |
| Util.Split | src/middleware.ts:20 | `split(c)` yields at least one part and no part holds the separator |
| Util.JoinSplit | src/middleware.ts:20 | joining the parts of a split restores the string |
| Util.SplitJoin | src/app/components/AppEditorModal.tsx:54 | splitting a join restores separator-free parts |
| Util.SplitHead | src/app/api/auth/logout/route.ts:12 | the first part is the text before the first separator |
| Util.ContainsAt | src/app/api/auth/cas/callback/route.ts:40 | a text contains a pattern iff the pattern occurs at some position of it |
| Encoding.Utf8CharRoundTrip | src/middleware.ts:62-63 | the UTF-8 bytes of a character decode back to its code point |
| Encoding.Utf8Ascii | src/middleware.ts:66 | ASCII text encodes to its own codes, one byte per character |
| Encoding.HexByte | src/middleware.ts:66 | `toString(16).padStart(2,'0')` gives two lowercase digits worth the byte |
| Encoding.HexAt | src/middleware.ts:72 | byte `i` is rendered by characters `2i` and `2i+1` |
| Encoding.UnhexHex | src/middleware.ts:72 | the hex rendering loses nothing: reading it back gives the bytes |
| Encoding.HexInjective | src/middleware.ts:72 | two byte strings with the same rendering are equal |
| Encoding.EncodeUriComponent | src/middleware.ts:50 | only unreserved characters and `%` escapes appear in the result |
| Encoding.DecodeEncode | src/middleware.ts:50-51 | percent-decoding the encoded text gives its UTF-8 bytes |
| Encoding.DecodePercentBytes | src/middleware.ts:50 | the `%XY` escapes of a byte string decode back to those bytes, whatever follows |
| Encoding.HexHasNoDot | src/app/api/auth/cas/callback/route.ts:14 | a `digest('hex')` rendering is lowercase hex and holds no `.` |
| SessionStore.Create | src/lib/sessionStore.ts:22-28 | the new session is stored under its id, other sessions are untouched, a truthy ticket is indexed to the id |
| SessionStore.DeleteById | src/lib/sessionStore.ts:42-48 | removed iff the id was stored; the session and its ticket entry go, nothing else changes |
| SessionStore.DeleteByTicket | src/lib/sessionStore.ts:50-56 | removed iff the ticket was indexed; the indexed session and the ticket entry go, nothing else changes |
| SessionStore.Clear | src/lib/sessionStore.ts:62-65 | no session and no ticket remain |
| SessionStore.EmptyConsistent | src/lib/sessionStore.ts:19-20 | the empty maps satisfy the index invariant |
| SessionStore.CreateKeepsConsistent | src/lib/sessionStore.ts:22-28 | creating under a fresh id keeps every index entry pointing at a session with that ticket |
| SessionStore.DeleteByIdKeepsConsistent | src/lib/sessionStore.ts:42-48 | deleting by id keeps the invariant |
| SessionStore.DeleteByTicketKeepsConsistent | src/lib/sessionStore.ts:50-56 | deleting by ticket keeps the invariant |
| SessionStore.ClearKeepsConsistent | src/lib/sessionStore.ts:62-65 | clearing keeps the invariant |
| SessionStore.IndexedTicketResolves | src/lib/sessionStore.ts:58-60 | in a consistent store a ticket resolves iff it is indexed, to a session holding that ticket |
| SessionStore.SameTicketRepointsIndex | src/lib/sessionStore.ts:26 | a second session with the same ticket takes over the index entry; the first session stays |
| SessionStore.DeleteByIdDropsRepointedEntry | src/lib/sessionStore.ts:42-48 | deleting the first of two same-ticket sessions also drops the index entry of the second, so SLO can no longer reach it |
| SessionStore.DeleteByTicketTwice | src/lib/sessionStore.ts:50-56 | a second deletion by the same ticket removes nothing and changes nothing |
| SessionStore.DeleteByIdTwice | src/lib/sessionStore.ts:42-48 | a second deletion by the same id removes nothing and changes nothing |
| SessionStore.UuidTemplateText | src/lib/sessionStore.ts:31 | the template is `xxxxxxxx-xxxx-4xxx-yxxx-xxxxxxxxxxxx` |
| SessionStore.FillAt | src/lib/sessionStore.ts:31-35 | each `x` becomes a hex digit, each `y` one of `89ab`, other characters stay |
| SessionStore.FallbackIsUuidV4 | src/lib/sessionStore.ts:30-36 | filling the template with any random digits gives a version-4 UUID |
| SessionStore.GenerateFallbackUuid | src/lib/sessionStore.ts:30-36 | whatever the random digits, the fallback id is a lowercase version-4 UUID |
| SessionStore.UuidHasNoDot | src/lib/sessionStore.ts:30-36 | a UUID is non-empty and holds no `.`, so it is safe as the cookie's first part |
| SessionStore.NewId | src/lib/sessionStore.ts:23 | a truthy `randomUUID()` result is used, otherwise a fallback UUID; never empty |
| SessionStore.Get | src/lib/sessionStore.ts:38-40 | a session is returned iff the id is stored, and it is the stored session |
| SessionStore.FindIdByTicket | src/lib/sessionStore.ts:58-60 | an id is returned iff the ticket is indexed to a non-empty id, and it is that id |
| SessionStore.Store.constructor | src/lib/sessionStore.ts:19-20 | both maps start empty and the invariant holds |
| SessionStore.Store.CreateSession | src/lib/sessionStore.ts:22-28 | the maps become `Create` of the old maps, the returned session carries the new id, and the invariant is kept |
| SessionStore.Store.GetSession | src/lib/sessionStore.ts:38-40 | returns the stored session or nothing, without changes |
| SessionStore.Store.DeleteSessionById | src/lib/sessionStore.ts:42-48 | the result and new maps are `DeleteById` of the old maps; the invariant is kept |
| SessionStore.Store.DeleteSessionByTicket | src/lib/sessionStore.ts:50-56 | the result and new maps are `DeleteByTicket` of the old maps; the invariant is kept |
| SessionStore.Store.FindSessionIdByTicket | src/lib/sessionStore.ts:58-60 | returns the indexed id or nothing |
| SessionStore.Store.ClearAllSessions | src/lib/sessionStore.ts:62-65 | both maps become empty |
| Web.SigningKey | src/middleware.ts:23 | a truthy `CAS_SIGNING_KEY`, else the development key; never empty |
| Web.ServiceUrl | src/app/api/auth/cas/callback/route.ts:23 | the callback URL followed by the percent-encoded target, which decodes back to the target |
| Web.SessionCookie | src/app/api/auth/cas/callback/route.ts:70-78 | `cas_user`, http-only, secure, lax, path `/`, eight hours |
| Web.ExpiredCookie | src/app/api/auth/logout/route.ts:21-29 | `cas_user` with an empty value and max-age 0, same attributes |
| Web.RedirectTarget | src/app/api/auth/cas/callback/route.ts:20 | the `redirect` parameter when truthy, else `/` |
| Gate.IsBypassed | src/middleware.ts:10 | only absolute paths of at least five characters under a framework prefix are skipped; `/` is gated |
| Gate.Admitted | src/middleware.ts:16-43 | a request is admitted only with a cookie whose id is non-empty, names a stored session, and is followed by a dot and the HMAC of that id |
| Gate.HmacHex | src/middleware.ts:61-73 | even-length lowercase hex whose bytes are the MAC of key and data, or the data's own bytes when WebCrypto is missing |
| Gate.HmacHexWithoutSubtleIsPublic | src/middleware.ts:65-68 | without WebCrypto the result is the hex of the data and does not depend on the key |
| Gate.LoginUrl | src/middleware.ts:49-51 | the CAS login URL with the encoded service URL for the requested page |
| Gate.CookieParts | src/middleware.ts:20 | `[sid, sig]` are the dot-free first two segments of the cookie value, the second running to the end or to the next dot |
| Gate.GateDecision | src/middleware.ts:9-53 | bypassed prefixes pass; otherwise the request passes iff the cookie is well-formed, correctly signed, names a live session and matches its user-agent hash; every redirect goes to the login URL; the store changes only by deleting a mismatched session |
| Gate.GateAsWritten | src/middleware.ts:5-7 | as written the decision is always to pass and the store is unchanged |
| Gate.GateAsWrittenLetsEverythingThrough | src/middleware.ts:5-7 | the function as written passes every request and changes nothing |
| Gate.GateAsWrittenAdmitsAnonymous | src/middleware.ts:7 | a request for `/` without a cookie passes as written, while the checks after line 7 redirect it |
| Gate.BadSignatureRejected | src/middleware.ts:23-27 | a wrong signature redirects and leaves the store as it is |
| Gate.MalformedCookieIsNoCookie | src/middleware.ts:20-21 | a cookie with an empty id or signature is treated as no cookie |
| Gate.UnknownSessionRejected | src/middleware.ts:29-33 | a signed id without a session redirects and changes nothing |
| Gate.UserAgentMismatchDestroysSession | src/middleware.ts:35-41 | a different user-agent hash redirects and deletes the session, so the cookie fails afterwards too |
| Gate.GateKeepsConsistent | src/middleware.ts:35-41 | the gate keeps the store invariant |
| Gate.CookiePartsOfSigned | src/middleware.ts:20 | splitting `id.sig` gives back the id and signature |
| Gate.CookiePartsIgnoresRest | src/middleware.ts:20 | segments after the second are ignored |
| Gate.ForgeableWithoutSubtle | src/middleware.ts:65-68 | without WebCrypto anyone can compute the expected signature of any id |
| Gate.Middleware | src/middleware.ts:9-53 | the decision and the new store are those of `GateDecision`; the invariant is kept |
| CasCallback.ScanClose | src/app/api/auth/cas/callback/route.ts:7 | the lazy `*?`: the first position where the closing tag matches, all capture characters in the class |
| CasCallback.FindFrom | src/app/api/auth/cas/callback/route.ts:7-8 | the leftmost start with a match, and no match anywhere when nothing is found |
| CasCallback.ExtractWith | src/app/api/auth/cas/callback/route.ts:6-10 | `undefined` iff no match; otherwise the capture of the first, shortest match |
| CasCallback.ExtractTag | src/app/api/auth/cas/callback/route.ts:6-10 | with the intended `[\s\S]` class: nothing iff no element of the tag matches; otherwise the capture of the first, shortest match |
| CasCallback.ExtractTagAsWritten | src/app/api/auth/cas/callback/route.ts:6-10 | with the `[sS]` class as written: nothing iff no match of that class, and any capture is made of `s` and `S` only |
| CasCallback.FirstCaptureSpec | src/app/api/auth/cas/callback/route.ts:6-10 | no capture iff no match anywhere; a capture is the text of the first, shortest match |
| CasCallback.CaptureOfElement | src/app/api/auth/cas/callback/route.ts:7-9 | an opening tag, `<`-free text and a closing tag starting with `<` capture exactly that text |
| CasCallback.AsWrittenCapturesOnlyS | src/app/api/auth/cas/callback/route.ts:7 | the pattern as written captures only `s` and `S` characters |
| CasCallback.CaptureOnlyS | src/app/api/auth/cas/callback/route.ts:7 | with the `[sS]` class every captured character is `s` or `S`, whatever the tags |
| CasCallback.FirstMatchUnique | src/app/api/auth/cas/callback/route.ts:7-8 | the first match is unique |
| CasCallback.ExtractTagOfElement | src/app/api/auth/cas/callback/route.ts:6-10 | an element `<cas:TAG>v</cas:TAG>` with `<`-free text yields `v` |
| CasCallback.AsWrittenMissesMail | src/app/api/auth/cas/callback/route.ts:7 | `<cas:mail>a@b.fr</cas:mail>` yields nothing as written, and `a@b.fr` as intended |
| CasCallback.AsWrittenFindsNoMail | src/app/api/auth/cas/callback/route.ts:7 | the pattern as written finds no mail element in that text |
| CasCallback.SplitRoles | src/app/api/auth/cas/callback/route.ts:49 | `split(/[;,\s]+/).filter(Boolean)` gives non-empty, separator-free roles |
| CasCallback.SplitRolesKeepsText | src/app/api/auth/cas/callback/route.ts:49 | the roles, concatenated, are the text with its separators removed |
| CasCallback.SplitRolesWord | src/app/api/auth/cas/callback/route.ts:49 | a word followed by a separator becomes its own role |
| CasCallback.SplitRolesJoin | src/app/api/auth/cas/callback/route.ts:49 | splitting a comma-joined list of clean roles restores it |
| CasCallback.SplitRolesSkipsSeparators | src/app/api/auth/cas/callback/route.ts:49 | a leading run of separators yields no role and does not move any role boundary |
| CasCallback.SplitRolesSpaced | src/app/api/auth/cas/callback/route.ts:49 | roles joined by any non-empty runs of `;`, `,` or white space, with any leading and trailing runs, split back to exactly those roles |
| CasCallback.Present | src/app/api/auth/cas/callback/route.ts:54-57 | `x \|\| undefined` keeps a truthy value and drops an empty one |
| CasCallback.AttributesWith | src/app/api/auth/cas/callback/route.ts:44-59 | every present attribute is non-empty; roles are always present, each non-empty and separator-free; for either capture class |
| CasCallback.Attributes | src/app/api/auth/cas/callback/route.ts:44-59 | with the intended capture: the given name is the extracted tag when present, present names and mail are non-empty, roles are always present, each non-empty and separator-free |
| CasCallback.AttributesAsWritten | src/app/api/auth/cas/callback/route.ts:44-59 | as written, a stored given name, family name or mail is made of `s` and `S` only |
| CasCallback.AsWrittenAttributesOnlyS | src/app/api/auth/cas/callback/route.ts:44-57 | as written, a stored given name, family name or mail is made of `s` and `S` only |
| CasCallback.AttributeFallbacks | src/app/api/auth/cas/callback/route.ts:45-49 | family name from `sn` else `familyName`, mail from `mail` else `email`, roles from `roles`, `memberOf`, `groups` else none |
| CasCallback.DisplayNameFallback | src/app/api/auth/cas/callback/route.ts:46 | without `displayName` the display name is the trimmed given and family names, absent when blank |
| CasCallback.Succeeded | src/app/api/auth/cas/callback/route.ts:40 | the answer counts as a success iff a body was fetched and `authenticationSuccess` occurs somewhere in it |
| CasCallback.ValidateUrl | src/app/api/auth/cas/callback/route.ts:29 | the validation URL starts with the CAS endpoint and its only `&` separates service and ticket |
| CasCallback.OnlySeparatorAmpersand | src/app/api/auth/cas/callback/route.ts:29 | after the fixed prefix, the only `&` of the URL is the one before `ticket=` when both encoded parts are `&`-free |
| CasCallback.Sign | src/app/api/auth/cas/callback/route.ts:12-15 | the signature is lowercase hex and holds no `.` |
| CasCallback.SessionDataOf | src/app/api/auth/cas/callback/route.ts:61-64 | ticket, attributes, the CAS date else the current time, client IP, and the HMAC of the user agent |
| CasCallback.Callback | src/app/api/auth/cas/callback/route.ts:17-80 | always redirects to the target; a cookie is set iff a ticket came and CAS answered with success, and then the session is created and the cookie is `id.sign(id)`; otherwise the store is unchanged |
| CasCallback.CallbackCreatesOneSession | src/app/api/auth/cas/callback/route.ts:64-67 | the cookie's id names the one new session, holding the ticket, which the ticket index points to; nothing else changes |
| CasCallback.HandleCallback | src/app/api/auth/cas/callback/route.ts:17-80 | the response and new store are those of `Callback` |
| Slo.NonLtRun | src/app/api/auth/cas/slo/route.ts:7 | the greedy `[^<]+` run ends at the end or at a `<` |
| Slo.FirstIndexMatch | src/app/api/auth/cas/slo/route.ts:7 | the leftmost `<SessionIndex>` match, or none anywhere |
| Slo.SessionIndexOf | src/app/api/auth/cas/slo/route.ts:7-11 | the ticket is non-empty and `<`-free, comes from the first match, and is absent iff nothing matches |
| Slo.SessionIndexOfElement | src/app/api/auth/cas/slo/route.ts:7-11 | a `<SessionIndex>` element with a `<`-free ticket yields that ticket |
| Slo.SloPost | src/app/api/auth/cas/slo/route.ts:5-19 | no index: 400 and no change; else exactly one deletion by ticket, `removed` true iff the ticket was indexed |
| Slo.SloPostTwice | src/app/api/auth/cas/slo/route.ts:14 | a repeated logout request removes nothing |
| Slo.HandleSloPost | src/app/api/auth/cas/slo/route.ts:5-19 | the reply and new store are those of `SloPost`; the invariant is kept |
| Slo.HandleSloGet | src/app/api/auth/cas/slo/route.ts:21-23 | answers that the endpoint is alive |
| Logout.SessionIdOf | src/app/api/auth/logout/route.ts:12 | the dot-free text before the first `.` |
| Logout.LogoutGet | src/app/api/auth/logout/route.ts:5-31 | always redirects with the expired cookie; deletes the session named by a non-empty id, otherwise changes nothing |
| Logout.LogoutUnknownIsNoOp | src/app/api/auth/logout/route.ts:10-14 | an unknown id changes nothing |
| Logout.LogoutIgnoresSignature | src/app/api/auth/logout/route.ts:12-13 | the signature part is not checked |
| Logout.LogoutKeepsConsistent | src/app/api/auth/logout/route.ts:12-13 | logout keeps the store invariant |
| Logout.HandleLogout | src/app/api/auth/logout/route.ts:5-31 | the response and new store are those of `LogoutGet` |
| AuthFlow.SignIsHmacHex | src/app/api/auth/cas/callback/route.ts:12-15 | the callback's signature equals the middleware's `hmacHex` with WebCrypto and the same key |
| AuthFlow.IssuedSession | src/app/api/auth/cas/callback/route.ts:61-78 | after a successful callback the cookie is `id.sign(id)` for a dot-free id naming a live session whose user-agent hash is the signature of the request's user agent |
| AuthFlow.SignedCookieAdmitted | src/middleware.ts:16-43 | a cookie `id.sig` with the right signature, naming a live session with the same user-agent hash, passes and changes nothing |
| AuthFlow.IssuedCookieAdmitted | src/app/api/auth/cas/callback/route.ts:61-78 | the cookie the callback sets passes the intended gate from the same user agent |
| AuthFlow.LogoutRevokesCookie | src/app/api/auth/logout/route.ts:9-14 | after logout the session is gone and the old cookie is redirected to login |
| AuthFlow.LogoutOfSigned | src/app/api/auth/logout/route.ts:10-14 | logout with the cookie `id.sig` leaves no session under `id` |
| AuthFlow.GoneSessionRedirects | src/middleware.ts:29-33 | a cookie whose id names no session is redirected to login |
| AuthFlow.SingleLogoutRevokesCookie | src/app/api/auth/cas/slo/route.ts:5-15 | a CAS logout request for the session's ticket removes it and the old cookie is redirected to login |
| Translations.Edit | src/app/api/translations/route.ts:38-88 | existing texts are never overwritten, only `newKey` can appear, only `oldKey` can disappear, and only when no other key holds its text |
| Translations.Rename | src/app/api/translations/route.ts:47-74 | the old text is copied to an absent new key; `oldKey` goes iff unreferenced and sole holder of its text, whatever `newKey` is; a missing `oldKey` only adds the placeholder |
| Translations.RenameToItselfDeletes | src/app/api/translations/route.ts:47-68 | renaming an unreferenced sole holder to itself deletes its only translation |
| Translations.Delete | src/app/api/translations/route.ts:76-87 | `oldKey` goes iff no other key holds its text; nothing else changes |
| Translations.SoleHolderHasNoOthers | src/app/api/translations/route.ts:82-83 | when the old key is the sole holder of its text, no other name key holds it, so the second test of the delete adds nothing |
| Translations.CreateAddsPlaceholder | src/app/api/translations/route.ts:41-45 | create adds `newKey -> newKey` only when absent |
| Translations.RenameMovesEntry | src/app/api/translations/route.ts:47-68 | renaming an unreferenced sole holder moves the entry |
| Translations.EditAll | src/app/api/translations/route.ts:38-91 | the same locales remain and locales outside the list are untouched |
| Translations.EditAllEach | src/app/api/translations/route.ts:38-91 | every listed locale receives the same edit |
| Translations.EditAllStep | src/app/api/translations/route.ts:38-91 | with distinct locales, editing one more locale updates that locale's entry of the result so far |
| Translations.LocaleFiles.constructor | src/app/api/translations/route.ts:35-36 | starts from the loaded dictionaries |
| Translations.LocaleFiles.Post | src/app/api/translations/route.ts:27-97 | 400 without action; 500 and no change when a locale is missing; else 200 and every locale edited |
| Translations.LocaleFiles.AllPresent | src/app/api/translations/route.ts:35-36 | true iff every listed locale file exists |
| Translations.LocaleFiles.EditEach | src/app/api/translations/route.ts:38-91 | the loop over distinct locales leaves the dictionaries equal to `EditAll` of the old ones |
| Translations.LocaleFiles.EditLocale | src/app/api/translations/route.ts:39-87 | the in-place statements compute `Edit` |
| Portal.RoleMatches | src/app/page.tsx:40-46 | admin, no roles or empty roles match; otherwise the role must be listed |
| Portal.AnySubChoiceMatches | src/app/page.tsx:50 | true iff some sub-choice's roles match |
| Portal.AppAvailable | src/app/page.tsx:48-53 | with sub-choices, available iff one matches (own roles ignored); otherwise the app's own roles decide |
| Portal.AdminSeesAll | src/app/page.tsx:40-53 | every application is available to an administrator |
| Portal.RemoveAll | src/app/page.tsx:72 | every occurrence of the id goes; the other ids stay in order, each as often as before |
| Portal.TogglePin | src/app/page.tsx:70-80 | membership of the id flips; removing keeps the other pins in order and count; an absent id is appended at the end |
| Portal.TogglePinTwice | src/app/page.tsx:70-80 | toggling twice restores membership, and the list itself when the id was absent |
| Portal.Pins.constructor | src/app/page.tsx:56 | no pins and nothing stored |
| Portal.Pins.Toggle | src/app/page.tsx:70-80 | the pins become `TogglePin` of the old ones; storage is written only when it works |
| Portal.Keep | src/app/page.tsx:87-90 | `filter` keeps exactly the passing elements, in order, each as often as it occurs |
| Portal.KeepKeep | src/app/page.tsx:87-90 | two filters in a row equal one filter on the conjunction of their tests |
| Portal.KeepAll | src/app/page.tsx:72 | a filter whose test holds on every element keeps the whole sequence |
| Portal.KeepAppend | src/app/page.tsx:72 | filtering a concatenation is the concatenation of the filtered parts |
| Portal.AllApps | src/app/page.tsx:83 | the flattened list holds exactly the apps of all categories |
| Portal.MatchesSearch | src/app/page.tsx:99-102 | the lowered query occurs at some position of the lowered translated name; an empty query matches every app |
| Portal.PinnedApps | src/app/page.tsx:86-91 | the three chained filters equal one filter of the flattened apps on "pinned, available and matching", so the order of the categories is kept |
| Portal.FilteredCategories | src/app/page.tsx:94-121 | equals mapping each category to its unpinned, matching, available apps and then dropping the empty ones, in order |
| Portal.FilteredCategoriesSound | src/app/page.tsx:94-121 | no empty category; each is a configured category with only its shown apps; every shown app passes the test |
| Portal.NonEmptyCategoriesShown | src/app/page.tsx:94-120 | every category with at least one shown app is listed with those apps |
| Portal.PinnedAndCategoriesDisjoint | src/app/page.tsx:86-121 | no id is shown both among the pinned apps and in a category |
| Portal.FilteredAppsComeFromConfig | src/app/page.tsx:94-121 | every shown app comes from the configuration and is available |
| Portal.AvailableSubChoices | src/app/page.tsx:125 | exactly the sub-choices whose roles match, in order, each as often as listed |
| Portal.HandleAppClick | src/app/page.tsx:123-153 | does nothing iff no sub-choice is available or there is no URL; exactly one available with a non-empty `sc.url ?? app.url` opens that address; otherwise the modal gets the app with exactly the available sub-choices |
| Portal.EmptySubChoiceUrlOpensModal | src/app/page.tsx:132-140 | an empty sub-choice URL does not fall back to the app's URL: the modal opens |
| AppEditor.GenId | src/app/components/AppEditorModal.tsx:76-83 | the prefix, a colon, then the random part |
| AppEditor.GenIdInjective | src/app/components/AppEditorModal.tsx:76-83 | different prefixes or random parts give different ids |
| AppEditor.SaveRoles | src/app/components/AppEditorModal.tsx:108 | every saved role is non-empty, comma-free and trimmed |
| AppEditor.SaveRolesOfParts | src/app/components/AppEditorModal.tsx:108 | the roles saved from comma-joined pieces are those pieces trimmed, empty ones dropped, in order |
| AppEditor.SaveRolesPieces | src/app/components/AppEditorModal.tsx:108 | a role is saved iff it is non-empty and the trim of a comma piece of the text |
| AppEditor.SaveRolesJoin | src/app/components/AppEditorModal.tsx:54 | parsing the comma-joined roles shown by the editor gives the roles back |
| AppEditor.SaveRolesEmpty | src/app/components/AppEditorModal.tsx:108 | an empty role text saves no role |
| AppEditor.PresetIcon | src/app/components/AppEditorModal.tsx:16-21 | the preset component of a known id, else no icon |
| AppEditor.ResolveIcon | src/app/components/AppEditorModal.tsx:92-101 | a truthy upload, favicon or loaded component of the chosen source is stored, otherwise the selected preset |
| AppEditor.SavedSubChoice | src/app/components/AppEditorModal.tsx:109 | a falsy id becomes a generated `sc:` id, missing roles become `[]`, name and URL kept |
| AppEditor.SavedApp | src/app/components/AppEditorModal.tsx:85-110 | an edited app keeps its id, a new one gets an `app:` id; fields, roles, icon and sub-choices as derived |
| AppEditor.SavedSubChoices | src/app/components/AppEditorModal.tsx:109 | one saved sub-choice per listed one, at the same index, each with its id and roles defaulted |
| AppEditor.DisplayNameOrDefault | src/app/components/AppEditorModal.tsx:65 | the component's truthy `displayName`, else the default preset |
| AppEditor.LoadedApp | src/app/components/AppEditorModal.tsx:52-71 | name, URL, comma-joined roles, sub-choices, link mode iff sub-choices; icon and icon text set together by icon kind; the upload or favicon field not written keeps its value |
| AppEditor.Loaded | src/app/components/AppEditorModal.tsx:38-72 | without an app every reset field returns to its initial value; with one the fields are those of `LoadedApp` |
| AppEditor.SaveAfterLoadKeepsFields | src/app/components/AppEditorModal.tsx:52-108 | opening and saving keeps id, name key, URL and clean roles |
| AppEditor.SaveAfterLoadKeepsIcon | src/app/components/AppEditorModal.tsx:56-101 | opening and saving keeps a preset icon whose display name is its id, or a non-empty image URL |
| AppEditor.LoadedImageResolves | src/app/components/AppEditorModal.tsx:56-101 | opening an app with a non-empty image URL makes the resolved icon that URL again |
| AppEditor.LoadedPresetResolves | src/app/components/AppEditorModal.tsx:65-101 | opening an app with a preset icon whose display name is its id makes the resolved icon that preset again |
| AppEditor.SaveAfterLoadKeepsSubChoices | src/app/components/AppEditorModal.tsx:70-109 | opening and saving keeps sub-choices that have ids and roles |
| AppEditor.SavedSubChoicesKept | src/app/components/AppEditorModal.tsx:109 | sub-choices that already have ids and roles are saved unchanged |
| AppEditor.SaveAfterLoadDropsOtherComponents | src/app/components/AppEditorModal.tsx:65-100 | a component whose display name is not a preset id is lost on open-and-save |
| AppEditor.SaveAfterLoadWithoutDisplayName | src/app/components/AppEditorModal.tsx:65-100 | a component without a display name becomes the default preset on open-and-save |
| AppEditor.WithField | src/app/components/AppEditorModal.tsx:225 | only the named field changes |
| AppEditor.UpdateSubChoice | src/app/components/AppEditorModal.tsx:224-226 | only element `index` and its field change; out of range changes nothing |
| AppEditor.UpdateSubChoiceOverwrites | src/app/components/AppEditorModal.tsx:224-226 | the last write to a field wins |
| AppEditor.RemoveSubChoice | src/app/components/AppEditorModal.tsx:228-230 | exactly element `index` goes, in order; out of range changes nothing |
| AppEditor.DropIndexInside | src/app/components/AppEditorModal.tsx:228-230 | the filter drops exactly the element at the index and keeps the order |
| AppEditor.DropIndexOutside | src/app/components/AppEditorModal.tsx:228-230 | an index outside the list drops nothing |
| AppEditor.EmptySubChoice | src/app/components/AppEditorModal.tsx:116 | a fresh `sc:` id with empty name and URL and no roles |
| AppEditor.AddSubChoice | src/app/components/AppEditorModal.tsx:115-117 | one empty entry is appended |
| AppEditor.RemoveUndoesAdd | src/app/components/AppEditorModal.tsx:115-230 | removing the entry just added restores the list |
| AppEditor.Keys | src/app/components/AppEditorModal.tsx:142 | the keys in their order |
| AppEditor.LibraryOf | src/app/components/AppEditorModal.tsx:147 | the module of a key, present iff it is a key |
| AppEditor.InsertByLength | src/app/components/AppEditorModal.tsx:142 | insertion adds exactly the new entry |
| AppEditor.InsertKeepsLongestFirst | src/app/components/AppEditorModal.tsx:142 | insertion keeps the list longest first |
| AppEditor.InsertIsStable | src/app/components/AppEditorModal.tsx:142 | insertion puts the entry before those of equal length and keeps their order |
| AppEditor.SortLongestFirst | src/app/components/AppEditorModal.tsx:142 | the sorted keys are longest first and a permutation |
| AppEditor.SortIsStable | src/app/components/AppEditorModal.tsx:142 | keys of equal length keep their original order |
| AppEditor.Candidates | src/app/components/AppEditorModal.tsx:142 | the candidates are the keys, longest first |
| AppEditor.LongerComesFirst | src/app/components/AppEditorModal.tsx:142 | a longer key precedes a shorter one |
| AppEditor.ThreeLetterPrefixesFirst | src/app/components/AppEditorModal.tsx:120-142 | `Fa6` is tried before `Fa`, `Io5` before `Io` |
| AppEditor.LoadFrom | src/app/components/AppEditorModal.tsx:143-155 | the first candidate that prefixes the name and whose module exports it; none iff no candidate does |
| AppEditor.LongerPrefixesTriedFirst | src/app/components/AppEditorModal.tsx:141-154 | no longer matching prefix provides the component found |
| AppEditor.LoadFromKeys | src/app/components/AppEditorModal.tsx:141-155 | over a longest-first order of the keys, the search fails iff no library provides the name, and otherwise no longer key does |
| AppEditor.LoadIcon | src/app/components/AppEditorModal.tsx:139-156 | none iff the name is empty or no library provides it; otherwise a library that provides it, with no longer key that does |
| AppEditor.SearchLibraries | src/app/components/AppEditorModal.tsx:143-155 | the loop returns the result of `LoadFrom` |
| AppEditor.TryLoadIcon | src/app/components/AppEditorModal.tsx:139-156 | returns the result of `LoadIcon` |
| AppEditor.IconResult | src/app/components/AppEditorModal.tsx:162-170 | a preview is set iff the name is non-empty and loads, and then it is that name with source react and no error; otherwise an error is set and the source stays; other fields unchanged |
| AppEditor.IconLoaded | src/app/components/AppEditorModal.tsx:158-171 | a preview is set iff the trimmed name loads, switching the source to react; otherwise an error is recorded; nothing else changes |
| AppEditor.IconResultOverwrites | src/app/components/AppEditorModal.tsx:159-170 | the two clearing writes at the start of the handler are overwritten by its outcome |
| AppEditor.SaveAfterIconLoad | src/app/components/AppEditorModal.tsx:97-171 | after a successful load, saving stores the loaded component |
| AppEditor.EditorForm.constructor | src/app/components/AppEditorModal.tsx:24-36 | the `useState` initial values |
| AppEditor.EditorForm.Load | src/app/components/AppEditorModal.tsx:38-72 | the fields become `Loaded` of the old ones |
| AppEditor.EditorForm.Reset | src/app/components/AppEditorModal.tsx:39-50 | without an app every reset field returns to its initial value; the icon text and the error stay |
| AppEditor.EditorForm.LoadApp | src/app/components/AppEditorModal.tsx:52-71 | the fields become `LoadedApp` of the old ones |
| AppEditor.EditorForm.SetImageIcon | src/app/components/AppEditorModal.tsx:56-63 | the icon fields set from an image URL |
| AppEditor.EditorForm.SetComponentIcon | src/app/components/AppEditorModal.tsx:64-69 | the icon fields set from a component |
| AppEditor.EditorForm.UpdateSubChoiceField | src/app/components/AppEditorModal.tsx:224-226 | only the sub-choices change, by `UpdateSubChoice` |
| AppEditor.EditorForm.RemoveSubChoiceAt | src/app/components/AppEditorModal.tsx:228-230 | only the sub-choices change, by `RemoveSubChoice` |
| AppEditor.EditorForm.AppendSubChoice | src/app/components/AppEditorModal.tsx:115-117 | only the sub-choices change, by `AddSubChoice` |
| AppEditor.EditorForm.LoadIconClick | src/app/components/AppEditorModal.tsx:158-171 | the fields become `IconLoaded` of the old ones |
| AppEditor.EditorForm.ApplyIconResult | src/app/components/AppEditorModal.tsx:162-170 | the fields become `IconResult` of the old ones for the looked-up name |
| AppEditor.EditorForm.HandleSave | src/app/components/AppEditorModal.tsx:85-113 | returns `SavedApp` of the form, leaving it unchanged |
| I18n.Code | src/lib/i18n.tsx:6 | a locale's code is `en` or `fr` |
| I18n.T | src/lib/i18n.tsx:71-75 | the entry of the current locale, else the key |
| I18n.TFallsBackToKey | src/lib/i18n.tsx:73 | the text differs from the key iff an entry exists and says something else |
| I18n.LanguageOf | src/lib/i18n.tsx:25 | `language`, else `userLanguage`, else `en`; never empty |
| I18n.DetectDefaultLocale | src/lib/i18n.tsx:23-27 | English without a browser; French iff the language starts with `fr`, case-sensitively |
| I18n.DetectExamples | src/lib/i18n.tsx:23-27 | no language gives English, `fr-CA` French, `FR-fr` English |
| I18n.AcceptStored | src/lib/i18n.tsx:53-56 | a stored value is adopted iff it is exactly `en` or `fr` |
| I18n.StoredLocaleRoundTrip | src/lib/i18n.tsx:41-56 | what `setLocale` stores is adopted back |
| I18n.Provider.constructor | src/lib/i18n.tsx:38 | the initial locale, else the detected one |
| I18n.Provider.RestoreStored | src/lib/i18n.tsx:51-60 | an accepted stored locale replaces the current one; unreadable storage changes nothing |
| I18n.Provider.SetLocale | src/lib/i18n.tsx:41-48 | the locale always changes; the stored code only when storage works |
| I18n.SetThenReload | src/lib/i18n.tsx:38-60 | after choosing a locale, a reload with working storage comes back to it |

## Left out

- I/O, the network and the framework are left out:
  - the HTTP fetch to CAS (its answer is an input);
  - the locale files' reads and writes, and JSON parse/stringify (the dictionaries are in-memory maps);
  - Next.js request and response objects, cookie serialisation and the middleware `matcher`;
  - `console` logging;
  - React rendering, the modal and edit-mode contexts and the other components.
- Cryptography is left out. HMAC-SHA-256 is an uninterpreted function, and `randomUUID`, `Math.random` and `Date.now` are inputs.
- Concurrency is left out. Handlers run one at a time, from their first `await` to their end; interleavings across `await`s, and the sharing of the module-level maps between requests, are not modelled.
- The 500 answers of the SLO, translations and editor paths caused by thrown exceptions are left out, except a missing locale file in `Translations.LocaleFiles.Post`.
- A write that fails halfway through the locale loop is left out: the first locale would already be written.
- Object prototype keys (`constructor`, `__proto__`) in the dictionaries are left out. `I18n.T` and `Translations.Edit` treat every key as an own key.
- Browser APIs are left out: `window.open`, `FileReader`, the favicon fetch and file upload (`handleFileChange`, `handleFaviconFetch`), `document.documentElement.lang`, and `useTranslation` outside a provider. The availability of `localStorage` is a boolean parameter.
- Portal.MatchesSearch: `toLowerCase` and `t` are parameters, so Unicode case mapping is not modelled.
- CasCallback.Callback: one `now` stands for both `Date.now()` calls (the authentication date fallback and `createdAt`), which in the source may differ by a few milliseconds.
- CasCallback.Attributes: reads every tag with the intended `[\s\S]*?` capture, and the callback, `SessionDataOf`, `HandleCallback` and the `AuthFlow` lemmas build on it. As written the capture is `[sS]*?`, so the deployed code stores no given name, family name or mail that holds any other character (`CasCallback.AsWrittenAttributesOnlyS`); the callback as written is not modelled end to end beyond these attributes.
- CasCallback.ExtractWith: case-insensitive matching folds ASCII letters only; the tag names and the CAS markup are ASCII.
- Encoding.Utf8: strings are sequences of Unicode scalar values, not UTF-16 code units, so lone surrogates are not modelled.
- Slo.SessionIndexOf matches exactly the pattern `<SessionIndex>…</SessionIndex>`. A namespaced element (`<samlp:SessionIndex>`) or a form-encoded body does not match, and the model follows the code in that.
- AppEditor.TryLoadIcon: the dynamic `import()` is the parameter `exports`, with a failed import reported as `false`. A loaded component is identified by its export name.
- AppEditor.SubChoiceField: the sub-choice editor only ever changes `nameKey` or `url`, so updates of `id` or `roles` through `updateSubChoice` are not modelled.
- Portal.Pins: reading the stored pins on mount (`JSON.parse` of local storage) is left out; the pins start empty.

## Findings

| source | as written | input that shows it | evidently intended | confidence | as-written member | corrected member |
|---|---|---|---|---|---|---|
| src/middleware.ts:7 | `return NextResponse.next()` is the first statement, so the cookie checks and the CAS redirect after it never run | a request for `/` with no `cas_user` cookie is let through | requests outside the bypassed prefixes need a valid signed session cookie, else a redirect to CAS login | high (not executed) | Gate.GateAsWrittenAdmitsAnonymous | Gate.GateDecision |
| src/app/api/auth/cas/callback/route.ts:7 | in the template literal `[\s\S]` loses its backslashes and becomes `[sS]`, so the capture can only hold `s` and `S` characters | `<cas:mail>a@b.fr</cas:mail>` with tag `mail` gives `undefined` | capture any characters (`[\s\S]*?`), giving `a@b.fr` | high (not executed) | CasCallback.AsWrittenMissesMail | CasCallback.ExtractTagOfElement |
