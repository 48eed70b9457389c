/** The application grid of `src/app/page.tsx`: role-based visibility, pinning, the search
    filters and what a click on an application does. The configuration types come from
    `src/app/data/app-config.ts`. */
module Portal {
  import opened Util

  /** An icon: a named icon component, or an image URL (data URL or favicon address). */
  datatype Icon = Component(name: string) | ImageUrl(url: string) | NoIcon

  datatype SubChoice = SubChoice(id: string, nameKey: string, url: Option<string>, roles: Option<seq<string>>)

  datatype App = App(
    id: string,
    nameKey: string,
    icon: Icon,
    url: string,
    roles: seq<string>,
    subChoices: Option<seq<SubChoice>>)

  datatype Category = Category(id: string, nameKey: string, apps: seq<App>)

  // ---------------------------------------------------------------------------------------
  // Visibility

  /** `roleMatches(roles)`: administrators see everything; no roles (absent or empty) means
      everyone; otherwise the current role must be listed. */
  function RoleMatches(currentRole: string, roles: Option<seq<string>>): (b: bool)
    ensures b <==> currentRole == "admin" || roles.None? || |roles.value| == 0 || currentRole in roles.value
  {
    if currentRole == "admin" then true
    else if roles.None? then true
    else if |roles.value| == 0 then true
    else currentRole in roles.value
  }

  predicate HasSubChoices(app: App)
  {
    app.subChoices.Some? && |app.subChoices.value| > 0
  }

  /** `subChoices.some((sc) => roleMatches(sc.roles))`. */
  function AnySubChoiceMatches(currentRole: string, subs: seq<SubChoice>): (b: bool)
    ensures b <==> exists i :: 0 <= i < |subs| && RoleMatches(currentRole, subs[i].roles)
  {
    if subs == [] then false
    else RoleMatches(currentRole, subs[0].roles) || AnySubChoiceMatches(currentRole, subs[1..])
  }

  /** `appAvailable(app)`: an application with sub-choices is available exactly when one of
      them is, its own roles being ignored; otherwise its own roles decide. */
  function AppAvailable(currentRole: string, app: App): (b: bool)
    ensures HasSubChoices(app) ==>
      (b <==> exists i :: 0 <= i < |app.subChoices.value| && RoleMatches(currentRole, app.subChoices.value[i].roles))
    ensures !HasSubChoices(app) ==> (b <==> RoleMatches(currentRole, Some(app.roles)))
  {
    if HasSubChoices(app) then AnySubChoiceMatches(currentRole, app.subChoices.value)
    else RoleMatches(currentRole, Some(app.roles))
  }

  /** An administrator sees every application that has a way in. */
  lemma AdminSeesAll(app: App)
    ensures AppAvailable("admin", app)
  {
    if HasSubChoices(app) {
      assert RoleMatches("admin", app.subChoices.value[0].roles);
    }
  }

  // ---------------------------------------------------------------------------------------
  // Pins

  /** The test of `prev.filter((id) => id !== appId)`. */
  function OtherThan(appId: string): string -> bool
  {
    (x: string) => x != appId
  }

  /** `prev.filter((id) => id !== appId)`: every occurrence of the id goes; the other ids stay,
      in order, each as often as before. */
  function RemoveAll(ids: seq<string>, appId: string): (r: seq<string>)
    ensures appId !in r
    ensures forall x :: x in r <==> x in ids && x != appId
    ensures IsSubsequence(r, ids)
    ensures forall x :: x != appId ==> multiset(r)[x] == multiset(ids)[x]
    ensures appId !in ids ==> r == ids
  {
    if appId in ids then Keep(ids, OtherThan(appId))
    else
      KeepAll(ids, OtherThan(appId));
      Keep(ids, OtherThan(appId))
  }

  /** `togglePin(appId)`: a pinned id is removed (every occurrence), an unpinned one is
      appended at the end. */
  function TogglePin(ids: seq<string>, appId: string): (r: seq<string>)
    ensures appId in r <==> appId !in ids
    ensures forall x :: x != appId ==> (x in r <==> x in ids)
    ensures appId in ids ==> IsSubsequence(r, ids) && forall x :: x != appId ==> multiset(r)[x] == multiset(ids)[x]
    ensures appId !in ids ==> r == ids + [appId]
  {
    if appId in ids then RemoveAll(ids, appId) else ids + [appId]
  }

  /** Toggling twice restores which ids are pinned; from a list without `appId`, it restores
      the very list. */
  lemma TogglePinTwice(ids: seq<string>, appId: string)
    ensures forall x :: x in TogglePin(TogglePin(ids, appId), appId) <==> x in ids
    ensures appId !in ids ==> TogglePin(TogglePin(ids, appId), appId) == ids
  {
    if appId !in ids {
      KeepAppend(ids, [appId], OtherThan(appId));
      KeepAll(ids, OtherThan(appId));
      assert [appId][1..] == [];
    }
  }

  /** The pins held by the page, and what was last written to local storage. */
  class Pins {
    var pinnedIds: seq<string>
    var stored: Option<seq<string>>

    constructor ()
      ensures pinnedIds == [] && stored == None
    {
      pinnedIds := [];
      stored := None;
    }

    /** `togglePin(appId)`; `storageAvailable` is false when `localStorage.setItem` throws, which
        is ignored: the pins change either way. */
    method Toggle(appId: string, storageAvailable: bool)
      modifies this
      ensures pinnedIds == TogglePin(old(pinnedIds), appId)
      ensures stored == (if storageAvailable then Some(pinnedIds) else old(stored))
    {
      var next := if appId in pinnedIds then RemoveAll(pinnedIds, appId) else pinnedIds + [appId];
      if storageAvailable {
        stored := Some(next);
      }
      pinnedIds := next;
    }
  }

  // ---------------------------------------------------------------------------------------
  // Search filters

  /** `t(app.nameKey).toLowerCase().includes(searchQuery.toLowerCase())`, with the translation
      and the lower-casing given as functions. */
  predicate MatchesSearch(app: App, query: string, t: string -> string, lower: string -> string)
    // The lowered query occurs somewhere in the lowered name; an empty one matches every app.
    ensures MatchesSearch(app, query, t, lower) <==> exists i :: OccursAt(lower(t(app.nameKey)), lower(query), i)
    ensures lower(query) == "" ==> MatchesSearch(app, query, t, lower)
  {
    ContainsAt(lower(t(app.nameKey)), lower(query));
    Contains(lower(t(app.nameKey)), lower(query))
  }

  predicate IsSubsequence<T(==)>(s: seq<T>, of: seq<T>)
  {
    |s| <= |of| && (s == [] || (s[0] == of[0] && IsSubsequence(s[1..], of[1..])) || (|of| > 0 && IsSubsequence(s, of[1..])))
  }

  /** `s.filter(keep)`: the kept elements in their original order, each as often as it occurs
      in `s`. A subsequence with these multiplicities is the filter's result and nothing else. */
  function Keep<T(==,!new)>(s: seq<T>, keep: T -> bool): (r: seq<T>)
    ensures forall a :: a in r <==> a in s && keep(a)
    ensures IsSubsequence(r, s)
    ensures forall a :: multiset(r)[a] == if keep(a) then multiset(s)[a] else 0
  {
    if s == [] then []
    else
      var rest := Keep(s[1..], keep);
      assert s == [s[0]] + s[1..];
      assert multiset(s) == multiset{s[0]} + multiset(s[1..]);
      if keep(s[0]) then
        assert ([s[0]] + rest)[1..] == rest;
        assert multiset([s[0]] + rest) == multiset{s[0]} + multiset(rest);
        [s[0]] + rest
      else rest
  }

  /** Two filters in a row are one filter on the conjunction of their tests. */
  lemma {:induction false} KeepKeep<T(!new)>(s: seq<T>, p: T -> bool, q: T -> bool, pq: T -> bool)
    requires forall a :: pq(a) == (p(a) && q(a))
    ensures Keep(Keep(s, p), q) == Keep(s, pq)
  {
    if s != [] {
      KeepKeep(s[1..], p, q, pq);
      if p(s[0]) {
        assert ([s[0]] + Keep(s[1..], p))[1..] == Keep(s[1..], p);
      }
    }
  }

  /** A filter whose test holds everywhere keeps the whole sequence. */
  lemma {:induction false} KeepAll<T(!new)>(s: seq<T>, keep: T -> bool)
    requires forall i :: 0 <= i < |s| ==> keep(s[i])
    ensures Keep(s, keep) == s
  {
    if s != [] {
      KeepAll(s[1..], keep);
    }
  }

  /** Filtering a concatenation filters each part. */
  lemma {:induction false} KeepAppend<T(!new)>(s: seq<T>, t: seq<T>, keep: T -> bool)
    ensures Keep(s + t, keep) == Keep(s, keep) + Keep(t, keep)
  {
    if s == [] {
      assert s + t == t;
    } else {
      KeepAppend(s[1..], t, keep);
      KeepAppendStep(s, t, keep);
    }
  }

  lemma KeepAppendStep<T(!new)>(s: seq<T>, t: seq<T>, keep: T -> bool)
    requires s != [] && Keep(s[1..] + t, keep) == Keep(s[1..], keep) + Keep(t, keep)
    ensures Keep(s + t, keep) == Keep(s, keep) + Keep(t, keep)
  {
    var x := if keep(s[0]) then [s[0]] else [];
    var a, b := Keep(s[1..], keep), Keep(t, keep);
    TailOfAppend(s, t);
    KeepCons(s, keep);
    KeepCons(s + t, keep);
    assert Keep(s + t, keep) == x + (a + b);
    assert Keep(s, keep) == x + a;
    AppendAssoc(x, a, b);
  }

  lemma TailOfAppend<T>(s: seq<T>, t: seq<T>)
    requires s != []
    ensures s + t != [] && (s + t)[0] == s[0] && (s + t)[1..] == s[1..] + t
  {
  }

  lemma AppendAssoc<T>(x: seq<T>, a: seq<T>, b: seq<T>)
    ensures x + (a + b) == (x + a) + b
  {
  }

  /** One step of the filter. */
  lemma KeepCons<T(!new)>(s: seq<T>, keep: T -> bool)
    requires s != []
    ensures Keep(s, keep) == (if keep(s[0]) then [s[0]] else []) + Keep(s[1..], keep)
  {
  }

  /** `config.categories.flatMap((c) => c.apps)`. */
  function AllApps(categories: seq<Category>): (r: seq<App>)
    ensures forall a :: a in r <==> exists c :: c in categories && a in c.apps
  {
    if categories == [] then [] else categories[0].apps + AllApps(categories[1..])
  }

  /** The test an application passes to be listed among the pinned ones. */
  function PinnedTest(pinned: seq<string>, role: string, query: string, t: string -> string,
                      lower: string -> string): App -> bool
  {
    (a: App) => a.id in pinned && AppAvailable(role, a) && MatchesSearch(a, query, t, lower)
  }

  /** `pinnedApps`: over all categories in order, the applications that are pinned, available
      and match the search. The three chained filters are one filter on all three tests. */
  function PinnedApps(categories: seq<Category>, pinned: seq<string>, role: string, query: string,
                      t: string -> string, lower: string -> string): (r: seq<App>)
    ensures forall a :: a in r <==>
      a in AllApps(categories) && a.id in pinned && AppAvailable(role, a) && MatchesSearch(a, query, t, lower)
    ensures r == Keep(AllApps(categories), PinnedTest(pinned, role, query, t, lower))
  {
    var byPinTest := (a: App) => a.id in pinned;
    var byRoleTest := (a: App) => AppAvailable(role, a);
    var bySearchTest := (a: App) => MatchesSearch(a, query, t, lower);
    var byPin := Keep(AllApps(categories), byPinTest);
    var byRole := Keep(byPin, byRoleTest);
    var both := (a: App) => a.id in pinned && AppAvailable(role, a);
    KeepKeep(AllApps(categories), byPinTest, byRoleTest, both);
    KeepKeep(AllApps(categories), both, bySearchTest, PinnedTest(pinned, role, query, t, lower));
    Keep(byRole, bySearchTest)
  }

  /** The test applied to each application of a category (page lines 98-112): not pinned,
      matching the search, and available (the inline test is `appAvailable`, written out again). */
  predicate ShownInCategory(a: App, pinned: seq<string>, role: string, query: string, t: string -> string, lower: string -> string)
  {
    a.id !in pinned && MatchesSearch(a, query, t, lower) && AppAvailable(role, a)
  }

  function ShownTest(pinned: seq<string>, role: string, query: string, t: string -> string,
                     lower: string -> string): App -> bool
  {
    (a: App) => ShownInCategory(a, pinned, role, query, t, lower)
  }

  /** `c` is the category `orig` with only its shown applications, in order. */
  predicate FilteredFrom(c: Category, orig: Category, pinned: seq<string>, role: string, query: string,
                         t: string -> string, lower: string -> string)
  {
    c.id == orig.id && c.nameKey == orig.nameKey &&
    c.apps == Keep(orig.apps, ShownTest(pinned, role, query, t, lower))
  }

  /** The `.map` step: every category, in order, with only its shown applications. */
  function MapCategories(categories: seq<Category>, pinned: seq<string>, role: string, query: string,
                         t: string -> string, lower: string -> string): (r: seq<Category>)
    ensures |r| == |categories|
    ensures forall i :: 0 <= i < |r| ==>
      r[i] == Category(categories[i].id, categories[i].nameKey, Keep(categories[i].apps, ShownTest(pinned, role, query, t, lower)))
  {
    seq(|categories|, i requires 0 <= i < |categories| =>
      Category(categories[i].id, categories[i].nameKey, Keep(categories[i].apps, ShownTest(pinned, role, query, t, lower))))
  }

  /** The `.filter` step's test: the category still has an application. */
  predicate HasApps(c: Category)
  {
    |c.apps| > 0
  }

  /** `filteredCategories`: each category keeps, in order, its applications that are unpinned,
      match the search and are available; categories left empty are dropped, the others keep
      their order. */
  function FilteredCategories(categories: seq<Category>, pinned: seq<string>, role: string, query: string,
                              t: string -> string, lower: string -> string): (r: seq<Category>)
    ensures r == Keep(MapCategories(categories, pinned, role, query, t, lower), HasApps)
  {
    if categories == [] then []
    else
      var c := categories[0];
      var apps := Keep(c.apps, ShownTest(pinned, role, query, t, lower));
      var rest := FilteredCategories(categories[1..], pinned, role, query, t, lower);
      var mapped := MapCategories(categories, pinned, role, query, t, lower);
      assert mapped[1..] == MapCategories(categories[1..], pinned, role, query, t, lower);
      assert mapped[0] == Category(c.id, c.nameKey, apps);
      if |apps| > 0 then
        [Category(c.id, c.nameKey, apps)] + rest
      else rest
  }

  /** Every listed category has an application, is a configured category with only its shown
      applications, and shows only applications that pass the test. */
  lemma FilteredCategoriesSound(categories: seq<Category>, pinned: seq<string>, role: string, query: string,
                                t: string -> string, lower: string -> string)
    ensures var r := FilteredCategories(categories, pinned, role, query, t, lower);
      && (forall c :: c in r ==> |c.apps| > 0)
      && (forall c :: c in r ==> exists orig :: orig in categories && FilteredFrom(c, orig, pinned, role, query, t, lower))
      && (forall c, a :: c in r && a in c.apps ==> ShownInCategory(a, pinned, role, query, t, lower))
  {
    var r := FilteredCategories(categories, pinned, role, query, t, lower);
    var mapped := MapCategories(categories, pinned, role, query, t, lower);
    forall c | c in r
      ensures |c.apps| > 0
      ensures exists orig :: orig in categories && FilteredFrom(c, orig, pinned, role, query, t, lower)
    {
      var i := ListedIndex(categories, pinned, role, query, t, lower, c);
      assert FilteredFrom(c, categories[i], pinned, role, query, t, lower);
    }
    forall c, a | c in r && a in c.apps
      ensures ShownInCategory(a, pinned, role, query, t, lower)
    {
      var i := ListedIndex(categories, pinned, role, query, t, lower, c);
      assert ShownTest(pinned, role, query, t, lower)(a);
    }
  }

  /** The position in the configuration of a listed category. */
  lemma ListedIndex(categories: seq<Category>, pinned: seq<string>, role: string, query: string,
                    t: string -> string, lower: string -> string, c: Category) returns (i: int)
    requires c in FilteredCategories(categories, pinned, role, query, t, lower)
    ensures 0 <= i < |categories| && |c.apps| > 0
    ensures c == Category(categories[i].id, categories[i].nameKey, Keep(categories[i].apps, ShownTest(pinned, role, query, t, lower)))
  {
    var mapped := MapCategories(categories, pinned, role, query, t, lower);
    assert c in mapped && HasApps(c);
    i :| 0 <= i < |mapped| && mapped[i] == c;
  }

  /** Every category that still has a shown application is listed, with those applications. */
  lemma NonEmptyCategoriesShown(categories: seq<Category>, pinned: seq<string>, role: string, query: string,
                                t: string -> string, lower: string -> string, i: int)
    requires 0 <= i < |categories|
    requires |Keep(categories[i].apps, ShownTest(pinned, role, query, t, lower))| > 0
    ensures Category(categories[i].id, categories[i].nameKey, Keep(categories[i].apps, ShownTest(pinned, role, query, t, lower)))
      in FilteredCategories(categories, pinned, role, query, t, lower)
  {
    var mapped := MapCategories(categories, pinned, role, query, t, lower);
    assert mapped[i] in mapped && HasApps(mapped[i]);
  }

  /** No application id is shown both among the pinned applications and in a category. */
  lemma PinnedAndCategoriesDisjoint(categories: seq<Category>, pinned: seq<string>, role: string, query: string,
                                    t: string -> string, lower: string -> string)
    ensures forall a, c, b ::
      (a in PinnedApps(categories, pinned, role, query, t, lower) &&
       c in FilteredCategories(categories, pinned, role, query, t, lower) && b in c.apps) ==> a.id != b.id
  {
    FilteredCategoriesSound(categories, pinned, role, query, t, lower);
  }

  /** An application shown in a filtered category is available, and comes from the
      configuration. */
  lemma {:induction false} FilteredAppsComeFromConfig(categories: seq<Category>, pinned: seq<string>, role: string,
                                                      query: string, t: string -> string, lower: string -> string)
    ensures forall c, a :: c in FilteredCategories(categories, pinned, role, query, t, lower) && a in c.apps ==>
      a in AllApps(categories) && AppAvailable(role, a)
  {
    var r := FilteredCategories(categories, pinned, role, query, t, lower);
    forall c, a | c in r && a in c.apps
      ensures a in AllApps(categories) && AppAvailable(role, a)
    {
      var i := ListedIndex(categories, pinned, role, query, t, lower, c);
      var orig := categories[i];
      assert a in Keep(orig.apps, ShownTest(pinned, role, query, t, lower));
      assert a in orig.apps && ShownInCategory(a, pinned, role, query, t, lower);
    }
  }

  // ---------------------------------------------------------------------------------------
  // Clicking an application

  datatype ClickAction = DoNothing | OpenUrl(url: string) | OpenModal(app: App)

  /** `(app.subChoices ?? []).filter((sc) => roleMatches(sc.roles))`: in order, each as often as
      it is listed. */
  function AvailableSubChoices(role: string, subs: seq<SubChoice>): (r: seq<SubChoice>)
    ensures forall sc :: sc in r <==> sc in subs && RoleMatches(role, sc.roles)
    ensures |r| <= |subs| && IsSubsequence(r, subs)
    ensures forall sc :: multiset(r)[sc] == if RoleMatches(role, sc.roles) then multiset(subs)[sc] else 0
  {
    Keep(subs, (sc: SubChoice) => RoleMatches(role, sc.roles))
  }

  /** `handleAppClick(app)`. With sub-choices: none available does nothing; exactly one with a
      non-empty `sc.url ?? app.url` opens that address; otherwise a modal lists only the
      available ones. Without sub-choices: a non-empty `app.url` is opened. */
  function HandleAppClick(role: string, app: App): (a: ClickAction)
    ensures a.OpenUrl? ==> a.url != ""
    ensures a.OpenModal? ==>
      HasSubChoices(app) && a.app == app.(subChoices := Some(AvailableSubChoices(role, app.subChoices.value))) &&
      |a.app.subChoices.value| > 0
    ensures HasSubChoices(app) ==>
      var av := AvailableSubChoices(role, app.subChoices.value);
      var u := if |av| > 0 && av[0].url.Some? then av[0].url.value else app.url;
      && (|av| == 1 && u != "" ==> a == OpenUrl(u))
      && ((|av| == 1 && u == "") || |av| > 1 ==> a == OpenModal(app.(subChoices := Some(av))))
    ensures a.DoNothing? <==> (HasSubChoices(app) && !AppAvailable(role, app)) || (!HasSubChoices(app) && app.url == "")
    ensures !HasSubChoices(app) ==> a == (if app.url != "" then OpenUrl(app.url) else DoNothing)
  {
    var available := AvailableSubChoices(role, if app.subChoices.Some? then app.subChoices.value else []);
    if HasSubChoices(app) then
      if |available| == 0 then
        assert forall i :: 0 <= i < |app.subChoices.value| ==> app.subChoices.value[i] !in available;
        DoNothing
      else if |available| == 1 then
        var url := if available[0].url.Some? then available[0].url.value else app.url;
        assert available[0] in available;
        if url != "" then OpenUrl(url) else OpenModal(app.(subChoices := Some(available)))
      else
        assert available[0] in available;
        OpenModal(app.(subChoices := Some(available)))
    else if app.url != "" then OpenUrl(app.url)
    else DoNothing
  }

  /** `sc.url ?? app.url` keeps an empty sub-choice URL: it does not fall back to the
      application's URL, and the modal opens instead. */
  lemma EmptySubChoiceUrlOpensModal(role: string, app: App, sc: SubChoice)
    requires app.subChoices == Some([sc]) && sc.url == Some("") && RoleMatches(role, sc.roles) && app.url != ""
    ensures HandleAppClick(role, app) == OpenModal(app.(subChoices := Some([sc])))
  {
    assert AvailableSubChoices(role, [sc]) == [sc];
  }
}
