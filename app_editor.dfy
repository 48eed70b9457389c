/** The application editor of `src/app/components/AppEditorModal.tsx`: the form state it keeps,
    how it is filled from an existing application, the sub-choice list edits, the icon-library
    lookup and the application `handleSave` builds. */
module AppEditor {
  import opened Util
  import opened Portal

  /** The preset icons offered by the editor (`ICONS`), first one the default. */
  const PresetIds: seq<string> := ["CgWebsite", "FaCalendarAlt", "FaMagnifyingGlass", "FaWebflow"]
  const DefaultPreset: string := "CgWebsite"

  datatype IconSource = Preset | React | Upload | Favicon
  datatype LinkMode = UrlLink | SubChoiceLinks

  /** Every `useState` field of the editor that the model follows. */
  datatype FormState = FormState(
    nameKey: string,
    url: string,
    roles: string,
    icon: string,
    iconInput: string,
    preview: Option<string>,
    source: IconSource,
    uploaded: Option<string>,
    favicon: Option<string>,
    loadError: Option<string>,
    subChoices: seq<SubChoice>,
    linkMode: LinkMode)

  const InitialForm: FormState :=
    FormState("", "", "", DefaultPreset, DefaultPreset, None, Preset, None, None, None, [], UrlLink)

  // ---------------------------------------------------------------------------------------
  // Identifiers

  /** `genId(prefix)`: the prefix, a colon, then a random part (a UUID, or base-36 digits
      of `Math.random()`), given here as `random`. */
  function GenId(prefix: string, random: string): (id: string)
    ensures StartsWith(id, prefix + ":") && id[|prefix| + 1..] == random
  {
    prefix + ":" + random
  }

  /** Ids generated with different prefixes or random parts differ, as long as neither
      prefix holds a colon. */
  lemma GenIdInjective(p1: string, r1: string, p2: string, r2: string)
    requires ':' !in p1 && ':' !in p2
    requires GenId(p1, r1) == GenId(p2, r2)
    ensures p1 == p2 && r1 == r2
  {
    var id := GenId(p1, r1);
    assert id[|p1|] == ':' && id[|p2|] == ':';
    assert forall k :: 0 <= k < |p1| ==> id[k] == p1[k] != ':';
    assert forall k :: 0 <= k < |p2| ==> id[k] == p2[k] != ':';
    assert |p1| == |p2|;
    assert p1 == id[..|p1|] == p2;
  }

  // ---------------------------------------------------------------------------------------
  // Roles

  /** A role as `handleSave` stores it: non-empty, comma-free, trimmed. */
  predicate IsSavedRole(x: string)
  {
    x != "" && ',' !in x && !IsJsSpace(x[0]) && !IsJsSpace(x[|x| - 1])
  }

  lemma TrimKeepsOut(p: string, c: char)
    requires c !in p
    ensures c !in Trim(p)
  {
    var r := Trim(p);
    var i := |p| - |TrimStart(p)|;
    forall k | 0 <= k < |r|
      ensures r[k] != c
    {
      assert r[k] == p[i + k];
    }
  }

  /** `.map((r) => r.trim())`. */
  function TrimAll(parts: seq<string>): (r: seq<string>)
    ensures |r| == |parts|
    ensures forall i :: 0 <= i < |r| ==> r[i] == Trim(parts[i])
  {
    seq(|parts|, i requires 0 <= i < |parts| => Trim(parts[i]))
  }

  /** The test of `.filter(Boolean)` on strings. */
  predicate NonBlank(x: string)
  {
    x != ""
  }

  /** `roles.split(",").map((r) => r.trim()).filter(Boolean)`: every saved role is non-empty,
      comma-free and trimmed. */
  function SaveRoles(s: string): (r: seq<string>)
    ensures forall i :: 0 <= i < |r| ==> IsSavedRole(r[i])
  {
    var parts := Split(s, ',');
    KeptPartsShape(parts);
    Keep(TrimAll(parts), NonBlank)
  }

  /** The saved roles of any comma-joined text are its pieces, each trimmed, the empty ones
      dropped, in order. With `JoinSplit`, every role text is such a join. */
  lemma SaveRolesOfParts(parts: seq<string>)
    requires |parts| >= 1 && forall i :: 0 <= i < |parts| ==> ',' !in parts[i]
    ensures SaveRoles(Join(parts, ',')) == Keep(TrimAll(parts), NonBlank)
  {
    SplitJoin(parts, ',');
  }

  /** `x` is the trim of one comma piece of `s`. */
  predicate TrimmedPiece(s: string, x: string)
  {
    exists i :: 0 <= i < |Split(s, ',')| && x == Trim(Split(s, ',')[i])
  }

  /** A role is saved exactly when it is non-empty and is the trim of one comma piece. */
  lemma SaveRolesPieces(s: string)
    ensures forall x :: x in SaveRoles(s) <==> x != "" && TrimmedPiece(s, x)
  {
    var parts := Split(s, ',');
    var t := TrimAll(parts);
    var k := SaveRoles(s);
    assert k == Keep(t, NonBlank);
    forall x | x in k
      ensures x != "" && TrimmedPiece(s, x)
    {
      var i :| 0 <= i < |t| && t[i] == x;
    }
    forall x | x != "" && TrimmedPiece(s, x)
      ensures x in k
    {
      var i :| 0 <= i < |parts| && x == Trim(parts[i]);
      assert t[i] in t;
    }
  }

  /** Trimmed comma-free parts are comma-free and have no white space at either end. */
  lemma TrimmedPartsShape(parts: seq<string>)
    requires forall i :: 0 <= i < |parts| ==> ',' !in parts[i]
    ensures forall x :: x in TrimAll(parts) && x != "" ==> IsSavedRole(x)
  {
    var t := TrimAll(parts);
    forall i | 0 <= i < |t|
      ensures ',' !in t[i]
    {
      TrimKeepsOut(parts[i], ',');
    }
  }

  /** The kept trimmed parts are all in saved form. */
  lemma KeptPartsShape(parts: seq<string>)
    requires forall i :: 0 <= i < |parts| ==> ',' !in parts[i]
    ensures forall i :: 0 <= i < |Keep(TrimAll(parts), NonBlank)| ==> IsSavedRole(Keep(TrimAll(parts), NonBlank)[i])
  {
    var k := Keep(TrimAll(parts), NonBlank);
    TrimmedPartsShape(parts);
    forall i | 0 <= i < |k|
      ensures IsSavedRole(k[i])
    {
      assert k[i] in k;
    }
  }

  lemma TrimFixed(x: string)
    requires x == [] || (!IsJsSpace(x[0]) && !IsJsSpace(x[|x| - 1]))
    ensures Trim(x) == x
  {
  }

  /** Parsing the text the editor shows for a role list (`roles.join(",")`) gives the list
      back, when every role is already in saved form. */
  lemma SaveRolesJoin(roles: seq<string>)
    requires forall i :: 0 <= i < |roles| ==> IsSavedRole(roles[i])
    ensures SaveRoles(Join(roles, ',')) == roles
  {
    if roles == [] {
      SaveRolesEmpty("");
    } else {
      SaveRolesOfParts(roles);
      TrimAllFixed(roles);
      KeepAll(roles, NonBlank);
    }
  }

  /** An empty role text saves no role. */
  lemma SaveRolesEmpty(s: string)
    requires s == ""
    ensures SaveRoles(s) == []
  {
    assert Split(s, ',') == [""];
    assert Trim("") == "";
    assert TrimAll([""]) == [""];
    KeepCons([""], NonBlank);
  }

  lemma {:induction false} TrimAllFixed(parts: seq<string>)
    requires forall i :: 0 <= i < |parts| ==> IsSavedRole(parts[i])
    ensures TrimAll(parts) == parts
  {
    forall i | 0 <= i < |parts|
      ensures Trim(parts[i]) == parts[i]
    {
      TrimFixed(parts[i]);
    }
  }

  // ---------------------------------------------------------------------------------------
  // Icons

  /** `ICONS.find((i) => i.id === id)?.icon`: the preset component, or `undefined`. */
  function PresetIcon(id: string): (i: Icon)
    ensures i.Component? <==> id in PresetIds
    ensures i.Component? ==> i.name == id
    ensures !i.Component? ==> i == NoIcon
  {
    if id in PresetIds then Component(id) else NoIcon
  }

  /** The icon `handleSave` stores: the value of the chosen source when it has a truthy one,
      the selected preset otherwise. */
  function ResolveIcon(f: FormState): (i: Icon)
    ensures i.ImageUrl? ==>
      (i.url != "" && ((f.source == Upload && f.uploaded == Some(i.url)) || (f.source == Favicon && f.favicon == Some(i.url))))
    ensures i.Component? ==> (i.name in PresetIds && i.name == f.icon) || (f.source == React && f.preview == Some(i.name))
    ensures i.NoIcon? ==> f.icon !in PresetIds
    ensures f.source == Preset ==> i == PresetIcon(f.icon)
    ensures f.source == Upload ==> i == (if Truthy(f.uploaded) then ImageUrl(f.uploaded.value) else PresetIcon(f.icon))
    ensures f.source == Favicon ==> i == (if Truthy(f.favicon) then ImageUrl(f.favicon.value) else PresetIcon(f.icon))
    ensures f.source == React ==> i == (if f.preview.Some? then Component(f.preview.value) else PresetIcon(f.icon))
  {
    match f.source
    case Upload => if Truthy(f.uploaded) then ImageUrl(f.uploaded.value) else PresetIcon(f.icon)
    case Favicon => if Truthy(f.favicon) then ImageUrl(f.favicon.value) else PresetIcon(f.icon)
    case React => if f.preview.Some? then Component(f.preview.value) else PresetIcon(f.icon)
    case Preset => PresetIcon(f.icon)
  }

  // ---------------------------------------------------------------------------------------
  // Saving

  /** One sub-choice as saved: a falsy id is replaced by a generated `sc:` id, missing roles
      by `[]`. */
  function SavedSubChoice(sc: SubChoice, random: string): (r: SubChoice)
    ensures r.id != "" && r.roles.Some?
    ensures r.nameKey == sc.nameKey && r.url == sc.url
    ensures sc.id != "" ==> r.id == sc.id
    ensures sc.id == "" ==> StartsWith(r.id, "sc:")
    ensures sc.roles.Some? ==> r.roles == sc.roles
    ensures sc.roles.None? ==> r.roles == Some([])
  {
    SubChoice(if sc.id != "" then sc.id else GenId("sc", random), sc.nameKey, sc.url,
              Some(if sc.roles.Some? then sc.roles.value else []))
  }

  /** `handleSave`: the application handed to `onSave`. `appRandom` and `scRandom(i)` are the
      random parts of the generated ids. */
  function SavedApp(f: FormState, initial: Option<App>, appRandom: string, scRandom: nat -> string): (a: App)
    ensures initial.Some? ==> a.id == initial.value.id
    ensures initial.None? ==> a.id == GenId("app", appRandom)
    ensures a.nameKey == f.nameKey && a.url == f.url && a.icon == ResolveIcon(f)
    ensures a.roles == SaveRoles(f.roles)
    ensures a.subChoices.Some? && |a.subChoices.value| == |f.subChoices|
    ensures forall i :: 0 <= i < |f.subChoices| ==> a.subChoices.value[i] == SavedSubChoice(f.subChoices[i], scRandom(i))
  {
    var finalId := if initial.Some? then initial.value.id else GenId("app", appRandom);
    App(finalId, f.nameKey, ResolveIcon(f), f.url, SaveRoles(f.roles), Some(SavedSubChoices(f.subChoices, scRandom)))
  }

  /** `subChoices.map((sc, i) => ...)` of `handleSave`. */
  function SavedSubChoices(subs: seq<SubChoice>, scRandom: nat -> string): (r: seq<SubChoice>)
    ensures |r| == |subs|
    ensures forall i :: 0 <= i < |subs| ==> r[i] == SavedSubChoice(subs[i], scRandom(i))
  {
    seq(|subs|, i requires 0 <= i < |subs| => SavedSubChoice(subs[i], scRandom(i)))
  }

  // ---------------------------------------------------------------------------------------
  // Loading an application into the form

  /** The `displayName` property of the component exported under each name: `None` when the
      component does not carry one. The editor reads it but nothing in the application sets it,
      so it is a parameter. */
  type DisplayNames = string -> Option<string>

  /** `initial.icon?.displayName || ICONS[0].id` for an icon that is not a string. */
  function DisplayNameOrDefault(icon: Icon, displayNames: DisplayNames): (n: string)
    ensures n != ""
    ensures icon.Component? && Truthy(displayNames(icon.name)) ==> n == displayNames(icon.name).value
    ensures !(icon.Component? && Truthy(displayNames(icon.name))) ==> n == DefaultPreset
  {
    if icon.Component? && Truthy(displayNames(icon.name)) then displayNames(icon.name).value else DefaultPreset
  }

  /** The form fields set from a non-string icon: the component's display name, or the
      default preset. */
  function WithComponentIcon(f: FormState, icon: Icon, displayNames: DisplayNames): (g: FormState)
    requires !icon.ImageUrl?
    ensures var n := DisplayNameOrDefault(icon, displayNames); g == f.(icon := n, iconInput := n, source := Preset)
  {
    var n := DisplayNameOrDefault(icon, displayNames);
    f.(icon := n, iconInput := n, source := Preset)
  }

  /** The form fields set from an image URL: a data URL is an upload, anything else a favicon
      address; the preset falls back to the default. */
  function WithImageIcon(f: FormState, u: string): (g: FormState)
    ensures StartsWith(u, "data:") ==> g == f.(source := Upload, uploaded := Some(u), icon := DefaultPreset, iconInput := DefaultPreset)
    ensures !StartsWith(u, "data:") ==> g == f.(source := Favicon, favicon := Some(u), icon := DefaultPreset, iconInput := DefaultPreset)
  {
    if StartsWith(u, "data:") then f.(source := Upload, uploaded := Some(u), icon := DefaultPreset, iconInput := DefaultPreset)
    else f.(source := Favicon, favicon := Some(u), icon := DefaultPreset, iconInput := DefaultPreset)
  }

  /** The effect run when the editor opens with an application. */
  function LoadedApp(f: FormState, app: App, displayNames: DisplayNames): (g: FormState)
    ensures g.nameKey == app.nameKey && g.url == app.url && g.roles == Join(app.roles, ',')
    ensures g.loadError == f.loadError && g.preview == f.preview
    ensures g.linkMode == SubChoiceLinks <==> HasSubChoices(app)
    ensures g.subChoices == (if app.subChoices.Some? then app.subChoices.value else [])
    ensures g.iconInput == g.icon
    ensures app.icon.ImageUrl? && StartsWith(app.icon.url, "data:") ==>
      g.source == Upload && g.uploaded == Some(app.icon.url) && g.favicon == f.favicon
    ensures app.icon.ImageUrl? && !StartsWith(app.icon.url, "data:") ==>
      g.source == Favicon && g.favicon == Some(app.icon.url) && g.uploaded == f.uploaded
    ensures !app.icon.ImageUrl? ==>
      g.icon == DisplayNameOrDefault(app.icon, displayNames) && g.source == Preset &&
      g.uploaded == f.uploaded && g.favicon == f.favicon
    ensures app.icon.ImageUrl? ==> g.icon == DefaultPreset
  {
    var g := f.(nameKey := app.nameKey, url := app.url, roles := Join(app.roles, ','));
    var g := if app.icon.ImageUrl? then WithImageIcon(g, app.icon.url) else WithComponentIcon(g, app.icon, displayNames);
    g.(subChoices := if app.subChoices.Some? then app.subChoices.value else [],
       linkMode := if HasSubChoices(app) then SubChoiceLinks else UrlLink)
  }

  /** The effect run when the editor opens. Without an application, every field it resets
      goes back to its initial value; `iconInput` and `loadError` are left alone. */
  function Loaded(f: FormState, initial: Option<App>, displayNames: DisplayNames): (g: FormState)
    ensures initial.None? ==> g == InitialForm.(iconInput := f.iconInput, loadError := f.loadError)
    ensures initial.Some? ==> g == LoadedApp(f, initial.value, displayNames)
  {
    if initial.None? then
      f.(nameKey := "", url := "", roles := "", icon := DefaultPreset, subChoices := [], linkMode := UrlLink,
         source := Preset, uploaded := None, favicon := None, preview := None)
    else LoadedApp(f, initial.value, displayNames)
  }

  /** Opening an application and saving it untouched gives back its id, name key, URL and
      roles, when the roles are in saved form. */
  lemma SaveAfterLoadKeepsFields(f: FormState, app: App, displayNames: DisplayNames, appRandom: string, scRandom: nat -> string)
    requires forall i :: 0 <= i < |app.roles| ==> IsSavedRole(app.roles[i])
    ensures SavedApp(LoadedApp(f, app, displayNames), Some(app), appRandom, scRandom).id == app.id
    ensures SavedApp(LoadedApp(f, app, displayNames), Some(app), appRandom, scRandom).nameKey == app.nameKey
    ensures SavedApp(LoadedApp(f, app, displayNames), Some(app), appRandom, scRandom).url == app.url
    ensures SavedApp(LoadedApp(f, app, displayNames), Some(app), appRandom, scRandom).roles == app.roles
  {
    SaveRolesJoin(app.roles);
  }

  /** Opening and saving keeps a preset icon and a non-empty image URL. */
  lemma SaveAfterLoadKeepsIcon(f: FormState, app: App, displayNames: DisplayNames, appRandom: string, scRandom: nat -> string)
    requires (app.icon.Component? && app.icon.name in PresetIds && displayNames(app.icon.name) == Some(app.icon.name)) ||
             (app.icon.ImageUrl? && app.icon.url != "")
    ensures SavedApp(LoadedApp(f, app, displayNames), Some(app), appRandom, scRandom).icon == app.icon
  {
    if app.icon.ImageUrl? {
      LoadedImageResolves(f, app, displayNames);
    } else {
      LoadedPresetResolves(f, app, displayNames);
    }
  }

  lemma LoadedImageResolves(f: FormState, app: App, displayNames: DisplayNames)
    requires app.icon.ImageUrl? && app.icon.url != ""
    ensures ResolveIcon(LoadedApp(f, app, displayNames)) == app.icon
  {
    var g := LoadedApp(f, app, displayNames);
    if StartsWith(app.icon.url, "data:") {
      assert g.source == Upload && g.uploaded == Some(app.icon.url);
    } else {
      assert g.source == Favicon && g.favicon == Some(app.icon.url);
    }
  }

  lemma LoadedPresetResolves(f: FormState, app: App, displayNames: DisplayNames)
    requires app.icon.Component? && app.icon.name in PresetIds && displayNames(app.icon.name) == Some(app.icon.name)
    ensures ResolveIcon(LoadedApp(f, app, displayNames)) == app.icon
  {
    var g := LoadedApp(f, app, displayNames);
    assert g.source == Preset && g.icon == app.icon.name;
    assert PresetIcon(g.icon) == app.icon;
  }

  /** Opening and saving keeps sub-choices that already have ids and roles. */
  lemma SaveAfterLoadKeepsSubChoices(f: FormState, app: App, displayNames: DisplayNames, appRandom: string, scRandom: nat -> string)
    requires app.subChoices.Some?
    requires forall sc :: sc in app.subChoices.value ==> sc.id != "" && sc.roles.Some?
    ensures SavedApp(LoadedApp(f, app, displayNames), Some(app), appRandom, scRandom).subChoices == app.subChoices
  {
    var g := LoadedApp(f, app, displayNames);
    assert g.subChoices == app.subChoices.value;
    SavedSubChoicesKept(g.subChoices, scRandom);
  }

  /** Saving keeps sub-choices that already have ids and roles. */
  lemma SavedSubChoicesKept(subs: seq<SubChoice>, scRandom: nat -> string)
    requires forall sc :: sc in subs ==> sc.id != "" && sc.roles.Some?
    ensures SavedSubChoices(subs, scRandom) == subs
  {
    var r := SavedSubChoices(subs, scRandom);
    forall i | 0 <= i < |subs|
      ensures r[i] == subs[i]
    {
      assert subs[i] in subs;
    }
  }

  /** An application whose icon is a component with a display name outside the presets loses
      its icon when it is opened and saved untouched: the form keeps only the display name,
      and saving looks that name up among the presets. */
  lemma SaveAfterLoadDropsOtherComponents(f: FormState, app: App, displayNames: DisplayNames, appRandom: string, scRandom: nat -> string)
    requires app.icon.Component? && Truthy(displayNames(app.icon.name)) && displayNames(app.icon.name).value !in PresetIds
    ensures SavedApp(LoadedApp(f, app, displayNames), Some(app), appRandom, scRandom).icon == NoIcon
  {
  }

  /** A component icon without a display name (an icon function exported as is) is replaced
      by the default preset when the application is opened and saved untouched. */
  lemma SaveAfterLoadWithoutDisplayName(f: FormState, app: App, displayNames: DisplayNames, appRandom: string, scRandom: nat -> string)
    requires app.icon.Component? && !Truthy(displayNames(app.icon.name))
    ensures SavedApp(LoadedApp(f, app, displayNames), Some(app), appRandom, scRandom).icon == Component(DefaultPreset)
  {
    var g := LoadedApp(f, app, displayNames);
    assert g.icon == DefaultPreset && g.source == Preset;
    assert DefaultPreset in PresetIds;
  }

  // ---------------------------------------------------------------------------------------
  // Sub-choice edits

  /** The two fields the editor's inputs change (`updateSubChoice(idx, "nameKey" | "url", v)`). */
  datatype SubChoiceField = NameKeyField | UrlField

  /** `{ ...sc, [key]: value }`. */
  function WithField(sc: SubChoice, key: SubChoiceField, value: string): (r: SubChoice)
    ensures key == NameKeyField ==> r.nameKey == value && r.url == sc.url
    ensures key == UrlField ==> r.url == Some(value) && r.nameKey == sc.nameKey
    ensures r.id == sc.id && r.roles == sc.roles
  {
    match key
    case NameKeyField => sc.(nameKey := value)
    case UrlField => sc.(url := Some(value))
  }

  /** `updateSubChoice(index, key, value)`: only element `index` changes, and only its field
      `key`; an index outside the list changes nothing. */
  function UpdateSubChoice(s: seq<SubChoice>, index: int, key: SubChoiceField, value: string): (r: seq<SubChoice>)
    ensures |r| == |s|
    ensures forall j :: 0 <= j < |s| && j != index ==> r[j] == s[j]
    ensures 0 <= index < |s| ==> r[index] == WithField(s[index], key, value)
    ensures !(0 <= index < |s|) ==> r == s
  {
    seq(|s|, j requires 0 <= j < |s| => if j == index then WithField(s[j], key, value) else s[j])
  }

  /** Writing the same field twice keeps the last value. */
  lemma UpdateSubChoiceOverwrites(s: seq<SubChoice>, index: int, key: SubChoiceField, v1: string, v2: string)
    ensures UpdateSubChoice(UpdateSubChoice(s, index, key, v1), index, key, v2) == UpdateSubChoice(s, index, key, v2)
  {
  }

  /** `s.filter((_, i) => i !== index)`, scanning from position `from` of the original list. */
  function DropIndex(s: seq<SubChoice>, index: int, from: int): (r: seq<SubChoice>)
    decreases |s|
  {
    if s == [] then []
    else if from == index then DropIndex(s[1..], index, from + 1)
    else [s[0]] + DropIndex(s[1..], index, from + 1)
  }

  /** Scanning past no position equal to `index` keeps every element. */
  lemma {:induction false} DropIndexOutside(s: seq<SubChoice>, index: int, from: int)
    requires !(from <= index < from + |s|)
    ensures DropIndex(s, index, from) == s
    decreases |s|
  {
    if s != [] {
      DropIndexOutside(s[1..], index, from + 1);
      assert [s[0]] + s[1..] == s;
    }
  }

  /** Scanning past position `index` drops exactly that element. */
  lemma {:induction false} DropIndexInside(s: seq<SubChoice>, index: int, from: int)
    requires from <= index < from + |s|
    ensures DropIndex(s, index, from) == s[..index - from] + s[index - from + 1..]
    decreases |s|
  {
    if from == index {
      DropIndexOutside(s[1..], index, from + 1);
      assert s[..0] + s[1..] == s[1..];
    } else {
      var t, k := s[1..], index - from;
      DropIndexInside(t, index, from + 1);
      assert DropIndex(s, index, from) == [s[0]] + (t[..k - 1] + t[k..]);
      assert s[..k] == [s[0]] + t[..k - 1];
      assert s[k + 1..] == t[k..];
      assert [s[0]] + (t[..k - 1] + t[k..]) == ([s[0]] + t[..k - 1]) + t[k..];
    }
  }

  /** `removeSubChoice(index)`: exactly element `index` goes, the others keep their order; an
      index outside the list changes nothing. */
  function RemoveSubChoice(s: seq<SubChoice>, index: int): (r: seq<SubChoice>)
    ensures 0 <= index < |s| ==> r == s[..index] + s[index + 1..]
    ensures !(0 <= index < |s|) ==> r == s
  {
    if 0 <= index < |s| then
      DropIndexInside(s, index, 0);
      DropIndex(s, index, 0)
    else
      DropIndexOutside(s, index, 0);
      DropIndex(s, index, 0)
  }

  /** The entry `addSubChoice` appends. */
  function EmptySubChoice(random: string): (sc: SubChoice)
    ensures StartsWith(sc.id, "sc:") && sc.nameKey == "" && sc.url == Some("") && sc.roles == Some([])
  {
    SubChoice(GenId("sc", random), "", Some(""), Some([]))
  }

  /** `addSubChoice()`: one empty entry with a fresh `sc:` id at the end. */
  function AddSubChoice(s: seq<SubChoice>, random: string): (r: seq<SubChoice>)
    ensures |r| == |s| + 1 && r[..|s|] == s && r[|s|] == EmptySubChoice(random)
  {
    s + [EmptySubChoice(random)]
  }

  /** Removing the entry just added restores the list. */
  lemma RemoveUndoesAdd(s: seq<SubChoice>, random: string)
    ensures RemoveSubChoice(AddSubChoice(s, random), |s|) == s
  {
    var t := AddSubChoice(s, random);
    assert t[..|s|] == s;
    assert t[|s| + 1..] == [];
  }

  // ---------------------------------------------------------------------------------------
  // Icon libraries

  /** `ICON_LIB_MAP`, in its key order. */
  const IconLibraries: seq<(string, string)> := [
    ("Fa", "react-icons/fa"), ("Fa6", "react-icons/fa6"), ("Cg", "react-icons/cg"), ("Md", "react-icons/md"),
    ("Bi", "react-icons/bi"), ("Ri", "react-icons/ri"), ("Ai", "react-icons/ai"), ("Io", "react-icons/io"),
    ("Io5", "react-icons/io5"), ("Gi", "react-icons/gi"), ("Fi", "react-icons/fi"), ("Si", "react-icons/si"),
    ("Bs", "react-icons/bs"), ("Hi", "react-icons/hi"), ("Tb", "react-icons/tb"), ("Go", "react-icons/go")]

  /** `Object.keys(ICON_LIB_MAP)`. */
  function Keys(m: seq<(string, string)>): (ks: seq<string>)
    ensures |ks| == |m| && forall i :: 0 <= i < |m| ==> ks[i] == m[i].0
  {
    seq(|m|, i requires 0 <= i < |m| => m[i].0)
  }

  /** `ICON_LIB_MAP[prefix]`. */
  function LibraryOf(m: seq<(string, string)>, prefix: string): (lib: Option<string>)
    ensures lib.Some? <==> prefix in Keys(m)
    ensures lib.Some? ==> exists i :: 0 <= i < |m| && m[i] == (prefix, lib.value)
  {
    if m == [] then None
    else if m[0].0 == prefix then Some(m[0].1)
    else
      var r := LibraryOf(m[1..], prefix);
      assert Keys(m) == [m[0].0] + Keys(m[1..]);
      if r.Some? then
        var i :| 0 <= i < |m[1..]| && m[1..][i] == (prefix, r.value);
        assert m[i + 1] == (prefix, r.value);
        r
      else r
  }

  predicate LongestFirst(s: seq<string>)
  {
    forall i, j :: 0 <= i < j < |s| ==> |s[i]| >= |s[j]|
  }

  /** The entries of length `n`, in order. */
  function OfLength(s: seq<string>, n: nat): seq<string>
  {
    if s == [] then [] else (if |s[0]| == n then [s[0]] else []) + OfLength(s[1..], n)
  }

  /** Inserts `x` before the first entry no longer than it. */
  function InsertByLength(x: string, s: seq<string>): (r: seq<string>)
    ensures multiset(r) == multiset(s) + multiset{x}
  {
    if s == [] then [x]
    else if |s[0]| <= |x| then [x] + s
    else
      assert s == [s[0]] + s[1..];
      [s[0]] + InsertByLength(x, s[1..])
  }

  lemma {:induction false} InsertKeepsLongestFirst(x: string, s: seq<string>)
    requires LongestFirst(s)
    ensures LongestFirst(InsertByLength(x, s))
  {
    if s != [] && |s[0]| > |x| {
      InsertKeepsLongestFirst(x, s[1..]);
      var rest := InsertByLength(x, s[1..]);
      var r := [s[0]] + rest;
      forall j | 0 < j < |r|
        ensures |r[0]| >= |r[j]|
      {
        assert r[j] in multiset(rest);
        if r[j] != x {
          assert r[j] in s[1..];
        }
      }
    }
  }

  /** Inserting keeps the order of the entries of each length, `x` going before those of its
      own length. */
  lemma {:induction false} InsertIsStable(x: string, s: seq<string>, n: nat)
    requires LongestFirst(s)
    ensures OfLength(InsertByLength(x, s), n) == (if |x| == n then [x] + OfLength(s, n) else OfLength(s, n))
  {
    if s == [] {
      assert OfLength([x], n) == (if |x| == n then [x] else []) + OfLength([], n);
    } else if |s[0]| <= |x| {
      assert ([x] + s)[1..] == s;
    } else {
      InsertIsStable(x, s[1..], n);
      var r := [s[0]] + InsertByLength(x, s[1..]);
      assert r[1..] == InsertByLength(x, s[1..]);
    }
  }

  /** `keys.sort((a, b) => b.length - a.length)`: longest first and the same entries. */
  function SortLongestFirst(s: seq<string>): (r: seq<string>)
    ensures LongestFirst(r)
    ensures multiset(r) == multiset(s)
  {
    if s == [] then []
    else
      assert s == [s[0]] + s[1..];
      InsertKeepsLongestFirst(s[0], SortLongestFirst(s[1..]));
      InsertByLength(s[0], SortLongestFirst(s[1..]))
  }

  /** The sort of the language is stable: entries of equal length keep their original order. */
  lemma {:induction false} SortIsStable(s: seq<string>, n: nat)
    ensures OfLength(SortLongestFirst(s), n) == OfLength(s, n)
  {
    if s != [] {
      SortIsStable(s[1..], n);
      InsertIsStable(s[0], SortLongestFirst(s[1..]), n);
    }
  }

  /** The order in which `tryLoadIcon` tries the prefixes. */
  function Candidates(): (c: seq<string>)
    ensures LongestFirst(c) && multiset(c) == multiset(Keys(IconLibraries))
  {
    SortLongestFirst(Keys(IconLibraries))
  }

  /** In a longest-first list, a longer entry comes before a shorter one. */
  lemma LongerComesFirst(c: seq<string>, a: string, b: string)
    requires LongestFirst(c) && a in c && b in c && |a| > |b|
    ensures exists i, j :: 0 <= i < j < |c| && c[i] == a && c[j] == b
  {
    var i :| 0 <= i < |c| && c[i] == a;
    var j :| 0 <= j < |c| && c[j] == b;
    assert |c[i]| > |c[j]|;
    assert i < j;
  }

  lemma LibraryKeys(m: seq<(string, string)>)
    requires m == IconLibraries
    ensures "Fa" in Keys(m) && "Fa6" in Keys(m) && "Io" in Keys(m) && "Io5" in Keys(m)
  {
    assert Keys(m)[0] == "Fa" && Keys(m)[1] == "Fa6" && Keys(m)[7] == "Io" && Keys(m)[8] == "Io5";
  }

  /** `Fa6` is tried before `Fa`, and `Io5` before `Io`. */
  lemma ThreeLetterPrefixesFirst()
    ensures exists i, j :: 0 <= i < j < |Candidates()| && Candidates()[i] == "Fa6" && Candidates()[j] == "Fa"
    ensures exists i, j :: 0 <= i < j < |Candidates()| && Candidates()[i] == "Io5" && Candidates()[j] == "Io"
  {
    var c := Candidates();
    LibraryKeys(IconLibraries);
    assert "Fa" in multiset(c) && "Fa6" in multiset(c) && "Io" in multiset(c) && "Io5" in multiset(c);
    LongerComesFirst(c, "Fa6", "Fa");
    LongerComesFirst(c, "Io5", "Io");
  }

  /** A component found by the lookup: the prefix tried, its library module, the export name. */
  datatype LoadedIcon = LoadedIcon(prefix: string, library: string, name: string)

  /** `name.startsWith(prefix)`, and the library `m` maps `prefix` to imports and exports
      `name`; `exports` stands for the dynamic import, a failed import being `false`. */
  predicate LoadsFrom(m: seq<(string, string)>, prefix: string, name: string, exports: (string, string) -> bool)
  {
    StartsWith(name, prefix) && LibraryOf(m, prefix).Some? && exports(LibraryOf(m, prefix).value, name)
  }

  /** `cands[i]` is the first entry of `cands` whose library provides `name`. */
  predicate FirstLoading(m: seq<(string, string)>, cands: seq<string>, name: string, exports: (string, string) -> bool, i: int)
  {
    0 <= i < |cands| && LoadsFrom(m, cands[i], name, exports) &&
    forall j :: 0 <= j < i ==> !LoadsFrom(m, cands[j], name, exports)
  }

  /** The search of `tryLoadIcon` over `cands`: the first prefix whose library provides the
      component. */
  function LoadFrom(m: seq<(string, string)>, cands: seq<string>, name: string, exports: (string, string) -> bool): (r: Option<LoadedIcon>)
    ensures r.None? <==> forall i :: 0 <= i < |cands| ==> !LoadsFrom(m, cands[i], name, exports)
    ensures r.Some? ==> exists i :: FirstLoading(m, cands, name, exports, i) && cands[i] == r.value.prefix
    ensures r.Some? ==> r.value.name == name && Some(r.value.library) == LibraryOf(m, r.value.prefix)
  {
    if cands == [] then None
    else if LoadsFrom(m, cands[0], name, exports) then
      assert FirstLoading(m, cands, name, exports, 0);
      Some(LoadedIcon(cands[0], LibraryOf(m, cands[0]).value, name))
    else
      var r := LoadFrom(m, cands[1..], name, exports);
      if r.Some? then
        var i :| FirstLoading(m, cands[1..], name, exports, i) && cands[1..][i] == r.value.prefix;
        assert FirstLoading(m, cands, name, exports, i + 1);
        r
      else r
  }

  /** In a longest-first candidate list, when the lookup succeeds through a prefix, no longer
      key that also starts the name provides the component. */
  lemma LongerPrefixesTriedFirst(m: seq<(string, string)>, cands: seq<string>, name: string,
                                 exports: (string, string) -> bool, k: string)
    requires LongestFirst(cands) && LoadFrom(m, cands, name, exports).Some?
    requires k in cands && |k| > |LoadFrom(m, cands, name, exports).value.prefix|
    ensures !LoadsFrom(m, k, name, exports)
  {
    var r := LoadFrom(m, cands, name, exports).value;
    var i :| FirstLoading(m, cands, name, exports, i) && cands[i] == r.prefix;
    var j :| 0 <= j < |cands| && cands[j] == k;
    assert |cands[j]| > |cands[i]|;
    assert j < i;
  }

  /** Over a longest-first ordering of the library keys, the search fails exactly when no
      library provides the component, and otherwise finds it through a key no longer key
      could have provided it through. */
  lemma LoadFromKeys(m: seq<(string, string)>, cands: seq<string>, name: string, exports: (string, string) -> bool)
    requires LongestFirst(cands) && multiset(cands) == multiset(Keys(m))
    ensures LoadFrom(m, cands, name, exports).None? <==> forall k :: k in Keys(m) ==> !LoadsFrom(m, k, name, exports)
    ensures LoadFrom(m, cands, name, exports).Some? ==>
      var p := LoadFrom(m, cands, name, exports).value.prefix;
      LoadsFrom(m, p, name, exports) && forall k :: k in Keys(m) && |k| > |p| ==> !LoadsFrom(m, k, name, exports)
  {
    var r := LoadFrom(m, cands, name, exports);
    assert forall k :: k in cands <==> k in Keys(m) by {
      forall k ensures k in cands <==> k in Keys(m) {
        assert k in cands <==> k in multiset(cands);
      }
    }
    if r.None? {
      forall k | k in Keys(m)
        ensures !LoadsFrom(m, k, name, exports)
      {
        var i :| 0 <= i < |cands| && cands[i] == k;
      }
    } else {
      var i :| FirstLoading(m, cands, name, exports, i) && cands[i] == r.value.prefix;
      forall k | k in Keys(m) && |k| > |r.value.prefix|
        ensures !LoadsFrom(m, k, name, exports)
      {
        LongerPrefixesTriedFirst(m, cands, name, exports, k);
      }
    }
  }

  /** `tryLoadIcon(name)`: nothing for an empty name; otherwise the component from the first
      library, longest prefix first, that provides it, and nothing when none does. */
  function LoadIcon(name: string, exports: (string, string) -> bool): (r: Option<LoadedIcon>)
    ensures r.None? <==> name == "" || forall k :: k in Keys(IconLibraries) ==> !LoadsFrom(IconLibraries, k, name, exports)
    ensures r.Some? ==> r.value.name == name && name != "" && Some(r.value.library) == LibraryOf(IconLibraries, r.value.prefix)
    ensures r.Some? ==> LoadsFrom(IconLibraries, r.value.prefix, name, exports)
    ensures r.Some? ==> forall k :: k in Keys(IconLibraries) && |k| > |r.value.prefix| ==> !LoadsFrom(IconLibraries, k, name, exports)
  {
    if name == "" then None
    else
      LoadFromKeys(IconLibraries, Candidates(), name, exports);
      LoadFrom(IconLibraries, Candidates(), name, exports)
  }

  /** The loop of `tryLoadIcon` over a candidate list, the awaited import given as `exports`. */
  method SearchLibraries(m: seq<(string, string)>, candidates: seq<string>, name: string,
                         exports: (string, string) -> bool) returns (comp: Option<LoadedIcon>)
    ensures comp == LoadFrom(m, candidates, name, exports)
  {
    var i := 0;
    while i < |candidates|
      invariant 0 <= i <= |candidates|
      invariant LoadFrom(m, candidates[i..], name, exports) == LoadFrom(m, candidates, name, exports)
    {
      var prefix := candidates[i];
      assert candidates[i..][1..] == candidates[i + 1..];
      if StartsWith(name, prefix) {
        var lib := LibraryOf(m, prefix);
        if lib.Some? && exports(lib.value, name) {
          return Some(LoadedIcon(prefix, lib.value, name));
        }
      }
      i := i + 1;
    }
    return None;
  }

  /** `tryLoadIcon(name)`. */
  method TryLoadIcon(name: string, exports: (string, string) -> bool) returns (comp: Option<LoadedIcon>)
    ensures comp == LoadIcon(name, exports)
  {
    if name == "" {
      return None;
    }
    var candidates := Candidates();
    comp := SearchLibraries(IconLibraries, candidates, name, exports);
  }

  /** `onLoadIconClick`: the trimmed icon name is looked up; a found component becomes the
      preview and the icon source, otherwise an error is recorded. */
  function IconLoaded(f: FormState, exports: (string, string) -> bool): (g: FormState)
    ensures g.preview.Some? <==> Trim(f.iconInput) != "" && LoadIcon(Trim(f.iconInput), exports).Some?
    ensures g.preview.Some? ==> g.preview == Some(Trim(f.iconInput)) && g.source == React && g.loadError == None
    ensures g.preview.None? ==> g.loadError.Some? && g.source == f.source
    ensures g.(preview := f.preview, source := f.source, loadError := f.loadError) == f
  {
    var name := Trim(f.iconInput);
    IconResult(f, name, if name == "" then None else LoadIcon(name, exports))
  }

  /** Every outcome sets both the error and the preview, so clearing them first changes nothing. */
  lemma IconResultOverwrites(f: FormState, name: string, comp: Option<LoadedIcon>)
    ensures IconResult(f.(loadError := None, preview := None), name, comp) == IconResult(f, name, comp)
  {
  }

  /** The form once the lookup of `name` has given `comp`: an empty name and a failed lookup
      record an error, a found component becomes the preview and the icon source. */
  function IconResult(f: FormState, name: string, comp: Option<LoadedIcon>): (g: FormState)
    ensures g.preview.Some? <==> name != "" && comp.Some?
    ensures g.preview.Some? ==> g.preview == Some(name) && g.source == React && g.loadError == None
    ensures g.preview.None? ==> g.loadError.Some? && g.source == f.source
    ensures g.(preview := f.preview, source := f.source, loadError := f.loadError) == f
  {
    if name == "" then f.(loadError := Some("Empty icon name"), preview := None)
    else if comp.Some? then f.(loadError := None, preview := Some(name), source := React)
    else f.(loadError := Some("Icon not found: " + name), preview := None)
  }

  /** After a successful lookup, saving stores the component that was found. */
  lemma SaveAfterIconLoad(f: FormState, exports: (string, string) -> bool, initial: Option<App>,
                          appRandom: string, scRandom: nat -> string)
    requires Trim(f.iconInput) != "" && LoadIcon(Trim(f.iconInput), exports).Some?
    ensures SavedApp(IconLoaded(f, exports), initial, appRandom, scRandom).icon == Component(Trim(f.iconInput))
  {
  }

  // ---------------------------------------------------------------------------------------
  // The editor's state

  class EditorForm {
    var nameKey: string
    var url: string
    var roles: string
    var icon: string
    var iconInput: string
    var preview: Option<string>
    var source: IconSource
    var uploaded: Option<string>
    var favicon: Option<string>
    var loadError: Option<string>
    var subChoices: seq<SubChoice>
    var linkMode: LinkMode

    function State(): FormState
      reads this
    {
      FormState(nameKey, url, roles, icon, iconInput, preview, source, uploaded, favicon, loadError, subChoices, linkMode)
    }

    /** The `useState` initial values. */
    constructor ()
      ensures State() == InitialForm
    {
      nameKey, url, roles := "", "", "";
      icon, iconInput := DefaultPreset, DefaultPreset;
      preview, source, uploaded, favicon, loadError := None, Preset, None, None, None;
      subChoices, linkMode := [], UrlLink;
    }

    /** The effect that fills the form when it opens. */
    method Load(initial: Option<App>, displayNames: DisplayNames)
      modifies this
      ensures State() == Loaded(old(State()), initial, displayNames)
    {
      if initial.None? {
        Reset();
      } else {
        LoadApp(initial.value, displayNames);
      }
    }

    /** The fields reset when the editor opens without an application. */
    method Reset()
      modifies this
      ensures State() == InitialForm.(iconInput := old(iconInput), loadError := old(loadError))
    {
      nameKey := "";
      url := "";
      roles := "";
      icon := DefaultPreset;
      subChoices := [];
      linkMode := UrlLink;
      source := Preset;
      uploaded := None;
      favicon := None;
      preview := None;
    }

    /** The fields set when the editor opens with `app`. */
    method LoadApp(app: App, displayNames: DisplayNames)
      modifies this
      ensures State() == LoadedApp(old(State()), app, displayNames)
    {
      nameKey := app.nameKey;
      url := app.url;
      roles := Join(app.roles, ',');
      ghost var before := State();
      if app.icon.ImageUrl? {
        SetImageIcon(app.icon.url);
        assert State() == WithImageIcon(before, app.icon.url);
      } else {
        SetComponentIcon(app.icon, displayNames);
        assert State() == WithComponentIcon(before, app.icon, displayNames);
      }
      subChoices := if app.subChoices.Some? then app.subChoices.value else [];
      linkMode := if HasSubChoices(app) then SubChoiceLinks else UrlLink;
    }

    /** The icon fields set from an image URL. */
    method SetImageIcon(u: string)
      modifies this
      ensures State() == WithImageIcon(old(State()), u)
    {
      source := if StartsWith(u, "data:") then Upload else Favicon;
      if StartsWith(u, "data:") {
        uploaded := Some(u);
      } else {
        favicon := Some(u);
      }
      icon := DefaultPreset;
      iconInput := DefaultPreset;
    }

    /** The icon fields set from a component (or no icon). */
    method SetComponentIcon(i: Icon, displayNames: DisplayNames)
      requires !i.ImageUrl?
      modifies this
      ensures State() == WithComponentIcon(old(State()), i, displayNames)
    {
      var n := DisplayNameOrDefault(i, displayNames);
      icon := n;
      iconInput := n;
      source := Preset;
    }

    method UpdateSubChoiceField(index: int, key: SubChoiceField, value: string)
      modifies this
      ensures State() == old(State()).(subChoices := UpdateSubChoice(old(subChoices), index, key, value))
    {
      subChoices := UpdateSubChoice(subChoices, index, key, value);
    }

    method RemoveSubChoiceAt(index: int)
      modifies this
      ensures State() == old(State()).(subChoices := RemoveSubChoice(old(subChoices), index))
    {
      subChoices := RemoveSubChoice(subChoices, index);
    }

    method AppendSubChoice(random: string)
      modifies this
      ensures State() == old(State()).(subChoices := AddSubChoice(old(subChoices), random))
    {
      subChoices := AddSubChoice(subChoices, random);
    }

    /** `onLoadIconClick`: the error and the preview are cleared while the lookup runs, then
        the result is applied. */
    method LoadIconClick(exports: (string, string) -> bool)
      modifies this
      ensures State() == IconLoaded(old(State()), exports)
    {
      ghost var f := State();
      loadError := None;
      preview := None;
      assert State() == f.(loadError := None, preview := None);
      var name := Trim(iconInput);
      var comp := None;
      if name != "" {
        comp := TryLoadIcon(name, exports);
      }
      ApplyIconResult(name, comp);
      IconResultOverwrites(f, name, comp);
    }

    /** The state updates of `onLoadIconClick` once the lookup of `name` has given `comp`. */
    method ApplyIconResult(name: string, comp: Option<LoadedIcon>)
      modifies this
      ensures State() == IconResult(old(State()), name, comp)
    {
      if name == "" {
        loadError := Some("Empty icon name");
        preview := None;
      } else if comp.Some? {
        loadError := None;
        preview := Some(name);
        source := React;
      } else {
        loadError := Some("Icon not found: " + name);
        preview := None;
      }
    }

    /** `handleSave`: the application passed to `onSave`; the form itself is unchanged. */
    method HandleSave(initial: Option<App>, appRandom: string, scRandom: nat -> string) returns (app: App)
      ensures app == SavedApp(State(), initial, appRandom, scRandom)
    {
      app := SavedApp(State(), initial, appRandom, scRandom);
    }
  }
}
