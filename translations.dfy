/** `POST /api/translations` (`src/app/api/translations/route.ts`): create, rename or delete a
    translation key in every locale file, keeping a translation that other keys still share. */
module Translations {
  import opened Util

  /** One locale file: translation key to text. */
  type Dict = map<string, string>

  /** The request body. `action` is any string, or absent. */
  datatype EditRequest = EditRequest(
    action: Option<string>,
    oldKey: Option<string>,
    newKey: Option<string>,
    allNameKeys: seq<string>)

  const Locales: seq<string> := ["en", "fr"]

  /** The keys whose text is `v`. */
  function KeysWithValue(data: Dict, v: string): set<string>
  {
    set k | k in data && data[k] == v
  }

  /** `allNameKeys.filter((k) => k !== oldKey && data[k] === v)`, as a set. */
  function OtherNameKeysWithValue(data: Dict, allNameKeys: seq<string>, oldKey: string, v: string): set<string>
  {
    set k | k in allNameKeys && k != oldKey && k in data && data[k] == v
  }

  /** The edit applied to one locale. */
  function Edit(data: Dict, req: EditRequest): (r: Dict)
    // An existing text is never overwritten.
    ensures forall k :: k in data && k in r ==> r[k] == data[k]
    // Only `newKey` can appear and only `oldKey` can disappear; other keys never change.
    ensures forall k :: k in r && k !in data ==> req.newKey == Some(k)
    ensures forall k :: k in data && k !in r ==> req.oldKey == Some(k)
    // A key only disappears when no other key holds its text.
    ensures forall k :: k in data && k !in r ==> KeysWithValue(data, data[k]) == {k}
  {
    var afterCreate :=
      if req.action == Some("create") && Truthy(req.newKey) && req.newKey.value !in data then
        data[req.newKey.value := req.newKey.value]
      else data;
    var afterRename :=
      if req.action == Some("rename") && Truthy(req.oldKey) && Truthy(req.newKey) then
        Rename(afterCreate, req.oldKey.value, req.newKey.value, req.allNameKeys)
      else afterCreate;
    if req.action == Some("delete") && Truthy(req.oldKey) then
      Delete(afterRename, req.oldKey.value, req.allNameKeys)
    else afterRename
  }

  /** The `rename` branch. */
  function Rename(data: Dict, oldKey: string, newKey: string, allNameKeys: seq<string>): (r: Dict)
    ensures forall k :: k in data && k in r ==> r[k] == data[k]
    ensures forall k :: k in r && k !in data ==> k == newKey
    ensures forall k :: k in data && k !in r ==> k == oldKey && KeysWithValue(data, data[k]) == {k}
    // The text of `oldKey` is copied to an absent `newKey`.
    ensures oldKey in data && newKey !in data ==> newKey in r && r[newKey] == data[oldKey]
    // `oldKey` goes exactly when it is unreferenced and was the only key holding its text
    // (counted before the copy), even when `newKey` is `oldKey` itself.
    ensures oldKey in data ==>
      (oldKey !in r <==> oldKey !in allNameKeys && |KeysWithValue(data, data[oldKey])| == 1)
    // A missing `oldKey` only adds the placeholder `newKey -> newKey`.
    ensures oldKey !in data ==> r == (if newKey in data then data else data[newKey := newKey])
  {
    if oldKey in data then
      var valueOld := data[oldKey];
      var sharing := KeysWithValue(data, valueOld);
      var copied := if newKey !in data then data[newKey := valueOld] else data;
      if oldKey !in allNameKeys && |sharing| == 1 then
        SingletonHolder(data, oldKey);
        copied - {oldKey}
      else copied
    else if newKey !in data then data[newKey := newKey]
    else data
  }

  /** The `delete` branch. */
  function Delete(data: Dict, oldKey: string, allNameKeys: seq<string>): (r: Dict)
    ensures forall k :: k in r ==> k in data && r[k] == data[k]
    ensures forall k :: k in data && k !in r ==> k == oldKey && KeysWithValue(data, data[k]) == {k}
    ensures oldKey in data ==> (oldKey !in r <==> |KeysWithValue(data, data[oldKey])| <= 1)
  {
    if oldKey in data then
      var valueOld := data[oldKey];
      var sharing := KeysWithValue(data, valueOld);
      var others := OtherNameKeysWithValue(data, allNameKeys, oldKey, valueOld);
      if |others| == 0 && |sharing| <= 1 then
        SingletonHolder(data, oldKey);
        data - {oldKey}
      else if |sharing| <= 1 then
        SoleHolderHasNoOthers(data, allNameKeys, oldKey);
        data
      else data
    else data
  }

  /** A key holding its text alone is the whole set of holders. */
  lemma SingletonHolder(data: Dict, key: string)
    requires key in data && |KeysWithValue(data, data[key])| <= 1
    ensures KeysWithValue(data, data[key]) == {key}
  {
    var s := KeysWithValue(data, data[key]);
    assert key in s;
    forall k | k in s ensures k == key {
      if k != key {
        assert {key, k} <= s;
        assert |{key, k}| == 2;
        SubsetCard({key, k}, s);
      }
    }
  }

  lemma SubsetCard<T>(a: set<T>, b: set<T>)
    requires a <= b
    ensures |a| <= |b|
  {
    assert b == a + (b - a);
  }

  /** In `delete`, the second condition implies the first: when at most one key holds the text,
      no other name key can map to it. */
  lemma SoleHolderHasNoOthers(data: Dict, allNameKeys: seq<string>, oldKey: string)
    requires oldKey in data && |KeysWithValue(data, data[oldKey])| <= 1
    ensures OtherNameKeysWithValue(data, allNameKeys, oldKey, data[oldKey]) == {}
  {
    SingletonHolder(data, oldKey);
    var o := OtherNameKeysWithValue(data, allNameKeys, oldKey, data[oldKey]);
    assert forall k :: k in o ==> k in KeysWithValue(data, data[oldKey]) && k != oldKey;
  }

  /** Renaming an unreferenced key that alone holds its text to itself deletes it: the copy is
      skipped because the key exists, and the removal test still passes. */
  lemma RenameToItselfDeletes(data: Dict, key: string, allNameKeys: seq<string>)
    requires key != "" && key in data && key !in allNameKeys && |KeysWithValue(data, data[key])| == 1
    ensures var r := Edit(data, EditRequest(Some("rename"), Some(key), Some(key), allNameKeys));
      key !in r && r == data - {key}
  {
    SingletonHolder(data, key);
  }

  /** `create` adds `newKey -> newKey` only when the key is absent. */
  lemma CreateAddsPlaceholder(data: Dict, newKey: string, allNameKeys: seq<string>)
    requires newKey != ""
    ensures var r := Edit(data, EditRequest(Some("create"), None, Some(newKey), allNameKeys));
      r == (if newKey in data then data else data[newKey := newKey])
  {
  }

  /** Renaming an unreferenced key that holds its text alone to a fresh key moves the entry. */
  lemma {:induction false} RenameMovesEntry(data: Dict, oldKey: string, newKey: string, allNameKeys: seq<string>)
    requires oldKey != "" && newKey != "" && oldKey != newKey
    requires oldKey in data && newKey !in data && oldKey !in allNameKeys
    requires |KeysWithValue(data, data[oldKey])| == 1
    ensures Edit(data, EditRequest(Some("rename"), Some(oldKey), Some(newKey), allNameKeys)) ==
      (data - {oldKey})[newKey := data[oldKey]]
  {
    var r := Edit(data, EditRequest(Some("rename"), Some(oldKey), Some(newKey), allNameKeys));
    assert r == Rename(data, oldKey, newKey, allNameKeys);
    var expected := (data - {oldKey})[newKey := data[oldKey]];
    assert r.Keys == expected.Keys;
  }

  // ---------------------------------------------------------------------------------------
  // Every locale file

  /** The files after the edit was applied to each locale of `locales`, each independently. */
  function EditAll(files: map<string, Dict>, locales: seq<string>, req: EditRequest): (r: map<string, Dict>)
    requires forall l :: l in locales ==> l in files
    ensures r.Keys == files.Keys
    ensures forall l :: l in files && l !in locales ==> r[l] == files[l]
  {
    if locales == [] then files
    else
      var last := locales[|locales| - 1];
      EditAll(files, locales[..|locales| - 1], req)[last := Edit(files[last], req)]
  }

  /** Each listed locale gets the edit of its own original file. */
  lemma {:induction false} EditAllEach(files: map<string, Dict>, locales: seq<string>, req: EditRequest, l: string)
    requires forall l :: l in locales ==> l in files
    requires l in locales
    ensures EditAll(files, locales, req)[l] == Edit(files[l], req)
  {
    var last := locales[|locales| - 1];
    if l != last {
      assert l in locales[..|locales| - 1] by {
        var i :| 0 <= i < |locales| && locales[i] == l;
        assert i < |locales| - 1;
        assert locales[..|locales| - 1][i] == l;
      }
      EditAllEach(files, locales[..|locales| - 1], req, l);
    }
  }

  /** One more locale of a list without repeats: its file is edited from the state so far, which
      still holds its original contents. */
  lemma EditAllStep(files: map<string, Dict>, locales: seq<string>, i: int, req: EditRequest)
    requires forall l :: l in locales ==> l in files
    requires forall a, b :: 0 <= a < b < |locales| ==> locales[a] != locales[b]
    requires 0 <= i < |locales|
    ensures forall l :: l in locales[..i] ==> l in files
    ensures forall l :: l in locales[..i + 1] ==> l in files
    ensures locales[i] in EditAll(files, locales[..i], req)
    ensures EditAll(files, locales[..i + 1], req) ==
      EditAll(files, locales[..i], req)[locales[i] := Edit(EditAll(files, locales[..i], req)[locales[i]], req)]
  {
    var locale := locales[i];
    assert forall l :: l in locales[..i + 1] ==> l in locales;
    assert locale !in locales[..i] by {
      forall m | 0 <= m < i ensures locales[..i][m] != locale {
        assert locales[..i][m] == locales[m];
      }
    }
    assert locales[..i + 1][..i] == locales[..i];
  }

  /** The locale files on disk, as one map (`readLocale` and `writeLocale` abstracted). */
  class LocaleFiles {
    var files: map<string, Dict>

    constructor (initial: map<string, Dict>)
      ensures files == initial
    {
      files := initial;
    }

    /** `POST`: 400 without an action; 500 (nothing written) when a locale file cannot be
        read; otherwise every locale is edited in turn and 200 is returned. */
    method Post(req: EditRequest) returns (status: int)
      modifies this
      ensures !Truthy(req.action) ==> status == 400 && files == old(files)
      ensures Truthy(req.action) && (exists l :: l in Locales && l !in old(files)) ==> status == 500 && files == old(files)
      ensures Truthy(req.action) && (forall l :: l in Locales ==> l in old(files)) ==>
        status == 200 && files == EditAll(old(files), Locales, req)
    {
      if !Truthy(req.action) {
        return 400;
      }
      var ok := AllPresent(Locales);
      if !ok {
        return 500;
      }
      EditEach(Locales, req);
      return 200;
    }

    /** The reads that precede any write: every listed locale file exists. */
    method AllPresent(locales: seq<string>) returns (ok: bool)
      ensures ok <==> forall l :: l in locales ==> l in files
    {
      for j := 0 to |locales|
        invariant forall m :: 0 <= m < j ==> locales[m] in files
      {
        if locales[j] !in files {
          return false;
        }
      }
      return true;
    }

    /** The loop over the locales: each file is edited and written back in turn. */
    method EditEach(locales: seq<string>, req: EditRequest)
      requires forall l :: l in locales ==> l in files
      requires forall a, b :: 0 <= a < b < |locales| ==> locales[a] != locales[b]
      modifies this
      ensures files == EditAll(old(files), locales, req)
    {
      for i := 0 to |locales|
        invariant files == EditAll(old(files), locales[..i], req)
      {
        EditAllStep(old(files), locales, i, req);
        var locale := locales[i];
        var data := EditLocale(files[locale], req);
        files := files[locale := data];
      }
      assert locales[..|locales|] == locales;
    }

    /** The body of the loop for one locale: the three actions' statements, in order, on the
        locale's dictionary. */
    static method EditLocale(d: Dict, req: EditRequest) returns (data: Dict)
      ensures data == Edit(d, req)
    {
      data := d;
      if req.action == Some("create") && Truthy(req.newKey) {
        if req.newKey.value !in data {
          data := data[req.newKey.value := req.newKey.value];
        }
      }
      if req.action == Some("rename") && Truthy(req.oldKey) && Truthy(req.newKey) {
        var oldKey, newKey := req.oldKey.value, req.newKey.value;
        var newExists := newKey in data;
        if oldKey in data {
          var valueOld := data[oldKey];
          var sharing := KeysWithValue(data, valueOld);
          if !newExists {
            data := data[newKey := valueOld];
          }
          if oldKey !in req.allNameKeys && |sharing| == 1 {
            data := data - {oldKey};
          }
        } else if !newExists {
          data := data[newKey := newKey];
        }
      }
      if req.action == Some("delete") && Truthy(req.oldKey) {
        var oldKey := req.oldKey.value;
        if oldKey in data {
          var valueOld := data[oldKey];
          var sharing := KeysWithValue(data, valueOld);
          var others := OtherNameKeysWithValue(data, req.allNameKeys, oldKey, valueOld);
          if |others| == 0 && |sharing| <= 1 {
            data := data - {oldKey};
          }
        }
      }
    }
  }
}
