/** The translation provider of `src/lib/i18n.tsx`: key lookup with fallback, the default
    locale read from the browser, and the locale persisted in local storage. */
module I18n {
  import opened Util

  datatype Locale = En | Fr

  /** The locale's code, as stored and as used for `<html lang>`. */
  function Code(l: Locale): (c: string)
    ensures c == "en" || c == "fr"
  {
    match l
    case En => "en"
    case Fr => "fr"
  }

  /** The bundled dictionaries, one per locale (`LOCALES`). */
  datatype Dictionaries = Dictionaries(en: map<string, string>, fr: map<string, string>)

  function DictionaryOf(ds: Dictionaries, l: Locale): map<string, string>
  {
    match l
    case En => ds.en
    case Fr => ds.fr
  }

  /** `t(key)`: `LOCALES[locale][key] ?? key`. Only a missing entry falls back to the key; an
      empty entry is returned as it is. */
  function T(ds: Dictionaries, locale: Locale, key: string): (text: string)
    ensures key in DictionaryOf(ds, locale) ==> text == DictionaryOf(ds, locale)[key]
    ensures key !in DictionaryOf(ds, locale) ==> text == key
  {
    var d := DictionaryOf(ds, locale);
    if key in d then d[key] else key
  }

  /** The text differs from the key exactly when the locale has an entry for the key that
      says something else. */
  lemma TFallsBackToKey(ds: Dictionaries, locale: Locale, key: string)
    ensures T(ds, locale, key) != key <==> key in DictionaryOf(ds, locale) && DictionaryOf(ds, locale)[key] != key
  {
  }

  /** What the browser reports: `navigator.language` and the older `navigator.userLanguage`. */
  datatype Navigator = Navigator(language: Option<string>, userLanguage: Option<string>)

  /** `navigator.language || navigator.userLanguage || "en"`. */
  function LanguageOf(nav: Navigator): (lang: string)
    ensures lang != ""
    ensures Truthy(nav.language) ==> lang == nav.language.value
    ensures !Truthy(nav.language) && Truthy(nav.userLanguage) ==> lang == nav.userLanguage.value
    ensures !Truthy(nav.language) && !Truthy(nav.userLanguage) ==> lang == "en"
  {
    Or(Or(nav.language, nav.userLanguage), Some("en")).value
  }

  /** `detectDefaultLocale()`: English without a browser; otherwise French exactly when the
      reported language starts with `fr`, compared case-sensitively. */
  function DetectDefaultLocale(nav: Option<Navigator>): (l: Locale)
    ensures nav.None? ==> l == En
    ensures nav.Some? ==> (l == Fr <==> StartsWith(LanguageOf(nav.value), "fr"))
  {
    if nav.None? then En
    else if StartsWith(LanguageOf(nav.value), "fr") then Fr
    else En
  }

  /** A browser reporting no language is taken as English; `FR` in upper case is not French. */
  lemma DetectExamples(a: string, b: string)
    requires a == "FR-fr" && b == "fr-CA"
    ensures DetectDefaultLocale(Some(Navigator(None, None))) == En
    ensures DetectDefaultLocale(Some(Navigator(Some(""), Some(b)))) == Fr
    ensures DetectDefaultLocale(Some(Navigator(Some(a), Some(b)))) == En
  {
    assert b[..2] == "fr";
    assert a[..2] != "fr" by {
      assert a[0] == 'F';
    }
  }

  /** The mount effect's test on the stored value: only exactly `en` or `fr` is adopted. */
  function AcceptStored(stored: Option<string>): (l: Option<Locale>)
    ensures l.Some? <==> stored == Some("en") || stored == Some("fr")
    ensures l.Some? ==> stored == Some(Code(l.value))
  {
    if stored == Some("en") then Some(En)
    else if stored == Some("fr") then Some(Fr)
    else None
  }

  /** What `setLocale` stores is adopted back on the next mount. */
  lemma StoredLocaleRoundTrip(l: Locale)
    ensures AcceptStored(Some(Code(l))) == Some(l)
  {
  }

  /** The provider's state: the current locale, and the value under the storage key. */
  class Provider {
    var locale: Locale
    var stored: Option<string>

    /** `useState(initialLocale ?? detectDefaultLocale())`; `stored` is what local storage
        already holds. */
    constructor (initialLocale: Option<Locale>, nav: Option<Navigator>, stored: Option<string>)
      ensures locale == (if initialLocale.Some? then initialLocale.value else DetectDefaultLocale(nav))
      ensures this.stored == stored
    {
      locale := if initialLocale.Some? then initialLocale.value else DetectDefaultLocale(nav);
      this.stored := stored;
    }

    /** The mount effect: an accepted stored locale replaces the current one. A storage that
        cannot be read (`storageAvailable` false) changes nothing. */
    method RestoreStored(storageAvailable: bool)
      modifies this
      ensures stored == old(stored)
      ensures storageAvailable && AcceptStored(stored).Some? ==> locale == AcceptStored(stored).value
      ensures !(storageAvailable && AcceptStored(stored).Some?) ==> locale == old(locale)
    {
      if storageAvailable {
        var s := stored;
        if s.Some? && s.value != "" && (s.value == "en" || s.value == "fr") {
          locale := if s.value == "en" then En else Fr;
        }
      }
    }

    /** `setLocale(l)`: the locale always changes; the stored value only when writing to
        storage succeeds. */
    method SetLocale(l: Locale, storageAvailable: bool)
      modifies this
      ensures locale == l
      ensures stored == (if storageAvailable then Some(Code(l)) else old(stored))
    {
      if storageAvailable {
        stored := Some(Code(l));
      }
      locale := l;
    }
  }

  /** Choosing a locale and reloading: the stored code is adopted again. */
  method SetThenReload(p: Provider, l: Locale, initialLocale: Option<Locale>, nav: Option<Navigator>)
    returns (q: Provider)
    modifies p
    ensures q.locale == l
  {
    p.SetLocale(l, true);
    q := new Provider(initialLocale, nav, p.stored);
    StoredLocaleRoundTrip(l);
    q.RestoreStored(true);
  }
}
