/** The `intl` duck: the active locale and, per (locale, component key), the
    state of a language pack. This module holds the state, the reducer and the
    pure helpers (`buildInitialState`, `isLoaded`, `langPackToIguazu`,
    `getUrl`); the thunks are modelled as decision functions in IntlLoad. */
module Intl {
  import opened Wrappers
  import opened Text
  import ModuleUrls
  import ServerCache

  const DefaultLocale: string := "en-US"

  /** How long a failed language pack blocks new queries, in milliseconds. */
  const ErrorTtl: int := 10000

  /** A language pack's payload: translation keys to strings, as stored in
      the server cache. */
  type Payload = ServerCache.Payload

  /** The abstract HTTP response handed back by the fetch client. */
  datatype Response = Response(ok: bool, status: int, statusText: string, url: string, body: Payload)

  /** An `Error`; `response` is the response it was made from, if any. */
  datatype Failure = Failure(message: string, response: Option<Response>)

  /** What the `isLoading` key holds: the reducer stores a boolean, while
      state built elsewhere may put a promise handle there. */
  datatype Loading = Flag(on: bool) | Handle(id: nat)

  predicate LoadingTruthy(l: Option<Loading>) {
    l.Some? && (l.value.Handle? || l.value.on)
  }

  predicate FlagTruthy(b: Option<bool>) {
    b == Some(true)
  }

  /** One language pack entry; `None` means the key is absent. */
  datatype Entry = Entry(
    data: Option<Payload>,
    isLoading: Option<Loading>,
    error: Option<Failure>,
    errorExpiration: Option<int>,
    loadedOnServer: Option<bool>,
    pendingDeferredForceLoad: Option<bool>)

  const EmptyEntry: Entry := Entry(None, None, None, None, None, None)

  datatype IntlState = IntlState(
    activeLocale: Option<string>,
    nextLocale: Option<string>,
    languagePacks: map<string, map<string, Entry>>)

  datatype IntlAction =
    | UpdateLocale(newLocale: Option<string>)
    | LanguagePackRequest(locale: string, componentKey: string)
    | LanguagePackSuccess(locale: string, componentKey: string, data: Payload)
    | LanguagePackFailure(locale: string, componentKey: string, error: Failure)
    | LanguagePackDeferredForceLoad(locale: string, componentKey: string)
    | OtherIntlAction

  // ---------------------------------------------------------------- lookups

  function GetEntry(s: IntlState, locale: string, key: string): Option<Entry> {
    if locale in s.languagePacks && key in s.languagePacks[locale]
    then Some(s.languagePacks[locale][key]) else None
  }

  /** `getIn([..., locale, componentKey], iMap())`. */
  function EntryOrEmpty(s: IntlState, locale: string, key: string): Entry {
    var e := GetEntry(s, locale, key);
    if e.Some? then e.value else EmptyEntry
  }

  /** `map.get('data', iMap())`. */
  function DataOrEmpty(e: Entry): Payload {
    if e.data.Some? then e.data.value else map[]
  }

  /** `setIn` / `updateIn` on one entry, creating the locale map if needed. */
  function PutEntry(s: IntlState, locale: string, key: string, e: Entry): (r: IntlState)
    ensures GetEntry(r, locale, key) == Some(e)
    ensures OnlyEntryChanged(s, r, locale, key)
  {
    var packs := if locale in s.languagePacks then s.languagePacks[locale] else map[];
    s.(languagePacks := s.languagePacks[locale := packs[key := e]])
  }

  /** Everything but the entry at (locale, key) reads the same in both states. */
  ghost predicate OnlyEntryChanged(s: IntlState, r: IntlState, locale: string, key: string) {
    && r.activeLocale == s.activeLocale
    && r.nextLocale == s.nextLocale
    && forall l, k :: (l != locale || k != key) ==> GetEntry(r, l, k) == GetEntry(s, l, k)
  }

  /** Whether the entry was hydrated during server rendering. */
  predicate ServerProtected(s: IntlState, locale: string, key: string) {
    FlagTruthy(EntryOrEmpty(s, locale, key).loadedOnServer)
  }

  // ------------------------------------------------------- initial state

  /** Where `buildInitialState` takes the locale from: the request's
      `acceptsLanguages()` result on the server, `navigator.language` when
      there is no request. */
  datatype LocaleSource =
    | FromRequest(acceptsLanguages: Option<seq<string>>)
    | FromNavigator(language: Option<string>)

  function BuildInitialState(src: LocaleSource): (r: IntlState)
    ensures Truthy(r.activeLocale)
    ensures r.languagePacks == map[] && r.nextLocale.None?
    ensures src.FromRequest? ==>
      var langs := src.acceptsLanguages;
      if langs.Some? && |langs.value| > 0 && langs.value[0] != "" && langs.value[0] != "*"
      then r.activeLocale == Some(langs.value[0])
      else r.activeLocale == Some(DefaultLocale)
    ensures src.FromNavigator? ==>
      r.activeLocale == if Truthy(src.language) then src.language else Some(DefaultLocale)
  {
    var locale :=
      match src
      case FromNavigator(language) =>
        if Truthy(language) then language.value else DefaultLocale
      case FromRequest(langs) =>
        var first: Option<string> := if langs.Some? && |langs.value| > 0 then Some(langs.value[0]) else None;
        if !Truthy(first) || first.value == "*" then DefaultLocale else first.value;
    IntlState(Some(locale), None, map[])
  }

  // ------------------------------------------------------------- reducer

  /** LANGUAGE_PACK_REQUEST: marks the entry loading and clears its error,
      unless the entry was loaded on the server. */
  function RequestPack(s: IntlState, locale: string, key: string): (r: IntlState)
    ensures ServerProtected(s, locale, key) ==> r == s
    ensures !ServerProtected(s, locale, key) ==>
      var old_ := EntryOrEmpty(s, locale, key);
      && GetEntry(r, locale, key).Some?
      && var e := GetEntry(r, locale, key).value;
      && e.isLoading == Some(Flag(true))
      && e.data == Some(DataOrEmpty(old_))
      && e.error.None? && e.errorExpiration.None?
      && e.loadedOnServer == old_.loadedOnServer
      && e.pendingDeferredForceLoad == old_.pendingDeferredForceLoad
      && OnlyEntryChanged(s, r, locale, key)
  {
    var e := EntryOrEmpty(s, locale, key);
    if FlagTruthy(e.loadedOnServer) then s
    else PutEntry(s, locale, key,
      e.(data := Some(DataOrEmpty(e)), isLoading := Some(Flag(true)), error := None, errorExpiration := None))
  }

  /** LANGUAGE_PACK_SUCCESS: stores the data and records whether it was
      loaded on the server, i.e. not in the browser. */
  function SucceedPack(s: IntlState, locale: string, key: string, data: Payload, browser: bool): (r: IntlState)
    ensures GetEntry(r, locale, key).Some?
    ensures var e := GetEntry(r, locale, key).value;
      && e.data == Some(data)
      && e.isLoading == Some(Flag(false))
      && e.loadedOnServer == Some(!browser)
      && e.error.None? && e.errorExpiration.None?
      && e.pendingDeferredForceLoad == EntryOrEmpty(s, locale, key).pendingDeferredForceLoad
    ensures OnlyEntryChanged(s, r, locale, key)
  {
    var e := EntryOrEmpty(s, locale, key);
    PutEntry(s, locale, key,
      e.(data := Some(data), isLoading := Some(Flag(false)), loadedOnServer := Some(!browser),
         error := None, errorExpiration := None))
  }

  /** LANGUAGE_PACK_FAILURE: keeps the data, stores the error and blocks
      queries until `now + ErrorTtl`, unless the entry was loaded on the server. */
  function FailPack(s: IntlState, locale: string, key: string, error: Failure, now: int): (r: IntlState)
    ensures ServerProtected(s, locale, key) ==> r == s
    ensures !ServerProtected(s, locale, key) ==>
      var old_ := EntryOrEmpty(s, locale, key);
      && GetEntry(r, locale, key).Some?
      && var e := GetEntry(r, locale, key).value;
      && e.data == Some(DataOrEmpty(old_))
      && e.isLoading == Some(Flag(false))
      && e.error == Some(error)
      && e.errorExpiration == Some(now + ErrorTtl)
      && e.loadedOnServer == old_.loadedOnServer
      && e.pendingDeferredForceLoad == old_.pendingDeferredForceLoad
      && OnlyEntryChanged(s, r, locale, key)
  {
    var e := EntryOrEmpty(s, locale, key);
    if FlagTruthy(e.loadedOnServer) then s
    else PutEntry(s, locale, key,
      e.(data := Some(DataOrEmpty(e)), isLoading := Some(Flag(false)),
         errorExpiration := Some(now + ErrorTtl), error := Some(error)))
  }

  /** LANGUAGE_PACK_DEFERRED_FORCE_LOAD: sets the pending marker only. */
  function MarkDeferred(s: IntlState, locale: string, key: string): (r: IntlState)
    ensures GetEntry(r, locale, key) == Some(EntryOrEmpty(s, locale, key).(pendingDeferredForceLoad := Some(true)))
    ensures OnlyEntryChanged(s, r, locale, key)
  {
    PutEntry(s, locale, key, EntryOrEmpty(s, locale, key).(pendingDeferredForceLoad := Some(true)))
  }

  /** The reducer; `browser` is `global.BROWSER` and `now` is `Date.now()`. */
  function Reduce(s: IntlState, a: IntlAction, browser: bool, now: int): (r: IntlState)
    ensures a.UpdateLocale? ==> r == s.(activeLocale := a.newLocale)
    ensures !a.UpdateLocale? ==> r.activeLocale == s.activeLocale && r.nextLocale == s.nextLocale
    ensures a.OtherIntlAction? ==> r == s
  {
    match a
    case UpdateLocale(locale) => s.(activeLocale := locale)
    case LanguagePackRequest(locale, key) => RequestPack(s, locale, key)
    case LanguagePackSuccess(locale, key, data) => SucceedPack(s, locale, key, data, browser)
    case LanguagePackFailure(locale, key, error) => FailPack(s, locale, key, error, now)
    case LanguagePackDeferredForceLoad(locale, key) => MarkDeferred(s, locale, key)
    case OtherIntlAction => s
  }

  function ReduceAll(s: IntlState, acts: seq<IntlAction>, browser: bool, now: int): IntlState
    decreases |acts|
  {
    if acts == [] then s else ReduceAll(Reduce(s, acts[0], browser, now), acts[1..], browser, now)
  }

  /** Every entry carries a `data` key, so that `langPackToIguazu` can read it. */
  ghost predicate DataPresent(s: IntlState) {
    forall l, k :: GetEntry(s, l, k).Some? ==> GetEntry(s, l, k).value.data.Some?
  }

  /** All actions keep `data` present on every entry, except a deferred force
      load marker aimed at an entry that does not exist. */
  lemma ReducePreservesDataPresent(s: IntlState, a: IntlAction, browser: bool, now: int)
    requires DataPresent(s)
    requires a.LanguagePackDeferredForceLoad? ==> GetEntry(s, a.locale, a.componentKey).Some?
    ensures DataPresent(Reduce(s, a, browser, now))
  {
    var r := Reduce(s, a, browser, now);
    if !a.UpdateLocale? && !a.OtherIntlAction? {
      var loc, key := a.locale, a.componentKey;
      var before := GetEntry(s, loc, key);
      assert before.Some? ==> before.value.data.Some?;
      assert r == s || OnlyEntryChanged(s, r, loc, key);
      assert GetEntry(r, loc, key).Some? ==> GetEntry(r, loc, key).value.data.Some?;
      forall l, k | GetEntry(r, l, k).Some?
        ensures GetEntry(r, l, k).value.data.Some?
      {
        if l != loc || k != key {
          assert GetEntry(r, l, k) == GetEntry(s, l, k);
        }
      }
    } else {
      assert r.languagePacks == s.languagePacks;
      forall l, k ensures GetEntry(r, l, k) == GetEntry(s, l, k) { }
    }
  }

  // ---------------------------------------------------------- selectors

  /** `isLoaded`: the entry exists, is not loading and has no error. */
  function IsLoaded(s: IntlState, locale: string, key: string): (r: bool)
    ensures r ==> GetEntry(s, locale, key).Some?
    // a loaded entry of the active locale shows as complete and error-free
    ensures r && s.activeLocale == Some(locale)
            && GetEntry(s, locale, key).value.data.Some? && GetEntry(s, locale, key).value.isLoading.Some? ==>
      Iguazu(s, key).Some? && Iguazu(s, key).value.status == Complete && Iguazu(s, key).value.error.None?
  {
    var e := GetEntry(s, locale, key);
    e.Some? && !LoadingTruthy(e.value.isLoading) && e.value.error.None?
  }

  /** SUCCESS makes a pack loaded; REQUEST and FAILURE on a pack not loaded
      on the server make it not loaded. */
  lemma IsLoadedFollowsReducer(s: IntlState, locale: string, key: string,
                               data: Payload, error: Failure, browser: bool, now: int)
    ensures IsLoaded(SucceedPack(s, locale, key, data, browser), locale, key)
    ensures !ServerProtected(s, locale, key) ==>
      !IsLoaded(RequestPack(s, locale, key), locale, key) && !IsLoaded(FailPack(s, locale, key, error, now), locale, key)
  {
  }

  /** The pack actions leave the status of every other pack as it was. */
  lemma IsLoadedFrame(s: IntlState, locale: string, key: string, l: string, k: string,
                      data: Payload, error: Failure, browser: bool, now: int)
    requires l != locale || k != key
    ensures IsLoaded(SucceedPack(s, locale, key, data, browser), l, k) == IsLoaded(s, l, k)
    ensures IsLoaded(RequestPack(s, locale, key), l, k) == IsLoaded(s, l, k)
    ensures IsLoaded(FailPack(s, locale, key, error, now), l, k) == IsLoaded(s, l, k)
  {
    assert GetEntry(SucceedPack(s, locale, key, data, browser), l, k) == GetEntry(s, l, k);
    assert GetEntry(RequestPack(s, locale, key), l, k) == GetEntry(s, l, k);
    assert GetEntry(FailPack(s, locale, key, error, now), l, k) == GetEntry(s, l, k);
  }

  datatype Status = Loading | Complete

  /** The snapshot returned by `langPackToIguazu`. */
  datatype Snapshot = Snapshot(
    locale: Option<string>,
    status: Status,
    data: Payload,
    error: Option<Failure>,
    errorExpiration: Option<int>)

  function LocaleEntry(s: IntlState, locale: Option<string>, key: string): Option<Entry> {
    if locale.Some? then GetEntry(s, locale.value, key) else None
  }

  /** `langPackToIguazu` for the active locale. An absent entry reads as
      `{data: {}}`; an entry without `data` makes `.toJS()` throw, which is
      `None` here. */
  function Iguazu(s: IntlState, key: string): (r: Option<Snapshot>)
    ensures r.None? <==> (var e := LocaleEntry(s, s.activeLocale, key); e.Some? && e.value.data.None?)
    ensures r.Some? ==>
      var e := LocaleEntry(s, s.activeLocale, key);
      && r.value.locale == s.activeLocale
      // 'loading' exactly when the isLoading key is missing or truthy
      && (r.value.status == Loading <==> e.None? || e.value.isLoading.None? || LoadingTruthy(e.value.isLoading))
      && (e.None? ==> r.value.data == map[] && r.value.error.None? && r.value.errorExpiration.None?)
      && (e.Some? ==> Some(r.value.data) == e.value.data && r.value.error == e.value.error
                      && r.value.errorExpiration == e.value.errorExpiration)
  {
    var e := LocaleEntry(s, s.activeLocale, key);
    if e.None? then Some(Snapshot(s.activeLocale, Loading, map[], None, None))
    else if e.value.data.None? then None
    else
      var loading := e.value.isLoading.None? || LoadingTruthy(e.value.isLoading);
      Some(Snapshot(s.activeLocale, if loading then Loading else Complete,
                    e.value.data.value, e.value.error, e.value.errorExpiration))
  }

  /** `getUrl`: `<module base>/<lower-cased locale>/<file>.json`, where the
      file is the configured `localeFilename` or else the component key. */
  function GetUrl(moduleUrl: string, locale: string, key: string, localeFilename: Option<string>): (url: string)
    ensures ModuleUrls.ModuleBaseUrl(moduleUrl) + "/" + Lower(locale) + "/" <= url
    ensures var file := if Truthy(localeFilename) then localeFilename.value else key;
      && |url| == |ModuleUrls.ModuleBaseUrl(moduleUrl)| + |Lower(locale)| + |file| + 7
      && url[|url| - |file| - 5..] == file + ".json"
  {
    var file := if Truthy(localeFilename) then localeFilename.value else key;
    ModuleUrls.ModuleBaseUrl(moduleUrl) + "/" + Lower(locale) + ("/" + file + ".json")
  }

  /** Two locales share a language-pack URL exactly when they agree up to
      letter case. */
  lemma UrlIdentifiesLocale(moduleUrl: string, l1: string, l2: string, key: string, localeFilename: Option<string>)
    ensures GetUrl(moduleUrl, l1, key, localeFilename) == GetUrl(moduleUrl, l2, key, localeFilename)
            <==> Lower(l1) == Lower(l2)
  {
    var base := ModuleUrls.ModuleBaseUrl(moduleUrl) + "/";
    var file := if Truthy(localeFilename) then localeFilename.value else key;
    var tail := "/" + file + ".json";
    assert GetUrl(moduleUrl, l1, key, localeFilename) == base + Lower(l1) + tail;
    assert GetUrl(moduleUrl, l2, key, localeFilename) == base + Lower(l2) + tail;
    if base + Lower(l1) + tail == base + Lower(l2) + tail {
      MiddleDetermined(base, Lower(l1), Lower(l2), tail);
    }
  }

  /** Between a fixed head and tail, equal-length middles are equal. */
  lemma MiddleDetermined(head: string, x: string, y: string, tail: string)
    requires |x| == |y| && head + x + tail == head + y + tail
    ensures x == y
  {
    var n := |head|;
    assert (head + x + tail)[n..n + |x|] == x;
    assert (head + y + tail)[n..n + |y|] == y;
  }
}
