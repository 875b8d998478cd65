# one-app-ducks, modelled in Dafny

This project models the state "ducks" of one-app-ducks. A duck is a reducer
together with its action creators and thunks. The largest part is the
locale and language-pack subsystem:

- the `intl` reducer, which tracks each (locale, component key) language
  pack as absent, loading, loaded or failed;
- the choice of the initial locale;
- the language-pack URL;
- the `langPackToIguazu` status snapshot;
- the longest-prefix lookup of locale bundles;
- the three thunks `loadLanguagePack`, `fetchLanguagePack` and
  `queryLanguagePack`, written as pure decision functions;
- the server-side language-pack cache, which is a class over a map whose
  `Cleanup` method is a loop.

Beside it sit smaller reducers, each with proved properties:

- the error-report queue, whose conservation of reports and retry-wait
  bounds are proved;
- redirection, where the first destination wins;
- the rendering flags;
- the browser origin and user-agent state;
- `getModuleBaseUrl`.

Some things the source reads from its surroundings are parameters here:

- `global.BROWSER`, as a `browser` flag;
- `Date.now()`, as `now`;
- `Math.random()`, as a real number `random` in [0, 1);
- the fetch client, as a function from URL to reply;
- the module's bundle URL;
- the server cache's content when a fetch starts.

A thunk's promise is replaced by what it decides:

- the actions it dispatches at once;
- the URLs it fetches;
- the value the promise settles to;
- the action that settlement dispatches.

JavaScript `undefined` and `null` are `None`. A string is truthy when it is
defined and not empty (`Wrappers.Truthy`). Action creators that only build
an object literal are the constructors of the action datatypes.

`loadLanguagePack` takes only `locale`, `force` and `fallbackLocale`
(src/intl/index.js:278-282). A server cache entry is `{data, lastAccess}`
(src/intl/server-cache.js:23-26).

Modules:

- `Wrappers`: `Option`, `Result` and JavaScript truthiness of strings.
- `Text`: ASCII lower-casing, and splitting and joining on one character.
- `ModuleUrls`: `getModuleBaseUrl`.
- `Intl`: the `intl` state, the reducer and the pure helpers.
- `IntlLoad`: the loader thunks as decision functions.
- `LocalePacks`: `getLocalePack` and `updateLocale`.
- `ServerCache`: the server language-pack cache.
- `ErrorReporting`, `Redirection`, `Rendering` and `Browser`: the smaller ducks.

## Model

| member | source | states |
|---|---|---|
| Text.Lower | src/intl/index.js:154 | each character is lower-cased in place and the length is kept |
| Text.Split | src/intl/index.js:375 | there is at least one part, and no part contains the separator |
| Text.JoinSplit | src/intl/index.js:375-379 | joining the parts of a split gives back the original string, so the loop's first key is the whole locale |
| ModuleUrls.ModuleBaseUrl | src/utils/modules.js:18-22 | the result is a prefix of the URL. A final script-name segment (at least one character, then `.js` in any case) goes together with the slash before it. Otherwise exactly one trailing slash goes. A URL with neither is returned unchanged |
| ModuleUrls.BundleUrlGivesDirectory | src/utils/modules.js:19-21 | for `dir/file.js` with a slash-free file name, the base URL is `dir` |
| ModuleUrls.DirectoryUrlLosesSlash | src/utils/modules.js:20 | for `dir/`, the base URL is `dir` |
| Intl.BuildInitialState | src/intl/index.js:33-50 | the active locale is never empty. With a request it is the first accepted language, or `en-US` when that is missing, empty or `*`. Without a request it is `navigator.language`, or `en-US` when that is falsy |
| Intl.RequestPack | src/intl/index.js:58-69 | an entry loaded on the server leaves the state unchanged. Otherwise the entry is loading with `isLoading` true, its data is kept (empty if absent), its error and expiry are removed, and nothing else changes |
| Intl.SucceedPack | src/intl/index.js:71-80 | the data is stored, `isLoading` is false, `_loadedOnServer` is exactly "not in the browser", error and expiry are removed, and nothing else changes |
| Intl.FailPack | src/intl/index.js:82-93 | an entry loaded on the server leaves the state unchanged. Otherwise the data is kept, `isLoading` is false, the error is stored, the expiry is `now + 10000`, and nothing else changes |
| Intl.MarkDeferred | src/intl/index.js:95-98 | only the entry's deferred-force-load marker is set |
| Intl.Reduce | src/intl/index.js:52-103 | UPDATE_LOCALE sets only the active locale. Pack actions never touch the active or next locale. Other actions change nothing |
| Intl.ReducePreservesDataPresent | src/intl/index.js:58-98 | every action keeps a `data` key on every entry, except a deferred marker aimed at a missing entry |
| Intl.Iguazu | src/intl/index.js:132-145 | the snapshot throws exactly when the active entry exists without `data`. The status is loading exactly when the entry or its `isLoading` key is missing, or `isLoading` is truthy. Data, error and expiry are those of the entry, or empty for a missing entry |
| Intl.IsLoaded | src/intl/index.js:120-125 | a loaded pack exists. A loaded pack of the active locale that carries `data` and an `isLoading` key shows as complete and error-free in the snapshot |
| Intl.IsLoadedFollowsReducer | src/intl/index.js:58-93 | SUCCESS makes a pack loaded. REQUEST and FAILURE on a pack not loaded on the server make it not loaded |
| Intl.IsLoadedFrame | src/intl/index.js:58-93 | SUCCESS, REQUEST and FAILURE for one pack leave the loaded status of every other pack unchanged |
| Intl.GetUrl | src/intl/index.js:147-157 | the URL starts with the module base URL, a slash, the lower-cased locale and a slash, and ends with the `localeFilename` (or else the component key) followed by `.json`. Its length is exactly that of these parts, so nothing else lies between them |
| Intl.UrlIdentifiesLocale | src/intl/index.js:147-157 | two locales get the same language-pack URL exactly when they agree after lower-casing |
| IntlLoad.ResolveLocale | src/intl/index.js:285-291 | the locale is the given one, else `nextLocale`, else `activeLocale`, taking the first truthy one. There is none exactly when all three are falsy |
| IntlLoad.DecideLoad | src/intl/index.js:284-322 | with no locale it rejects with the no-locale message. Without `force`: a truthy `isLoading` is returned as is, and a loaded entry is served from the state, scheduling a deferred reload exactly when in the browser, loaded on the server and not already pending. Every other case, and every forced load, fetches the pack's URL |
| IntlLoad.SyncActions | src/intl/index.js:226-329 | a fetch dispatches exactly one REQUEST. A scheduled deferred reload dispatches exactly one marker. Otherwise nothing is dispatched |
| IntlLoad.ClassifyReply | src/intl/index.js:178-223 | an ok reply gives its data. A thrown error passes through unchanged. A 404 retries exactly when a different, truthy fallback locale is given and this is not a retry; otherwise it resolves empty. Any other failure rejects with "statusText (url)" carrying the response |
| IntlLoad.Settle | src/intl/index.js:180-222 | an ok reply resolves to its body, a 404 without retry resolves to `{}`, and a failure rejects with its error |
| IntlLoad.FetchLanguagePack | src/intl/index.js:159-224 | on the server a cached URL resolves to the cached data with no fetch and no write. Otherwise the URL is fetched. A reply that asks for no retry settles the run: an ok body resolves, a 404 resolves to `{}`, other failures reject with "statusText (url)", and a thrown error passes through. A retryable 404 fetches the fallback locale's URL (unless it is cached on the server) and settles to that reply's outcome, with no further retry. There are at most two fetches, and at most one without a fallback locale. Two fetches happen only after a 404 with a different fallback. The browser never reads or writes the cache. A fetched run that does not retry, or whose fallback URL is not cached, reads nothing from the cache. On the server, an ok reply to the last URL fetched is written to the cache under that URL with its body, and nothing else is written |
| IntlLoad.FetchAndSettle | src/intl/index.js:178-223 | for a URL not served from the server cache: exactly one or two URLs are fetched, the first being the URL itself. A reply that asks for no retry settles to its outcome and reads no cache entry. A retryable 404 goes on to the fallback locale's URL. On the server the only write is an ok reply to the last URL fetched, under that URL; the browser writes nothing |
| IntlLoad.SettleAction | src/intl/index.js:332-345 | a resolved fetch dispatches SUCCESS with the data, and a rejected fetch dispatches FAILURE with the error |
| IntlLoad.LoadLanguagePack | src/intl/index.js:276-349 | a rejection or a returned loading handle dispatches nothing. Serving from the state dispatches only the deferred marker, and only when the reload is scheduled. A fetch dispatches exactly one REQUEST, runs `fetchLanguagePack` on the pack's URL with the fallback locale and no retry, and then dispatches SUCCESS or FAILURE for its outcome. Without a fetch the state after settling is the state after the thunk |
| IntlLoad.ConcurrentLoadsCoalesce | src/intl/index.js:293-297 | on an entry not loaded on the server, after one load has dispatched its REQUEST, a second unforced load of the same pack fetches nothing. It returns the stored `true`, not the first promise |
| IntlLoad.LoadedPackServedFromState | src/intl/index.js:300-309 | after a fetched pack has loaded, the next unforced load is served from the state and dispatches nothing |
| IntlLoad.FailedLoadFetchesAgain | src/intl/index.js:300-322 | on an entry not loaded on the server, after a failed fetch the next load fetches the same URL again |
| IntlLoad.DeferredReloadScheduledOnce | src/intl/index.js:250-274 | the marker dispatched when a deferred reload is scheduled stops the next load from scheduling another |
| IntlLoad.MissingFallbackResolvesEmpty | src/intl/index.js:200-217 | in the browser, or on the server with neither URL cached, when both the locale and its fallback answer 404 there are exactly two fetches and the result is empty data |
| IntlLoad.DispatchKeepsSnapshot | src/intl/index.js:363-370 | the actions a query's load dispatches never make the second snapshot throw |
| IntlLoad.Expired | src/intl/index.js:355 | an absent expiry never expires. A present one has expired exactly when now is past it |
| IntlLoad.QueryLanguagePack | src/intl/index.js:351-372 | the query throws exactly when the snapshot does. An unexpired error (an absent expiry never expires) returns the snapshot with that error and dispatches nothing. Otherwise it runs the load for the active locale and returns the snapshot of the resulting state |
| IntlLoad.RecentFailureShortCircuits | src/intl/index.js:354-361 | on an entry not loaded on the server, within ten seconds of a failure a query returns the stored error with status complete |
| IntlLoad.ExpiredFailureReloads | src/intl/index.js:354-370 | on an entry not loaded on the server, once the error has expired a query fetches again and reports loading |
| LocalePacks.GetLocalePack | src/intl/index.js:374-388 | the loop's result equals the longest-prefix lookup: the bundle of the longest subtag prefix in the table, or "No locale bundle available for" the locale |
| LocalePacks.BestBundleIsLongestPrefix | src/intl/index.js:375-381 | the chosen bundle belongs to a prefix in the table that no longer prefix beats. Nothing is found exactly when no prefix is in the table |
| LocalePacks.ExactBundlePreferred | src/intl/index.js:378-379 | a locale that names a bundle itself gets that bundle |
| LocalePacks.RegionFallsBackToLanguage | src/intl/index.js:378-381 | `lang-REGION` without its own bundle gets the bundle of `lang` |
| LocalePacks.UpdateLocale | src/intl/index.js:390-405 | a falsy locale rejects with "No locale was given". Otherwise UPDATE_LOCALE is dispatched exactly when the bundle lookup succeeds, and the lookup's error is passed on otherwise |
| ServerCache.Stored | src/intl/server-cache.js:19-27 | in development nothing changes. Otherwise the URL maps to the new data and time, replacing any old entry, and other URLs are unaffected |
| ServerCache.Lookup | src/intl/server-cache.js:29-35 | the stored data is returned when the URL is present, and nothing otherwise |
| ServerCache.Touched | src/intl/server-cache.js:29-35 | a read moves only that entry's last-access time to now. A missing URL leaves the map unchanged |
| ServerCache.Swept | src/intl/server-cache.js:43-48 | exactly the entries last touched after `now - 600000` remain, each unchanged |
| ServerCache.LangPackCache.constructor | src/intl/server-cache.js:15-19 | the cache starts empty, with the development flag given |
| ServerCache.LangPackCache.Set | src/intl/server-cache.js:22-27 | the new map is `Stored` of the old one |
| ServerCache.LangPackCache.Get | src/intl/server-cache.js:29-36 | it returns `Lookup` of the old map and leaves `Touched` of it |
| ServerCache.LangPackCache.Cleanup | src/intl/server-cache.js:43-48 | the deletion loop leaves exactly `Swept` of the old map |
| ServerCache.ReadAfterWrite | src/intl/server-cache.js:22-36 | after a write, a read returns the data written and restarts the entry's idle clock |
| ServerCache.ReadIgnoresAge | src/intl/server-cache.js:29-36 | a read never checks age |
| ServerCache.SweepAfterRead | src/intl/server-cache.js:34-47 | a sweep within ten minutes of the last read keeps the entry, and a later sweep drops it |
| ErrorReporting.FormatErrorReport | src/errorReporting.js:39-47 | message and stack come only from an error, `href` is present exactly in the browser, and the extra data is passed through |
| ErrorReporting.Reduce | src/errorReporting.js:49-93 | an ADD with neither an error nor data changes nothing. Otherwise ADD appends exactly one formatted report. REQUEST moves the queue to pending. SUCCESS empties pending and resets the wait to 500. FAILURE puts pending back after the queue. SCHEDULE stores the promise and the capped wait. Others change nothing |
| ErrorReporting.NextRetryWait | src/errorReporting.js:87 | the new wait never exceeds 10000 |
| ErrorReporting.ToInt32 | src/errorReporting.js:87 | `| 0` yields a signed 32-bit value, and equals the floor for non-negative values below 2^31 |
| ErrorReporting.FailureConserves | src/errorReporting.js:76-80 | a failed send keeps the number of reports and the multiset of outstanding reports |
| ErrorReporting.RequestThenFailureRestores | src/errorReporting.js:64-80 | with nothing pending, REQUEST then FAILURE restores the queue |
| ErrorReporting.RequestReplacesPending | src/errorReporting.js:64-68 | after REQUEST, the outstanding reports are exactly the old queue, so earlier pending reports are dropped |
| ErrorReporting.FailureRequeuesBehindNewReports | src/errorReporting.js:59-80 | a report added while a send is in flight comes before the returned reports |
| ErrorReporting.ScaleBounds | src/errorReporting.js:87 | for waits between 500 and 10000, the jittered product lies between wait + 125 and 2^31 |
| ErrorReporting.RetryWaitGrows | src/errorReporting.js:82-88 | below the cap every SCHEDULE strictly lengthens the wait, and at the cap the wait stays 10000 |
| ErrorReporting.RetryWaitStaysInRange | src/errorReporting.js:29-30 | along any run of actions and random draws, a wait between 500 and 10000 stays in that range |
| ErrorReporting.DefaultRunsStayInRange | src/errorReporting.js:29-37 | from the default state (wait 500), every run of actions keeps the wait between 500 and 10000 |
| Redirection.Reduce | src/redirection.js:27-38 | a server redirect sets the destination only when the current one is falsy. A client redirect sets only the in-flight flag. Other actions change nothing |
| Redirection.DestinationSticks | src/redirection.js:29-32 | once a destination is set, no run of actions changes it, and in-flight stays set |
| Redirection.ClientRedirectsKeepDestination | src/redirection.js:33-34 | runs without server redirects never change the destination |
| Redirection.ExternalRedirect | src/redirection.js:40-56 | a non-string gives NOOP. The browser gives CLIENT_SIDE_REDIRECT, with the address handed to `location.assign`. The server gives SERVER_SIDE_REDIRECT with the destination |
| Redirection.FirstServerRedirectWins | src/redirection.js:29-56 | on the server the first non-empty redirect's destination survives all later redirects |
| Rendering.SetRenderTextOnly | src/rendering.js:66-70 | `htmlTagReplacement` defaults to "" and `allowedHtmlTags` to an empty list, and the caller's keys override them |
| Rendering.Reduce | src/rendering.js:31-49 | the scripts flag, the scripts-and-styles pair (set to one value), the partial flag, and the text-only flag with its options each change only those fields. Others change nothing |
| Rendering.ReduceIdempotent | src/rendering.js:31-49 | applying an action twice equals applying it once |
| Rendering.ScriptsAndPartialCommute | src/rendering.js:33-40 | the scripts and partial-only updates commute |
| Rendering.TextOnlyWithoutOptionsResets | src/rendering.js:41-45 | a text-only render requested without options restores the default options |
| Browser.RequestHost | src/browser.js:44 | the forwarded host when it is truthy, else the `host` header |
| Browser.RequestProtocol | src/browser.js:45 | the forwarded protocol when it is truthy, else `req.protocol` |
| Browser.BuildInitialState | src/browser.js:23-58 | with neither browser nor request, everything is null. In the browser the cookies, user agent and location come from the window, and the origin is composed when falsy. On the server the origin is protocol + "://" + host, and the protocol gets a trailing colon |
| Browser.ComposedOriginMatchesLocation | src/browser.js:35-50 | a composed origin is always the location's protocol, "//" and the host |
| Browser.Reduce | src/browser.js:62-73 | SET_ORIGIN changes only `location.origin`, SET_USER_AGENT changes only `userAgent`, and other actions change nothing |
| Browser.OriginAndUserAgentCommute | src/browser.js:64-68 | the two updates commute |

## Left out

- Promise plumbing and the order in which asynchronous dispatches interleave. `IntlLoad.LoadLanguagePack` applies the settlement action directly after the thunk's own dispatches.
- The idle-callback and timer scheduling of the deferred forced reload. The model decides whether the reload is scheduled and dispatches its marker. The later forced reload is an ordinary `LoadLanguagePack` call with `force` set.
- IntlLoad.DecideLoad: the deferred-reload check reads `_loadedOnServer` and `_pendingDeferredForceLoad` as the entry's fields. The source reads them as plain properties (src/intl/index.js:261). Entries built by the reducer are Immutable maps (src/intl/index.js:63, 73, 97), and on those such properties are always undefined. So in the source only entries stored as plain objects ever schedule the reload. The model does not capture this difference.
- ErrorReporting.NextRetryWait: the product `retryWait * (1.25 + random / 3)` is computed in exact reals rather than IEEE doubles. Rounding near an integer can make `| 0` differ by one from the source's result.
- Console logging. The `lastFetched` field of the SUCCESS action, which no reducer reads.
- Response parsing: `response.json()` is taken as already parsed into a `Payload`, so a parse failure is not modelled.
- `IntlLoad.FetchLanguagePack`: the `retry` argument is passed along as given. The thunk only ever passes `false`.
- The holocron module-map lookup. The module's bundle URL is an input, so an unknown module, which would throw, is not modelled.
- Text.Lower: only ASCII letters are lower-cased. Other letters that `toLowerCase` would change are kept.
- The locale bundle loaders and their promises. The bundle table maps names to opaque ids. Keys inherited through an object prototype are not modelled.
- The `setInterval`/`unref` timer that runs the cache sweep. The sweep is the explicit `Cleanup(now)` method.
- The error-report send path (`thenSendErrorReport`, `sendErrorReport`, `addErrorToReport`, `serverSideError`). It is network calls, timers and retry promises. The `payload` string of SEND_ERROR_REPORT_REQUEST is not kept, because the reducer ignores it.
- `window.location.assign`. `ExternalRedirect` returns the address it would be called with.
- js-cookie's `Cookies.get` and the `getCookies` selector. The browser's cookie jar is part of the window description.
- Rendering.SetRenderTextOnly: a key passed explicitly as `undefined`, which would override the default, is treated like an absent key.
- Values of unexpected JavaScript types in actions, for example a non-boolean flag or a non-string locale. Each action field has its intended type. A language pack's payload is a map from strings to strings.
