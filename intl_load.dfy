/** The language-pack thunks `loadLanguagePack`, `fetchLanguagePack` and
    `queryLanguagePack`, as pure decision functions over the store's `intl`
    state. Instead of promises they return what the thunk decides: which
    actions it dispatches at once, which URLs it fetches, what the promise
    settles to, and which action the settlement dispatches. */
module IntlLoad {
  import opened Wrappers
  import opened Intl
  import ServerCache

  const NoLocaleMessage: string := "Failed to load language pack. No locale was set or given"

  /** The options object of `loadLanguagePack`. */
  datatype LoadOptions = LoadOptions(locale: Option<string>, force: bool, fallbackLocale: Option<string>)

  /** What the thunks read besides the `intl` state: `global.BROWSER`, the
      component's bundle URL from the module map, and `config.localeFilename`. */
  datatype LoadEnv = LoadEnv(browser: bool, moduleUrl: string, localeFilename: Option<string>)

  function PackUrl(env: LoadEnv, locale: string, key: string): string {
    GetUrl(env.moduleUrl, locale, key, env.localeFilename)
  }

  /** The given locale, else the pending next locale, else the active one. */
  function ResolveLocale(given: Option<string>, s: IntlState): (r: Option<string>)
    ensures r.Some? ==> r.value != ""
    ensures r.None? <==> !Truthy(given) && !Truthy(s.nextLocale) && !Truthy(s.activeLocale)
    ensures Truthy(given) ==> r == given
    ensures !Truthy(given) && Truthy(s.nextLocale) ==> r == s.nextLocale
    ensures !Truthy(given) && !Truthy(s.nextLocale) && Truthy(s.activeLocale) ==> r == s.activeLocale
  {
    if Truthy(given) then given
    else if Truthy(s.nextLocale) then s.nextLocale
    else if Truthy(s.activeLocale) then s.activeLocale
    else None
  }

  datatype LoadDecision =
    | RejectLoad(message: string)
      // returns whatever `isLoading` holds, without dispatching
    | ReturnExisting(handle: Loading)
      // resolves to the stored entry; may schedule one deferred reload
    | ReturnFromState(locale: string, entry: Entry, scheduleDeferred: bool)
    | StartFetch(locale: string, url: string)

  /** The decision `loadLanguagePack` takes before anything is dispatched. */
  function DecideLoad(s: IntlState, key: string, opts: LoadOptions, env: LoadEnv): (d: LoadDecision)
    ensures d.RejectLoad? <==> ResolveLocale(opts.locale, s).None?
    ensures d.RejectLoad? ==> d.message == NoLocaleMessage
    ensures ResolveLocale(opts.locale, s).Some? ==>
      var locale := ResolveLocale(opts.locale, s).value;
      var e := EntryOrEmpty(s, locale, key);
      && (d.ReturnExisting? <==> !opts.force && LoadingTruthy(e.isLoading))
      && (d.ReturnExisting? ==> e.isLoading == Some(d.handle))
      && (d.ReturnFromState? <==> !opts.force && IsLoaded(s, locale, key))
      && (d.ReturnFromState? ==>
            && d.locale == locale && GetEntry(s, locale, key) == Some(d.entry)
            && (d.scheduleDeferred <==> env.browser && FlagTruthy(e.loadedOnServer)
                                        && !FlagTruthy(e.pendingDeferredForceLoad)))
      && (d.StartFetch? ==> d.locale == locale && d.url == PackUrl(env, locale, key))
      && (opts.force ==> d.StartFetch?)
  {
    var resolved := ResolveLocale(opts.locale, s);
    if resolved.None? then RejectLoad(NoLocaleMessage)
    else
      var locale := resolved.value;
      var existing := EntryOrEmpty(s, locale, key).isLoading;
      if LoadingTruthy(existing) && !opts.force then ReturnExisting(existing.value)
      else if IsLoaded(s, locale, key) && !opts.force then
        var e := GetEntry(s, locale, key).value;
        ReturnFromState(locale, e,
          env.browser && FlagTruthy(e.loadedOnServer) && !FlagTruthy(e.pendingDeferredForceLoad))
      else StartFetch(locale, PackUrl(env, locale, key))
  }

  /** The actions dispatched before the thunk returns: one REQUEST when
      fetching, one deferred-force-load marker when scheduling a reload. */
  function SyncActions(d: LoadDecision, key: string): (acts: seq<IntlAction>)
    ensures |acts| <= 1
    ensures d.StartFetch? ==> acts == [LanguagePackRequest(d.locale, key)]
    ensures d.ReturnFromState? ==>
      (d.scheduleDeferred <==> acts == [LanguagePackDeferredForceLoad(d.locale, key)])
    ensures d.ReturnFromState? && !d.scheduleDeferred ==> acts == []
    ensures d.RejectLoad? || d.ReturnExisting? ==> acts == []
  {
    match d
    case StartFetch(locale, _) => [LanguagePackRequest(locale, key)]
    case ReturnFromState(locale, _, schedule) =>
      if schedule then [LanguagePackDeferredForceLoad(locale, key)] else []
    case _ => []
  }

  // ------------------------------------------------------------- fetching

  /** How the fetch client's promise settles. */
  datatype Reply = Replied(response: Response) | Thrown(error: Failure)

  /** How the fetch promise settles. */
  datatype Settled = Resolved(data: Payload) | Rejected(error: Failure)

  /** The classification of one fetch client reply. */
  datatype FetchStep = Data(payload: Payload) | Retry(fallbackLocale: string) | Empty | Fail(error: Failure)

  function ClassifyReply(reply: Reply, locale: string, fallbackLocale: Option<string>, retry: bool): (step: FetchStep)
    ensures reply.Thrown? ==> step == Fail(reply.error)
    ensures reply.Replied? && reply.response.ok ==> step == Data(reply.response.body)
    ensures step.Retry? <==>
      && reply.Replied? && !reply.response.ok && reply.response.status == 404
      && Truthy(fallbackLocale) && fallbackLocale.value != locale && !retry
    ensures step.Retry? ==> Some(step.fallbackLocale) == fallbackLocale
    ensures step.Empty? <==>
      && reply.Replied? && !reply.response.ok && reply.response.status == 404
      && !(Truthy(fallbackLocale) && fallbackLocale.value != locale && !retry)
    ensures reply.Replied? && !reply.response.ok && reply.response.status != 404 ==>
      step == Fail(Failure(reply.response.statusText + " (" + reply.response.url + ")", Some(reply.response)))
  {
    match reply
    case Thrown(error) => Fail(error)
    case Replied(response) =>
      if response.ok then Data(response.body)
      else if response.status == 404 && Truthy(fallbackLocale) && fallbackLocale.value != locale && !retry
      then Retry(fallbackLocale.value)
      else if response.status == 404 then Empty
      else Fail(Failure(response.statusText + " (" + response.url + ")", Some(response)))
  }

  /** One run of `fetchLanguagePack`: how it settles, the URLs handed to the
      fetch client, the URLs served from the server cache (each of which also
      restarts that entry's idle clock) and the writes to the server cache. */
  datatype FetchRun = FetchRun(
    settled: Settled,
    fetched: seq<string>,
    cacheHits: seq<string>,
    cacheWrites: seq<(string, Payload)>)

  /** How a reply that asks for no retry settles the fetch promise. */
  function Settle(step: FetchStep): (r: Settled)
    requires !step.Retry?
    ensures step.Data? ==> r == Resolved(step.payload)
    ensures step.Empty? ==> r == Resolved(map[])
    ensures step.Fail? ==> r == Rejected(step.error)
  {
    match step
    case Data(payload) => Resolved(payload)
    case Empty => Resolved(map[])
    case Fail(error) => Rejected(error)
  }

  /** What the server stores after a run that fetched `fetched`: the body of
      an ok reply to the last URL fetched, under that URL, and nothing else. */
  function OkReplyWrite(fetched: seq<string>, client: string -> Reply): seq<(string, Payload)> {
    if fetched == [] then []
    else
      var last := fetched[|fetched| - 1];
      if client(last).Replied? && client(last).response.ok then [(last, client(last).response.body)] else []
  }

  /** `fetchLanguagePack`. `cache` is the server cache's content when the run
      starts and `client` the fetch client's reply for each URL. The retry
      for the fallback locale passes no fallback locale on. */
  function FetchLanguagePack(url: string, locale: string, fallbackLocale: Option<string>, retry: bool,
                             key: string, env: LoadEnv, cache: ServerCache.CacheMap,
                             client: string -> Reply): (r: FetchRun)
    ensures fallbackLocale.None? ==> |r.fetched| <= 1
    ensures |r.fetched| <= 2
    ensures |r.fetched| > 0 ==> r.fetched[0] == url
    ensures |r.fetched| == 2 ==>
      && client(url).Replied? && client(url).response.status == 404
      && Truthy(fallbackLocale) && fallbackLocale.value != locale
      && r.fetched[1] == PackUrl(env, fallbackLocale.value, key)
    ensures r.fetched == [] <==> !env.browser && url in cache
    ensures r.fetched == [] ==>
      r.settled == Resolved(cache[url].data) && r.cacheHits == [url] && r.cacheWrites == []
    // a fetched reply that asks for no retry settles the run
    ensures env.browser || url !in cache ==>
      var step := ClassifyReply(client(url), locale, fallbackLocale, retry);
      !step.Retry? ==> r.fetched == [url] && r.settled == Settle(step)
    // a retryable 404 hands the run over to the fallback locale's URL
    ensures env.browser || url !in cache ==>
      var step := ClassifyReply(client(url), locale, fallbackLocale, retry);
      step.Retry? ==>
        var fallbackUrl := PackUrl(env, step.fallbackLocale, key);
        && (env.browser || fallbackUrl !in cache ==>
              && r.fetched == [url, fallbackUrl] && r.cacheHits == []
              && r.settled == Settle(ClassifyReply(client(fallbackUrl), step.fallbackLocale, None, retry)))
        && (!env.browser && fallbackUrl in cache ==>
              && r.fetched == [url] && r.cacheHits == [fallbackUrl]
              && r.settled == Resolved(cache[fallbackUrl].data))
    ensures env.browser ==> r.cacheHits == [] && r.cacheWrites == []
    // a fetched run that does not retry reads nothing from the server cache
    ensures (env.browser || url !in cache) && !ClassifyReply(client(url), locale, fallbackLocale, retry).Retry? ==>
      r.cacheHits == []
    // on the server, an ok reply to the last URL fetched is stored under that URL
    ensures !env.browser ==> r.cacheWrites == OkReplyWrite(r.fetched, client)
    // only ok responses are written to the server cache
    ensures |r.cacheWrites| <= 1
    ensures forall i :: 0 <= i < |r.cacheWrites| ==>
      && client(r.cacheWrites[i].0).Replied?
      && client(r.cacheWrites[i].0).response.ok
      && client(r.cacheWrites[i].0).response.body == r.cacheWrites[i].1
    decreases if fallbackLocale.Some? then 1 else 0, 1
  {
    if !env.browser && url in cache then
      FetchRun(Resolved(cache[url].data), [], [url], [])
    else
      FetchAndSettle(url, locale, fallbackLocale, retry, key, env, cache, client)
  }

  /** The network half of `fetchLanguagePack`: fetch `url`, then settle on
      the reply, storing an ok body on the server or retrying a 404 with the
      fallback locale. */
  function FetchAndSettle(url: string, locale: string, fallbackLocale: Option<string>, retry: bool,
                          key: string, env: LoadEnv, cache: ServerCache.CacheMap,
                          client: string -> Reply): (r: FetchRun)
    requires env.browser || url !in cache
    ensures fallbackLocale.None? ==> |r.fetched| == 1
    ensures 1 <= |r.fetched| <= 2 && r.fetched[0] == url
    ensures |r.fetched| == 2 ==>
      && client(url).Replied? && client(url).response.status == 404
      && Truthy(fallbackLocale) && fallbackLocale.value != locale
      && r.fetched[1] == PackUrl(env, fallbackLocale.value, key)
    ensures var step := ClassifyReply(client(url), locale, fallbackLocale, retry);
      !step.Retry? ==> r.fetched == [url] && r.settled == Settle(step) && r.cacheHits == []
    ensures var step := ClassifyReply(client(url), locale, fallbackLocale, retry);
      step.Retry? ==>
        var fallbackUrl := PackUrl(env, step.fallbackLocale, key);
        && (env.browser || fallbackUrl !in cache ==>
              && r.fetched == [url, fallbackUrl] && r.cacheHits == []
              && r.settled == Settle(ClassifyReply(client(fallbackUrl), step.fallbackLocale, None, retry)))
        && (!env.browser && fallbackUrl in cache ==>
              && r.fetched == [url] && r.cacheHits == [fallbackUrl]
              && r.settled == Resolved(cache[fallbackUrl].data))
    ensures env.browser ==> r.cacheHits == [] && r.cacheWrites == []
    ensures !env.browser ==> r.cacheWrites == OkReplyWrite(r.fetched, client)
    decreases if fallbackLocale.Some? then 1 else 0, 0
  {
    match ClassifyReply(client(url), locale, fallbackLocale, retry)
    case Data(payload) =>
      FetchRun(Resolved(payload), [url], [], if env.browser then [] else [(url, payload)])
    case Retry(fallback) =>
      var inner := FetchLanguagePack(PackUrl(env, fallback, key), fallback, None, retry, key, env, cache, client);
      inner.(fetched := [url] + inner.fetched)
    case Empty => FetchRun(Resolved(map[]), [url], [], [])
    case Fail(error) => FetchRun(Rejected(error), [url], [], [])
  }

  /** The action dispatched when the fetch promise settles. */
  function SettleAction(locale: string, key: string, settled: Settled): (a: IntlAction)
    ensures settled.Resolved? ==> a == LanguagePackSuccess(locale, key, settled.data)
    ensures settled.Rejected? ==> a == LanguagePackFailure(locale, key, settled.error)
  {
    match settled
    case Resolved(data) => LanguagePackSuccess(locale, key, data)
    case Rejected(error) => LanguagePackFailure(locale, key, error)
  }

  /** A whole `loadLanguagePack` call: its decision, the state once the
      thunk has returned, the fetch run if one was started, and the state
      once the fetch promise has settled (at time `settledAt`). */
  datatype LoadRun = LoadRun(decision: LoadDecision, dispatched: IntlState, fetch: Option<FetchRun>, settledState: IntlState)

  function LoadLanguagePack(s: IntlState, key: string, opts: LoadOptions, env: LoadEnv,
                            cache: ServerCache.CacheMap, client: string -> Reply, settledAt: int): (r: LoadRun)
    ensures r.decision == DecideLoad(s, key, opts, env)
    ensures r.fetch.Some? <==> r.decision.StartFetch?
    ensures !r.decision.StartFetch? ==> r.settledState == r.dispatched
    ensures r.decision.RejectLoad? || r.decision.ReturnExisting? ==> r.dispatched == s
    ensures r.decision.ReturnFromState? ==>
      r.dispatched == if r.decision.scheduleDeferred then MarkDeferred(s, r.decision.locale, key) else s
    // a fetch dispatches its one REQUEST, runs the fetch, then dispatches the settlement
    ensures r.decision.StartFetch? ==>
      && r.dispatched == RequestPack(s, r.decision.locale, key)
      && r.fetch.value == FetchLanguagePack(r.decision.url, r.decision.locale, opts.fallbackLocale, false,
                                            key, env, cache, client)
      && r.settledState == Reduce(r.dispatched, SettleAction(r.decision.locale, key, r.fetch.value.settled),
                                  env.browser, settledAt)
  {
    var d := DecideLoad(s, key, opts, env);
    var acts := SyncActions(d, key);
    var s1 := ReduceAll(s, acts, env.browser, settledAt);
    ReduceShort(s, acts, env.browser, settledAt);
    if d.StartFetch? then
      var run := FetchLanguagePack(d.url, d.locale, opts.fallbackLocale, false, key, env, cache, client);
      LoadRun(d, s1, Some(run), Reduce(s1, SettleAction(d.locale, key, run.settled), env.browser, settledAt))
    else LoadRun(d, s1, None, s1)
  }

  lemma ReduceOne(s: IntlState, a: IntlAction, browser: bool, now: int)
    ensures ReduceAll(s, [a], browser, now) == Reduce(s, a, browser, now)
  {
    assert [a][1..] == [];
  }

  lemma ReduceShort(s: IntlState, acts: seq<IntlAction>, browser: bool, now: int)
    requires |acts| <= 1
    ensures ReduceAll(s, acts, browser, now) == if acts == [] then s else Reduce(s, acts[0], browser, now)
  {
    if acts != [] {
      assert acts == [acts[0]];
      ReduceOne(s, acts[0], browser, now);
    }
  }

  /** Request coalescing: once a load has dispatched its REQUEST, a second
      load of the same pack without `force` issues no fetch and no action.
      What it hands back is the `true` the reducer stored under `isLoading`,
      not the first call's promise. */
  lemma ConcurrentLoadsCoalesce(s: IntlState, key: string, first: LoadOptions, second: LoadOptions,
                                env: LoadEnv, now: int)
    requires DecideLoad(s, key, first, env).StartFetch?
    requires !ServerProtected(s, DecideLoad(s, key, first, env).locale, key)
    requires !second.force
    requires ResolveLocale(second.locale, s) == ResolveLocale(first.locale, s)
    ensures var d := DecideLoad(s, key, first, env);
      var s1 := ReduceAll(s, SyncActions(d, key), env.browser, now);
      DecideLoad(s1, key, second, env) == ReturnExisting(Flag(true))
  {
    var d := DecideLoad(s, key, first, env);
    ReduceOne(s, LanguagePackRequest(d.locale, key), env.browser, now);
    var s1 := RequestPack(s, d.locale, key);
    assert ResolveLocale(second.locale, s1) == ResolveLocale(second.locale, s);
  }

  /** After a fetched pack has loaded, the next load without `force` is served
      from the state, dispatches nothing and schedules no deferred reload. */
  lemma LoadedPackServedFromState(s: IntlState, key: string, opts: LoadOptions, again: LoadOptions, env: LoadEnv,
                                  cache: ServerCache.CacheMap, client: string -> Reply, settledAt: int)
    requires LoadLanguagePack(s, key, opts, env, cache, client, settledAt).decision.StartFetch?
    requires LoadLanguagePack(s, key, opts, env, cache, client, settledAt).fetch.value.settled.Resolved?
    requires !again.force
    requires ResolveLocale(again.locale, s) == ResolveLocale(opts.locale, s)
    ensures var r := LoadLanguagePack(s, key, opts, env, cache, client, settledAt);
      var d := DecideLoad(r.settledState, key, again, env);
      d.ReturnFromState? && !d.scheduleDeferred && SyncActions(d, key) == []
  {
    var r := LoadLanguagePack(s, key, opts, env, cache, client, settledAt);
    var locale := r.decision.locale;
    ReduceOne(s, LanguagePackRequest(locale, key), env.browser, settledAt);
    var s1 := r.dispatched;
    assert s1 == RequestPack(s, locale, key);
    var s2 := SucceedPack(s1, locale, key, r.fetch.value.settled.data, env.browser);
    assert r.settledState == s2;
    assert ResolveLocale(again.locale, s2) == ResolveLocale(again.locale, s);
    assert IsLoaded(s2, locale, key);
  }

  /** A failed load does not stop the next `loadLanguagePack`: it fetches
      again. Only `queryLanguagePack` holds back until the error expires. */
  lemma FailedLoadFetchesAgain(s: IntlState, key: string, opts: LoadOptions, again: LoadOptions, env: LoadEnv,
                               cache: ServerCache.CacheMap, client: string -> Reply, settledAt: int)
    requires LoadLanguagePack(s, key, opts, env, cache, client, settledAt).decision.StartFetch?
    requires LoadLanguagePack(s, key, opts, env, cache, client, settledAt).fetch.value.settled.Rejected?
    requires !ServerProtected(s, LoadLanguagePack(s, key, opts, env, cache, client, settledAt).decision.locale, key)
    requires ResolveLocale(again.locale, s) == ResolveLocale(opts.locale, s)
    ensures var r := LoadLanguagePack(s, key, opts, env, cache, client, settledAt);
      DecideLoad(r.settledState, key, again, env) == StartFetch(r.decision.locale, r.decision.url)
  {
    var r := LoadLanguagePack(s, key, opts, env, cache, client, settledAt);
    var locale := r.decision.locale;
    ReduceOne(s, LanguagePackRequest(locale, key), env.browser, settledAt);
    var s1 := r.dispatched;
    assert s1 == RequestPack(s, locale, key);
    assert !ServerProtected(s1, locale, key);
    var s2 := FailPack(s1, locale, key, r.fetch.value.settled.error, settledAt);
    assert r.settledState == s2;
    assert ResolveLocale(again.locale, s2) == ResolveLocale(again.locale, s);
  }

  /** A pack loaded on the server schedules its deferred reload in the
      browser once: the marker the first call dispatches stops the next. */
  lemma DeferredReloadScheduledOnce(s: IntlState, key: string, opts: LoadOptions, again: LoadOptions,
                                    env: LoadEnv, now: int)
    requires DecideLoad(s, key, opts, env).ReturnFromState?
    requires DecideLoad(s, key, opts, env).scheduleDeferred
    requires !again.force
    requires ResolveLocale(again.locale, s) == ResolveLocale(opts.locale, s)
    ensures var d := DecideLoad(s, key, opts, env);
      var s1 := ReduceAll(s, SyncActions(d, key), env.browser, now);
      var d2 := DecideLoad(s1, key, again, env);
      d2.ReturnFromState? && !d2.scheduleDeferred && SyncActions(d2, key) == []
  {
    var d := DecideLoad(s, key, opts, env);
    ReduceOne(s, LanguagePackDeferredForceLoad(d.locale, key), env.browser, now);
    var s1 := MarkDeferred(s, d.locale, key);
    assert ResolveLocale(again.locale, s1) == ResolveLocale(again.locale, s);
    assert IsLoaded(s1, d.locale, key);
  }

  /** A fallback locale is tried once: a 404 for the locale and a 404 for the
      fallback make exactly two fetches and resolve to empty data. */
  lemma MissingFallbackResolvesEmpty(url: string, locale: string, fallback: string, key: string,
                                     env: LoadEnv, cache: ServerCache.CacheMap, client: string -> Reply)
    requires env.browser || (url !in cache && PackUrl(env, fallback, key) !in cache)
    requires fallback != "" && fallback != locale
    requires client(url).Replied? && !client(url).response.ok && client(url).response.status == 404
    requires var f := client(PackUrl(env, fallback, key));
      f.Replied? && !f.response.ok && f.response.status == 404
    ensures var r := FetchLanguagePack(url, locale, Some(fallback), false, key, env, cache, client);
      r.fetched == [url, PackUrl(env, fallback, key)] && r.settled == Resolved(map[])
  {
  }

  // ------------------------------------------------------------- querying

  /** `Date.now() > errorExpiration`; false when there is no expiration. */
  function Expired(now: int, expiration: Option<int>): (r: bool)
    ensures expiration.None? ==> !r
    ensures expiration.Some? ==> (r <==> now > expiration.value)
  {
    expiration.Some? && now > expiration.value
  }

  datatype QueryResult =
    | QueryThrew
      // the stored error, returned with a promise already rejected with it
    | ShortCircuit(snapshot: Snapshot, error: Failure)
    | Dispatched(decision: LoadDecision, state: IntlState, snapshot: Snapshot)

  /** The actions a load dispatches at once touch only its own entry and
      leave `data` on the active locale's entry in place. */
  lemma DispatchKeepsSnapshot(s: IntlState, key: string, fallbackLocale: Option<string>, env: LoadEnv, now: int)
    requires Iguazu(s, key).Some?
    ensures var d := DecideLoad(s, key, LoadOptions(s.activeLocale, false, fallbackLocale), env);
      Iguazu(ReduceAll(s, SyncActions(d, key), env.browser, now), key).Some?
  {
    var d := DecideLoad(s, key, LoadOptions(s.activeLocale, false, fallbackLocale), env);
    var acts := SyncActions(d, key);
    if acts != [] {
      var a := acts[0];
      assert acts == [a];
      ReduceOne(s, a, env.browser, now);
      var r := Reduce(s, a, env.browser, now);
      var e := LocaleEntry(s, s.activeLocale, key);
      if s.activeLocale.Some? {
        if a.locale != s.activeLocale.value {
          assert LocaleEntry(r, r.activeLocale, key) == e;
        }
      }
    }
  }

  /** `queryLanguagePack` for the active locale. */
  function QueryLanguagePack(s: IntlState, key: string, fallbackLocale: Option<string>, env: LoadEnv, now: int): (r: QueryResult)
    ensures r.QueryThrew? <==> Iguazu(s, key).None?
    ensures r.ShortCircuit? <==>
      Iguazu(s, key).Some? && Iguazu(s, key).value.error.Some?
      && !Expired(now, Iguazu(s, key).value.errorExpiration)
    ensures r.ShortCircuit? ==> r.snapshot == Iguazu(s, key).value && r.snapshot.error == Some(r.error)
    ensures r.Dispatched? ==>
      && r.decision == DecideLoad(s, key, LoadOptions(s.activeLocale, false, fallbackLocale), env)
      && r.state == ReduceAll(s, SyncActions(r.decision, key), env.browser, now)
      && Iguazu(r.state, key) == Some(r.snapshot)
  {
    var first := Iguazu(s, key);
    if first.None? then QueryThrew
    else if first.value.error.Some? && !Expired(now, first.value.errorExpiration) then
      ShortCircuit(first.value, first.value.error.value)
    else
      var d := DecideLoad(s, key, LoadOptions(s.activeLocale, false, fallbackLocale), env);
      var s1 := ReduceAll(s, SyncActions(d, key), env.browser, now);
      DispatchKeepsSnapshot(s, key, fallbackLocale, env, now);
      Dispatched(d, s1, Iguazu(s1, key).value)
  }

  /** Within ten seconds of a failure the query returns the stored error
      and dispatches nothing. */
  lemma RecentFailureShortCircuits(s: IntlState, key: string, error: Failure, failedAt: int, now: int,
                                   fallbackLocale: Option<string>, env: LoadEnv)
    requires s.activeLocale.Some?
    requires !ServerProtected(s, s.activeLocale.value, key)
    requires now <= failedAt + ErrorTtl
    ensures var s1 := FailPack(s, s.activeLocale.value, key, error, failedAt);
      var r := QueryLanguagePack(s1, key, fallbackLocale, env, now);
      r.ShortCircuit? && r.error == error && r.snapshot.status == Complete
  {
    var s1 := FailPack(s, s.activeLocale.value, key, error, failedAt);
    assert s1.activeLocale == s.activeLocale;
    assert LocaleEntry(s1, s1.activeLocale, key) == GetEntry(s1, s.activeLocale.value, key);
  }

  /** Once the error has expired the query loads again: it fetches, and the
      snapshot it returns says 'loading'. */
  lemma ExpiredFailureReloads(s: IntlState, key: string, error: Failure, failedAt: int, now: int,
                              fallbackLocale: Option<string>, env: LoadEnv)
    requires Truthy(s.activeLocale)
    requires !ServerProtected(s, s.activeLocale.value, key)
    requires now > failedAt + ErrorTtl
    ensures var s1 := FailPack(s, s.activeLocale.value, key, error, failedAt);
      var r := QueryLanguagePack(s1, key, fallbackLocale, env, now);
      r.Dispatched? && r.decision.StartFetch? && r.snapshot.status == Loading
  {
    var loc := s.activeLocale.value;
    var s1 := FailPack(s, loc, key, error, failedAt);
    assert s1.activeLocale == s.activeLocale;
    assert LocaleEntry(s1, s1.activeLocale, key) == GetEntry(s1, loc, key);
    var d := DecideLoad(s1, key, LoadOptions(s1.activeLocale, false, fallbackLocale), env);
    assert ResolveLocale(s1.activeLocale, s1) == Some(loc);
    assert d.StartFetch?;
    ReduceOne(s1, LanguagePackRequest(loc, key), env.browser, now);
    var s2 := RequestPack(s1, loc, key);
    assert !ServerProtected(s1, loc, key);
    assert LocaleEntry(s2, s2.activeLocale, key) == GetEntry(s2, loc, key);
  }
}
