/** The service worker's favicon logic: which source a tab's favicon meta comes
    from, when a built meta counts as valid, the two-key cache in front of it,
    the registry of fingerprints of "default-looking" icons, and the
    retry-once relay to the offscreen document.

    Everything outside this file is a parameter: URL helpers, tab predicates,
    `encodeURIComponent` and what the offscreen document answers are fields
    of `Env`. Each helper is a mathematical function, so asking the offscreen
    document twice about the same URL gives the same answer. */
module GsFavicon {
  import opened Wrappers
  import opened OffscreenFavicon

  const GoogleS2Url: string := "https://www.google.com/s2/favicons?sz=32&domain_url="
  const DefaultIconPath: string := "img/chromeDefaultFavicon.png"
  /** The empty data URL, which `toDataURL` produces for an empty canvas. */
  const EmptyDataUrl: string := "data:,"
  /** What `createImageFingerprint` demands its argument starts with. */
  const ImagePrefix: string := "data:image"
  const HardcodedNormalisedDataUrl: string :=
    ImagePrefix + "/png;base64,iVBORw0KGgoAAAANSUhEUgAAABAAAAAQCAYAAAAf8/9hAAAAYklEQVQ4T2NkoBAwIuuPior6j8O8xmXLljVgk8MwYNmyZdgMfcjAwLAAmyFEGfDv3z9FJiamA9gMIcoAkKsiIiIUsBlClAHofkf2JkED0DWDAnrUgOEfBsRkTpzpgBjN6GoA24V1Efr1zoAAAAAASUVORK5CYII="
  const HardcodedTransparentDataUrl: string :=
    ImagePrefix + "/png;base64,iVBORw0KGgoAAAANSUhEUgAAABAAAAAQCAYAAAAf8/9hAAAAaUlEQVQ4T2NkoBAwIuuPioqqx2YeExPTwSVLlhzAJodhwLJlyxrRDWVkZPzIyMh4AZshRBnAxsY28ffv3wnYDCHKAJCrEhISBLAZQpQB6H5H9iZBA9A1gwJ61IDhHwbEZE6c6YAYzehqAAmQeBHM42eMAAAAAElFTkSuQmCC"

  /** The fields of a Chrome tab the resolver reads; a missing `url` or
      `favIconUrl` is "". */
  datatype Tab = Tab(url: string, favIconUrl: string)

  datatype Env = Env(
    /** `gsUtils.getRootUrl(url, includePath, false)`. */
    rootUrl: (string, bool) -> string,
    isFileTab: Tab -> bool,
    isSuspendedTab: Tab -> bool,
    /** `gsUtils.getOriginalUrl`; "" when the URL cannot be recovered. */
    originalUrl: string -> string,
    encodeUriComponent: string -> string,
    /** `chrome.runtime.getURL(path)`. */
    extensionUrl: string -> string,
    /** What the offscreen document settles `buildFaviconMetaData` with. */
    build: string -> Result<FaviconMeta, string>,
    /** What the offscreen document settles `createImageFingerprint` with. */
    fingerprint: string -> Result<string, string>)

  const SuspendyIconPath: string := "img/ic_suspendy_16x16.png"

  predicate StartsWith(s: string, prefix: string) {
    |prefix| <= |s| && s[..|prefix|] == prefix
  }

  /** `s.includes(part)`. */
  predicate Contains(s: string, part: string)
    decreases |s|
  {
    StartsWith(s, part) || (|s| > 0 && Contains(s[1..], part))
  }

  // ---------------------------------------------------------------------
  // Input guards

  /** `buildFaviconMetaData`: a falsy URL is refused before anything is sent. */
  function BuildMeta(env: Env, url: string): Result<FaviconMeta, string> {
    if url == "" then Failure("Invalid URL for buildFaviconMetaData") else env.build(url)
  }

  /** `createImageFingerprint`: only strings starting with `data:image` are sent. */
  function Fingerprint(env: Env, dataUrl: string): Result<string, string> {
    if dataUrl == "" || !StartsWith(dataUrl, ImagePrefix) then
      Failure("Invalid dataUrl for createImageFingerprint")
    else
      env.fingerprint(dataUrl)
  }

  // ---------------------------------------------------------------------
  // Validity

  /** A data URL that carries no image: missing, or the empty `data:` URL. */
  predicate IsSentinel(dataUrl: string) {
    dataUrl == "" || dataUrl == EmptyDataUrl
  }

  /** No registered default fingerprint equals f. */
  predicate NotDefault(registry: map<string, string>, f: string) {
    forall id :: id in registry ==> registry[id] != f
  }

  /** `isFaviconMetaValid`: both data URLs carry an image, both fingerprint,
      and neither fingerprint is a registered default's. */
  predicate IsValidMeta(env: Env, registry: map<string, string>, meta: FaviconMeta) {
    && !IsSentinel(meta.normalisedDataUrl)
    && !IsSentinel(meta.transparentDataUrl)
    && var n := Fingerprint(env, meta.normalisedDataUrl);
       var t := Fingerprint(env, meta.transparentDataUrl);
       && n.Success? && t.Success?
       && NotDefault(registry, n.value) && NotDefault(registry, t.value)
  }

  /** The reasons a meta is rejected, each on its own. */
  lemma InvalidMetaCases(env: Env, registry: map<string, string>, meta: FaviconMeta)
    ensures IsSentinel(meta.normalisedDataUrl) || IsSentinel(meta.transparentDataUrl)
      ==> !IsValidMeta(env, registry, meta)
    ensures !StartsWith(meta.normalisedDataUrl, ImagePrefix) || !StartsWith(meta.transparentDataUrl, ImagePrefix)
      ==> !IsValidMeta(env, registry, meta)
    ensures (exists id :: id in registry
               && (Fingerprint(env, meta.normalisedDataUrl) == Success(registry[id])
                   || Fingerprint(env, meta.transparentDataUrl) == Success(registry[id])))
      ==> !IsValidMeta(env, registry, meta)
  {
  }

  /** The sentinel test is subsumed by the fingerprint guard: neither sentinel
      starts with `data:image`. */
  lemma SentinelFailsGuard(env: Env, dataUrl: string)
    requires IsSentinel(dataUrl)
    ensures Fingerprint(env, dataUrl).Failure?
  {
    assert |EmptyDataUrl| < |ImagePrefix|;
  }

  // ---------------------------------------------------------------------
  // The cache: read full key, then root key; write both

  /** `getCachedFaviconMetaData` over the cache store: the full-URL key
      wins, and the root-URL key is read only when the full key is missing. */
  function CachedMeta(env: Env, store: map<string, FaviconMeta>, url: string): (r: Option<FaviconMeta>)
    ensures r.Some? ==> url != "" && r.value in store.Values
    ensures url != "" && env.rootUrl(url, true) in store ==> r == Some(store[env.rootUrl(url, true)])
    ensures url != "" && env.rootUrl(url, true) !in store ==>
      r == (if env.rootUrl(url, false) in store then Some(store[env.rootUrl(url, false)]) else None)
  {
    if url == "" then None
    else
      var fullUrl := env.rootUrl(url, true);
      if fullUrl in store then Some(store[fullUrl])
      else
        var rootUrl := env.rootUrl(url, false);
        if rootUrl in store then Some(store[rootUrl]) else None
  }

  /** The store after `saveFaviconMetaDataToCache(url, meta)` of a real meta:
      the full key, then the root key. */
  function Saved(env: Env, store: map<string, FaviconMeta>, url: string, meta: FaviconMeta): map<string, FaviconMeta> {
    store[env.rootUrl(url, true) := meta][env.rootUrl(url, false) := meta]
  }

  /** A saved meta is read back by the same URL, and by any other URL with the
      same root whose full key is not in the cache. Nothing else in the store
      changes. */
  lemma CacheRoundTrip(env: Env, store: map<string, FaviconMeta>, url: string, meta: FaviconMeta, other: string)
    requires url != ""
    ensures CachedMeta(env, Saved(env, store, url, meta), url) == Some(meta)
    ensures other != "" && env.rootUrl(other, false) == env.rootUrl(url, false)
         && env.rootUrl(other, true) !in Saved(env, store, url, meta)
      ==> CachedMeta(env, Saved(env, store, url, meta), other) == Some(meta)
    ensures forall k :: (k in store && k != env.rootUrl(url, true) && k != env.rootUrl(url, false)
      ==> k in Saved(env, store, url, meta) && Saved(env, store, url, meta)[k] == store[k])
    ensures Saved(env, store, url, meta).Keys == store.Keys + {env.rootUrl(url, true), env.rootUrl(url, false)}
  {
  }

  /** What `saveFaviconMetaDataToCache` may be handed. */
  datatype MetaValue = NoMeta | NotObject | EmptyObject | Meta(meta: FaviconMeta)

  // ---------------------------------------------------------------------
  // Resolution

  /** The URL whose favicon is wanted, or "" when `getFaviconMetaData` returns
      the default at once: no tab, no url, a file tab, or a suspended tab whose
      original URL cannot be recovered. */
  function OriginalUrlOf(env: Env, tab: Option<Tab>): (u: string)
    ensures u != "" ==> tab.Some? && tab.value.url != "" && !env.isFileTab(tab.value)
    ensures tab.Some? && tab.value.url != "" && !env.isFileTab(tab.value) && !env.isSuspendedTab(tab.value)
      ==> u == tab.value.url
    ensures tab.Some? && tab.value.url != "" && !env.isFileTab(tab.value) && env.isSuspendedTab(tab.value)
      ==> u == env.originalUrl(tab.value.url)
  {
    if tab.None? || tab.value.url == "" || env.isFileTab(tab.value) then ""
    else if env.isSuspendedTab(tab.value) then env.originalUrl(tab.value.url)
    else tab.value.url
  }

  /** The tab's own icon is tried only when set, not a `chrome://` URL and not
      the extension's suspended-tab icon. */
  predicate TabIconEligible(env: Env, favIconUrl: string) {
    favIconUrl != "" && !StartsWith(favIconUrl, "chrome://")
    && favIconUrl != env.extensionUrl(SuspendyIconPath)
  }

  /** `buildFaviconMetaFromTabFavIconUrl`: the built meta when it is valid, else null. */
  function FromTabIcon(env: Env, registry: map<string, string>, favIconUrl: string): (r: Option<FaviconMeta>)
    ensures r.Some? <==> BuildMeta(env, favIconUrl).Success? && IsValidMeta(env, registry, BuildMeta(env, favIconUrl).value)
    ensures r.Some? ==> r.value == env.build(favIconUrl).value
  {
    var built := BuildMeta(env, favIconUrl);
    if built.Success? && IsValidMeta(env, registry, built.value) then Some(built.value) else None
  }

  function S2Url(env: Env, url: string): string {
    GoogleS2Url + env.encodeUriComponent(url)
  }

  /** What `getFaviconMetaData` returns, which URL (if any) it caches the result
      under, and the URLs it asks the offscreen document to build, in order. */
  datatype Resolution = Resolution(meta: FaviconMeta, cacheWrite: Option<string>, builds: seq<string>)

  function Resolve(env: Env, store: map<string, FaviconMeta>, registry: map<string, string>,
                   fallback: FaviconMeta, tab: Option<Tab>): (res: Resolution)
    ensures OriginalUrlOf(env, tab) == "" ==> res == Resolution(fallback, None, [])
    ensures OriginalUrlOf(env, tab) != "" && CachedMeta(env, store, OriginalUrlOf(env, tab)).Some? ==>
      res == Resolution(CachedMeta(env, store, OriginalUrlOf(env, tab)).value, None, [])
    ensures res.cacheWrite.Some? ==>
      && res.cacheWrite.value == OriginalUrlOf(env, tab) != ""
      && IsValidMeta(env, registry, res.meta)
      && CachedMeta(env, store, OriginalUrlOf(env, tab)).None?
    ensures res.cacheWrite.None? ==>
      res.meta == fallback || CachedMeta(env, store, OriginalUrlOf(env, tab)) == Some(res.meta)
    ensures |res.builds| <= 2
  {
    var orig := OriginalUrlOf(env, tab);
    if orig == "" then Resolution(fallback, None, [])
    else
      var cached := CachedMeta(env, store, orig);
      if cached.Some? then Resolution(cached.value, None, [])
      else
        var icon := tab.value.favIconUrl;
        var iconBuilds := if TabIconEligible(env, icon) then [icon] else [];
        var fromIcon := if TabIconEligible(env, icon) then FromTabIcon(env, registry, icon) else None;
        if fromIcon.Some? then Resolution(fromIcon.value, Some(orig), iconBuilds)
        else
          var s2 := S2Url(env, orig);
          var built := BuildMeta(env, s2);
          if built.Success? && IsValidMeta(env, registry, built.value) then
            Resolution(built.value, Some(orig), iconBuilds + [s2])
          else
            Resolution(fallback, None, iconBuilds + [s2])
  }

  /** On a cache miss: the tab's icon, when eligible, is built first; the S2
      service is asked only when that gave nothing valid; a valid meta from
      either is the answer and is cached under the URL, and when neither is
      valid the fallback is returned and nothing is cached. */
  lemma ResolveOrder(env: Env, store: map<string, FaviconMeta>, registry: map<string, string>,
                     fallback: FaviconMeta, tab: Option<Tab>)
    requires OriginalUrlOf(env, tab) != "" && CachedMeta(env, store, OriginalUrlOf(env, tab)).None?
    ensures var res := Resolve(env, store, registry, fallback, tab);
      var icon := tab.value.favIconUrl;
      var s2 := S2Url(env, OriginalUrlOf(env, tab));
      && (!TabIconEligible(env, icon) ==> res.builds == [s2])
      && (TabIconEligible(env, icon) && FromTabIcon(env, registry, icon).Some? ==>
            res.builds == [icon] && res.meta == env.build(icon).value
            && res.cacheWrite == Some(OriginalUrlOf(env, tab)))
      && (TabIconEligible(env, icon) && FromTabIcon(env, registry, icon).None? ==> res.builds == [icon, s2])
      && ((!TabIconEligible(env, icon) || FromTabIcon(env, registry, icon).None?) ==>
            var built := BuildMeta(env, s2);
            if built.Success? && IsValidMeta(env, registry, built.value) then
              res.meta == built.value && res.cacheWrite == Some(OriginalUrlOf(env, tab))
            else
              res.meta == fallback && res.cacheWrite.None?)
      && (res.meta != fallback ==> res.cacheWrite.Some?)
  {
  }

  /** A resolution that wrote the cache is answered from the cache next time:
      the same meta and no build at all. */
  lemma ResolvedIsCachedNextTime(env: Env, store: map<string, FaviconMeta>, registry: map<string, string>,
                                 fallback: FaviconMeta, tab: Option<Tab>)
    requires Resolve(env, store, registry, fallback, tab).cacheWrite.Some?
    ensures var res := Resolve(env, store, registry, fallback, tab);
      Resolve(env, Saved(env, store, res.cacheWrite.value, res.meta), registry, fallback, tab)
        == Resolution(res.meta, None, [])
  {
    var res := Resolve(env, store, registry, fallback, tab);
    CacheRoundTrip(env, store, res.cacheWrite.value, res.meta, res.cacheWrite.value);
  }

  // ---------------------------------------------------------------------
  // The relay to the offscreen document

  /** What one `chrome.runtime.sendMessage` to the offscreen document gives:
      the reply (None when there is none), or the message of what it threw.
      An `{success: false}` reply without an error is `ErrorReply("")`. */
  datatype SendOutcome<T> = Answered(reply: Option<Reply<T>>) | SendThrew(message: string)

  /** How one relay ends, and how many messages it sent. */
  datatype RelayRun<T> = RelayRun(result: Result<T, string>, sends: nat)

  predicate IsConnectionError(message: string) {
    Contains(message, "Could not establish connection") || Contains(message, "Target context invalidated")
  }

  /** The error text of a reply that is not a success, or `default`. */
  function ReplyError<T>(reply: Option<Reply<T>>, default: string): string {
    if reply.Some? && reply.value.ErrorReply? && reply.value.error != "" then reply.value.error else default
  }

  predicate Succeeded<T>(outcome: SendOutcome<T>) {
    outcome.Answered? && outcome.reply.Some? && outcome.reply.value.SuccessReply?
  }

  /** The message of the error the first attempt raises inside the `try`. */
  function FirstError<T>(outcome: SendOutcome<T>): string
    requires !Succeeded(outcome)
  {
    match outcome
    case SendThrew(m) => m
    case Answered(reply) => "Offscreen: " + ReplyError(reply, "Unknown error in offscreen document.")
  }

  /** `sendMessageToOffscreenDocument`: `createError` is what ensuring the
      document exists threw (if anything), `first` the first send;
      `recreateError` and `second` the same for the single retry. Closing the
      document is attempted before the retry and its errors are ignored. */
  function Relay<T>(createError: Option<string>, first: SendOutcome<T>,
                    recreateError: Option<string>, second: SendOutcome<T>): (run: RelayRun<T>)
    ensures run.sends <= 2
  {
    if createError.Some? then RelayRun(Failure(createError.value), 0)
    else if Succeeded(first) then RelayRun(Success(first.reply.value.data), 1)
    else
      var e := FirstError(first);
      if !IsConnectionError(e) then RelayRun(Failure(e), 1)
      else if recreateError.Some? then RelayRun(Failure(recreateError.value), 1)
      else if Succeeded(second) then RelayRun(Success(second.reply.value.data), 2)
      else match second
        case SendThrew(m) => RelayRun(Failure(m), 2)
        case Answered(reply) =>
          RelayRun(Failure("Offscreen (after retry): " + ReplyError(reply, "Unknown error after retry.")), 2)
  }

  lemma {:induction false} ContainsInSuffix(prefix: string, s: string, part: string)
    requires Contains(s, part)
    ensures Contains(prefix + s, part)
    decreases |prefix|
  {
    if |prefix| > 0 {
      assert (prefix + s)[1..] == prefix[1..] + s;
      ContainsInSuffix(prefix[1..], s, part);
    } else {
      assert prefix + s == s;
    }
  }

  /** The retry policy: a failure to create the document is passed on
      before anything is sent; a success resolves with the reply's data; one
      retry, and only after an error naming a lost connection or an
      invalidated context (also when that error came back in a
      `{success: false}` reply); every other first error is passed on
      unchanged.  After the retry: a recreate error or a thrown send is
      passed on, a success resolves with the retry's data, and any other
      reply fails as "Offscreen (after retry): ..." */
  lemma RelayPolicy<T>(createError: Option<string>, first: SendOutcome<T>,
                       recreateError: Option<string>, second: SendOutcome<T>)
    ensures var run := Relay(createError, first, recreateError, second);
      && (createError.Some? ==> run == RelayRun(Failure(createError.value), 0))
      && (createError.None? && Succeeded(first) ==> run == RelayRun(Success(first.reply.value.data), 1))
      && (run.sends == 2 ==> createError.None? && !Succeeded(first) && IsConnectionError(FirstError(first)))
      && ((createError.None? && !Succeeded(first) && !IsConnectionError(FirstError(first)))
            ==> run == RelayRun(Failure(FirstError(first)), 1))
      && (run.result.Success? <==>
            createError.None? && (Succeeded(first)
              || (IsConnectionError(FirstError(first)) && recreateError.None? && Succeeded(second))))
    ensures var run := Relay(createError, first, recreateError, second);
      createError.None? && !Succeeded(first) && IsConnectionError(FirstError(first)) ==>
        && (recreateError.Some? ==> run == RelayRun(Failure(recreateError.value), 1))
        && (recreateError.None? && Succeeded(second) ==> run == RelayRun(Success(second.reply.value.data), 2))
        && (recreateError.None? && second.SendThrew? ==> run == RelayRun(Failure(second.message), 2))
        && (recreateError.None? && second.Answered? && !Succeeded(second) ==>
              run == RelayRun(Failure("Offscreen (after retry): " + ReplyError(second.reply, "Unknown error after retry.")), 2))
    ensures createError.None? && recreateError.None?
         && first.Answered? && first.reply.Some? && first.reply.value.ErrorReply?
         && IsConnectionError(first.reply.value.error)
      ==> Relay(createError, first, recreateError, second).sends == 2
  {
    if createError.None? && recreateError.None? && first.Answered? && first.reply.Some?
       && first.reply.value.ErrorReply? && IsConnectionError(first.reply.value.error) {
      var e := first.reply.value.error;
      assert FirstError(first) == "Offscreen: " + e;
      if Contains(e, "Could not establish connection") {
        ContainsInSuffix("Offscreen: ", e, "Could not establish connection");
      } else {
        ContainsInSuffix("Offscreen: ", e, "Target context invalidated");
      }
    }
  }

  // ---------------------------------------------------------------------
  // Module state: cache store, default-fingerprint registry, fallback meta

  /** Which fingerprints `addFaviconMetaToDefaultFingerprints(meta, id)` adds:
      none when either data URL is missing; otherwise `norm_<id>` and
      `trans_<id>`, each only when its fingerprint is obtained and non-empty,
      and the second is not attempted once the first fails. */
  function Registered(env: Env, registry: map<string, string>, meta: FaviconMeta, id: string): map<string, string> {
    if meta.normalisedDataUrl == "" || meta.transparentDataUrl == "" then registry
    else
      var n := Fingerprint(env, meta.normalisedDataUrl);
      if n.Failure? then registry
      else
        var r1 := if n.value != "" then registry["norm_" + id := n.value] else registry;
        var t := Fingerprint(env, meta.transparentDataUrl);
        if t.Failure? || t.value == "" then r1 else r1["trans_" + id := t.value]
  }

  /** Registration adds at most the two keys of its id and keeps every other entry. */
  lemma RegistrationKeys(env: Env, registry: map<string, string>, meta: FaviconMeta, id: string)
    ensures Registered(env, registry, meta, id).Keys <= registry.Keys + {"norm_" + id, "trans_" + id}
    ensures registry.Keys <= Registered(env, registry, meta, id).Keys
    ensures forall k :: (k in registry && k != "norm_" + id && k != "trans_" + id
      ==> Registered(env, registry, meta, id)[k] == registry[k])
    ensures meta.normalisedDataUrl == "" || meta.transparentDataUrl == ""
      ==> Registered(env, registry, meta, id) == registry
  {
  }

  /** Once an icon's meta is registered as a default, that meta is no longer valid. */
  lemma RegisteredMetaIsInvalid(env: Env, registry: map<string, string>, meta: FaviconMeta, id: string)
    requires Fingerprint(env, meta.normalisedDataUrl).Success?
    requires Fingerprint(env, meta.normalisedDataUrl).value != ""
    ensures !IsValidMeta(env, Registered(env, registry, meta, id), meta)
  {
    var r := Registered(env, registry, meta, id);
    if !IsSentinel(meta.normalisedDataUrl) && !IsSentinel(meta.transparentDataUrl) {
      assert meta.normalisedDataUrl != "" && meta.transparentDataUrl != "";
      assert "norm_" + id in r;
      assert r["norm_" + id] == Fingerprint(env, meta.normalisedDataUrl).value;
    }
  }

  /** The meta `initAsPromised` leaves as the default: the processed default
      icon's data when it could be built, else the hardcoded payloads (isDark
      then keeps its value). */
  function InitialisedFallback(env: Env, fallback: FaviconMeta): (m: FaviconMeta)
    ensures m.favIconUrl == fallback.favIconUrl
    ensures var built := BuildMeta(env, env.extensionUrl(fallback.favIconUrl));
      built.Success? ==> m == fallback.(normalisedDataUrl := built.value.normalisedDataUrl,
                                        transparentDataUrl := built.value.transparentDataUrl,
                                        isDark := built.value.isDark)
    ensures BuildMeta(env, env.extensionUrl(fallback.favIconUrl)).Failure?
      ==> m.normalisedDataUrl == HardcodedNormalisedDataUrl && m.transparentDataUrl == HardcodedTransparentDataUrl
          && m.isDark == fallback.isDark
  {
    var built := BuildMeta(env, env.extensionUrl(fallback.favIconUrl));
    if built.Success? then
      fallback.(normalisedDataUrl := built.value.normalisedDataUrl,
                transparentDataUrl := built.value.transparentDataUrl,
                isDark := built.value.isDark)
    else
      fallback.(normalisedDataUrl := HardcodedNormalisedDataUrl,
                transparentDataUrl := HardcodedTransparentDataUrl)
  }

  /** The hardcoded payloads pass the sentinel test and the fingerprint guard. */
  lemma HardcodedPayloadsAreImages()
    ensures !IsSentinel(HardcodedNormalisedDataUrl) && StartsWith(HardcodedNormalisedDataUrl, ImagePrefix)
    ensures !IsSentinel(HardcodedTransparentDataUrl) && StartsWith(HardcodedTransparentDataUrl, ImagePrefix)
  {
    assert HardcodedNormalisedDataUrl[..|ImagePrefix|] == ImagePrefix;
    assert HardcodedTransparentDataUrl[..|ImagePrefix|] == ImagePrefix;
  }

  class FaviconState {
    /** The favicon cache (IndexedDB `faviconMeta` store), keyed by URL. */
    var store: map<string, FaviconMeta>
    /** `_defaultFaviconFingerprintById`. */
    var registry: map<string, string>
    /** `FALLBACK_DEFAULT_FAVICON_META`, which is also what
        `_processedDefaultFaviconMeta` refers to once initialised. */
    var fallback: FaviconMeta

    constructor (store: map<string, FaviconMeta>)
      ensures this.store == store && registry == map[]
      ensures fallback == FaviconMeta(DefaultIconPath, true, "", "")
    {
      this.store := store;
      registry := map[];
      fallback := FaviconMeta(DefaultIconPath, true, "", "");
    }

    /** `saveFaviconMetaDataToCache`. */
    method SaveFaviconMetaDataToCache(env: Env, url: string, value: MetaValue)
      modifies this`store
      ensures value.Meta? ==> store == Saved(env, old(store), url, value.meta)
      ensures !value.Meta? ==> store == old(store)
    {
      if !value.Meta? {
        return;
      }
      var fullUrl := env.rootUrl(url, true);
      var rootUrl := env.rootUrl(url, false);
      store := store[fullUrl := value.meta];
      store := store[rootUrl := value.meta];
    }

    /** `isFaviconMetaValid`, with its loop over the registry. */
    method IsFaviconMetaValid(env: Env, meta: FaviconMeta) returns (valid: bool)
      ensures valid == IsValidMeta(env, registry, meta)
    {
      if IsSentinel(meta.normalisedDataUrl) || IsSentinel(meta.transparentDataUrl) {
        return false;
      }
      var normalisedFingerprint := Fingerprint(env, meta.normalisedDataUrl);
      if normalisedFingerprint.Failure? {
        return false;
      }
      var transparentFingerprint := Fingerprint(env, meta.transparentDataUrl);
      if transparentFingerprint.Failure? {
        return false;
      }
      var remaining := registry.Keys;
      while remaining != {}
        invariant remaining <= registry.Keys
        invariant forall id :: id in registry && id !in remaining ==>
          registry[id] != normalisedFingerprint.value && registry[id] != transparentFingerprint.value
        decreases remaining
      {
        var id :| id in remaining;
        var defaultFingerprint := registry[id];
        if normalisedFingerprint.value == defaultFingerprint || transparentFingerprint.value == defaultFingerprint {
          return false;
        }
        remaining := remaining - {id};
      }
      return true;
    }

    /** `addFaviconMetaToDefaultFingerprints`. */
    method AddFaviconMetaToDefaultFingerprints(env: Env, meta: FaviconMeta, id: string)
      modifies this`registry
      ensures registry == Registered(env, old(registry), meta, id)
    {
      if meta.normalisedDataUrl == "" || meta.transparentDataUrl == "" {
        return;
      }
      var normFingerprint := Fingerprint(env, meta.normalisedDataUrl);
      if normFingerprint.Failure? {
        return;
      }
      if normFingerprint.value != "" {
        registry := registry["norm_" + id := normFingerprint.value];
      }
      var transFingerprint := Fingerprint(env, meta.transparentDataUrl);
      if transFingerprint.Failure? {
        return;
      }
      if transFingerprint.value != "" {
        registry := registry["trans_" + id := transFingerprint.value];
      }
    }

    /** `addDefaultFaviconMeta`: build the icon's meta (the retries of
        `executeWithRetries` ask the same question again, so they are one
        build here), then register it. */
    method AddDefaultFaviconMeta(env: Env, url: string) returns (meta: Option<FaviconMeta>)
      modifies this`registry
      ensures BuildMeta(env, url).Failure? ==> meta == None && registry == old(registry)
      ensures BuildMeta(env, url).Success? ==>
        meta == Some(BuildMeta(env, url).value)
        && registry == Registered(env, old(registry), BuildMeta(env, url).value, url)
    {
      var built := BuildMeta(env, url);
      if built.Failure? {
        return None;
      }
      AddFaviconMetaToDefaultFingerprints(env, built.value, url);
      return Some(built.value);
    }

    /** `addFaviconDefaults`: the suspended-tab icon is the one default-like icon. */
    method AddFaviconDefaults(env: Env)
      modifies this`registry
      ensures var url := env.extensionUrl(SuspendyIconPath);
        registry == if BuildMeta(env, url).Success?
                    then Registered(env, old(registry), BuildMeta(env, url).value, url)
                    else old(registry)
    {
      var iconUrl := env.extensionUrl(SuspendyIconPath);
      var _ := AddDefaultFaviconMeta(env, iconUrl);
    }

    /** `initAsPromised`. */
    method InitAsPromised(env: Env)
      modifies this`fallback, this`registry
      ensures fallback == InitialisedFallback(env, old(fallback))
      ensures var url := env.extensionUrl(SuspendyIconPath);
        registry == if BuildMeta(env, url).Success?
                    then Registered(env, old(registry), BuildMeta(env, url).value, url)
                    else old(registry)
    {
      var defaultIconPath := env.extensionUrl(fallback.favIconUrl);
      var processedMeta := BuildMeta(env, defaultIconPath);
      if processedMeta.Success? {
        fallback := fallback.(normalisedDataUrl := processedMeta.value.normalisedDataUrl,
                              transparentDataUrl := processedMeta.value.transparentDataUrl,
                              isDark := processedMeta.value.isDark);
      } else {
        fallback := fallback.(normalisedDataUrl := HardcodedNormalisedDataUrl,
                              transparentDataUrl := HardcodedTransparentDataUrl);
      }
      AddFaviconDefaults(env);
    }

    /** `buildFaviconMetaFromTabFavIconUrl`. */
    method BuildFaviconMetaFromTabFavIconUrl(env: Env, favIconUrl: string) returns (meta: Option<FaviconMeta>)
      ensures meta == FromTabIcon(env, registry, favIconUrl)
    {
      var built := BuildMeta(env, favIconUrl);
      if built.Success? {
        var valid := IsFaviconMetaValid(env, built.value);
        if valid {
          return Some(built.value);
        }
      }
      return None;
    }

    /** `getFaviconMetaData`. */
    method GetFaviconMetaData(env: Env, tab: Option<Tab>) returns (meta: FaviconMeta)
      modifies this`store
      ensures var res := Resolve(env, old(store), registry, fallback, tab);
        && meta == res.meta
        && store == if res.cacheWrite.Some? then Saved(env, old(store), res.cacheWrite.value, meta) else old(store)
    {
      if tab.None? || tab.value.url == "" {
        return fallback;
      }
      if env.isFileTab(tab.value) {
        return fallback;
      }
      var originalUrl := tab.value.url;
      if env.isSuspendedTab(tab.value) {
        originalUrl := env.originalUrl(tab.value.url);
        if originalUrl == "" {
          return fallback;
        }
      }
      var cached := CachedMeta(env, store, originalUrl);
      if cached.Some? {
        return cached.value;
      }
      var icon := tab.value.favIconUrl;
      if icon != "" && !StartsWith(icon, "chrome://") && icon != env.extensionUrl(SuspendyIconPath) {
        var fromIcon := BuildFaviconMetaFromTabFavIconUrl(env, icon);
        if fromIcon.Some? {
          SaveFaviconMetaDataToCache(env, originalUrl, Meta(fromIcon.value));
          return fromIcon.value;
        }
      }
      var s2Url := GoogleS2Url + env.encodeUriComponent(originalUrl);
      var built := BuildMeta(env, s2Url);
      if built.Success? {
        var valid := IsFaviconMetaValid(env, built.value);
        if valid {
          SaveFaviconMetaDataToCache(env, originalUrl, Meta(built.value));
          return built.value;
        }
      }
      return fallback;
    }
  }
}
