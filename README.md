# MarvellousSuspender core, modelled in Dafny

This project models the decision logic of the MarvellousSuspender browser
extension. The extension suspends idle tabs: it replaces each one with a
lightweight page that shows the tab's title, its favicon and, optionally, a
screenshot preview. The project covers:

- **Favicon pixel processing** (`offscreen_favicon.dfy`). The loaded icon's
  RGBA buffer is scanned once to count dark and light pixels and find the
  maximum alpha. A fully transparent icon is rejected. Two derived buffers
  are built: one with alpha stretched to full opacity, one with that alpha
  halved. Fingerprinting binarises a 16×16 buffer by luma. Loading is a
  small state machine (load, error, timeout), and replies are wrapped in
  `{success, data|error}`.
- **Favicon resolution** (`gs_favicon.dfy`). Sources are tried in order:
  defaults, the two-key cache, the tab's own icon, the Google S2 service,
  the fallback. A built meta is valid when neither data URL is a sentinel
  and neither fingerprint is a registered default. The registry of default
  fingerprints and the fallback meta are set up at start-up. Messages to
  the offscreen document are retried once.
- **Settings** (`gs_storage.dfy`). At start-up, defaults, local and synced
  settings are merged and a resync is triggered when needed. The sync
  listener applies changed settings. `getOption`, `setOption`,
  `getSettings`, `syncSettings` and `fetchLastVersion` are modelled.
- **The suspended page** (`suspended_page.dfy`). `cleanUrl`, the scroll
  target, the preview/message display, the theme classes, the click
  handler and the message listener.
- **The service-worker side of a suspended tab** (`gs_suspended_tab.dfy`).
  The preview-image test, the title encoding, the `initTab` payload, and
  how a failed message is reported.
- **The popup** (`popup.dfy`). Bounded status polling, and the tables from
  status to visible controls, header classes and link action.
- **The options page** (`options.dfy`). Saving only changed values, the
  visibility of dependent option groups, and the whitelist test report.

`wrappers.dfy` holds `Option` (JavaScript `undefined`/`null`) and `Result`
(a promise that resolves or rejects).

Conventions used throughout:

- Byte buffers are `array<int>` with every entry in 0..255.
- Floating-point formulas are replaced by exact integer ones:
  - `isDark` holds iff `10·(light − dark) + w·h < 0`;
  - normalised alpha is `⌊a·255/maxAlpha⌋`;
  - the luma test is `30r + 59g + 11b ≥ 8100`.
- Missing or falsy data-URL strings are `""`.
- Setting keys are the `Key` enumeration, one constructor per `gsStorage`
  key constant; any other property name is `OtherKey(name)`.
- Helpers outside the core are function-valued parameters (`Env`,
  `TabEnv`, `ReportEnv`, or plain arguments). These include `getRootUrl`,
  `isFileTab`, `isSuspendedTab`, `getOriginalUrl`, `encodeURIComponent`,
  `htmlEncode`, `cleanupWhitelist` and `checkWhiteList`. So are what the
  offscreen document answers, image decoding and encoding, and the
  storage and message channels.

## Model

| member | source | states |
|---|---|---|
| OffscreenFavicon.ScanPixels | src/js/offscreenFavicon.js:161-177 | the loop's dark count, light count and maximum alpha equal the specification functions; dark + light = length/4; for a byte buffer no pixel's alpha exceeds the maximum |
| OffscreenFavicon.VotesPartitionPixels | src/js/offscreenFavicon.js:167-177 | every pixel is counted exactly once, dark or light |
| OffscreenFavicon.MaxAlphaIsMaximum | src/js/offscreenFavicon.js:176 | maxAlpha is a byte, bounds every pixel's alpha and is attained by one (0 for no pixels) |
| OffscreenFavicon.TransparentIffMaxAlphaZero | src/js/offscreenFavicon.js:179-186 | maxAlpha is 0 exactly when every pixel is fully transparent |
| OffscreenFavicon.IsDarkMatchesFuzzyFormula | src/js/offscreenFavicon.js:188-189 | the integer test agrees with `(light − dark)/(w·h) + 0.1 < 0` over the reals |
| OffscreenFavicon.IsDarkNeedsDarkMajority | src/js/offscreenFavicon.js:188-189 | a dark verdict needs more dark than light pixels |
| OffscreenFavicon.NormalisedAlphaBounds | src/js/offscreenFavicon.js:190-195 | a normalised alpha lies in [a, 255], and the most opaque alpha becomes 255 |
| OffscreenFavicon.TransparentAt | src/js/offscreenFavicon.js:196-199 | both derived buffers have the input's length; the transparent alpha is the normalised alpha halved (rounded down); colour bytes are copied |
| OffscreenFavicon.DerivedBuffers | src/js/offscreenFavicon.js:157-159 | outside alpha bytes both derived buffers equal the input; every normalised alpha lies in [a, 255] and every transparent alpha is at most 127 |
| OffscreenFavicon.NormalisedReachesOpaque | src/js/offscreenFavicon.js:190-195 | when the icon is not transparent, some pixel of the normalised buffer is fully opaque |
| OffscreenFavicon.RewriteAlpha | src/js/offscreenFavicon.js:190-199 | the shape of both alpha loops: a fresh buffer equal to the input except that each pixel's alpha is recomputed from the same pixel's alpha in a second buffer |
| OffscreenFavicon.NormaliseAlpha | src/js/offscreenFavicon.js:192-195 | the loop's fresh buffer equals the normalised-buffer specification |
| OffscreenFavicon.HalveAlpha | src/js/offscreenFavicon.js:196-199 | the loop over the normalised buffer yields the transparent-buffer specification |
| OffscreenFavicon.ProcessLoadedImage | src/js/offscreenFavicon.js:133-216 | a failed `getImageData` rejects with its message; a transparent icon rejects with the transparency error; otherwise it resolves with the meta for the URL, the verdict and both encoded buffers |
| OffscreenFavicon.ProcessedMetaClassification | src/js/offscreenFavicon.js:188-189 | a dark meta has a dark majority |
| OffscreenFavicon.LumaIsFlooredWeightedSum | src/js/offscreenFavicon.js:236-240 | the integer luma equals `⌊0.3r + 0.59g + 0.11b⌋` |
| OffscreenFavicon.BinarisedPixel | src/js/offscreenFavicon.js:235-244 | after binarising, a pixel's R, G and B are all the black/white colour of its luma, and its alpha is 255 |
| OffscreenFavicon.PixelColourIsBlackOrWhite | src/js/offscreenFavicon.js:241-242 | the colour is 0 or 255, and it is 255 iff the luma exceeds 80 |
| OffscreenFavicon.BinaryColourFixed | src/js/offscreenFavicon.js:236-242 | pure black stays black and pure white stays white |
| OffscreenFavicon.BinarisedIdempotent | src/js/offscreenFavicon.js:235-244 | fingerprinting an already binarised buffer leaves it unchanged |
| OffscreenFavicon.Binarise | src/js/offscreenFavicon.js:235-244 | the in-place loop turns the buffer into its binarised specification |
| OffscreenFavicon.CreateImageFingerprint | src/js/offscreenFavicon.js:222-254 | an image that fails to load rejects with the fingerprint load error; otherwise it resolves with the encoding of the binarised 16×16 buffer |
| OffscreenFavicon.ImageLoad.constructor | src/js/offscreenFavicon.js:28-31 | the timeout defaults to 5000; the load starts pending with the timer armed |
| OffscreenFavicon.ImageLoad.Settle | src/js/offscreenFavicon.js:118-131 | the shared promise settles at most once; later settlements are ignored |
| OffscreenFavicon.ImageLoad.OnLoad | src/js/offscreenFavicon.js:133-135 | load clears the timer, marks the image loaded and settles with the processing result |
| OffscreenFavicon.ImageLoad.OnError | src/js/offscreenFavicon.js:118-121 | error marks the image loaded and rejects with the load error |
| OffscreenFavicon.ImageLoad.OnTimer | src/js/offscreenFavicon.js:125-131 | the timeout rejects only if the timer is armed, nothing has loaded and nothing has settled |
| OffscreenFavicon.LoadThenTimer | src/js/offscreenFavicon.js:125-135 | after a load, a late timer cannot change the outcome |
| OffscreenFavicon.ErrorThenTimer | src/js/offscreenFavicon.js:118-131 | after an error, a late timer does not replace the error with a timeout |
| OffscreenFavicon.ReplyFor | src/js/offscreenFavicon.js:7-12 | a success reply iff the operation succeeded, carrying its value; a failure carries `String(error)`, i.e. `'Error: '` + message |
| OffscreenFavicon.HandleRequest | src/js/offscreenFavicon.js:4-24 | both known actions keep the channel open and reply with success iff their operation succeeded; any other request gets no reply and closes the channel |
| GsFavicon.InvalidMetaCases | src/js/gsFavicon.js:266-307 | each reason alone makes a meta invalid: a sentinel data URL, a data URL that is not `data:image`, or a fingerprint equal to a registered default |
| GsFavicon.SentinelFailsGuard | src/js/gsFavicon.js:310-316 | a missing or `data:,` data URL is refused by the fingerprint guard |
| GsFavicon.CachedMeta | src/js/gsFavicon.js:238-247 | an empty URL yields nothing; the full-URL key is read first and wins when present; only when it is absent is the root-URL key read; a miss on both is nothing |
| GsFavicon.CacheRoundTrip | src/js/gsFavicon.js:238-263 | after a save, reading the same URL returns the saved meta, and so does any URL with the same root whose own full key is not cached; only the two keys change |
| GsFavicon.OriginalUrlOf | src/js/gsFavicon.js:173-183 | no URL for a missing tab, an empty URL or a file tab; a suspended tab yields its original URL |
| GsFavicon.FromTabIcon | src/js/gsFavicon.js:224-234 | a tab-icon meta is used iff it builds and is valid, and then it is the built meta |
| GsFavicon.Resolve | src/js/gsFavicon.js:173-219 | early-out returns the fallback with no cache access; a cache hit returns it with no builds; only valid results are written to the cache; at most two builds |
| GsFavicon.ResolveOrder | src/js/gsFavicon.js:185-218 | on a miss: an eligible, valid tab-icon meta is returned and cached under the original URL; otherwise the S2 build of the encoded URL is returned and cached when valid; otherwise the fallback is returned with no cache write |
| GsFavicon.ResolvedIsCachedNextTime | src/js/gsFavicon.js:208-218 | a resolved meta is what the next lookup of the same tab returns |
| GsFavicon.Relay | src/js/gsFavicon.js:49-91 | never more than two sends |
| GsFavicon.RelayPolicy | src/js/gsFavicon.js:49-91 | a failed create rejects with its error before any send; success yields `data`; a non-connection error propagates after one send; a connection error triggers one recreate-and-resend, after which a failed recreate rejects with its error, a second success yields its `data`, a thrown send propagates, and an unsuccessful answer reports "Offscreen (after retry): " with the reply's error or "Unknown error after retry." |
| GsFavicon.RegistrationKeys | src/js/gsFavicon.js:156-171 | only `norm_<id>` and `trans_<id>` are added; nothing is added when a data URL is missing |
| GsFavicon.RegisteredMetaIsInvalid | src/js/gsFavicon.js:156-171 | a registered default icon is afterwards judged invalid |
| GsFavicon.InitialisedFallback | src/js/gsFavicon.js:94-113 | the URL is kept; a successful build of the default icon supplies both data URLs and `isDark`; a failed build (including an empty extension URL) uses the hard-coded payloads and keeps `isDark` |
| GsFavicon.HardcodedPayloadsAreImages | src/js/gsFavicon.js:107-108 | the hard-coded payloads are PNG image data URLs, not sentinels |
| GsFavicon.FaviconState.constructor | src/js/gsFavicon.js:10-20 | empty registry; unprocessed default fallback |
| GsFavicon.FaviconState.SaveFaviconMetaDataToCache | src/js/gsFavicon.js:249-263 | a meta is stored under both keys; null, non-object or empty values leave the store unchanged |
| GsFavicon.FaviconState.IsFaviconMetaValid | src/js/gsFavicon.js:266-307 | the registry loop decides exactly the validity specification |
| GsFavicon.FaviconState.AddFaviconMetaToDefaultFingerprints | src/js/gsFavicon.js:156-171 | the registry becomes the registration specification |
| GsFavicon.FaviconState.AddDefaultFaviconMeta | src/js/gsFavicon.js:137-154 | a failed build changes nothing; a success registers the meta |
| GsFavicon.FaviconState.AddFaviconDefaults | src/js/gsFavicon.js:115-135 | the default icons' fingerprints are registered |
| GsFavicon.FaviconState.InitAsPromised | src/js/gsFavicon.js:94-113 | the fallback becomes the processed default icon, or the hard-coded one |
| GsFavicon.FaviconState.BuildFaviconMetaFromTabFavIconUrl | src/js/gsFavicon.js:224-234 | returns the tab-icon specification |
| GsFavicon.FaviconState.GetFaviconMetaData | src/js/gsFavicon.js:173-219 | returns the resolver's meta and applies its cache write |
| GsStorage.DefaultValue | src/js/gsStorage.js:36-61 | no default is null |
| GsStorage.DefaultsTable | src/js/gsStorage.js:35-59 | there is a default for exactly the keys the extension names, none null; sync on, no-nag off, 60-minute timer, light theme, previews off, empty whitelist |
| GsStorage.DefaultKeysListed | src/js/gsStorage.js:69-70 | `Object.keys` of the defaults lists 21 keys, exactly the keys of the defaults table |
| GsStorage.LocalForMerge | src/js/gsStorage.js:83-104 | parsed local settings get a `SYNC_SETTINGS` of false when it is missing; absent or unparseable settings are `{}` |
| GsStorage.MergeKey | src/js/gsStorage.js:110-152 | one key of the merge equals its specification |
| GsStorage.MergeKeys | src/js/gsStorage.js:108-153 | the loop builds the merge over the given keys |
| GsStorage.Merge | src/js/gsStorage.js:108-153 | the merged map equals the merge specification |
| GsStorage.MergedIsComplete | src/js/gsStorage.js:108-153 | the merged map has exactly the default keys and no null values |
| GsStorage.MergePrecedence | src/js/gsStorage.js:110-152 | `SYNC_SETTINGS` is false in incognito, else local then default; `NO_NAG` is forced true when syncing and locally set; otherwise synced wins when present and (local lacks the key or syncing is on), else local, else the default; a chosen null also gives the default, so a synced null that wins over a local value yields the default, not the local value |
| GsStorage.CheckResync | src/js/gsStorage.js:157-172 | the loop's flag is set iff some default key other than `SYNC_SETTINGS` is missing from sync or differs from the merged value |
| GsStorage.SyncedWinsMeansNoResync | src/js/gsStorage.js:108-172 | when syncing is on and sync holds every key, no resync is triggered |
| GsStorage.ApplyChangesEffect | src/js/gsStorage.js:190-220 | unlisted keys keep their values; every record is a listed key whose value really changed, with its old and new value; a `NO_NAG` that is not false never becomes false; no records means nothing changed |
| GsStorage.ApplyChangesComplete | src/js/gsStorage.js:188-210 | for distinct keys: every change except a `NO_NAG` set to false takes effect; an ignored `NO_NAG` keeps its old value; every applied change that differs from the old value is recorded with its old and new value |
| GsStorage.LastVersion | src/js/gsStorage.js:308-324 | never empty; a stored non-empty string is returned as is; absent or falsy gives `'0.0.0'` |
| GsStorage.PushedKeepsSyncFlagOut | src/js/gsStorage.js:285-306 | sync never receives `SYNC_SETTINGS`; every other setting is pushed iff syncing is on |
| GsStorage.SettingsStorage.constructor | src/js/gsStorage.js:272-282 | the storage holds the given local entry and synced map |
| GsStorage.SettingsStorage.SaveSettings | src/js/gsStorage.js:272-282 | the local entry becomes the given settings |
| GsStorage.SettingsStorage.GetSettings | src/js/gsStorage.js:250-270 | returns the stored settings, or the defaults (then saved) when absent or unparseable |
| GsStorage.SettingsStorage.GetOption | src/js/gsStorage.js:229-236 | a missing or null option is filled with its default and persisted |
| GsStorage.FilledValue | src/js/gsStorage.js:229-236 | `getOption` answers the stored value unless it is missing or null, then the default; for a key with a default the answer is never missing or null |
| GsStorage.SettingsStorage.SetOption | src/js/gsStorage.js:238-243 | only that key changes |
| GsStorage.SettingsStorage.Sync | src/js/gsStorage.js:285-306 | pushes every setting except `SYNC_SETTINGS`, and only when syncing is on |
| GsStorage.SettingsStorage.SetOptionAndSync | src/js/gsStorage.js:245-248 | set, then sync |
| GsStorage.SettingsStorage.InitSettings | src/js/gsStorage.js:68-175 | local becomes the merge of the stored entry, the synced defaults-keys and the defaults; a resync pushes it when needed |
| GsStorage.SettingsStorage.OnSettingsChanged | src/js/gsStorage.js:178-225 | other namespaces change nothing; with sync off nothing is recorded and only the defaulted sync flag is saved; otherwise the changes are applied and recorded as ApplyChanges specifies, whose soundness and completeness are ApplyChangesEffect and ApplyChangesComplete |
| SuspendedPage.QueryMatchIsFirstMark | src/js/suspendedPage.js:191-192 | the leftmost match of `/\/?[?#]+/` is the first `?` or `#`, moved back over one directly preceding `/` |
| SuspendedPage.CleanUrl | src/js/suspendedPage.js:188-196 | empty gives empty; the result is never longer than the input and contains no `?` or `#`; the scheme, query and trailing-slash rules are stated by CleanUrlOfFullUrl, CleanUrlDropsScheme and CleanUrlCutsQuery |
| SuspendedPage.CleanUrlIsSlice | src/js/suspendedPage.js:188-196 | the result is one contiguous piece of the input |
| SuspendedPage.CleanUrlKeepsPlainUrl | src/js/suspendedPage.js:188-196 | a URL with no `//` after index 0, no `?`/`#` and no trailing `/` is unchanged |
| SuspendedPage.CleanUrlOfFullUrl | src/js/suspendedPage.js:188-196 | for a scheme without `/`, any p without `?`/`#` and not ending in `/` (p may hold further slashes) and any q: `scheme//p` followed by `?`, `#`, `/?` or `/#` and q becomes p, e.g. `http://host/a/b?x` becomes `host/a/b` |
| SuspendedPage.CleanUrlCutsQuery | src/js/suspendedPage.js:191-194 | for a URL without a scheme, where p and q hold no `//` and p no `?`/`#` and no trailing `/`: `p/?q` and `p#q` become p, and a single trailing slash is removed |
| SuspendedPage.CleanUrlDropsScheme | src/js/suspendedPage.js:189-194 | the scheme up to and including `//` is dropped, then one trailing slash is removed: `http://host/path/` becomes `host/path` |
| SuspendedPage.ParseInt | src/js/suspendedPage.js:141 | an empty string or one without digits is `NaN`; a negative result needs a minus sign in the text |
| SuspendedPage.ParseIntOfDecimal | src/js/suspendedPage.js:141 | `parseInt` reads back the decimal rendering of every integer, whatever non-digit text follows |
| SuspendedPage.ScrollPosition | src/js/suspendedPage.js:141 | an empty position or one that is `NaN` is 0; a non-empty position that `parseInt` reads is exactly the number read |
| SuspendedPage.ScrollPositionOfDecimal | src/js/suspendedPage.js:141 | a position stored as the decimal string of n, with any non-digit text after it, is restored as n |
| SuspendedPage.ScrollTarget | src/js/suspendedPage.js:140-148 | the target is 0, or more than 166 in preview mode `'2'` |
| SuspendedPage.ScrollTargetOfDecimal | src/js/suspendedPage.js:140-148 | a stored position n gives n + 151 iff the mode is `'2'` and n > 15, else 0 |
| SuspendedPage.TogglePreview | src/js/suspendedPage.js:84-133 | a container is built only when missing and needed; container `none` iff the preview is hidden, else `block`; the message is `flex` iff hidden, else `none`; overflow `auto` iff mode `'2'` with a preview; `img-preview-mode` iff not hidden |
| SuspendedPage.SetTheme | src/js/suspendedPage.js:37-53 | `dark` iff the theme is dark; the low-contrast frame needs the dark theme and a low-contrast favicon |
| SuspendedPage.SetThemeLowContrastOnlyWhenDark | src/js/suspendedPage.js:45-52 | the low-contrast frame is set iff dark theme and low-contrast favicon |
| SuspendedPage.HandleUnsuspendRequest | src/js/suspendedPage.js:222-235 | the shortcut link sends `openShortcutsPage`; otherwise only a left click sends `unsuspendTab` |
| SuspendedPage.OnMessage | src/js/suspendedPage.js:298-340 | only `updatePreviewMode` keeps the channel open; success iff the action is known and its asynchronous toggle did not fail; every failure carries an error; unknown actions get `'Unknown action'` |
| GsSuspendedTab.PreviewUri | src/js/gsSuspendedTab.js:112-126 | a returned preview is the stored image, longer than 10000, neither empty nor `data:,` |
| GsSuspendedTab.PreviewUriIsLengthTest | src/js/gsSuspendedTab.js:116-122 | of the guards only the length test decides |
| GsSuspendedTab.SuspendedTitle | src/js/gsSuspendedTab.js:27-30 | the title is HTML-encoded iff it contains `<` |
| GsSuspendedTab.SuspendedTitleHasNoTag | src/js/gsSuspendedTab.js:27-30 | with an encoder that escapes `<`, no title carries a raw `<` |
| GsSuspendedTab.InitTab | src/js/gsSuspendedTab.js:24-85 | `quickInit` sends nothing; otherwise the payload carries the favicon meta, `isLowContrastFavicon` = `isDark`, the low-memory message as reason iff the code is 3, else none; the title, HTML-encoded iff it holds `<`; the stored scroll position and the hotkey text; the settings' preview mode and theme; the original URL and the checked preview |
| GsSuspendedTab.InitTabRendering | src/js/gsSuspendedTab.js:43-76 | with no usable preview, the page shows the message and builds no preview; the low-contrast frame appears iff the theme is dark and the favicon is dark; scrolling needs preview mode `'2'` |
| GsSuspendedTab.SendMessageToSuspendedPage | src/js/gsSuspendedTab.js:7-22 | never rejects: a throw or `lastError` becomes `{success:false, error}`; otherwise the response is passed on |
| GsSuspendedTab.SendReachesListener | src/js/gsSuspendedTab.js:7-22 | end to end with the page listener: success iff the action is known; failures carry an error; unknown actions report `'Unknown action'` |
| Popup.Reported | src/js/popup.js:26 | no response counts as unknown |
| Popup.PollFrom | src/js/popup.js:24-51 | the result is the last answer; every earlier answer was transient; it stops at the first settled answer or when retries run out |
| Popup.GetTabStatus | src/js/popup.js:24-51 | between 1 and retries + 1 queries; the result is the first settled answer, or the last answer when retries run out |
| Popup.GetTabStatusIsFirstSettled | src/js/popup.js:24-51 | when answer j is the first settled one within the budget, it is returned after j + 1 queries |
| Popup.GetTabStatusAsPromise | src/js/popup.js:53-63 | a transient result becomes `'error'` iff transient states are not allowed |
| Popup.GetTabStatusAsPromiseSettles | src/js/popup.js:53-63 | without transient states allowed, the result is never transient |
| Popup.SuspendCurrentVisibility | src/js/popup.js:108-129 | the suspend, whitelist and unsuspend controls follow the three status lists; `optsCurrent` iff any is shown |
| Popup.CurrentControlsTable | src/js/popup.js:108-129 | the section is hidden iff the status is special, blocked file or unknown; suspend and unsuspend never show together |
| Popup.SuspendSelectedVisibility | src/js/popup.js:131-137 | shown iff at least two tabs are selected |
| Popup.StatusHeaderClasses | src/js/popup.js:179-185 | `willSuspend` and `blockedFile` never appear together; `willSuspend` comes with the whitelist toggle and `blockedFile` with the permission prompt; neither appears for other statuses |
| Popup.ActionName | src/js/popup.js:187-196 | the toggle for normal, active, form-input and temporarily whitelisted tabs; unwhitelist for whitelisted; the permission prompt for blocked files |
| Popup.StatusTablesAgree | src/js/popup.js:139-196 | a link gets an action iff it exists; `willSuspend` iff normal/active; `blockedFile` iff blocked file; never both; a blocked file shows no current-tab controls |
| Options.AutoSuspendVisible | src/js/options.js:67-69 | for the interval as read back: shown only for a string that parses to a positive number, never for `'0'` (never suspend) or a boolean; shown for every decimal numeral with a non-zero leading digit |
| Options.AutoSuspendVisibleOfDecimal | src/js/options.js:67-69 | an interval stored as the numeral of n shows the options iff n > 0 |
| Options.ForceCaptureVisible | src/js/options.js:64-66 | for the preview setting as read back: hidden for `'0'`, shown for any other value |
| Options.SyncNoteVisible | src/js/options.js:70 | for the sync flag as read back: shown for false or an empty string; hidden for true or a non-empty string |
| Options.LoadVisibility | src/js/options.js:64-70 | on load each of the three is read with `getOption`: a missing or null preview setting hides forced capture (default `'0'`), a missing or null interval shows auto-suspend (default `'60'`), a missing or null sync flag hides the note (default `true`); a stored non-null value decides as `!== '0'`, `parseFloat(v) > 0` and `!v` |
| Options.InitVisibility | src/js/options.js:64-70 | the three `getOption` calls give the load visibilities of the settings as stored, and fill and save each of the three settings that was missing or null |
| Options.CleanedValue | src/js/options.js:212-215 | a whitelist string is replaced by its cleaned form; every other value is saved as it is |
| Options.SavedSettingsProperties | src/js/options.js:207-223 | after a save the option holds the new value; other keys are unchanged; saving the same value again changes nothing |
| Options.SavedIsUpdate | src/js/options.js:207-223 | reading the option first (which may fill in its default) leaves no trace: a save is a plain write of the new value |
| Options.SaveChange | src/js/options.js:207-223 | returns the old (default-filled) value and the cleaned new value; persists and syncs only when they differ |
| Options.HandleChange | src/js/options.js:167-205 | the theme saves and reloads with no post-save update; others save and run post-save updates only when the value changed; on change, the forced-capture group follows `!== '0'` and the auto-suspend group follows `v > 0` (so `true` shows it); for a string value the latter agrees with what a reload would show |
| Options.TruncateUrl | src/js/options.js:259 | entries over 55 characters become their first 52 plus `...`, exactly 55; shorter entries are unchanged |
| Options.Reportables | src/js/options.js:256-258 | the filter keeps every whitelisted non-suspended URL and nothing else; its multiplicity and order are stated by ReportablesCount and ReportablesAppend |
| Options.ReportablesCount | src/js/options.js:256-258 | the filter keeps every reportable URL as often as it occurs and drops every other |
| Options.ReportablesAppend | src/js/options.js:256-258 | the filter keeps order: filtering a concatenation concatenates the filtered parts |
| Options.ReportUrlsAppend | src/js/options.js:249-259 | the report of two tab lists is the two reports in order |
| Options.ReportUrlsSound | src/js/options.js:249-259 | every entry is at most 55 characters and shortens a reportable tab URL; the i-th entry is the truncation of the i-th kept display URL; each reportable URL is kept exactly as often as tabs display it |
| Options.TestWhitelist | src/js/options.js:246-277 | no matches gives the no-matches message; otherwise at most 22 entries are listed in order, and the overflow count is the rest |

## Left out

- **Image decoding, drawing and PNG encoding.** Pixel buffers are inputs, and encoders are functions. Data URLs and fingerprints are compared only by equality.
- **Floating-point arithmetic.** The 0.1 fuzz, `1/(maxAlpha/255)` and the luma weights are stated exactly. `IsDarkMatchesFuzzyFormula` and `LumaIsFlooredWeightedSum` relate the two forms over the reals. JavaScript's doubles may round differently at boundary values.
- **The first `onload`** assigned in `buildFaviconMetaData` (src/js/offscreenFavicon.js:34-116) is replaced before it can run, so it is not modelled.
- **The offscreen document's lifecycle** (src/js/gsFavicon.js:22-47). Whether the document exists, its single-flight creation and closing are not modelled. The relay sees only the outcome of each create and send.
- **`executeWithRetries`**, which wraps the build in `addDefaultFaviconMeta` (src/js/gsFavicon.js:140-145), is a helper outside the core. That build, like every other, is one deterministic call of `Env.build`.
- **gsFavicon's exported object** lists `generateChromeFavIconUrlFromUrl` and `buildFaviconMetaFromChromeFaviconCache` (src/js/gsFavicon.js:327-333). Neither is defined in that file, and the export surface is not modelled.
- GsFavicon.FaviconState.constructor: before `initAsPromised` resolves, the JavaScript fallback is `undefined`. The model starts from the unprocessed default meta instead.
- **String lengths.** JavaScript's `length` and `substr` count UTF-16 code units; the model's strings count characters. Options.TruncateUrl (src/js/options.js:259) and GsSuspendedTab.PreviewUri's `length > 10000` test (src/js/gsSuspendedTab.js:121) therefore differ for text outside the Basic Multilingual Plane.
- **Property names of settings.** A setting key is a `Key` constructor, not a string. An `OtherKey` whose name spells one of the named keys would be the same JSON property in the extension but a different key in the model; stored objects are taken not to contain such duplicates.
- **Storage I/O.** Write failures, JSON stringification and the asynchrony of `chrome.storage` are left out. A JSON parse that fails is `Unparseable`; parsing to a non-object is not distinguished.
- **The `gsSession.setSynchedSettingsOnInit` call** at start-up is a helper outside the core.
- **DOM writes, `localiseHtml`, i18n lookups, listener wiring, `alert`, `window.close`, timers and `debounce`.** Each UI rule returns the values it would write.
- **Inputs to `initTab` taken as given.** The favicon meta, the settings, `updateAvailable` and the tab's stored reason code are the results of awaited calls to modules outside the core. The title and original URL come from `gsUtils` helpers.
- SuspendedPage.ParseInt: only base-10 `parseInt` is modelled. The `0x` hexadecimal prefix and white space other than space, tab, CR and LF are not.
- Options.AutoSuspendVisible: for strings, `parseFloat(v) > 0` at load and `v > 0` on change are both modelled by one decimal reading. The two differ for strings such as `"60abc"` or `"1e3"`, which the interval selector never produces. For booleans and null the two readings are kept apart (`ParsesAboveZero` and `ComparesAboveZero`).
- Options.InitVisibility: models only the three visibility reads at the end of `initSettings` (src/js/options.js:64-70). The theme read and the `populateOption` loop before them also call `getOption` and fill keys, these three among them. Filling a key leaves every other key alone (`GsStorage.FilledElsewhere`) and leaves the key itself non-null (`GsStorage.FilledValue`), so the three reads answer as they would on their own.
- Options.CleanedValue: `cleanupWhitelist` is applied only to string values. The whitelist element always yields a string.
- **The popup's start-up sequence and click handlers** (src/js/popup.js:77-105, 198-262) are left out. They are message sends and DOM updates. A rejected `sendMessageToBackground` is not modelled: the polling sees only responses.
- **Popup statuses.** The `gsUtils.STATUS_*` strings are constructors of `Status`, assumed pairwise different and different from `'error'`.
