/** The service-worker side of a suspended tab: which preview image is
    usable, the page title, the payload sent with `initTab`, and how a
    failed message send is reported. */
module GsSuspendedTab {
  import opened Wrappers
  import opened OffscreenFavicon
  import opened GsStorage
  import opened SuspendedPage
  import GsFavicon

  // ---------------------------------------------------------------------
  // getPreviewUri
  // ---------------------------------------------------------------------

  /** A stored preview shorter than this is not shown. */
  const MinPreviewLength: nat := 10000

  /** `getPreviewUri`.  `preview` is the stored `preview.img`, `None` when
      there is no record or no image. */
  function PreviewUri(preview: Option<string>): (uri: Option<string>)
    ensures uri.Some? ==> uri == preview && |uri.value| > MinPreviewLength
    ensures uri.Some? ==> uri.value != "" && uri.value != GsFavicon.EmptyDataUrl
  {
    match preview
    case None => None
    case Some(img) =>
      if img != "" && img != GsFavicon.EmptyDataUrl && |img| > MinPreviewLength then Some(img) else None
  }

  /** Of the guards in `getPreviewUri` only the length test decides: an
      image longer than 10000 characters is neither empty nor `data:,`. */
  lemma PreviewUriIsLengthTest(preview: Option<string>)
    ensures PreviewUri(preview) == if preview.Some? && |preview.value| > MinPreviewLength then preview else None
  {
    assert |GsFavicon.EmptyDataUrl| <= MinPreviewLength;
  }

  // ---------------------------------------------------------------------
  // initTab
  // ---------------------------------------------------------------------

  /** The title shown by the suspended page: the stored title, HTML-encoded
      only when it contains `<`. */
  function SuspendedTitle(raw: string, htmlEncode: string -> string): (title: string)
    ensures '<' !in raw ==> title == raw
    ensures '<' in raw ==> title == htmlEncode(raw)
  {
    var i := IndexOf(raw, "<");
    assert '<' in raw ==> i >= 0 by {
      if '<' in raw {
        var j :| 0 <= j < |raw| && raw[j] == '<';
        assert raw[j..j + 1] == "<";
        assert OccursAt(raw, "<", j);
      }
    }
    assert i >= 0 ==> raw[i] == '<' by {
      if i >= 0 {
        assert raw[i..i + 1] == "<";
      }
    }
    if i >= 0 then htmlEncode(raw) else raw
  }

  /** With an encoder that escapes `<`, no title reaches the page with a
      raw `<`. */
  lemma SuspendedTitleHasNoTag(raw: string, htmlEncode: string -> string)
    requires forall s :: '<' !in htmlEncode(s)
    ensures '<' !in SuspendedTitle(raw, htmlEncode)
  {
  }

  /** The helpers `initTab` calls: title and original URL from the
      suspended URL, the stored preview image, the stored scroll position,
      the hotkey text and the localised low-memory message. */
  datatype TabEnv = TabEnv(
    suspendedTitle: string -> string,
    htmlEncode: string -> string,
    originalUrl: string -> string,
    fetchPreview: string -> Option<string>,
    scrollPosition: string -> string,
    hotkey: string,
    lowMemoryMessage: string)

  /** The reason code that carries a message on the suspended page. */
  const LowMemoryReason: int := 3

  /** The object sent with `initTab`. */
  datatype InitPayload = InitPayload(
    title: string,
    originalUrl: string,
    faviconMeta: FaviconMeta,
    theme: Option<Value>,
    isLowContrastFavicon: bool,
    suspensionToggleHotkey: string,
    suspendReason: Option<string>,
    previewMode: Option<Value>,
    previewUri: Option<string>,
    scrollPosition: string,
    updateAvailable: Option<Value>)

  /** `initTab`: `None` when `quickInit` returns before anything is sent.
      `faviconMeta`, the settings and `updateAvailable` are what the awaited
      lookups produced; `suspendReasonInt` is the tab's stored reason. */
  function InitTab(
    suspendedUrl: string, quickInit: bool, faviconMeta: FaviconMeta, options: Settings,
    suspendReasonInt: Option<int>, updateAvailable: Option<Value>, env: TabEnv): (payload: Option<InitPayload>)
    ensures payload.None? <==> quickInit
    ensures payload.Some? ==>
      var p := payload.value;
      && p.faviconMeta == faviconMeta
      && p.isLowContrastFavicon == faviconMeta.isDark
      && (p.suspendReason.Some? <==> suspendReasonInt == Some(LowMemoryReason))
      && p.suspendReason == (if suspendReasonInt == Some(LowMemoryReason) then Some(env.lowMemoryMessage) else None)
      && p.title == SuspendedTitle(env.suspendedTitle(suspendedUrl), env.htmlEncode)
      && p.scrollPosition == env.scrollPosition(suspendedUrl)
      && p.suspensionToggleHotkey == env.hotkey
      && p.previewMode == Lookup(options, ScreenCapture)
      && p.theme == Lookup(options, Theme)
      && p.originalUrl == env.originalUrl(suspendedUrl)
      && p.previewUri == PreviewUri(env.fetchPreview(p.originalUrl))
      && p.updateAvailable == updateAvailable
  {
    var title := SuspendedTitle(env.suspendedTitle(suspendedUrl), env.htmlEncode);
    if quickInit then None
    else
      var originalUrl := env.originalUrl(suspendedUrl);
      Some(InitPayload(
        title,
        originalUrl,
        faviconMeta,
        Lookup(options, Theme),
        faviconMeta.isDark,
        env.hotkey,
        if suspendReasonInt == Some(LowMemoryReason) then Some(env.lowMemoryMessage) else None,
        Lookup(options, ScreenCapture),
        PreviewUri(env.fetchPreview(originalUrl)),
        env.scrollPosition(suspendedUrl),
        updateAvailable))
  }

  /** How the page script sees a setting value: strings as they are, `true`
      as a non-empty string equal to none of the mode or theme names, and
      every falsy value as the empty string. */
  function PageString(v: Option<Value>): string {
    match v
    case Some(Str(s)) => s
    case Some(Bool(true)) => "true"
    case _ => ""
  }

  /** What the suspended page shows for an `initTab` payload: without a
      usable preview image it shows the suspended message and builds no
      preview; the low-contrast favicon frame appears only in the dark
      theme with a dark favicon; the preview's scroll offset is restored
      only in full-page mode. */
  lemma InitTabRendering(
    suspendedUrl: string, faviconMeta: FaviconMeta, options: Settings,
    suspendReasonInt: Option<int>, updateAvailable: Option<Value>, env: TabEnv,
    containerExists: bool)
    ensures var p := InitTab(suspendedUrl, false, faviconMeta, options, suspendReasonInt, updateAvailable, env).value;
      var mode := PageString(p.previewMode);
      var shown := TogglePreview(mode, p.previewUri.GetOr(""), containerExists, true);
      && (PreviewUri(env.fetchPreview(env.originalUrl(suspendedUrl))).None? ==>
            shown.message == Some("flex") && !shown.created && !shown.previewModeClass)
      && (SetTheme(PageString(p.theme), p.isLowContrastFavicon, true).lowContrast == Some(true) <==>
            Lookup(options, Theme) == Some(Str("dark")) && faviconMeta.isDark)
      && (ScrollTarget(p.scrollPosition, mode) != 0 ==> Lookup(options, ScreenCapture) == Some(Str("2")))
  {
    var p := InitTab(suspendedUrl, false, faviconMeta, options, suspendReasonInt, updateAvailable, env).value;
    assert PageString(p.theme) == "dark" <==> Lookup(options, Theme) == Some(Str("dark"));
    assert PageString(p.previewMode) == "2" <==> Lookup(options, ScreenCapture) == Some(Str("2"));
  }

  // ---------------------------------------------------------------------
  // sendMessageToSuspendedPage
  // ---------------------------------------------------------------------

  /** How `chrome.tabs.sendMessage` settled: with the page's response (if
      any) and `chrome.runtime.lastError`, or by throwing. */
  datatype Delivery =
    | Delivered(response: Option<PageReply>, lastError: Option<string>)
    | Threw(error: string)

  /** `sendMessageToSuspendedPage` never rejects: a thrown error and a
      `lastError` both become `{success: false, error}`; otherwise the
      page's response is passed on. */
  function SendMessageToSuspendedPage(d: Delivery): (r: Option<PageReply>)
    ensures d.Threw? ==> r == Some(PageReply(false, None, Some(d.error)))
    ensures d.Delivered? && d.lastError.Some? ==> r == Some(PageReply(false, None, d.lastError))
    ensures d.Delivered? && d.lastError.None? ==> r == d.response
  {
    match d
    case Threw(e) => Some(PageReply(false, None, Some(e)))
    case Delivered(response, lastError) =>
      if lastError.Some? then Some(PageReply(false, None, lastError)) else response
  }

  /** End to end with the page's listener: a delivered message is answered
      with success exactly for the actions the page knows (the preview
      update also needing its toggle to settle), every failure carries an
      error, and an unknown action is reported as such. */
  lemma SendReachesListener(action: string, previewFailure: Option<string>)
    ensures var r := SendMessageToSuspendedPage(Delivered(Some(OnMessage(action, previewFailure).reply), None));
      && r.Some?
      && (r.value.success <==> KnownAction(action) && !(action == "updatePreviewMode" && previewFailure.Some?))
      && (!r.value.success ==> r.value.error.Some?)
      && (!KnownAction(action) ==> r.value.error == Some("Unknown action"))
  {
  }
}
