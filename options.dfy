/** The options page: saving a changed setting, the visibility of the
    dependent option groups, and the whitelist test report. */
module Options {
  import opened Wrappers
  import opened GsStorage
  import opened GsFavicon
  import SuspendedPage

  // ---------------------------------------------------------------------
  // Dependent option groups
  // ---------------------------------------------------------------------

  /** A plain decimal numeral: digits with at most one decimal point and at
      least one digit. */
  predicate IsDecimalNumeral(s: string) {
    && (exists i :: 0 <= i < |s| && '0' <= s[i] <= '9')
    && (forall i :: 0 <= i < |s| ==> ('0' <= s[i] <= '9' || s[i] == '.'))
    && (forall i, j :: 0 <= i < j < |s| && s[i] == '.' ==> s[j] != '.')
  }

  /** A decimal numeral worth more than 0: it has a non-zero digit. */
  predicate IsPositiveNumeral(s: string) {
    IsDecimalNumeral(s) && exists i :: 0 <= i < |s| && '1' <= s[i] <= '9'
  }

  /** `v > 0` in JavaScript: the value is converted to a number first, so
      `true` is 1 and `null` is 0. */
  predicate ComparesAboveZero(v: Value) {
    match v
    case Bool(b) => b
    case Str(s) => IsPositiveNumeral(s)
    case Null => false
  }

  /** `parseFloat(v) > 0`: the value is converted to a string first, so
      `true` and `null` read as `NaN`. */
  predicate ParsesAboveZero(v: Value) {
    v.Str? && IsPositiveNumeral(v.s)
  }

  /** Visibility of the forced screen-capture option for a preview setting
      as read back (`value !== '0'`): shown unless previews are off.  On
      load the page passes what `getOption` answers, which is never missing
      or null (`LoadVisibility`); a missing value is kept here only because
      `!==` treats it like any other value but `'0'`. */
  function ForceCaptureVisible(previewSetting: Option<Value>): (visible: bool)
    ensures previewSetting.None? ==> visible
    ensures previewSetting == Some(Str("0")) ==> !visible
    ensures previewSetting.Some? && previewSetting.value.Str? && previewSetting.value.s != "0" ==> visible
    ensures previewSetting.Some? && !previewSetting.value.Str? ==> visible
  {
    previewSetting != Some(Str("0"))
  }

  /** Visibility of the auto-suspend options for an interval as read back
      (`parseFloat(value) > 0`): shown only for an interval that parses to a
      positive number.  On load the page passes what `getOption` answers,
      so a missing or null interval reaches this as the default `'60'`
      (`LoadVisibility`). */
  function AutoSuspendVisible(interval: Option<Value>): (visible: bool)
    ensures visible ==> interval.Some? && interval.value != Null
    ensures interval == Some(Str("0")) ==> !visible
    ensures interval.Some? && !interval.value.Str? ==> !visible
    ensures (interval.Some? && interval.value.Str? && IsDecimalNumeral(interval.value.s)
             && '1' <= interval.value.s[0] <= '9') ==> visible
  {
    interval.Some? && ParsesAboveZero(interval.value)
  }

  /** An interval stored as the decimal numeral of `n` minutes shows the
      auto-suspend options exactly when `n` is positive. */
  lemma AutoSuspendVisibleOfDecimal(n: nat)
    ensures AutoSuspendVisible(Some(Str(SuspendedPage.Decimal(n)))) <==> n > 0
  {
    var ds := SuspendedPage.Digits(n);
    assert SuspendedPage.Decimal(n) == ds;
    DigitsAreNumeral(ds);
    SuspendedPage.DigitsValueOfDigits(n);
    if n > 0 {
      NonZeroValueHasNonZeroDigit(ds);
    } else {
      assert ds == ['0'];
    }
  }

  /** A non-empty run of digits is a decimal numeral. */
  lemma DigitsAreNumeral(ds: string)
    requires |ds| > 0 && forall i :: 0 <= i < |ds| ==> SuspendedPage.IsDigit(ds[i])
    ensures IsDecimalNumeral(ds)
  {
    assert '0' <= ds[0] <= '9';
  }

  /** A numeral worth more than 0 has a digit other than `0`. */
  lemma NonZeroValueHasNonZeroDigit(ds: string)
    requires forall i :: 0 <= i < |ds| ==> SuspendedPage.IsDigit(ds[i])
    requires SuspendedPage.DigitsValue(ds) > 0
    ensures exists i :: 0 <= i < |ds| && '1' <= ds[i] <= '9'
  {
    if forall i :: 0 <= i < |ds| ==> ds[i] == '0' {
      ZeroDigitsValue(ds);
    }
    var i :| 0 <= i < |ds| && ds[i] != '0';
    assert '1' <= ds[i] <= '9';
  }

  /** A numeral of zeros is worth 0. */
  lemma {:induction false} ZeroDigitsValue(ds: string)
    requires forall i :: 0 <= i < |ds| ==> ds[i] == '0'
    ensures SuspendedPage.DigitsValue(ds) == 0
  {
    if ds != [] {
      ZeroDigitsValue(ds[..|ds| - 1]);
    }
  }

  /** Visibility of the sync note for a sync flag as read back
      (`!value`): shown only while the flag is falsy.  On load the page
      passes what `getOption` answers, so a missing or null flag reaches
      this as the default `true` and the note stays hidden
      (`LoadVisibility`). */
  function SyncNoteVisible(syncSetting: Option<Value>): (visible: bool)
    ensures syncSetting == Some(Bool(true)) ==> !visible
    ensures syncSetting.None? || syncSetting == Some(Bool(false)) || syncSetting == Some(Null) ==> visible
    ensures syncSetting == Some(Str("")) ==> visible
    ensures syncSetting.Some? && syncSetting.value.Str? && syncSetting.value.s != "" ==> !visible
  {
    !(syncSetting.Some? && Truthy(syncSetting.value))
  }

  /** The three visibilities `initSettings` sets once it has read the
      preview setting, the interval and the sync flag. */
  datatype LoadedView = LoadedView(forceCaptureVisible: bool, autoSuspendVisible: bool, syncNoteVisible: bool)

  /** What the page shows on load for the stored settings: each of the
      three is read with `getOption`, so a missing or null setting counts
      as its default (previews off, 60 minutes, syncing on). */
  function LoadVisibility(settings: Settings): (view: LoadedView)
    ensures MissingOrNull(settings, ScreenCapture) ==> !view.forceCaptureVisible
    ensures MissingOrNull(settings, SuspendTime) ==> view.autoSuspendVisible
    ensures MissingOrNull(settings, SyncSettings) ==> !view.syncNoteVisible
    ensures !MissingOrNull(settings, ScreenCapture) ==>
      view.forceCaptureVisible == (settings[ScreenCapture] != Str("0"))
    ensures !MissingOrNull(settings, SuspendTime) ==>
      view.autoSuspendVisible == ParsesAboveZero(settings[SuspendTime])
    ensures !MissingOrNull(settings, SyncSettings) ==>
      view.syncNoteVisible == !Truthy(settings[SyncSettings])
  {
    FilledValue(settings, ScreenCapture);
    FilledValue(settings, SuspendTime);
    FilledValue(settings, SyncSettings);
    assert Lookup(Defaults, ScreenCapture) == Some(Str("0")) by {
      assert ScreenCapture in DefaultKeySet;
    }
    assert Lookup(Defaults, SuspendTime) == Some(Str("60")) by {
      assert SuspendTime in DefaultKeySet;
    }
    assert Lookup(Defaults, SyncSettings) == Some(Bool(true)) by {
      assert SyncSettings in DefaultKeySet;
    }
    assert IsPositiveNumeral("60") by {
      assert "60"[0] == '6';
    }
    LoadedView(
      ForceCaptureVisible(Lookup(Filled(settings, ScreenCapture), ScreenCapture)),
      AutoSuspendVisible(Lookup(Filled(settings, SuspendTime), SuspendTime)),
      SyncNoteVisible(Lookup(Filled(settings, SyncSettings), SyncSettings)))
  }

  /** The visibility step of `initSettings`: three `getOption` calls, each
      of which fills and saves its setting when missing or null. */
  method InitVisibility(storage: SettingsStorage) returns (view: LoadedView)
    modifies storage`local
    ensures var before := SettingsOf(old(storage.local));
      && view == LoadVisibility(before)
      && storage.local == Parsed(Filled(Filled(Filled(before, ScreenCapture), SuspendTime), SyncSettings))
  {
    ghost var before := SettingsOf(storage.local);
    var preview := storage.GetOption(ScreenCapture);
    ghost var afterPreview := Filled(before, ScreenCapture);
    var interval := storage.GetOption(SuspendTime);
    ghost var afterInterval := Filled(afterPreview, SuspendTime);
    var sync := storage.GetOption(SyncSettings);
    FilledElsewhere(before, ScreenCapture, SuspendTime);
    FilledElsewhere(before, ScreenCapture, SyncSettings);
    FilledElsewhere(afterPreview, SuspendTime, SyncSettings);
    assert Lookup(Filled(afterPreview, SuspendTime), SuspendTime) == Lookup(Filled(before, SuspendTime), SuspendTime);
    assert Lookup(Filled(afterInterval, SyncSettings), SyncSettings) == Lookup(Filled(before, SyncSettings), SyncSettings);
    view := LoadedView(preview != Some(Str("0")), interval.Some? && ParsesAboveZero(interval.value),
                       !(sync.Some? && Truthy(sync.value)));
  }

  // ---------------------------------------------------------------------
  // saveChange
  // ---------------------------------------------------------------------

  /** The value `saveChange` saves: a whitelist is cleaned up first. */
  function CleanedValue(pref: Key, elementValue: Value, cleanupWhitelist: string -> string): (v: Value)
    ensures pref != Whitelist ==> v == elementValue
    ensures pref == Whitelist && elementValue.Str? ==> v == Str(cleanupWhitelist(elementValue.s))
  {
    if pref == Whitelist && elementValue.Str? then Str(cleanupWhitelist(elementValue.s)) else elementValue
  }

  /** The settings after `saveChange` stored `newValue` under `pref`:
      reading the option fills it with its default, and the new value is
      written only when it differs from what was read. */
  function SavedSettings(settings: Settings, pref: Key, newValue: Value): Settings {
    var filled := Filled(settings, pref);
    if Lookup(filled, pref) == Some(newValue) then filled else filled[pref := newValue]
  }

  /** After a save the option holds the new value, no other key changes
      (the default-filling of `pref` is overwritten), and saving the same
      value again changes nothing. */
  lemma SavedSettingsProperties(settings: Settings, pref: Key, newValue: Value)
    ensures Lookup(SavedSettings(settings, pref, newValue), pref) == Some(newValue)
    ensures forall k :: k != pref ==> Lookup(SavedSettings(settings, pref, newValue), k) == Lookup(settings, k)
    ensures SavedSettings(SavedSettings(settings, pref, newValue), pref, newValue) == SavedSettings(settings, pref, newValue)
  {
    SavedIsUpdate(settings, pref, newValue);
    SavedIsUpdate(settings[pref := newValue], pref, newValue);
    assert settings[pref := newValue][pref := newValue] == settings[pref := newValue];
  }

  /** Filling `pref` with its default touches only `pref`, so a save is a
      plain update. */
  lemma SavedIsUpdate(settings: Settings, pref: Key, newValue: Value)
    ensures SavedSettings(settings, pref, newValue) == settings[pref := newValue]
  {
    var filled := Filled(settings, pref);
    if pref in settings && settings[pref] != Null {
      assert filled == settings;
    } else {
      OverwrittenFill(settings, pref, Lookup(Defaults, pref), newValue);
    }
    assert Lookup(filled, pref) == Some(newValue) ==> filled == filled[pref := newValue];
  }

  /** Whatever `SetTo` put under `pref` is lost once `pref` is written. */
  lemma OverwrittenFill(settings: Settings, pref: Key, fill: Option<Value>, newValue: Value)
    ensures SetTo(settings, pref, fill)[pref := newValue] == settings[pref := newValue]
  {
    if fill.Some? {
      assert settings[pref := fill.value][pref := newValue] == settings[pref := newValue];
    } else {
      assert (settings - {pref})[pref := newValue] == settings[pref := newValue];
    }
  }

  /** `saveChange`: reads the old value, cleans a whitelist, and persists
      and syncs only when the value changed.  Returns `[oldValue, newValue]`. */
  method SaveChange(storage: SettingsStorage, pref: Key, elementValue: Value, cleanupWhitelist: string -> string)
    returns (oldValue: Option<Value>, newValue: Value)
    modifies storage
    ensures var filled := Filled(SettingsOf(old(storage.local)), pref);
      && oldValue == Lookup(filled, pref)
      && newValue == CleanedValue(pref, elementValue, cleanupWhitelist)
      && storage.local == Parsed(SavedSettings(SettingsOf(old(storage.local)), pref, newValue))
      && storage.synced == (if oldValue == Some(newValue) then old(storage.synced)
                            else Pushed(old(storage.synced), filled[pref := newValue]))
  {
    oldValue := storage.GetOption(pref);
    newValue := CleanedValue(pref, elementValue, cleanupWhitelist);
    if oldValue != Some(newValue) {
      storage.SetOptionAndSync(pref, newValue);
    }
  }

  // ---------------------------------------------------------------------
  // handleChange
  // ---------------------------------------------------------------------

  /** The arguments of `gsUtils.performPostSaveUpdates`. */
  datatype PostSave = PostSave(key: Key, oldValue: Option<Value>, newValue: Value)

  /** What a change of one option element leads to: the dependent group
      visibilities it sets (`None`: untouched), whether the sync note is
      hidden, whether the page reloads, and the post-save update. */
  datatype ChangeEffect = ChangeEffect(
    forceCaptureVisible: Option<bool>,
    autoSuspendVisible: Option<bool>,
    hideSyncNote: bool,
    reload: bool,
    postSave: Option<PostSave>)

  /** `handleChange` for the element bound to `pref` holding `elementValue`. */
  method HandleChange(storage: SettingsStorage, pref: Key, elementValue: Value, cleanupWhitelist: string -> string)
    returns (effect: ChangeEffect)
    modifies storage
    ensures var before := SettingsOf(old(storage.local));
      var newValue := CleanedValue(pref, elementValue, cleanupWhitelist);
      var oldValue := Lookup(Filled(before, pref), pref);
      && storage.local == Parsed(SavedSettings(before, pref, newValue))
      && storage.synced == (if oldValue == Some(newValue) then old(storage.synced)
                            else Pushed(old(storage.synced), Filled(before, pref)[pref := newValue]))
      && (effect.reload <==> pref == Theme)
      && (effect.postSave.Some? <==> pref != Theme && oldValue != Some(newValue))
      && (effect.postSave.Some? ==> effect.postSave.value == PostSave(pref, oldValue, newValue))
    ensures effect.forceCaptureVisible.Some? <==> pref == ScreenCapture
    ensures effect.autoSuspendVisible.Some? <==> pref == SuspendTime
    ensures effect.hideSyncNote <==> pref == SyncSettings && Truthy(elementValue)
    ensures var after := Lookup(SettingsOf(storage.local), pref);
      && (pref == ScreenCapture ==> effect.forceCaptureVisible == Some(ForceCaptureVisible(after)))
      && (pref == SuspendTime ==> effect.autoSuspendVisible == Some(ComparesAboveZero(elementValue)))
      && (pref == SuspendTime && elementValue.Str? ==> effect.autoSuspendVisible == Some(AutoSuspendVisible(after)))
      && (effect.hideSyncNote ==> !SyncNoteVisible(after))
  {
    ghost var before := SettingsOf(storage.local);
    effect := ChangeEffect(None, None, false, false, None);
    if pref == ScreenCapture {
      effect := effect.(forceCaptureVisible := Some(elementValue != Str("0")));
    } else if pref == SuspendTime {
      effect := effect.(autoSuspendVisible := Some(ComparesAboveZero(elementValue)));
    } else if pref == SyncSettings {
      if Truthy(elementValue) {
        effect := effect.(hideSyncNote := true);
      }
    } else if pref == Theme {
      var _, _ := SaveChange(storage, pref, elementValue, cleanupWhitelist);
      return effect.(reload := true);
    }
    var oldValue, newValue := SaveChange(storage, pref, elementValue, cleanupWhitelist);
    SavedSettingsProperties(before, pref, newValue);
    if oldValue != Some(newValue) {
      effect := effect.(postSave := Some(PostSave(pref, oldValue, newValue)));
    }
  }

  // ---------------------------------------------------------------------
  // The whitelist test report
  // ---------------------------------------------------------------------

  /** Report entries longer than this are shortened to it. */
  const MaxEntryLength: nat := 55
  /** The number of characters kept before the `...`. */
  const KeptLength: nat := 52
  /** At most this many entries are listed. */
  const MaxListed: nat := 22

  /** `url.length > 55 ? url.substr(0, 52) + '...' : url`. */
  function TruncateUrl(url: string): (r: string)
    ensures |r| == if |url| > MaxEntryLength then MaxEntryLength else |url|
    ensures |url| <= MaxEntryLength ==> r == url
    ensures |url| > MaxEntryLength ==> r[..KeptLength] == url[..KeptLength] && r[KeptLength..] == "..."
  {
    if |url| > MaxEntryLength then url[..KeptLength] + "..." else url
  }

  /** The helpers the report uses. */
  datatype ReportEnv = ReportEnv(
    isSuspendedTab: Tab -> bool,
    originalUrl: string -> string,
    isSuspendedUrl: string -> bool,
    checkWhiteList: string -> bool)

  /** The URL a tab contributes: a suspended tab's original URL. */
  function DisplayUrl(tab: Tab, env: ReportEnv): string {
    if env.isSuspendedTab(tab) then env.originalUrl(tab.url) else tab.url
  }

  /** The report keeps whitelisted URLs that are not suspended-page URLs. */
  predicate Reportable(url: string, env: ReportEnv) {
    !env.isSuspendedUrl(url) && env.checkWhiteList(url)
  }

  /** The `filter` step, keeping order. */
  function Reportables(urls: seq<string>, env: ReportEnv): (r: seq<string>)
    ensures |r| <= |urls|
    ensures forall i :: 0 <= i < |r| ==> Reportable(r[i], env)
    ensures forall u :: u in urls && Reportable(u, env) ==> u in r
    ensures forall u :: u in r ==> u in urls
  {
    if urls == [] then []
    else
      var rest := Reportables(urls[1..], env);
      assert forall u :: u in urls ==> u == urls[0] || u in urls[1..];
      if Reportable(urls[0], env) then [urls[0]] + rest else rest
  }

  /** The filter keeps each reportable URL as often as it occurs and drops
      every other. */
  lemma {:induction false} ReportablesCount(urls: seq<string>, env: ReportEnv)
    ensures forall u :: multiset(Reportables(urls, env))[u] == if Reportable(u, env) then multiset(urls)[u] else 0
  {
    if urls != [] {
      ReportablesCount(urls[1..], env);
      assert urls == [urls[0]] + urls[1..];
      assert multiset(urls) == multiset([urls[0]]) + multiset(urls[1..]);
      var head := if Reportable(urls[0], env) then [urls[0]] else [];
      assert Reportables(urls, env) == head + Reportables(urls[1..], env);
      assert multiset(Reportables(urls, env)) == multiset(head) + multiset(Reportables(urls[1..], env));
    }
  }

  /** Filtering a list with a first element. */
  lemma ReportablesCons(x: string, rest: seq<string>, env: ReportEnv)
    ensures Reportables([x] + rest, env) == (if Reportable(x, env) then [x] else []) + Reportables(rest, env)
  {
    assert ([x] + rest)[1..] == rest;
  }

  /** The filter keeps order: filtering a concatenation concatenates the
      filtered parts. */
  lemma {:induction false} ReportablesAppend(a: seq<string>, b: seq<string>, env: ReportEnv)
    ensures Reportables(a + b, env) == Reportables(a, env) + Reportables(b, env)
  {
    if a == [] {
      assert a + b == b;
    } else {
      var x, rest := a[0], a[1..];
      assert a == [x] + rest;
      assert a + b == [x] + (rest + b);
      ReportablesAppend(rest, b, env);
      ReportablesCons(x, rest + b, env);
      ReportablesCons(x, rest, env);
      SuspendedPage.ConcatAssoc(if Reportable(x, env) then [x] else [], Reportables(rest, env), Reportables(b, env));
    }
  }

  /** The URL of each tab, in tab order. */
  function DisplayUrls(tabs: seq<Tab>, env: ReportEnv): seq<string> {
    seq(|tabs|, i requires 0 <= i < |tabs| => DisplayUrl(tabs[i], env))
  }

  /** Every URL shortened for the report, in order. */
  function Truncated(urls: seq<string>): seq<string> {
    seq(|urls|, i requires 0 <= i < |urls| => TruncateUrl(urls[i]))
  }

  lemma TruncatedAppend(x: seq<string>, y: seq<string>)
    ensures Truncated(x + y) == Truncated(x) + Truncated(y)
  {
    assert forall i :: 0 <= i < |x| ==> (x + y)[i] == x[i];
    assert forall i :: |x| <= i < |x + y| ==> (x + y)[i] == y[i - |x|];
  }

  /** The entries of the report before the split: map, filter, map. */
  function ReportUrls(tabs: seq<Tab>, env: ReportEnv): seq<string> {
    Truncated(Reportables(DisplayUrls(tabs, env), env))
  }

  /** The report lists the tabs' entries in tab order: the report of two
      groups of tabs is the first group's report followed by the second's. */
  lemma ReportUrlsAppend(a: seq<Tab>, b: seq<Tab>, env: ReportEnv)
    ensures ReportUrls(a + b, env) == ReportUrls(a, env) + ReportUrls(b, env)
  {
    var da, db := DisplayUrls(a, env), DisplayUrls(b, env);
    assert DisplayUrls(a + b, env) == da + db;
    ReportablesAppend(da, db, env);
    TruncatedAppend(Reportables(da, env), Reportables(db, env));
  }

  /** Every report entry is at most 55 characters long and shortens a
      reportable URL contributed by some tab; every tab whose URL is
      reportable contributes an entry, one per tab: before shortening, a
      reportable URL is listed exactly as often as tabs show it. */
  lemma ReportUrlsSound(tabs: seq<Tab>, env: ReportEnv)
    ensures forall e :: e in ReportUrls(tabs, env) ==> |e| <= MaxEntryLength
    ensures forall e :: e in ReportUrls(tabs, env) ==>
      exists t :: t in tabs && Reportable(DisplayUrl(t, env), env) && e == TruncateUrl(DisplayUrl(t, env))
    ensures forall t :: t in tabs && Reportable(DisplayUrl(t, env), env) ==> TruncateUrl(DisplayUrl(t, env)) in ReportUrls(tabs, env)
    ensures var kept := Reportables(DisplayUrls(tabs, env), env);
      && |ReportUrls(tabs, env)| == |kept|
      && (forall i :: 0 <= i < |kept| ==> ReportUrls(tabs, env)[i] == TruncateUrl(kept[i]))
      && (forall u :: Reportable(u, env) ==> multiset(kept)[u] == multiset(DisplayUrls(tabs, env))[u])
  {
    var urls := DisplayUrls(tabs, env);
    var report := ReportUrls(tabs, env);
    forall e | e in report
      ensures exists t :: t in tabs && Reportable(DisplayUrl(t, env), env) && e == TruncateUrl(DisplayUrl(t, env))
    {
      var i :| 0 <= i < |report| && report[i] == e;
      EntryFromTab(tabs, env, i);
    }
    forall t | t in tabs && Reportable(DisplayUrl(t, env), env)
      ensures TruncateUrl(DisplayUrl(t, env)) in report
    {
      TabGivesEntry(tabs, env, t);
    }
    ReportablesCount(urls, env);
  }

  /** The i-th report entry shortens the URL of a reportable tab. */
  lemma EntryFromTab(tabs: seq<Tab>, env: ReportEnv, i: int)
    requires 0 <= i < |ReportUrls(tabs, env)|
    ensures exists t ::
      t in tabs && Reportable(DisplayUrl(t, env), env) && ReportUrls(tabs, env)[i] == TruncateUrl(DisplayUrl(t, env))
  {
    var urls := DisplayUrls(tabs, env);
    var kept := Reportables(urls, env);
    assert kept[i] in urls;
    var j :| 0 <= j < |urls| && urls[j] == kept[i];
    assert tabs[j] in tabs && DisplayUrl(tabs[j], env) == kept[i];
  }

  /** A reportable tab's shortened URL is in the report. */
  lemma TabGivesEntry(tabs: seq<Tab>, env: ReportEnv, t: Tab)
    requires t in tabs && Reportable(DisplayUrl(t, env), env)
    ensures TruncateUrl(DisplayUrl(t, env)) in ReportUrls(tabs, env)
  {
    var urls := DisplayUrls(tabs, env);
    var kept := Reportables(urls, env);
    var j :| 0 <= j < |tabs| && tabs[j] == t;
    assert urls[j] == DisplayUrl(t, env);
    var i :| 0 <= i < |kept| && kept[i] == DisplayUrl(t, env);
    assert ReportUrls(tabs, env)[i] == TruncateUrl(DisplayUrl(t, env));
  }

  /** What the report shows: the no-matches message, or the listed entries
      and the count announced as overflow (0: no overflow line). */
  datatype Report = NoMatches | Matches(listed: seq<string>, overflow: nat)

  /** The `testWhitelistBtn` handler: `splice(0, 22)` moves the first
      entries out of `tabUrls`, and what remains is the overflow. */
  method TestWhitelist(tabs: seq<Tab>, env: ReportEnv) returns (report: Report)
    ensures var urls := ReportUrls(tabs, env);
      && (report.NoMatches? <==> urls == [])
      && (report.Matches? ==>
            && 0 < |report.listed| <= MaxListed && |report.listed| <= |urls|
            && report.listed + urls[|report.listed|..] == urls
            && report.overflow == |urls| - |report.listed|
            && (report.overflow > 0 ==> |report.listed| == MaxListed))
  {
    var tabUrls := ReportUrls(tabs, env);
    if |tabUrls| == 0 {
      return NoMatches;
    }
    var count := if |tabUrls| < MaxListed then |tabUrls| else MaxListed;
    var firstUrls := tabUrls[..count];
    tabUrls := tabUrls[count..];
    return Matches(firstUrls, |tabUrls|);
  }
}
