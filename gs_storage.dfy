/** Settings storage: the table of defaults, the merge of local, synced and
    default values at start-up, the resync decision, the listener that applies
    settings changed on another device, and the get/set/sync operations over
    the local `gsSettings` entry.

    A settings object is a map from key to JSON value; a key that is absent
    is `undefined`. `chrome.storage.local`'s `gsSettings` entry is held
    already parsed (`Stored`), `chrome.storage.sync` as a map. */
module GsStorage {
  import opened Wrappers

  /** The JSON values settings take. */
  datatype Value = Str(s: string) | Bool(b: bool) | Null

  /** The setting keys `gsStorage` names (the `SCREEN_CAPTURE` … `UPDATE_AVAILABLE`
      constants), and any other key a stored object may carry. */
  datatype Key =
    | ScreenCapture | ScreenCaptureForce | SuspendInPlaceOfDiscard | UnsuspendOnFocus
    | SuspendTime | IgnoreWhenOffline | IgnoreWhenCharging | ClaimByDefault
    | IgnorePinned | IgnoreForms | IgnoreAudio | IgnoreActiveTabs | IgnoreCache
    | AddContext | SyncSettings | NoNag | Theme | Whitelist | DiscardAfterSuspend
    | DiscardInPlaceOfSuspend | UpdateAvailable
    | OtherKey(name: string)

  /** The property name each key has in the stored JSON. */
  function KeyName(k: Key): string {
    match k
    case ScreenCapture => "screenCapture"
    case ScreenCaptureForce => "screenCaptureForce"
    case SuspendInPlaceOfDiscard => "suspendInPlaceOfDiscard"
    case UnsuspendOnFocus => "gsUnsuspendOnFocus"
    case SuspendTime => "gsTimeToSuspend"
    case IgnoreWhenOffline => "onlineCheck"
    case IgnoreWhenCharging => "batteryCheck"
    case ClaimByDefault => "claimByDefault"
    case IgnorePinned => "gsDontSuspendPinned"
    case IgnoreForms => "gsDontSuspendForms"
    case IgnoreAudio => "gsDontSuspendAudio"
    case IgnoreActiveTabs => "gsDontSuspendActiveTabs"
    case IgnoreCache => "gsIgnoreCache"
    case AddContext => "gsAddContextMenu"
    case SyncSettings => "gsSyncSettings"
    case NoNag => "gsNoNag"
    case Theme => "gsTheme"
    case Whitelist => "gsWhitelist"
    case DiscardAfterSuspend => "discardAfterSuspend"
    case DiscardInPlaceOfSuspend => "discardInPlaceOfSuspend"
    case UpdateAvailable => "gsUpdateAvailable"
    case OtherKey(name) => name
  }

  type Settings = map<Key, Value>

  /** JavaScript truthiness. */
  predicate Truthy(v: Value) {
    match v
    case Str(s) => s != ""
    case Bool(b) => b
    case Null => false
  }

  /** A key's value, None when the key is absent (`undefined`). */
  function Lookup(settings: Settings, key: Key): Option<Value> {
    if key in settings then Some(settings[key]) else None
  }

  /** Truthiness of a possibly absent value. */
  predicate TruthyAt(settings: Settings, key: Key) {
    key in settings && Truthy(settings[key])
  }

  /** The keys of the defaults table. */
  const DefaultKeySet: set<Key> := {
    ScreenCapture, ScreenCaptureForce, SuspendInPlaceOfDiscard, DiscardInPlaceOfSuspend,
    DiscardAfterSuspend, IgnoreWhenOffline, IgnoreWhenCharging, ClaimByDefault,
    UnsuspendOnFocus, IgnorePinned, IgnoreForms, IgnoreAudio, IgnoreActiveTabs,
    IgnoreCache, AddContext, SyncSettings, SuspendTime, NoNag, Whitelist, Theme,
    UpdateAvailable}

  /** The default keys in the order `Object.keys` lists them. */
  const DefaultKeys: seq<Key> := [
    ScreenCapture, ScreenCaptureForce, SuspendInPlaceOfDiscard, DiscardInPlaceOfSuspend,
    DiscardAfterSuspend, IgnoreWhenOffline, IgnoreWhenCharging, ClaimByDefault,
    UnsuspendOnFocus, IgnorePinned, IgnoreForms, IgnoreAudio, IgnoreActiveTabs,
    IgnoreCache, AddContext, SyncSettings, SuspendTime, NoNag, Whitelist, Theme,
    UpdateAvailable]

  /** The default of one of the default keys. */
  function DefaultValue(key: Key): (v: Value)
    ensures v != Null
  {
    match key
    case ScreenCapture => Str("0")
    case SuspendTime => Str("60")
    case Whitelist => Str("")
    case Theme => Str("light")
    case IgnorePinned | IgnoreForms | IgnoreAudio | IgnoreActiveTabs | AddContext | SyncSettings => Bool(true)
    case _ => Bool(false)
  }

  /** `getSettingsDefaults`. */
  const Defaults: Settings := map k | k in DefaultKeySet :: DefaultValue(k)

  /** The table has a default for every key the extension knows by name and
      for no other, none of them null; syncing defaults to on, nags to
      shown, the suspend time to 60 minutes, previews to off, the whitelist
      to empty and the theme to light. */
  lemma DefaultsTable()
    ensures forall k :: k in Defaults <==> !k.OtherKey?
    ensures forall k :: k in Defaults ==> Defaults[k] != Null
    ensures Defaults[SyncSettings] == Bool(true) && Defaults[NoNag] == Bool(false)
    ensures Defaults[SuspendTime] == Str("60") && Defaults[Theme] == Str("light")
    ensures Defaults[ScreenCapture] == Str("0") && Defaults[Whitelist] == Str("")
  {
  }

  /** `Object.keys` lists exactly the keys of the defaults table, 21 of
      them. */
  lemma DefaultKeysListed()
    ensures |DefaultKeys| == 21
    ensures forall k :: k in DefaultKeys <==> k in Defaults
  {
  }

  // ---------------------------------------------------------------------
  // Start-up merge

  /** The local `gsSettings` entry: missing (or empty), not parseable as JSON,
      or a parsed object. */
  datatype Stored = Absent | Unparseable | Parsed(settings: Settings)

  /** The local settings the merge starts from: `{}` when the entry is missing
      or unparseable; otherwise the parsed object with a falsy
      `SYNC_SETTINGS` replaced by `false`. */
  function LocalForMerge(stored: Stored): (local: Settings)
    ensures stored.Parsed? ==> SyncSettings in local && local[SyncSettings] != Null
    ensures stored.Parsed? ==> (Truthy(local[SyncSettings]) <==> TruthyAt(stored.settings, SyncSettings))
    ensures stored.Parsed? ==> forall k :: k != SyncSettings ==> Lookup(local, k) == Lookup(stored.settings, k)
    ensures !stored.Parsed? ==> local == map[]
  {
    match stored
    case Parsed(m) =>
      m[SyncSettings := if TruthyAt(m, SyncSettings) then m[SyncSettings] else Bool(false)]
    case _ => map[]
  }

  /** The merged value of one default key. `synced` holds what
      `chrome.storage.sync.get(defaultKeys)` found; `shouldSync` is the
      truthiness of the local `SYNC_SETTINGS`. */
  function MergedValue(key: Key, local: Settings, synced: Settings, incognito: bool): Value {
    var shouldSync := TruthyAt(local, SyncSettings);
    if key == SyncSettings then
      if incognito then Bool(false)
      else if key in local then local[key] else DefaultValue(key)
    else if key == NoNag && shouldSync && TruthyAt(local, NoNag) then
      Bool(true)
    else
      var chosen :=
        if key in synced && (key !in local || shouldSync) then Some(synced[key])
        else Lookup(local, key);
      if chosen.None? || chosen.value == Null then DefaultValue(key) else chosen.value
  }

  /** The settings `initSettingsAsPromised` saves. */
  function Merged(local: Settings, synced: Settings, incognito: bool): Settings {
    map k | k in Defaults :: MergedValue(k, local, synced, incognito)
  }

  /** The body of the merge loop (gsStorage.js:110-152) for one key;
      `MergedValue` is its specification. */
  method MergeKey(key: Key, local: Settings, synced: Settings, incognito: bool) returns (value: Value)
    ensures value == MergedValue(key, local, synced, incognito)
  {
    var shouldSync := TruthyAt(local, SyncSettings);
    if key == SyncSettings {
      if incognito {
        return Bool(false);
      }
      return if key in local then local[key] else DefaultValue(key);
    }
    if key == NoNag && shouldSync && NoNag in local && Truthy(local[NoNag]) {
      return Bool(true);
    }
    var chosen: Option<Value> := None;
    if key in synced && (key !in local || shouldSync) {
      chosen := Some(synced[key]);
    }
    if chosen.None? {
      chosen := Lookup(local, key);
    }
    if chosen.None? || chosen.value == Null {
      chosen := Some(DefaultValue(key));
    }
    return chosen.value;
  }

  /** The merge loop, over the keys in `keys`. */
  method MergeKeys(keys: seq<Key>, local: Settings, synced: Settings, incognito: bool) returns (merged: Settings)
    ensures merged == map k | k in keys :: MergedValue(k, local, synced, incognito)
  {
    merged := map[];
    var i := 0;
    while i < |keys|
      invariant 0 <= i <= |keys|
      invariant forall k :: k in merged <==> k in keys[..i]
      invariant forall k :: k in merged ==> merged[k] == MergedValue(k, local, synced, incognito)
    {
      var key := keys[i];
      assert keys[..i + 1] == keys[..i] + [key];
      var value := MergeKey(key, local, synced, incognito);
      merged := merged[key := value];
      i := i + 1;
    }
    assert keys[..|keys|] == keys;
  }

  /** The merge of `initSettingsAsPromised`, over the default keys. */
  method Merge(local: Settings, synced: Settings, incognito: bool) returns (merged: Settings)
    ensures merged == Merged(local, synced, incognito)
  {
    merged := MergeKeys(DefaultKeys, local, synced, incognito);
  }

  /** The merged settings have exactly the default keys and no null value
      (the local `SYNC_SETTINGS` is never null once LocalForMerge has run). */
  lemma MergedIsComplete(stored: Stored, synced: Settings, incognito: bool)
    ensures var merged := Merged(LocalForMerge(stored), synced, incognito);
      && merged.Keys == Defaults.Keys
      && forall k :: k in merged ==> merged[k] != Null
  {
  }

  /** Precedence of the merge: `SYNC_SETTINGS` is false in incognito and
      otherwise the local value, else the default; `NO_NAG` stays true while
      syncing when it is true locally; any other key takes the synced value
      when there is one and either syncing is on or the local value is
      missing, then the local value, then the default for a missing or null
      value.  A synced null is chosen all the same, so it yields the default
      even when a local value exists. */
  lemma MergePrecedence(local: Settings, synced: Settings, incognito: bool, key: Key)
    requires key in Defaults
    ensures var v := Merged(local, synced, incognito)[key];
      var shouldSync := TruthyAt(local, SyncSettings);
      && (key == SyncSettings && incognito ==> v == Bool(false))
      && (key == SyncSettings && !incognito ==> v == Lookup(local, key).GetOr(Defaults[key]))
      && (key == NoNag && shouldSync && TruthyAt(local, NoNag) ==> v == Bool(true))
      && (key != SyncSettings && !(key == NoNag && shouldSync && TruthyAt(local, NoNag)) ==>
            && (key in synced && synced[key] != Null && (key !in local || shouldSync) ==> v == synced[key])
            && ((!(key in synced && (key !in local || shouldSync)) && key in local && local[key] != Null)
                  ==> v == local[key])
            && (key !in synced && key !in local ==> v == Defaults[key])
            && (key in synced && synced[key] == Null && (key !in local || shouldSync) ==> v == Defaults[key])
            && ((!(key in synced && (key !in local || shouldSync)) && key in local && local[key] == Null)
                  ==> v == Defaults[key]))
  {
    assert Merged(local, synced, incognito)[key] == MergedValue(key, local, synced, incognito);
    assert Defaults[key] == DefaultValue(key);
    MergedValuePrecedence(local, synced, incognito, key);
  }

  /** The precedence of MergedValue for one key, with the key's default. */
  lemma MergedValuePrecedence(local: Settings, synced: Settings, incognito: bool, key: Key)
    ensures var v := MergedValue(key, local, synced, incognito);
      var shouldSync := TruthyAt(local, SyncSettings);
      && (key == SyncSettings && incognito ==> v == Bool(false))
      && (key == SyncSettings && !incognito ==> v == Lookup(local, key).GetOr(DefaultValue(key)))
      && (key == NoNag && shouldSync && TruthyAt(local, NoNag) ==> v == Bool(true))
      && (key != SyncSettings && !(key == NoNag && shouldSync && TruthyAt(local, NoNag)) ==>
            && (key in synced && synced[key] != Null && (key !in local || shouldSync) ==> v == synced[key])
            && ((!(key in synced && (key !in local || shouldSync)) && key in local && local[key] != Null)
                  ==> v == local[key])
            && (key !in synced && key !in local ==> v == DefaultValue(key))
            && (key in synced && synced[key] == Null && (key !in local || shouldSync) ==> v == DefaultValue(key))
            && ((!(key in synced && (key !in local || shouldSync)) && key in local && local[key] == Null)
                  ==> v == DefaultValue(key)))
  {
  }

  /** The resync test: some default key other than `SYNC_SETTINGS` whose synced
      value is missing or differs from the merged one. */
  predicate NeedsResync(synced: Settings, merged: Settings) {
    exists k :: k in Defaults && k != SyncSettings && k in merged && Lookup(synced, k) != Some(merged[k])
  }

  /** The resync loop, which stops at the first difference. */
  method CheckResync(synced: Settings, merged: Settings) returns (triggerResync: bool)
    requires merged.Keys == Defaults.Keys
    ensures triggerResync == NeedsResync(synced, merged)
  {
    triggerResync := false;
    var i := 0;
    while i < |DefaultKeys|
      invariant 0 <= i <= |DefaultKeys|
      invariant forall j :: 0 <= j < i && DefaultKeys[j] != SyncSettings ==>
        Lookup(synced, DefaultKeys[j]) == Some(merged[DefaultKeys[j]])
    {
      var key := DefaultKeys[i];
      if key != SyncSettings && Lookup(synced, key) != Some(merged[key]) {
        return true;
      }
      i := i + 1;
    }
    DefaultKeysListed();
  }

  /** With syncing on locally, no sticky `NO_NAG`, and every default key
      present and non-null in sync, the merge takes everything from sync and
      so needs no resync. */
  lemma SyncedWinsMeansNoResync(local: Settings, synced: Settings, incognito: bool)
    requires TruthyAt(local, SyncSettings) && !TruthyAt(local, NoNag)
    requires forall k :: k in Defaults ==> k in synced && synced[k] != Null
    ensures !NeedsResync(synced, Merged(local, synced, incognito))
  {
    var merged := Merged(local, synced, incognito);
    forall k | k in Defaults && k != SyncSettings
      ensures Lookup(synced, k) == Some(merged[k])
    {
      MergePrecedence(local, synced, incognito, k);
    }
  }

  // ---------------------------------------------------------------------
  // Changes arriving from sync

  /** One entry of the listener's `changes` object; `newValue` None when the
      key was removed. */
  datatype Change = Change(key: Key, newValue: Option<Value>)

  /** `changedSettingKeys` with `oldValueBySettingKey` and `newValueBySettingKey`. */
  datatype ChangeRecord = ChangeRecord(key: Key, oldValue: Option<Value>, newValue: Option<Value>)

  /** The settings with one key set to a possibly absent value (an
      `undefined` value disappears when the object is saved as JSON). */
  function SetTo(settings: Settings, key: Key, value: Option<Value>): Settings {
    if value.Some? then settings[key := value.value] else settings - {key}
  }

  /** A sync that turns `NO_NAG` off, which the listener skips. */
  predicate Ignored(change: Change) {
    change.key == NoNag && change.newValue == Some(Bool(false))
  }

  /** The listener's treatment of one changed key: an ignored change is
      skipped; a value equal to the local one changes nothing. */
  function ApplyChange(settings: Settings, change: Change): (Settings, seq<ChangeRecord>) {
    if Ignored(change) then (settings, [])
    else if Lookup(settings, change.key) == change.newValue then (settings, [])
    else (SetTo(settings, change.key, change.newValue),
          [ChangeRecord(change.key, Lookup(settings, change.key), change.newValue)])
  }

  /** All changed keys, in order. */
  function ApplyChanges(settings: Settings, changes: seq<Change>): (Settings, seq<ChangeRecord>)
    decreases |changes|
  {
    if changes == [] then (settings, [])
    else
      var before := ApplyChanges(settings, changes[..|changes| - 1]);
      var step := ApplyChange(before.0, changes[|changes| - 1]);
      (step.0, before.1 + step.1)
  }

  predicate DistinctKeys(changes: seq<Change>) {
    forall i, j :: 0 <= i < j < |changes| ==> changes[i].key != changes[j].key
  }

  predicate Listed(changes: seq<Change>, key: Key) {
    exists i :: 0 <= i < |changes| && changes[i].key == key
  }

  /** What applying sync changes does: keys not listed keep their value; every
      record is a real change of a listed key, found in the result; a
      `NO_NAG` that is not false locally is not made false; and a record is
      made exactly when something changed. */
  lemma {:induction false} ApplyChangesEffect(settings: Settings, changes: seq<Change>)
    requires DistinctKeys(changes)
    ensures var (result, records) := ApplyChanges(settings, changes);
      && (forall k :: !Listed(changes, k) ==> Lookup(result, k) == Lookup(settings, k))
      && (forall r :: r in records ==>
            && Listed(changes, r.key) && r.oldValue != r.newValue
            && r.oldValue == Lookup(settings, r.key) && Lookup(result, r.key) == r.newValue)
      && (Lookup(settings, NoNag) != Some(Bool(false)) ==> Lookup(result, NoNag) != Some(Bool(false)))
      && (records == [] ==> result == settings)
    decreases |changes|
  {
    if changes != [] {
      var init := changes[..|changes| - 1];
      var last := changes[|changes| - 1];
      assert DistinctKeys(init);
      ApplyChangesEffect(settings, init);
      var (mid, midRecords) := ApplyChanges(settings, init);
      var (result, records) := ApplyChanges(settings, changes);
      assert forall i :: 0 <= i < |init| ==> init[i] == changes[i];
      assert !Listed(init, last.key);
      forall k | !Listed(changes, k)
        ensures Lookup(result, k) == Lookup(settings, k)
      {
        assert changes[|changes| - 1].key == last.key;
        assert !Listed(init, k);
      }
      forall r | r in records
        ensures Listed(changes, r.key) && r.oldValue != r.newValue
        ensures r.oldValue == Lookup(settings, r.key) && Lookup(result, r.key) == r.newValue
      {
        if r in midRecords {
          var i :| 0 <= i < |init| && init[i].key == r.key;
          assert changes[i].key == r.key;
        } else {
          assert r.key == last.key;
        }
      }
    }
  }

  /** The other half: every listed change that is not ignored ends with its
      new value, an ignored one leaves `NO_NAG` as it was, and every change
      that differs from the value held before is recorded with that old
      value and its new value. */
  lemma {:induction false} ApplyChangesComplete(settings: Settings, changes: seq<Change>)
    requires DistinctKeys(changes)
    ensures var (result, records) := ApplyChanges(settings, changes);
      && (forall i :: 0 <= i < |changes| && !Ignored(changes[i]) ==>
            Lookup(result, changes[i].key) == changes[i].newValue)
      && (forall i :: 0 <= i < |changes| && Ignored(changes[i]) ==>
            Lookup(result, NoNag) == Lookup(settings, NoNag))
      && (forall i :: (0 <= i < |changes| && !Ignored(changes[i])
                       && Lookup(settings, changes[i].key) != changes[i].newValue) ==>
            ChangeRecord(changes[i].key, Lookup(settings, changes[i].key), changes[i].newValue) in records)
    decreases |changes|
  {
    if changes != [] {
      var n := |changes| - 1;
      var init := changes[..n];
      var last := changes[n];
      assert DistinctKeys(init);
      ApplyChangesComplete(settings, init);
      var (mid, midRecords) := ApplyChanges(settings, init);
      var (result, records) := ApplyChanges(settings, changes);
      assert Lookup(mid, last.key) == Lookup(settings, last.key) by {
        assert !Listed(init, last.key);
        ApplyChangesEffect(settings, init);
      }
      assert forall k :: k != last.key ==> Lookup(result, k) == Lookup(mid, k);
      assert records == midRecords + ApplyChange(mid, last).1;
      forall i | 0 <= i < n
        ensures changes[i] == init[i] && init[i].key != last.key
      {
      }
      forall i | 0 <= i < |changes| && !Ignored(changes[i])
        ensures Lookup(result, changes[i].key) == changes[i].newValue
      {
      }
      forall i | 0 <= i < |changes| && Ignored(changes[i])
        ensures Lookup(result, NoNag) == Lookup(settings, NoNag)
      {
      }
      forall i | (0 <= i < |changes| && !Ignored(changes[i])
                  && Lookup(settings, changes[i].key) != changes[i].newValue)
        ensures ChangeRecord(changes[i].key, Lookup(settings, changes[i].key), changes[i].newValue) in records
      {
        if i < n {
          assert ChangeRecord(init[i].key, Lookup(settings, init[i].key), init[i].newValue) in midRecords;
        }
      }
    }
  }

  /** `fetchLastVersion` given the stored `gsVersion` entry, already parsed:
      a truthy string is the version; anything else gives "0.0.0". */
  function LastVersion(stored: Option<Value>): (version: string)
    ensures version != ""
    ensures stored.Some? && stored.value.Str? && stored.value.s != "" ==> version == stored.value.s
    ensures stored.None? || !Truthy(stored.value) ==> version == "0.0.0"
  {
    if stored.Some? && Truthy(stored.value) then
      match stored.value
      case Str(s) => s
      case Bool(_) => "true"
      case Null => "0.0.0"
    else "0.0.0"
  }

  // ---------------------------------------------------------------------
  // The storage object

  /** The settings `getSettings` returns for a stored entry. */
  function SettingsOf(stored: Stored): Settings {
    if stored.Parsed? then stored.settings else Defaults
  }

  /** `settings` with every absent or null key given its default; keys
      without a default are dropped when null. */
  function Filled(settings: Settings, key: Key): Settings {
    if key in settings && settings[key] != Null then settings
    else SetTo(settings, key, Lookup(Defaults, key))
  }

  /** A setting `getOption` replaces by its default: absent or null. */
  predicate MissingOrNull(settings: Settings, key: Key) {
    key !in settings || settings[key] == Null
  }

  /** What `getOption` answers for `key`: the stored value unless it is
      missing or null, then the default, which for a key of the defaults
      table is never missing and never null. */
  lemma FilledValue(settings: Settings, key: Key)
    ensures !MissingOrNull(settings, key) ==> Lookup(Filled(settings, key), key) == Some(settings[key])
    ensures MissingOrNull(settings, key) ==> Lookup(Filled(settings, key), key) == Lookup(Defaults, key)
    ensures key in Defaults ==> Lookup(Filled(settings, key), key).Some? && Lookup(Filled(settings, key), key).value != Null
  {
  }

  /** Filling one key leaves every other key as stored. */
  lemma FilledElsewhere(settings: Settings, key: Key, other: Key)
    requires other != key
    ensures Lookup(Filled(settings, key), other) == Lookup(settings, other)
  {
  }

  /** What `syncSettings` pushes to sync: nothing unless syncing is on, and
      never `SYNC_SETTINGS` itself. */
  function Pushed(synced: Settings, settings: Settings): Settings {
    if TruthyAt(settings, SyncSettings) then synced + (settings - {SyncSettings}) else synced
  }

  lemma PushedKeepsSyncFlagOut(synced: Settings, settings: Settings)
    ensures Lookup(Pushed(synced, settings), SyncSettings) == Lookup(synced, SyncSettings)
    ensures TruthyAt(settings, SyncSettings) ==>
      forall k :: k in settings && k != SyncSettings ==> Lookup(Pushed(synced, settings), k) == Some(settings[k])
    ensures !TruthyAt(settings, SyncSettings) ==> Pushed(synced, settings) == synced
  {
  }

  class SettingsStorage {
    /** `chrome.storage.local`'s `gsSettings` entry. */
    var local: Stored
    /** `chrome.storage.sync`. */
    var synced: Settings

    constructor (local: Stored, synced: Settings)
      ensures this.local == local && this.synced == synced
    {
      this.local := local;
      this.synced := synced;
    }

    /** `saveSettings`; a failing write is not modelled. */
    method SaveSettings(settings: Settings)
      modifies this`local
      ensures local == Parsed(settings)
    {
      local := Parsed(settings);
    }

    /** `getSettings`: the stored object, or the defaults (which are then saved). */
    method GetSettings() returns (settings: Settings)
      modifies this`local
      ensures settings == SettingsOf(old(local))
      ensures local == Parsed(settings)
    {
      if local.Parsed? {
        return local.settings;
      }
      settings := Defaults;
      SaveSettings(settings);
    }

    /** `getOption`: a missing or null value is replaced by its default and saved. */
    method GetOption(key: Key) returns (value: Option<Value>)
      modifies this`local
      ensures var s := SettingsOf(old(local));
        && value == Lookup(Filled(s, key), key)
        && local == Parsed(Filled(s, key))
    {
      var settings := GetSettings();
      if key !in settings || settings[key] == Null {
        settings := SetTo(settings, key, Lookup(Defaults, key));
        SaveSettings(settings);
      }
      return Lookup(settings, key);
    }

    /** `setOption`. */
    method SetOption(key: Key, value: Value)
      modifies this`local
      ensures local == Parsed(SettingsOf(old(local))[key := value])
    {
      var settings := GetSettings();
      settings := settings[key := value];
      SaveSettings(settings);
    }

    /** `syncSettings`. */
    method Sync()
      modifies this`local, this`synced
      ensures local == Parsed(SettingsOf(old(local)))
      ensures synced == Pushed(old(synced), SettingsOf(old(local)))
    {
      var settings := GetSettings();
      if SyncSettings in settings && Truthy(settings[SyncSettings]) {
        synced := synced + (settings - {SyncSettings});
      }
    }

    /** `setOptionAndSync`. */
    method SetOptionAndSync(key: Key, value: Value)
      modifies this`local, this`synced
      ensures local == Parsed(SettingsOf(old(local))[key := value])
      ensures synced == Pushed(old(synced), SettingsOf(old(local))[key := value])
    {
      SetOption(key, value);
      Sync();
    }

    /** `initSettingsAsPromised`, from the merge to the resync. */
    method InitSettings(incognito: bool)
      modifies this`local, this`synced
      ensures var fromSync := map k | k in old(synced) && k in Defaults :: old(synced)[k];
        var merged := Merged(LocalForMerge(old(local)), fromSync, incognito);
        && local == Parsed(merged)
        && synced == if NeedsResync(fromSync, merged) then Pushed(old(synced), merged) else old(synced)
    {
      var syncedSettings := map k | k in synced && k in Defaults :: synced[k];
      var rawLocalSettings := LocalForMerge(local);
      var mergedSettings := Merge(rawLocalSettings, syncedSettings, incognito);
      assert mergedSettings.Keys == Defaults.Keys;
      SaveSettings(mergedSettings);
      var triggerResync := CheckResync(syncedSettings, mergedSettings);
      if triggerResync {
        Sync();
      }
    }

    /** The `chrome.storage.onChanged` listener. `changes` lists the changed
        keys in order; `records` is what is handed to the post-save updates
        (empty when nothing is saved). */
    method OnSettingsChanged(changes: seq<Change>, namespace: string) returns (records: seq<ChangeRecord>)
      requires DistinctKeys(changes)
      modifies this`local
      ensures namespace != "sync" ==> records == [] && local == old(local)
      ensures namespace == "sync" ==>
        var filled := Filled(SettingsOf(old(local)), SyncSettings);
        var applied := ApplyChanges(filled, changes);
        && records == (if TruthyAt(filled, SyncSettings) then applied.1 else [])
        && local == Parsed(if TruthyAt(filled, SyncSettings) then applied.0 else filled)
    {
      if namespace != "sync" {
        return [];
      }
      var shouldSync := GetOption(SyncSettings);
      if shouldSync.None? || !Truthy(shouldSync.value) {
        return [];
      }
      var localSettings := GetSettings();
      ghost var start := localSettings;
      records := [];
      var i := 0;
      while i < |changes|
        invariant 0 <= i <= |changes|
        invariant (localSettings, records) == ApplyChanges(start, changes[..i])
      {
        assert changes[..i + 1][..i] == changes[..i] && changes[..i + 1][i] == changes[i];
        ghost var step := ApplyChange(localSettings, changes[i]);
        assert ApplyChanges(start, changes[..i + 1]) == (step.0, records + step.1);
        var change := changes[i];
        if !(change.key == NoNag && change.newValue == Some(Bool(false))) {
          var current := Lookup(localSettings, change.key);
          if current != change.newValue {
            records := records + [ChangeRecord(change.key, current, change.newValue)];
            localSettings := SetTo(localSettings, change.key, change.newValue);
          } else {
            assert records + step.1 == records;
          }
        } else {
          assert records + step.1 == records;
        }
        i := i + 1;
      }
      assert changes[..|changes|] == changes;
      if |records| > 0 {
        SaveSettings(localSettings);
      } else {
        ApplyChangesEffect(start, changes);
      }
    }
  }
}
