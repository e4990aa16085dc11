/** The popup's status logic: polling the active tab's status with a
    bounded number of retries, and the tables from a status to the visible
    controls, the header classes and the status link's action. */
module Popup {
  import opened Wrappers

  /** The tab statuses the popup distinguishes (the `gsUtils.STATUS_*`
      strings, taken to be pairwise different), the popup's own `'error'`,
      and any other string the background may report. */
  datatype Status =
    | Normal | Active | Suspended | Never | Special | Whitelisted | Audible
    | FormInput | Pinned | TempWhitelist | NoConnectivity | Charging
    | BlockedFile | Loading | Unknown | Error
    | Other(name: string)

  /** A status the background reports while it is not yet settled. */
  predicate IsTransient(s: Status) {
    s == Unknown || s == Loading
  }

  /** The status carried by a `getActiveTabStatus` response; no response
      counts as unknown. */
  function Reported(response: Option<Status>): (s: Status)
    ensures response.None? ==> s == Unknown
  {
    match response
    case Some(status) => status
    case None => Unknown
  }

  /** `getTabStatus(retriesRemaining)` with the first query numbered `k`.
      `poll(j)` is the response to query `j`.  The result is the status
      and the number of the last query made. */
  function PollFrom(retriesRemaining: nat, poll: nat -> Option<Status>, k: nat): (r: (Status, nat))
    decreases retriesRemaining
    ensures k <= r.1 <= k + retriesRemaining
    ensures r.0 == Reported(poll(r.1))
    ensures forall j :: k <= j < r.1 ==> IsTransient(Reported(poll(j)))
    ensures !IsTransient(r.0) || r.1 == k + retriesRemaining
  {
    var status := Reported(poll(k));
    if !IsTransient(status) then (status, k)
    else if retriesRemaining == 0 then (status, k)
    else PollFrom(retriesRemaining - 1, poll, k + 1)
  }

  /** `getTabStatus(retries)`: the status and how many queries were made. */
  function GetTabStatus(retries: nat, poll: nat -> Option<Status>): (r: (Status, nat))
    ensures 1 <= r.1 <= retries + 1
    ensures r.0 == Reported(poll(r.1 - 1))
    ensures forall j :: 0 <= j < r.1 - 1 ==> IsTransient(Reported(poll(j)))
    ensures !IsTransient(r.0) || r.1 == retries + 1
  {
    var (status, last) := PollFrom(retries, poll, 0);
    (status, last + 1)
  }

  /** The polling result is the first settled answer when one comes within
      `retries + 1` queries, and the last answer otherwise. */
  lemma GetTabStatusIsFirstSettled(retries: nat, poll: nat -> Option<Status>, j: nat)
    requires j <= retries && !IsTransient(Reported(poll(j)))
    requires forall i :: 0 <= i < j ==> IsTransient(Reported(poll(i)))
    ensures GetTabStatus(retries, poll) == (Reported(poll(j)), j + 1)
  {
  }

  /** `getTabStatusAsPromise`: a transient result becomes `'error'` unless
      transient states are allowed. */
  function GetTabStatusAsPromise(retries: nat, allowTransientStates: bool, poll: nat -> Option<Status>): (s: Status)
    ensures var polled := GetTabStatus(retries, poll).0;
      s == (if !allowTransientStates && IsTransient(polled) then Error else polled)
  {
    var status := GetTabStatus(retries, poll).0;
    if !allowTransientStates && (status == Unknown || status == Loading) then Error else status
  }

  /** Without transient states allowed the popup never shows a transient
      status; with them allowed it shows what polling found. */
  lemma GetTabStatusAsPromiseSettles(retries: nat, allowTransientStates: bool, poll: nat -> Option<Status>)
    ensures !allowTransientStates ==> !IsTransient(GetTabStatusAsPromise(retries, false, poll))
    ensures GetTabStatusAsPromise(retries, true, poll) == GetTabStatus(retries, poll).0
  {
  }

  // ---------------------------------------------------------------------
  // Visibility and status tables
  // ---------------------------------------------------------------------

  /** Which current-tab controls `setSuspendCurrentVisibility` shows. */
  datatype CurrentControls = CurrentControls(suspendOne: bool, whitelist: bool, unsuspend: bool, optsCurrent: bool)

  function SuspendCurrentVisibility(status: Status): (c: CurrentControls)
    ensures c.suspendOne <==> status !in {Suspended, Special, BlockedFile, Unknown}
    ensures c.whitelist <==> status !in {Whitelisted, Special, BlockedFile, Unknown}
    ensures c.unsuspend <==> status == Suspended
    ensures c.optsCurrent <==> c.suspendOne || c.whitelist || c.unsuspend
  {
    var suspendOne := status !in [Suspended, Special, BlockedFile, Unknown];
    var whitelist := status !in [Whitelisted, Special, BlockedFile, Unknown];
    var unsuspend := status in [Suspended];
    CurrentControls(suspendOne, whitelist, unsuspend, suspendOne || whitelist || unsuspend)
  }

  /** The current-tab section disappears only for special pages, blocked
      file pages and an unknown status, and suspending and unsuspending are
      never offered together. */
  lemma CurrentControlsTable(status: Status)
    ensures var c := SuspendCurrentVisibility(status);
      && (!c.optsCurrent <==> status in {Special, BlockedFile, Unknown})
      && !(c.suspendOne && c.unsuspend)
      && (c.unsuspend ==> c.whitelist)
  {
  }

  /** `setSuspendSelectedVisibility`: the selected-tabs section is shown
      only for more than one highlighted tab (`None`: the query gave no
      list). */
  function SuspendSelectedVisibility(selectedCount: Option<nat>): (visible: bool)
    ensures visible ==> selectedCount.Some? && selectedCount.value >= 2
    ensures selectedCount.Some? && selectedCount.value >= 2 ==> visible
  {
    match selectedCount
    case Some(n) => n > 1
    case None => false
  }

  /** The header's classes after `setStatus` cleared and re-added them. */
  datatype HeaderClasses = HeaderClasses(willSuspend: bool, blockedFile: bool)

  function StatusHeaderClasses(status: Status): (h: HeaderClasses)
    ensures !(h.willSuspend && h.blockedFile)
    ensures h.willSuspend ==> ActionName(status) == Some(ToggleTempWhitelist)
    ensures h.blockedFile ==> ActionName(status) == Some(PromptForFilePermissions)
    ensures !h.willSuspend && !h.blockedFile ==> status !in {Normal, Active, BlockedFile}
  {
    HeaderClasses(status == Normal || status == Active, status == BlockedFile)
  }

  /** Whether the status detail text for `status` contains a link. */
  predicate HasActionLink(status: Status) {
    status in {Normal, Active, Whitelisted, FormInput, TempWhitelist, BlockedFile}
  }

  const ToggleTempWhitelist: string := "requestToggleTempWhitelistStateOfHighlightedTab"
  const Unwhitelist: string := "unwhitelistHighlightedTab"
  const PromptForFilePermissions: string := "promptForFilePermissions"

  /** The message the status link sends, when there is a link. */
  function ActionName(status: Status): (action: Option<string>)
    ensures action == Some(ToggleTempWhitelist) <==> status in {Normal, Active, FormInput, TempWhitelist}
    ensures action == Some(Unwhitelist) <==> status == Whitelisted
    ensures action == Some(PromptForFilePermissions) <==> status == BlockedFile
  {
    if !HasActionLink(status) then None
    else if status == Normal || status == Active || status == FormInput || status == TempWhitelist then Some(ToggleTempWhitelist)
    else if status == Whitelisted then Some(Unwhitelist)
    else if status == BlockedFile then Some(PromptForFilePermissions)
    else None
  }

  /** Every link gets an action and no action is wired without a link;
      the header's two classes exclude each other, and a tab that will
      suspend offers the temporary-whitelist toggle. */
  lemma StatusTablesAgree(status: Status)
    ensures ActionName(status).Some? <==> HasActionLink(status)
    ensures StatusHeaderClasses(status).willSuspend <==> status in {Normal, Active}
    ensures StatusHeaderClasses(status).blockedFile <==> status == BlockedFile
    ensures var h := StatusHeaderClasses(status); !(h.willSuspend && h.blockedFile)
    ensures StatusHeaderClasses(status).willSuspend ==> ActionName(status) == Some(ToggleTempWhitelist)
    ensures StatusHeaderClasses(status).blockedFile ==> !SuspendCurrentVisibility(status).optsCurrent
  {
  }
}
