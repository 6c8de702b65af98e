/**
 * The browser window's state: its tab list, address bar, license prompt,
 * alerts and local countdown. Every license decision the window makes is
 * driven by a `LicenseResponse` given as input; timers are modelled by the
 * tick and poll methods being called, and terminating the application by
 * the `terminated` flag.
 */
module Browser {
  import opened Wrappers
  import opened Tabs
  import opened Countdown
  import opened LicenseCheck
  import Trim

  const ChatAddress: string := "https://chat.openai.com"
  const SubscriptionExpiredMessage: string := "Your license has expired. Please resubscribe."
  const InvalidKeyMessage: string := "Invalid license key. Please resubscribe."
  const KeyExpiredMessage: string := "Your license key has expired. Please re-enter it to continue."
  const ValidWithExpiryMessage: string := "License valid! \U{1F389}"
  const ValidMessage: string := "License valid!"

  class ContentView {
    // Tab list and address bar.
    var tabs: seq<BrowserTab>
    var selection: Option<TabId>
    var addressField: string
    var isAddressFocused: bool
    /** The id the next new tab receives; stands for `UUID()`. */
    var nextTabId: nat

    // License prompt and alerts.
    var showLicensePrompt: bool
    var enteredKey: string
    var showInfoAlert: bool
    var infoAlertMessage: string
    var showErrorAlert: bool
    var errorAlertMessage: string
    var isCheckingLicense: bool

    // Local countdown, in epoch milliseconds.
    var expirationDate: Option<int>
    var remainingTimeString: string
    var countdownRunning: bool

    /** The number of 60-second polling timers scheduled so far. */
    var pollTimers: nat
    /** Whether the application has been told to terminate. */
    var terminated: bool

    ghost predicate Valid()
      reads this
    {
      TabsOk(tabs, selection, nextTabId)
    }

    /**
     * The effect of one countdown tick at `nowMs` against expiry `exp`:
     * the display, and on expiry the timer stopped and both the error
     * alert and the license prompt raised.
     */
    twostate predicate TickedAt(exp: int, nowMs: int)
      reads this
    {
      var rem := exp - nowMs;
      && remainingTimeString == Display(rem)
      && (rem <= 0 ==> !countdownRunning && showErrorAlert
                       && errorAlertMessage == KeyExpiredMessage && showLicensePrompt)
      && (rem > 0 ==> showErrorAlert == old(showErrorAlert)
                      && errorAlertMessage == old(errorAlertMessage)
                      && showLicensePrompt == old(showLicensePrompt))
    }

    constructor ()
      ensures Valid()
      ensures tabs == [BrowserTab(0, DefaultAddress)] && selection.None? && nextTabId == 1
      ensures addressField == DefaultAddress && !isAddressFocused
      ensures showLicensePrompt && enteredKey == "" && !isCheckingLicense
      ensures !showInfoAlert && !showErrorAlert
      ensures expirationDate.None? && remainingTimeString == "" && !countdownRunning
      ensures pollTimers == 0 && !terminated
    {
      tabs := [BrowserTab(0, DefaultAddress)];
      selection := None;
      addressField := DefaultAddress;
      isAddressFocused := false;
      nextTabId := 1;
      showLicensePrompt := true;
      enteredKey := "";
      showInfoAlert := false;
      infoAlertMessage := "";
      showErrorAlert := false;
      errorAlertMessage := "";
      isCheckingLicense := false;
      expirationDate := None;
      remainingTimeString := "";
      countdownRunning := false;
      pollTimers := 0;
      terminated := false;
    }

    /** `syncAddressField`: show the active tab's address, if there is an active tab. */
    method SyncAddressField()
      modifies this`addressField
      ensures ActiveIndex(tabs, selection).Some? ==>
                addressField == tabs[ActiveIndex(tabs, selection).value].address
      ensures ActiveIndex(tabs, selection).None? ==> addressField == old(addressField)
    {
      var active := ActiveIndex(tabs, selection);
      if active.Some? {
        addressField := tabs[active.value].address;
      }
    }

    /** `addTab`: append a fresh tab on the default address and select it. */
    method AddTab()
      requires IdsDistinctBelow(tabs, nextTabId)
      modifies this`tabs, this`selection, this`addressField, this`isAddressFocused, this`nextTabId
      ensures Valid()
      ensures tabs == old(tabs) + [BrowserTab(old(nextTabId), DefaultAddress)]
      ensures selection == Some(old(nextTabId)) && nextTabId == old(nextTabId) + 1
      ensures addressField == DefaultAddress && isAddressFocused
    {
      var newTab := BrowserTab(nextTabId, DefaultAddress);
      tabs := tabs + [newTab];
      nextTabId := nextTabId + 1;
      selection := Some(newTab.id);
      addressField := newTab.address;
      isAddressFocused := true;
      assert tabs[|tabs| - 1].id == newTab.id;
    }

    /**
     * `close`: remove `tab`; if it was the last one, open a fresh default
     * tab, otherwise select the tab that moved into its place (or the new
     * last tab); then show the selected tab's address. A tab not in the
     * list changes nothing.
     */
    method Close(tab: BrowserTab)
      requires Valid()
      modifies this`tabs, this`selection, this`addressField, this`isAddressFocused, this`nextTabId
      ensures Valid()
      ensures IndexOfTab(old(tabs), tab).None? ==>
                && tabs == old(tabs) && selection == old(selection)
                && addressField == old(addressField) && isAddressFocused == old(isAddressFocused)
                && nextTabId == old(nextTabId)
      ensures IndexOfTab(old(tabs), tab).Some? ==>
                var c := CloseAt(old(tabs), IndexOfTab(old(tabs), tab).value, old(nextTabId));
                && tabs == c.tabs && nextTabId == c.nextId
                && selection == Some(c.tabs[c.selected].id)
                && addressField == c.tabs[c.selected].address
                && isAddressFocused == (|old(tabs)| == 1 || old(isAddressFocused))
    {
      var found := IndexOfTab(tabs, tab);
      if found.None? {
        return;
      }
      var idx := found.value;
      ghost var c := CloseAt(tabs, idx, nextTabId);
      CloseAtKeepsInvariant(tabs, idx, nextTabId);
      ghost var single := |tabs| == 1;
      tabs := RemoveAt(tabs, idx);
      if |tabs| == 0 {
        assert single;
        AddTab();
        assert isAddressFocused;
      } else {
        assert !single;
        selection := Some(tabs[Neighbour(|tabs|, idx)].id);
        assert isAddressFocused == old(isAddressFocused);
      }
      assert tabs == c.tabs && selection == Some(c.tabs[c.selected].id) && nextTabId == c.nextId;
      SyncAddressField();
    }

    /** A tab button: select that tab and show its address. */
    method SelectTab(tab: BrowserTab)
      requires Valid() && tab in tabs
      modifies this`selection, this`addressField, this`isAddressFocused
      ensures Valid()
      ensures selection == Some(tab.id) && addressField == tab.address && !isAddressFocused
    {
      var k :| 0 <= k < |tabs| && tabs[k] == tab;
      IndexOfIdUnique(tabs, nextTabId, k);
      selection := Some(tab.id);
      SyncAddressField();
      isAddressFocused := false;
    }

    /** The license-key text field. */
    method EnterKey(key: string)
      modifies this`enteredKey
      ensures enteredKey == key
    {
      enteredKey := key;
    }

    /**
     * `verifyLicense`: the protected action may run only on exactly
     * "valid"; any other status terminates the application.
     */
    method VerifyLicense(response: LicenseResponse) returns (proceed: bool)
      modifies this`terminated
      ensures proceed <==> response.status == ValidStatus
      ensures terminated == (old(terminated) || !proceed)
    {
      if response.status != ValidStatus {
        terminated := true;
        proceed := false;
      } else {
        proceed := true;
      }
    }

    /**
     * `commit`, once the license check answers: trim the address bar and
     * store the trimmed address in the active tab. `changed` tells whether
     * the tab's address differed, which is when the page is reloaded.
     */
    method Commit(response: LicenseResponse) returns (changed: bool)
      requires Valid()
      modifies this`terminated, this`tabs, this`addressField
      ensures Valid()
      ensures response.status != ValidStatus ==>
                terminated && tabs == old(tabs) && addressField == old(addressField) && !changed
      ensures response.status == ValidStatus ==>
                var idx := ActiveIndex(old(tabs), selection).value;
                var trimmed := Trim.Trimmed(old(addressField));
                && terminated == old(terminated) && addressField == trimmed
                && tabs == old(tabs)[idx := old(tabs)[idx].(address := trimmed)]
                && changed == (old(tabs)[idx].address != trimmed)
    {
      changed := false;
      var proceed := VerifyLicense(response);
      if !proceed {
        return;
      }
      var active := ActiveIndex(tabs, selection);
      if active.None? {
        return;
      }
      var idx := active.value;
      var trimmed := Trim.Trimmed(addressField);
      addressField := trimmed;
      SetAddressKeepsOk(tabs, selection, nextTabId, idx, trimmed);
      if tabs[idx].address != trimmed {
        tabs := tabs[idx := tabs[idx].(address := trimmed)];
        changed := true;
      }
    }

    /** `openChatGPT`, once the license check answers: point the active tab at the chat site. */
    method OpenChatGPT(response: LicenseResponse)
      requires Valid()
      modifies this`terminated, this`tabs
      ensures Valid()
      ensures response.status != ValidStatus ==> terminated && tabs == old(tabs)
      ensures response.status == ValidStatus ==>
                var idx := ActiveIndex(old(tabs), selection).value;
                terminated == old(terminated)
                && tabs == old(tabs)[idx := old(tabs)[idx].(address := ChatAddress)]
    {
      var proceed := VerifyLicense(response);
      if proceed {
        var active := ActiveIndex(tabs, selection);
        if active.Some? {
          SetAddressKeepsOk(tabs, selection, nextTabId, active.value, ChatAddress);
          tabs := tabs[active.value := tabs[active.value].(address := ChatAddress)];
        }
      }
    }

    /** The countdown timer's callback at time `nowMs`. */
    method Tick(nowMs: int)
      requires countdownRunning
      modifies this`remainingTimeString, this`countdownRunning, this`showErrorAlert,
               this`errorAlertMessage, this`showLicensePrompt
      ensures expirationDate.None? ==>
                && remainingTimeString == old(remainingTimeString) && countdownRunning
                && showErrorAlert == old(showErrorAlert)
                && errorAlertMessage == old(errorAlertMessage)
                && showLicensePrompt == old(showLicensePrompt)
      ensures expirationDate.Some? ==>
                TickedAt(expirationDate.value, nowMs)
                && (expirationDate.value - nowMs > 0 ==> countdownRunning)
    {
      if expirationDate.None? {
        return;
      }
      var interval := expirationDate.value - nowMs;
      if interval <= 0 {
        remainingTimeString := ExpiredLabel;
        countdownRunning := false;
        showErrorAlert := true;
        errorAlertMessage := KeyExpiredMessage;
        showLicensePrompt := true;
      } else {
        remainingTimeString := RemainingText(interval / 1000);
      }
    }

    /**
     * `startCountdown`: record the expiry, replace the countdown timer by a
     * fresh one and fire it once at `nowMs`.
     */
    method StartCountdown(expiresAtMs: int, nowMs: int)
      modifies this`expirationDate, this`remainingTimeString, this`countdownRunning,
               this`showErrorAlert, this`errorAlertMessage, this`showLicensePrompt
      ensures expirationDate == Some(expiresAtMs)
      ensures countdownRunning == (expiresAtMs - nowMs > 0)
      ensures TickedAt(expiresAtMs, nowMs)
    {
      expirationDate := Some(expiresAtMs);
      countdownRunning := true;
      Tick(nowMs);
    }

    /**
     * The Submit button: a license check is now in progress. Submit is an
     * action of the license prompt's alert, and an alert is dismissed once
     * its action has run, so the prompt is no longer shown.
     */
    method BeginSubmit()
      modifies this`isCheckingLicense, this`showLicensePrompt
      ensures isCheckingLicense && !showLicensePrompt
    {
      isCheckingLicense := true;
      showLicensePrompt := false;
    }

    /**
     * The Submit button's handler of the license response, at time `nowMs`.
     * "valid" hides the prompt, shows the info alert and, given an expiry,
     * starts the countdown; "expired" and every other status show their
     * own error alert and leave the prompt as it is (dismissed by Submit).
     */
    method SubmitResponse(response: LicenseResponse, nowMs: int)
      modifies this`isCheckingLicense, this`showLicensePrompt, this`showInfoAlert,
               this`infoAlertMessage, this`showErrorAlert, this`errorAlertMessage,
               this`expirationDate, this`remainingTimeString, this`countdownRunning
      ensures !isCheckingLicense
      ensures response.status == ValidStatus && response.expiresAt.None? ==>
                && !showLicensePrompt && showInfoAlert && infoAlertMessage == ValidMessage
                && showErrorAlert == old(showErrorAlert) && errorAlertMessage == old(errorAlertMessage)
                && expirationDate == old(expirationDate) && countdownRunning == old(countdownRunning)
                && remainingTimeString == old(remainingTimeString)
      ensures response.status == ValidStatus && response.expiresAt.Some? ==>
                var rem := response.expiresAt.value - nowMs;
                && showInfoAlert && infoAlertMessage == ValidWithExpiryMessage
                && expirationDate == response.expiresAt && remainingTimeString == Display(rem)
                && countdownRunning == (rem > 0) && showLicensePrompt == (rem <= 0)
                && showErrorAlert == (old(showErrorAlert) || rem <= 0)
                && errorAlertMessage == (if rem <= 0 then KeyExpiredMessage else old(errorAlertMessage))
      ensures response.status != ValidStatus ==>
                && showErrorAlert
                && errorAlertMessage == (if response.status == ExpiredStatus
                                         then SubscriptionExpiredMessage else InvalidKeyMessage)
                && showLicensePrompt == old(showLicensePrompt)
                && showInfoAlert == old(showInfoAlert) && infoAlertMessage == old(infoAlertMessage)
                && expirationDate == old(expirationDate) && countdownRunning == old(countdownRunning)
                && remainingTimeString == old(remainingTimeString)
    {
      isCheckingLicense := false;
      if response.status == ValidStatus {
        showLicensePrompt := false;
        showInfoAlert := true;
        if response.expiresAt.Some? {
          StartCountdown(response.expiresAt.value, nowMs);
          infoAlertMessage := ValidWithExpiryMessage;
        } else {
          infoAlertMessage := ValidMessage;
        }
      } else if response.status == ExpiredStatus {
        errorAlertMessage := SubscriptionExpiredMessage;
        showErrorAlert := true;
      } else {
        errorAlertMessage := InvalidKeyMessage;
        showErrorAlert := true;
      }
    }

    /**
     * The reaction to the check on appearance and to each 60-second poll:
     * anything but "valid" terminates; "valid" with an expiry restarts the
     * countdown from it.
     */
    method PollResponse(response: LicenseResponse, nowMs: int)
      modifies this`terminated, this`expirationDate, this`remainingTimeString,
               this`countdownRunning, this`showErrorAlert, this`errorAlertMessage,
               this`showLicensePrompt
      ensures terminated == (old(terminated) || response.status != ValidStatus)
      ensures response.status == ValidStatus && response.expiresAt.Some? ==>
                var exp := response.expiresAt.value;
                && expirationDate == Some(exp) && countdownRunning == (exp - nowMs > 0)
                && TickedAt(exp, nowMs)
      ensures response.status != ValidStatus || response.expiresAt.None? ==>
                && expirationDate == old(expirationDate) && countdownRunning == old(countdownRunning)
                && remainingTimeString == old(remainingTimeString)
                && showErrorAlert == old(showErrorAlert) && errorAlertMessage == old(errorAlertMessage)
                && showLicensePrompt == old(showLicensePrompt)
    {
      if response.status != ValidStatus {
        terminated := true;
      } else if response.expiresAt.Some? {
        StartCountdown(response.expiresAt.value, nowMs);
      }
    }

    /**
     * `onAppear`: with the license prompt hidden, schedule a 60-second
     * polling timer (its first check is answered through `PollResponse`);
     * then select the first tab and show its address.
     */
    method OnAppear()
      requires Valid()
      modifies this`pollTimers, this`selection, this`addressField
      ensures Valid()
      ensures pollTimers == old(pollTimers) + (if showLicensePrompt then 0 else 1)
      ensures selection == Some(tabs[0].id) && addressField == tabs[0].address
    {
      if !showLicensePrompt {
        pollTimers := pollTimers + 1;
      }
      selection := Some(tabs[0].id);
      IndexOfIdUnique(tabs, nextTabId, 0);
      SyncAddressField();
    }

    /** `onDisappear`: stop the countdown timer. */
    method OnDisappear()
      modifies this`countdownRunning
      ensures !countdownRunning
    {
      countdownRunning := false;
    }

    /** The error alert's OK button: dismiss it and terminate. */
    method DismissErrorAlert()
      modifies this`showErrorAlert, this`terminated
      ensures !showErrorAlert && terminated
    {
      showErrorAlert := false;
      terminated := true;
    }
  }

  /**
   * The window appears for the first time with the license prompt up, so
   * no polling timer is scheduled then.
   */
  method FirstAppearance() returns (polls: nat, prompt: bool)
    ensures polls == 0 && prompt
  {
    var view := new ContentView();
    view.OnAppear();
    polls, prompt := view.pollTimers, view.showLicensePrompt;
  }

  /**
   * Accepting a key whose expiry is still ahead hides the prompt and starts
   * the countdown; a later tick past the expiry shows "Expired", stops the
   * countdown and raises the prompt again.
   */
  method AcceptThenExpire(key: string, exp: int, before: int, after: int)
    returns (promptAfterAccept: bool, promptAfterExpiry: bool, shown: string, running: bool)
    requires before < exp <= after
    ensures !promptAfterAccept && promptAfterExpiry
    ensures shown == ExpiredLabel && !running
  {
    var view := new ContentView();
    view.EnterKey(key);
    view.BeginSubmit();
    view.SubmitResponse(LicenseResponse(ValidStatus, Some(exp)), before);
    promptAfterAccept := view.showLicensePrompt;
    view.Tick(after);
    promptAfterExpiry, shown, running :=
      view.showLicensePrompt, view.remainingTimeString, view.countdownRunning;
  }

  /**
   * A rejected key does not bring the prompt back: Submit dismissed it, so
   * the next appearance of the window schedules a polling timer, which
   * checks the rejected key.
   */
  method RejectThenReappear(key: string) returns (prompt: bool, errorShown: bool, polls: nat)
    ensures !prompt && errorShown && polls == 1
  {
    var view := new ContentView();
    view.EnterKey(key);
    view.BeginSubmit();
    view.SubmitResponse(LicenseResponse(InvalidStatus, None), 0);
    view.OnDisappear();
    view.OnAppear();
    prompt, errorShown, polls := view.showLicensePrompt, view.showErrorAlert, view.pollTimers;
  }
}
