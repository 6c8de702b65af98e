# Raft browser license client and key registry, modelled in Dafny

Raft is a macOS browser panel. It is unlocked by a license key that a small
Node/PostgreSQL server checks. This project models the sequential logic of
`ContentView.swift`, `server.js` and `manage-keys.js`:

- **The browser window's state** (`ContentView.swift`). The tab list:
  adding a tab, closing one, selecting one, the active index, committing the
  address bar. The license gate: the Submit handler's reaction to the
  server's status word, the gate in front of every protected action, the
  reaction to a poll, and the local countdown with its "Expired" tick. The
  persistent device id. How a network outcome becomes a `LicenseResponse`.
- **The operator key registry** (`server.js`, `manage-keys.js`). The `keys`
  table is a map from key text to license type. The statements run against
  it are `INSERT ... ON CONFLICT DO NOTHING` and `DELETE`. The model covers
  the two admin endpoints and the command-line tool's dispatch.

The network, the database connection, timers and the clock are inputs. A
license check's answer is a `LicenseResponse`. A database call succeeds or
fails according to a `dbUp` flag. Time is an integer number of milliseconds
since the epoch, given to each tick. Terminating the application sets a
`terminated` flag.

Modules, one per concern:

- `Wrappers`: the Option type.
- `Tabs`: tab values, the lookups, and removal with its neighbour rule.
- `Countdown`: the h/m/s split and the `%02dh %02dm %02ds` display.
- `Trim`: white-space trimming.
- `LicenseCheck`: responses and the device-id store.
- `Browser`: class `ContentView`, holding the window's state.
- `KeyStore`: the `keys` table.
- `AdminServer`: the two admin endpoints.
- `ManageKeys`: the command-line tool.

The methods of `ContentView`, `UserDefaults` and `KeyTable` change fields in
place, and each one's postcondition states its whole new state. Several tie
that state to a specification function whose properties are proved as
lemmas:

- `Close`: `CloseAt`.
- `Commit`: `Trimmed`.
- `Tick`, `StartCountdown`, `SubmitResponse` and `PollResponse`: `Display`.
- `PersistentDeviceId` and `CheckLicense`: `ReadDeviceId`.
- `Execute`, the admin handlers and `Run`: `Apply`.

## Behaviour of the code worth knowing

The model follows the code as written.

- **Non-valid answers end the session.** A missing or undecodable reply
  becomes `"invalid"`. `verifyLicense` (ContentView.swift:480-481) and the
  poll handler (ContentView.swift:400-401, 411-412) terminate the
  application on every status other than `"valid"`, `"error"` included.
- **Polling.** The source comments (ContentView.swift:397, 407) describe a
  server check on appearance and a poll every 60 seconds. The code schedules
  them only when the license prompt is hidden at the moment the view
  appears. The prompt starts shown, so the first appearance schedules no
  poll (`Browser.FirstAppearance`). Submit dismisses the prompt, so after a
  rejected key the next appearance does schedule one
  (`Browser.RejectThenReappear`). Each such appearance adds a timer, and
  nothing ever stops those timers.
- **Admin answers.** Issuing a key that exists answers `added`, and revoking
  one that does not exist answers `revoked`. In both cases the table is
  unchanged (`ON CONFLICT DO NOTHING`, and a `DELETE` that matches no row).
- **The verification endpoint.** The server's `/verify` logic is not
  modelled; only the client's reaction to the status word is.

## Model

| member | source | states |
|---|---|---|
| `Tabs.IndexOfTab` | ContentView.swift:455 | the result is the first index holding the tab; none exactly when the tab is absent |
| `Tabs.IndexOfId` | ContentView.swift:532 | the result is the first index whose tab has that id; none exactly when no tab has it |
| `Tabs.ActiveIndex` | ContentView.swift:530-535 | with a selection, the index of the tab carrying that id, or none when no tab does; with no selection, 0 for a non-empty list and none for an empty one |
| `Tabs.ActiveIndexDefined` | ContentView.swift:530-535 | under the tab invariant (non-empty, distinct ids, selection names an existing tab) there is always an active tab |
| `Tabs.IndexOfIdUnique` | ContentView.swift:530-535 | with distinct ids, looking a tab up by its id finds exactly that tab's position |
| `Tabs.RemoveAt` | ContentView.swift:456 | removal keeps the tabs before the index in place and shifts the ones after it down by one |
| `Tabs.RemoveAtMultiset` | ContentView.swift:456 | removal takes out exactly the one tab at the index, nothing else |
| `Tabs.RemoveAtKeepsIds` | ContentView.swift:454-456 | removing a tab keeps the remaining ids distinct and below the next fresh id |
| `Tabs.SetAddressKeepsOk` | ContentView.swift:494-495 | rewriting a tab's address preserves the tab invariant |
| `Tabs.CloseAt` | ContentView.swift:454-465 | closing never leaves the list empty: with other tabs, they stay in order and the selected tab is the one that followed the closed one, or the one before it when the closed tab was last; closing the only tab yields exactly one fresh tab on `https://www.google.com`, selected |
| `Tabs.CloseAtKeepsInvariant` | ContentView.swift:454-465 | after a close the invariant holds and the selected tab is the active one |
| `Browser.ContentView.constructor` | ContentView.swift:191-210 | the initial state: one default tab, no selection, prompt shown, no alerts, no countdown, no polling |
| `Browser.ContentView.SyncAddressField` | ContentView.swift:471-475 | the address bar shows the active tab's address, and is left alone when there is no active tab |
| `Browser.ContentView.AddTab` | ContentView.swift:443-452 | appends a default tab with a fresh id, selects it, puts its address in the bar and focuses the bar |
| `Browser.ContentView.Close` | ContentView.swift:454-469 | the new tabs, selection and next id are those of `CloseAt`; the bar shows the selected tab; a tab not in the list changes nothing; the invariant is kept |
| `Browser.ContentView.SelectTab` | ContentView.swift:221-225 | selects the clicked tab, shows its address and unfocuses the bar |
| `Browser.ContentView.EnterKey` | ContentView.swift:346 | the license-key field holds what was typed |
| `Browser.ContentView.VerifyLicense` | ContentView.swift:477-487 | the protected action may proceed iff the status is exactly `"valid"`; otherwise the application terminates |
| `Browser.ContentView.Commit` | ContentView.swift:489-501 | on `"valid"`, the bar and the active tab both hold the trimmed address, and a reload happens iff the tab's address changed; any other status terminates and changes nothing |
| `Browser.ContentView.OpenChatGPT` | ContentView.swift:503-512 | on `"valid"`, the active tab's address becomes the chat site; otherwise the application terminates and the tabs are unchanged |
| `Browser.ContentView.Tick` | ContentView.swift:541-557 | at or past expiry: display "Expired", timer stopped, error alert and license prompt both raised; before it, the h/m/s display and nothing else changed |
| `Browser.ContentView.StartCountdown` | ContentView.swift:538-559 | records the expiry and fires one tick at once; the timer stays running iff the expiry is still ahead |
| `Browser.ContentView.BeginSubmit` | ContentView.swift:345-348 | a license check is shown as in progress, and the license prompt, whose action Submit is, is dismissed |
| `Browser.ContentView.SubmitResponse` | ContentView.swift:349-370 | `"valid"` hides the prompt and shows the info alert, and with an expiry starts the countdown (an expiry already past raises the prompt again); `"expired"` and every other status each show their own error message and keep the countdown as it was |
| `Browser.ContentView.PollResponse` | ContentView.swift:398-417 | any status other than `"valid"` terminates; `"valid"` with an expiry restarts the countdown from it; otherwise nothing changes |
| `Browser.ContentView.OnAppear` | ContentView.swift:393-434 | one polling timer is added iff the prompt is hidden; the first tab becomes selected and its address is shown |
| `Browser.ContentView.OnDisappear` | ContentView.swift:435-437 | the countdown timer is stopped |
| `Browser.ContentView.DismissErrorAlert` | ContentView.swift:384-387 | dismissing the error alert terminates the application |
| `Browser.FirstAppearance` | ContentView.swift:393-396 | a freshly created window that appears schedules no polling timer, because the prompt is up |
| `Browser.RejectThenReappear` | ContentView.swift:345-419 | after a rejected key the prompt stays dismissed and the error alert is up; the next appearance schedules a polling timer |
| `Browser.AcceptThenExpire` | ContentView.swift:544-550 | accepting a key with a future expiry hides the prompt; a tick at or past the expiry shows "Expired", stops the timer and raises the prompt again |
| `Countdown.Split` | ContentView.swift:552-554 | `hours*3600 + minutes*60 + seconds` equals the whole seconds left, with minutes and seconds below 60 |
| `Countdown.SplitUnique` | ContentView.swift:552-554 | the split is the only normal-form decomposition of a duration |
| `Countdown.Decimal` | ContentView.swift:555 | `%d` writes digits only, at least one, with one digit exactly below 10 and two exactly from 10 to 99 |
| `Countdown.Format` | ContentView.swift:555 | the `%02dh %02dm %02ds` text ends in `s` and is at least 11 characters; with every field below 100 it is exactly 11, with `h ` and `m ` at fixed positions |
| `Countdown.RemainingText` | ContentView.swift:552-555 | the display for n whole seconds is at least 11 characters, and exactly 11 iff fewer than 100 hours are left |
| `Countdown.Pad2` | ContentView.swift:555 | `%02d` yields digits only, at least two of them, and exactly two below 100 |
| `Countdown.DecimalRoundTrip` | ContentView.swift:555 | reading back the decimal digits yields the number written |
| `Countdown.Pad2RoundTrip` | ContentView.swift:555 | the zero padding does not change the value read back |
| `Countdown.FormatRoundTrip` | ContentView.swift:555 | the `%02dh %02dm %02ds` display of a normal duration reads back as that duration |
| `Countdown.RemainingTextDeterminesSeconds` | ContentView.swift:552-555 | the display for n seconds left reads back as n seconds |
| `Countdown.Display` | ContentView.swift:544-556 | the display is "Expired" exactly when no time is left |
| `Countdown.DisplayReadsBack` | ContentView.swift:552-556 | with time left, the display reads back as the whole seconds left, truncated |
| `Trim.IsWhitespace` | ContentView.swift:492 | the `whitespacesAndNewlines` set, including U+2000 to U+200B: among ASCII characters exactly space and tab through carriage return; U+200C, U+200D and U+FEFF are not in it |
| `Trim.LeadingCount` | ContentView.swift:492 | counts the white space at the start: all counted characters are white space and the next one is not |
| `Trim.TrailingCount` | ContentView.swift:492 | counts the white space at the end: all counted characters are white space and the one before is not |
| `Trim.Trimmed` | ContentView.swift:492 | the result is a contiguous part of the input, only white space was dropped at either end, and it neither starts nor ends with white space |
| `Trim.TrimmedFixed` | ContentView.swift:492 | a string without white space at its ends trims to itself |
| `Trim.TrimmedIdempotent` | ContentView.swift:492 | trimming twice equals trimming once |
| `LicenseCheck.ResponseFor` | ContentView.swift:160-185 | an unbuildable URL gives `"error"`; a missing or undecodable reply gives `"invalid"`; `"valid"` comes only from a decoded reply that says so |
| `LicenseCheck.ReadDeviceId` | ContentView.swift:14-23 | a stored id is returned and the store is untouched; otherwise the host name, or lacking one the UUID, is stored and returned; no other entry changes |
| `LicenseCheck.DeviceIdStable` | ContentView.swift:14-23 | once an id has been read, every later read returns the same id and leaves the store unchanged |
| `LicenseCheck.UserDefaults.PersistentDeviceId` | ContentView.swift:14-23 | the returned id and the new store are those of `ReadDeviceId` |
| `LicenseCheck.CheckLicense` | ContentView.swift:160-185 | with the URL built, sends the key with the persisted device id; without it, sends nothing and leaves the store untouched; the response is `ResponseFor` of the outcome |
| `KeyStore.Apply` | server.js:8-31 | insert adds the key with its type only when absent, and an existing row keeps its type; delete removes that key's row; every other row is unchanged |
| `KeyStore.InsertPresentKeepsRows` | server.js:9-12 | inserting a key that is already present leaves the table unchanged, type included |
| `KeyStore.InsertIdempotent` | manage-keys.js:20-23 | a repeated insert of the same key, with any type, changes nothing more |
| `KeyStore.DeleteIdempotent` | server.js:28-31 | a repeated delete changes nothing more, and deleting an absent key changes nothing |
| `KeyStore.DeleteUndoesInsert` | manage-keys.js:20-32 | removing a key just added restores the previous table |
| `KeyStore.InsertAfterDelete` | manage-keys.js:20-32 | after a removal the key can be added again with a new type |
| `KeyStore.KeyTable.Execute` | server.js:7-18 | a reachable database applies the statement; a failed query reports failure and changes nothing |
| `AdminServer.AddKey` | server.js:2-19 | a missing or empty key or type gives 400 with no change; otherwise the answer is 200 `added` with the insert-if-absent applied, or 500 `Database error` with no change |
| `AdminServer.RevokeKey` | server.js:22-37 | a missing or empty key gives 400 with no change; otherwise the answer is 200 `revoked` with that row deleted, whether or not it existed, or 500 `Database error` with no change |
| `AdminServer.IssueThenRevoke` | server.js:2-37 | issuing a fresh key and then revoking it answers `added`, then `revoked`, and restores the table |
| `AdminServer.RevokeTwice` | server.js:22-37 | revoking twice gives the same answer and the same table as revoking once; other rows are kept |
| `ManageKeys.Run` | manage-keys.js:5-44 | a missing `DATABASE_URL` aborts before dispatch; `add` without both key and type and `remove` without a key are usage errors before any query; an unknown command is an error with no query; `add` inserts if absent, `remove` deletes that row only; a database failure exits with 1 |

## Left out

- Raft_BrowserApp.swift is not part of this model. It is panel chrome, the status-bar item and hot-key registration.
- The SwiftUI view bodies, the `WebView` and its delegates, and the tab buttons' favicons are left out. So is the web view writing its loaded URL back into the tab's address: that is UI and WebKit.
- `resolvedURL` is left out, because it depends on Foundation's URL parser and percent-encoding tables. `Commit` reports only whether the address changed, which is when the page is loaded again.
- `Browser.ContentView.Commit` compares addresses character by character, that is by Unicode scalar. Swift's `String` `!=` at ContentView.swift:494 uses canonical equivalence instead. So when the trimmed bar text is a different normalisation form of the tab's address (`"caf\u{E9}"` against `"cafe\u{301}"`), the model reports a change and rewrites the tab. The source sees no change and does not reload. Unicode normalisation is not modelled. `Tabs.IndexOfTab` uses the same equality, but `close` is only ever given a tab taken from `tabs` itself, so there the two comparisons cannot disagree.
- `Countdown.Format`, `Countdown.Pad2`, `Countdown.Decimal`: `String(format:)` reads each `%02d` argument as a 32-bit `int`. An hours count of 2^31 or more, an expiry more than about 245,000 years ahead, would print wrapped, as a negative number. The model prints unbounded naturals, so `FormatRoundTrip` and `DisplayReadsBack` hold for every value.
- `goBack`, `goForward` and `reloadPage` are not modelled separately. They are gated by `VerifyLicense` exactly like `Commit`, and what they then do is WebKit navigation.
- The network request, JSON encoding and decoding, `DispatchQueue` and `Timer` scheduling are left out. A response is an input. A block dispatched to the main queue runs immediately after its caller, and a timer firing is a call to `Tick` or `PollResponse`.
- Dates are modelled as integer milliseconds. `Double` arithmetic and `timeIntervalSinceNow` rounding are not represented.
- `UUID()` for tab ids is modelled by a counter that only grows. Random UUIDs colliding is not modelled.
- `NSApp.terminate` is modelled as a flag. The model still allows calls after it, which the real process would never receive.
- The event monitor, first-responder handling and the static license prompt message are left out: they are UI only.
- The PostgreSQL pool, `pool.end()` and its failure, and console output other than the lines modelled are left out. A failed query leaves the table unchanged. A failure that happens after a commit is not modelled.
- `ManageKeys.Run`: the database-error line carries only the `DB error:` prefix. The rest is the error text, which the driver produces at run time.
- `AdminServer.AddKey`: request fields are absent or strings. JSON numbers and booleans in the body, and their JavaScript truthiness, are not modelled.
- The server's `/verify` endpoint and anything it does (device binding, expiry, deletion) are not part of this model.
