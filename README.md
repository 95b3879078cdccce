# Junior Connect: outgoing text and device picking, in Dafny

This project models two pieces of sequential logic from the Android app that talks to a
"junior" Bluetooth display.

- **The connect screen's send path** (`BluetoothConnectFragment`). The send button
  normalises the typed text: line feeds become spaces, then Java's `trim()` is applied. If
  the result equals the last remembered value (`oldValue`), the button does nothing.
  Otherwise the result is remembered, cut to its last `CAPACITY` = 120 characters by a
  reverse-append loop and a reverse, and handed to `sendMessage`. `sendMessage` writes it
  to the connect service only while the service is `STATE_CONNECTED`. Otherwise it shows a
  "not connected" notice, unless the call is silent. Disconnecting, or the service's
  DISCONNECTED notification, resets `oldValue` to `""`.
- **The device picker** (`DeviceListActivity`). Devices are listed as
  `name + "\n" + address`, and `getAddress` reads the last 17 characters back.
  After the bonded devices are listed: with none, a placeholder entry is added; with
  several, the list is shown; with exactly one, its address is selected at once.
  Discovery adds only devices that are not bonded, and when it finishes with an empty
  list, one placeholder is added.

Files:

- `Wrappers.dfy`: the `Option` datatype. `None` stands for Java's `null` and for a call
  that throws.
- `JavaText.dfy`: `replaceAll("\n", " ")`, `trim()` (which strips characters up to
  U+0020 at both ends) and `StringBuilder.reverse()`, written over `seq<char>`.
- `BluetoothConnect.dfy`: a stand-in for the connect service (its state plus the payloads
  passed to `write`), the fragment as a class with the fields `oldValue`, `outBuffer` and
  the notices shown, and the pure function `SendStep` describing one press of the send
  button. `OnTextSend` is proved against `SendStep`, and the lemmas about `SendStep` carry
  the properties.
- `DevicePicker.dfy`: entry formatting, the loop that fills the paired list (`FillPaired`, which `OnCreate` calls), `GetAddress`, the paired-count decision, the
  discovery functions, and the activity as a class whose lists are `seq<string>` fields.

The Java field `oldValue` starts out `null`, and `value.equals(null)` is false. So the first
empty send is written, but once the field has been reset to `""` an empty send is
suppressed (`EmptySendNullVersusReset`). A bonded device with a `null` name is listed as
`"null\n" + address`, because that is what Java string concatenation produces.

The connect service's own source is not part of this model. The stand-in's `Stop` returns
it to `STATE_NONE`. This is an assumption; it fits `onResume` checking for `STATE_NONE`
before calling `start()` (BluetoothConnectFragment.java, lines 141-147). `Write` only
records the payload.

## Model

| member | source | states |
|---|---|---|
| JavaText.ReplaceNewlines | app/src/main/java/com/trivisio/junior/connect/BluetoothConnectFragment.java:387 | every line feed becomes a space; every other character and the length are kept; no line feed remains |
| JavaText.Trim | app/src/main/java/com/trivisio/junior/connect/BluetoothConnectFragment.java:387 | the result is a contiguous piece of the input; only blanks (code <= U+0020) are cut from either end; the result neither starts nor ends with a blank; it contains only characters of the input |
| JavaText.Reversed | app/src/main/java/com/trivisio/junior/connect/BluetoothConnectFragment.java:404 | `StringBuilder.reverse()`: same length, and position k holds the character at position length-1-k |
| JavaText.ReversedTwice | app/src/main/java/com/trivisio/junior/connect/BluetoothConnectFragment.java:404 | reversing the builder's reversed characters restores their order |
| BluetoothConnect.Normalize | app/src/main/java/com/trivisio/junior/connect/BluetoothConnectFragment.java:387 | the candidate value has no line feed and no blank at either end |
| BluetoothConnect.NormalizeIdempotent | app/src/main/java/com/trivisio/junior/connect/BluetoothConnectFragment.java:387 | normalising an already normalised value changes nothing |
| BluetoothConnect.Outgoing | app/src/main/java/com/trivisio/junior/connect/BluetoothConnectFragment.java:392-404 | the text sent is a suffix of the value of length min(120, length); a value of 120 characters or fewer is sent unchanged |
| BluetoothConnect.LastChars | app/src/main/java/com/trivisio/junior/connect/BluetoothConnectFragment.java:397-404 | the countdown loop plus reverse yields exactly the last min(120, length) characters in original order, at most 120 of them |
| BluetoothConnect.SendStep | app/src/main/java/com/trivisio/junior/connect/BluetoothConnectFragment.java:386-406 | one press of the send button: either nothing changes, or the full normalised value is remembered; a payload is written only when connected and has at most 120 characters; the notice is shown only when not connected, and then nothing is written |
| BluetoothConnect.RepeatSuppressed | app/src/main/java/com/trivisio/junior/connect/BluetoothConnectFragment.java:388-390 | a send has no effect at all (no write, no notice, remembered value unchanged) if and only if its normalised value equals the remembered one |
| BluetoothConnect.SendRemembersFullValue | app/src/main/java/com/trivisio/junior/connect/BluetoothConnectFragment.java:391-405 | a non-repeated send remembers the full normalised value, not the truncated one; it writes if and only if connected; it shows the notice if and only if not connected |
| BluetoothConnect.SendTwiceIdempotent | app/src/main/java/com/trivisio/junior/connect/BluetoothConnectFragment.java:388-391 | a second send of the same text is a no-op, also when the first was dropped for lack of a connection |
| BluetoothConnect.PayloadShape | app/src/main/java/com/trivisio/junior/connect/BluetoothConnectFragment.java:392-405 | a payload is written only when connected; it is a suffix of the normalised value of length min(120, length); it is the whole value when that is short enough; it is exactly "" for an empty value |
| BluetoothConnect.ResetReenablesSend | app/src/main/java/com/trivisio/junior/connect/BluetoothConnectFragment.java:324-330 | after the reset to "", any text with a non-empty normalised value is written again |
| BluetoothConnect.EmptySendNullVersusReset | app/src/main/java/com/trivisio/junior/connect/BluetoothConnectFragment.java:388-394 | an empty value is written while `oldValue` is still null, and suppressed once it has been reset to "" |
| BluetoothConnect.BluetoothConnectFragment.SetupConnectService | app/src/main/java/com/trivisio/junior/connect/BluetoothConnectFragment.java:196-200 | a fresh service in STATE_NONE with nothing written, and an empty out-buffer |
| BluetoothConnect.BluetoothConnectFragment.SendMessage | app/src/main/java/com/trivisio/junior/connect/BluetoothConnectFragment.java:213-229 | writes the message and clears the out-buffer exactly when connected; otherwise writes nothing, leaves the out-buffer alone, and adds a notice unless silent |
| BluetoothConnect.BluetoothConnectFragment.OnTextSend | app/src/main/java/com/trivisio/junior/connect/BluetoothConnectFragment.java:386-406 | the new `oldValue`, the writes, the out-buffer and the notices are exactly those `SendStep` gives for the old `oldValue`, the connection state and the text |
| BluetoothConnect.BluetoothConnectFragment.DisconnectDevice | app/src/main/java/com/trivisio/junior/connect/BluetoothConnectFragment.java:126-132 | with a service: silently writes the farewell text if connected, stops the service and resets `oldValue` to ""; without one: changes nothing |
| BluetoothConnect.BluetoothConnectFragment.OnDisconnected | app/src/main/java/com/trivisio/junior/connect/BluetoothConnectFragment.java:324-330 | the DISCONNECTED notification resets `oldValue` to "" |
| DevicePicker.DisplayName | app/src/main/java/com/trivisio/junior/connect/DeviceListActivity.java:117 | Java string concatenation renders a present name as itself and a `null` name as "null" |
| DevicePicker.Entry | app/src/main/java/com/trivisio/junior/connect/DeviceListActivity.java:117 | an entry is the displayed name, a line feed, then the address, which ends the entry |
| DevicePicker.Entries | app/src/main/java/com/trivisio/junior/connect/DeviceListActivity.java:114-119 | one entry per bonded device, in iteration order |
| DevicePicker.FillPaired | app/src/main/java/com/trivisio/junior/connect/DeviceListActivity.java:114-119 | the for-each loop over the bonded devices fills the adapter with exactly their entries, in iteration order |
| DevicePicker.GetAddress | app/src/main/java/com/trivisio/junior/connect/DeviceListActivity.java:160-162 | defined if and only if the entry has at least 17 characters; then it is exactly the entry's last 17 characters |
| DevicePicker.AddressRoundTrip | app/src/main/java/com/trivisio/junior/connect/DeviceListActivity.java:159-162 | reading the address back from a formatted entry gives the device's address if and only if that address has 17 characters |
| DevicePicker.EntriesRoundTrip | app/src/main/java/com/trivisio/junior/connect/DeviceListActivity.java:151-157 | clicking any entry of a list of well-formed devices selects that device's address |
| DevicePicker.PairedDecision | app/src/main/java/com/trivisio/junior/connect/DeviceListActivity.java:121-130 | the else-if chain: placeholder case if and only if no entry; list case if and only if more than one; otherwise auto-selection of `getAddress` of the single entry |
| DevicePicker.PairedDecisionCases | app/src/main/java/com/trivisio/junior/connect/DeviceListActivity.java:121-130 | zero bonded devices give the placeholder case, more than one give the list case, exactly one gives auto-selection of its address |
| DevicePicker.Discovered | app/src/main/java/com/trivisio/junior/connect/DeviceListActivity.java:197-203 | one ACTION_FOUND broadcast changes the list if and only if the device is non-null and not bonded, and then appends exactly its entry |
| DevicePicker.DiscoveryFinished | app/src/main/java/com/trivisio/junior/connect/DeviceListActivity.java:205-211 | the list is never empty afterwards: a non-empty list is kept, an empty one becomes exactly the placeholder |
| DevicePicker.DiscoverAll | app/src/main/java/com/trivisio/junior/connect/DeviceListActivity.java:197-203 | the new-devices list after a run of ACTION_FOUND broadcasts from empty; it has at most one entry per broadcast |
| DevicePicker.Unbonded | app/src/main/java/com/trivisio/junior/connect/DeviceListActivity.java:200-203 | reference definition: every device kept was reported and is not bonded, and every reported non-null, non-bonded device is kept |
| DevicePicker.DiscoverAllIsUnbonded | app/src/main/java/com/trivisio/junior/connect/DeviceListActivity.java:197-203 | the new-devices list after a run of discoveries is exactly the entries of the reported non-null, non-bonded devices, in order |
| DevicePicker.DiscoveryOutcome | app/src/main/java/com/trivisio/junior/connect/DeviceListActivity.java:205-211 | when discovery finishes, the list is exactly one placeholder if no unbonded device was found, and otherwise those devices' entries |
| DevicePicker.DeviceListActivity.OnCreate | app/src/main/java/com/trivisio/junior/connect/DeviceListActivity.java:81-130 | result starts cancelled; with no bonded device the list is exactly the placeholder and nothing is selected; with several the title is shown and nothing is selected; with one its address is returned, or getAddress throws |
| DevicePicker.DeviceListActivity.OnDeviceFound | app/src/main/java/com/trivisio/junior/connect/DeviceListActivity.java:164-180 | the address is returned as the result and the picker finishes |
| DevicePicker.DeviceListActivity.OnItemClick | app/src/main/java/com/trivisio/junior/connect/DeviceListActivity.java:151-157 | the clicked entry's last 17 characters are returned, or getAddress throws for a shorter entry |
| DevicePicker.DeviceListActivity.OnDeviceDiscovered | app/src/main/java/com/trivisio/junior/connect/DeviceListActivity.java:197-203 | a non-null device that is not bonded is appended; a bonded one leaves the list unchanged |
| DevicePicker.DeviceListActivity.OnDiscoveryFinished | app/src/main/java/com/trivisio/junior/connect/DeviceListActivity.java:205-211 | an empty list becomes exactly one placeholder; a non-empty one is kept |

## Left out

- The connection-management service (`BluetoothConnectService`): its source is not part of this model. It is a stand-in holding a state and the list of written payloads. Its threads, sockets, `connect` and `start` are concurrency and I/O.
- UTF-8 encoding in `sendMessage`: payloads are recorded as the string itself.
- Java strings count UTF-16 code units, and `StringBuilder.reverse` keeps surrogate pairs together. The model counts Unicode scalar values (`char`). So for text with characters outside the Basic Multilingual Plane (emoji, say), the 120-character cut (BluetoothConnectFragment.java, line 399) and the 17-character cut (DeviceListActivity.java, line 161) fall at a different place in the model than in the app, and the app can split a surrogate pair where the model cannot.
- BluetoothConnect.BluetoothConnectFragment.SendMessage: requires a service, because the Java code dereferences `mConnectService` unconditionally and would throw a `NullPointerException` without one.
- BluetoothConnect.BluetoothConnectFragment.OnTextSend: requires a service, for the same reason (it calls `sendMessage`).
- Android lifecycle callbacks (`onCreate`, `onStart`, `onResume`, `onDestroy` beyond `disconnectDevice`), permission and SDK-version checks, `Intent` and `startActivityForResult` plumbing, `connectDevice`, `BluetoothAdapter` calls and `cancelDiscovery`. These are platform calls. Permissions are taken as granted.
- Toasts other than the "not connected" notice, action-bar subtitles, button and list visibility, and the handler's other cases. These are UI. Only the paired-list title's visibility is kept.
- The placeholder texts (`none_paired`, `none_found`) are Android string resources. They are parameters.
- The order in which `getBondedDevices()` iterates its set is given as the order of the input sequence.
- `MainActivity`: permission results, fragment transactions and the timer-driven double-back-to-exit flag.
