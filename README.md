# Verified model of the Kynetics CAN example application

The application is an Android demo for a raw CAN socket. When it starts, it
lists the CAN network interfaces named in the kernel's network device
listing. It then shows two tabs:

- a sender tab, which binds a socket to the chosen interface, sets loopback and
  receive-own-messages mode, and sends one frame built from three inputs;
- a receiver tab, which binds a socket and runs a background task that
  publishes every frame it receives.

This project models three parts of the application in Dafny:

- **Discovery** (`MainActivity`). This covers the `findCanDevices` read loop
  over the listing's lines. For each line it models group 1 of the pattern
  `^ *(.*):`. That group is greedy, and Java's `.` stops at a line
  terminator. It also models the `can` prefix filter and the three-way choice
  of start dialog.
- **Sender** (`Sender`). `ValidateSend` models the send button's chain of
  early returns as a pure function. It covers: the socket is present, the ID
  text parses with `Integer.parseInt`, the ID is below 2048, the frame type
  sets the RTR/ERR flags, and the data text is not empty. The payload is the
  text's `getBytes()`, which on Android is UTF-8.
  The class `SenderFragment` holds the fragment's static `socket` and `canIf`
  (present or `null`), the widgets the listeners change, and a log of every
  call made on the socket and its interface.
- **Receiver** (`Receiver`). The class `ReceiverFragment` models the bind and
  acquisition toggles over the static `socket` and the receive tasks.
  `ReceiveLoop` models `doInBackground` over a scripted sequence of `recv`
  outcomes and a cancellation point. It is proved against the specification
  functions `RecvCalls` and `Frames`.

The CAN library (`de.entropia.can.CanSocket`) is not part of this model. Each
of its calls that can throw `IOException` appears as a boolean parameter
(`createOk`, `bindOk`, `closeOk`, `setOk`, `sendOk`, …) of the listener that
makes the call. The call itself is appended to the object's `log`, whether it
throws or not. A `NullPointerException` that escapes a listener ends the
application; it is reported as `HandlerResult.Crashed`. Four places can
raise it:

- `socket.close()` on a `null` socket;
- `canIf.toString()` on a `null` interface;
- `socket.bind` after a failed creation in the sender;
- `rcvTask.cancel(true)` when the acquisition toggle is turned off before any
  receive task was started.

The model keeps these behaviours of the code:

- IDs are checked only against 2048 from above, so negative IDs pass.
- The payload is never capped at eight bytes.
- The sender always shows "binded" on creating its view.
- A `close` that throws leaves the `socket` field set.
- The receive loop stops on a `NullPointerException`. It has no explicit
  "closed during receive" result.
- `onDestroy` closes the socket but leaves the static field set. In the
  receiver it does not cancel the receive task.

## Model

| member | source | states |
|---|---|---|
| `JavaInteger.ParseInt` | app/src/main/java/com/kynetics/can_example_application/ui/main/SenderFragment.java:212-218 | a text is accepted exactly when it is an optional `+`/`-` followed by at least one ASCII digit and nothing else, and its signed value fits in 32 bits; the result is that value |
| `JavaInteger.NonDigitRejected` | app/src/main/java/com/kynetics/can_example_application/ui/main/SenderFragment.java:212-218 | any character that is neither a digit nor a leading sign makes the text a NumberFormatException (`"12a"`, `" 5"`, `"1.0"`) |
| `JavaInteger.PlusSignIgnored` | app/src/main/java/com/kynetics/can_example_application/ui/main/SenderFragment.java:213 | a leading `+` on a digit string does not change the parsed result |
| `JavaInteger.LeadingZeroIgnored` | app/src/main/java/com/kynetics/can_example_application/ui/main/SenderFragment.java:213 | a leading zero on a digit string does not change the parsed result |
| `JavaInteger.ParseFormat` | app/src/main/java/com/kynetics/can_example_application/ui/main/SenderFragment.java:212-218 | parsing the decimal text of any integer gives it back exactly when it fits in 32 bits, and is a NumberFormatException otherwise |
| `Utf8.DecodeEncode` | app/src/main/java/com/kynetics/can_example_application/ui/main/SenderFragment.java:257 | the bytes of a text decode back to that text, so distinct texts give distinct payloads |
| `Utf8.EncodeLength` | app/src/main/java/com/kynetics/can_example_application/ui/main/SenderFragment.java:257 | the payload has between one and four bytes per character and is empty exactly when the text is |
| `Utf8.EncodeAscii` | app/src/main/java/com/kynetics/can_example_application/ui/main/SenderFragment.java:257 | an ASCII text is sent as its character codes, one byte per character |
| `MainActivity.ExtractName` | app/src/main/java/com/kynetics/can_example_application/MainActivity.java:144-151 | no match exactly when no colon lies before the first line terminator; on a match the name runs from after all leading spaces up to the last such colon |
| `MainActivity.FindCanDevices` | app/src/main/java/com/kynetics/can_example_application/MainActivity.java:141-163 | a read failure gives null; otherwise the loop returns the `can` names of the lines, in order |
| `MainActivity.NoColonNoDevice` | app/src/main/java/com/kynetics/can_example_application/MainActivity.java:144-150 | a line without a colon contributes no device |
| `MainActivity.CanDevicesAppend` | app/src/main/java/com/kynetics/can_example_application/MainActivity.java:148-155 | the devices of two runs of lines are those of the first followed by those of the second (file order) |
| `MainActivity.CanDevicesLength` | app/src/main/java/com/kynetics/can_example_application/MainActivity.java:148-155 | there are never more devices than lines |
| `MainActivity.CanDevicesMembers` | app/src/main/java/com/kynetics/can_example_application/MainActivity.java:149-152 | a name is returned exactly when it starts with `can` and is the extracted name of some line |
| `MainActivity.AllCanNames` | app/src/main/java/com/kynetics/can_example_application/MainActivity.java:151-152 | every returned name starts with `can` |
| `MainActivity.Classify` | app/src/main/java/com/kynetics/can_example_application/MainActivity.java:62-68 | null gives the no-permissions dialog, empty the no-interfaces dialog, non-empty the selection list of exactly those devices; the three are exclusive and exhaustive |
| `MainActivity.StartDialogOffersList` | app/src/main/java/com/kynetics/can_example_application/MainActivity.java:60-68 | the selection list is shown exactly when the listing was readable and some line names a CAN device |
| `Sender.FrameFlags` | app/src/main/java/com/kynetics/can_example_application/ui/main/SenderFragment.java:233-244 | RTR is set exactly for the RTR choice, ERR exactly for the ERR choice, never both; data or no selection sets neither |
| `Sender.ValidateSend` | app/src/main/java/com/kynetics/can_example_application/ui/main/SenderFragment.java:203-257 | the checks reject in order (no socket, ID not an int, ID at least 2048, empty data); a frame is built exactly when all pass, with the parsed ID, the chosen flags and a payload that decodes back to the data text |
| `Sender.NegativeIdAccepted` | app/src/main/java/com/kynetics/can_example_application/ui/main/SenderFragment.java:221-229 | a negative 32-bit ID typed in passes the range check and is built into the frame unchanged |
| `Sender.IdRangeCheck` | app/src/main/java/com/kynetics/can_example_application/ui/main/SenderFragment.java:212-227 | for any 32-bit ID typed in, the range rejection happens exactly when the ID is at least 2048 |
| `Sender.PayloadIsWholeText` | app/src/main/java/com/kynetics/can_example_application/ui/main/SenderFragment.java:248-257 | a built frame's payload is the whole encoded text, at least as long as the text, with no eight-byte cap |
| `Sender.SenderFragment.constructor` | app/src/main/java/com/kynetics/can_example_application/ui/main/SenderFragment.java:43-44 | the static socket and interface start null and no library call has been made |
| `Sender.SenderFragment.OnCreate` | app/src/main/java/com/kynetics/can_example_application/ui/main/SenderFragment.java:70-79 | create, resolve and bind run in order; the first that throws stops the rest and leaves the field it would assign unchanged |
| `Sender.SenderFragment.OnCreateView` | app/src/main/java/com/kynetics/can_example_application/ui/main/SenderFragment.java:103-108 | the status shows bound and the bind toggle is on, whatever the socket's state |
| `Sender.SenderFragment.OnBindToggled` | app/src/main/java/com/kynetics/can_example_application/ui/main/SenderFragment.java:111-153 | binding creates a socket only when absent and marks bound only on a successful bind; a failed creation leads to a crash; unbinding closes, and clears the socket only when close succeeds; unbinding with no socket crashes |
| `Sender.SenderFragment.OnLoopbackChanged` | app/src/main/java/com/kynetics/can_example_application/ui/main/SenderFragment.java:159-175 | with no socket the checkbox is reverted and no library call is made; otherwise the mode is set, then read back if setting did not throw |
| `Sender.SenderFragment.OnRecvOwnMsgsChanged` | app/src/main/java/com/kynetics/can_example_application/ui/main/SenderFragment.java:180-196 | with no socket the checkbox is reverted and no library call is made; otherwise the mode is set, then read back if setting did not throw |
| `Sender.SenderFragment.OnSendClick` | app/src/main/java/com/kynetics/can_example_application/ui/main/SenderFragment.java:202-270 | a rejected click makes no socket call; a frame that passes is sent exactly once; only checked frames are ever sent |
| `Sender.SenderFragment.OnDestroy` | app/src/main/java/com/kynetics/can_example_application/ui/main/SenderFragment.java:279-288 | close is attempted only when a socket is present; the field itself is not cleared |
| `Receiver.RecvCalls` | app/src/main/java/com/kynetics/can_example_application/ui/main/ReceiverFragment.java:203-216 | the loop makes every call up to cancellation unless a null socket comes first; in that case it stops just after the first null socket |
| `Receiver.ReceiveLoop` | app/src/main/java/com/kynetics/can_example_application/ui/main/ReceiverFragment.java:198-219 | the loop performs exactly `RecvCalls` receives and no receive after cancellation; it publishes the frames among them in order and stops early exactly when a null socket occurs before cancellation |
| `Receiver.FramesAppend` | app/src/main/java/com/kynetics/can_example_application/ui/main/ReceiverFragment.java:203-208 | what is published for two runs of receives is the first's messages followed by the second's (receive order) |
| `Receiver.OneMessagePerFrame` | app/src/main/java/com/kynetics/can_example_application/ui/main/ReceiverFragment.java:204-214 | a received frame publishes exactly one message, itself; an IOException or a null socket publishes nothing |
| `Receiver.FramesLength` | app/src/main/java/com/kynetics/can_example_application/ui/main/ReceiverFragment.java:203-208 | at most one message per receive call |
| `Receiver.LaterCancelPublishesMore` | app/src/main/java/com/kynetics/can_example_application/ui/main/ReceiverFragment.java:203 | a later cancellation makes at least as many receives, and what an earlier cancellation publishes is a prefix of what a later one publishes |
| `Receiver.ReceiverFragment.constructor` | app/src/main/java/com/kynetics/can_example_application/ui/main/ReceiverFragment.java:40-42 | the static socket, interface and receive task start null |
| `Receiver.ReceiverFragment.OnCreate` | app/src/main/java/com/kynetics/can_example_application/ui/main/ReceiverFragment.java:64-73 | create, resolve and bind run in order; the first that throws stops the rest and leaves the field it would assign unchanged |
| `Receiver.ReceiverFragment.OnCreateView` | app/src/main/java/com/kynetics/can_example_application/ui/main/ReceiverFragment.java:89-103 | with no socket the no-permissions view replaces the receiver view; otherwise the status shows bound and the bind toggle is on |
| `Receiver.ReceiverFragment.OnBindToggled` | app/src/main/java/com/kynetics/can_example_application/ui/main/ReceiverFragment.java:106-155 | a failed creation returns before any bind; a failed bind leaves the status unchanged; unbinding cancels the current task before closing, and clears the socket only when close succeeds |
| `Receiver.ReceiverFragment.OnAcquisitionToggled` | app/src/main/java/com/kynetics/can_example_application/ui/main/ReceiverFragment.java:161-177 | starting with no socket starts no task and resets the toggle to off; otherwise a new task becomes the current one; stopping cancels the current task |
| `Receiver.ReceiverFragment.OnDestroy` | app/src/main/java/com/kynetics/can_example_application/ui/main/ReceiverFragment.java:185-193 | close is attempted only when a socket is present; the receive task is not cancelled |

## Left out

- The CAN library is not part of this model (`de.entropia.can.CanSocket`: `bind`, `send`, `recv`, `close`, the mode setters and getters, `CanInterface`, `CanId`, `CanFrame`, `toString`). Its outcomes are parameters, and a received frame is an opaque `RxFrame`.
- Sender.SocketCall: the `CanId` calls the send handler makes before its empty-data check (`new CanId`, `toString`, `setRTR`/`setERR`, `isSetRTR`/`isSetERR`) are not logged; they only build the identifier and touch no socket.
- Sender.FrameDesc: the `id` field is the raw `int` passed to `CanId`. How the library encodes it, or a negative value, is not modelled.
- The receive task's threading is not modelled: AsyncTask, `cancel(true)` interruption timing, and the `onProgressUpdate`/`onCancelled`/`onPostExecute` callbacks. `ReceiveLoop` runs sequentially. Cancellation is a point between calls, and the `NullSocket` outcome stands for any `NullPointerException` in the loop body.
- The text of a published message (frame rendering plus the ASCII view) is not modelled. It depends on `CanFrame.toString`; each frame is published as itself.
- Snackbars, toasts, colours, the progress bar, the message text view, dialogs, menus and `recreate()` are presentation only.
- Android's `setChecked` re-entrancy inside a listener is framework behaviour. Each listener runs once per change.
- Reading the listing file is I/O. The loop takes the lines read and one flag saying whether opening, reading or closing threw `IOException`.
- SectionsPagerAdapter.java is not part of this model. It only maps tabs to fragments.
- Layout resources are not part of this model. The checkboxes and toggles start unchecked.
- A `null` fragment argument bundle (`getArguments()`) is not modelled. The fragments are always created with one.
- JavaInteger.ParseInt: accepts only ASCII digits. Java's `Character.digit` also accepts other Unicode decimal digits.
- Utf8.Encode: a character here is a Unicode scalar value. A Java string with an unpaired surrogate cannot be represented; Java encodes one as `?`.
