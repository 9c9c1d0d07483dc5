# hidbridge, verified model

hidbridge turns a Linux PC's keyboard and mouse into a USB keyboard and mouse on another
computer. A Go daemon reads evdev events, keeps the state of keys, buttons and motion in a
Reporter, and frames the resulting HID reports. An ESP32-S3 parses the frames byte by byte and
replays the reports over USB. The same wire protocol carries Wi-Fi credentials and firmware
updates. A grab controller decides when the events are forwarded.

The model follows that path. Code that updates state in place is a class whose methods are
proved against a specification function; the main theorems are about those functions.

| module | what it models |
|---|---|
| `Bytes` | bytes, exclusive or, little-endian and two's complement numbers |
| `Wire` | frames and the senders that build them (sink.go, ota.go) |
| `Parsing`, `ParserProperties` | the nine-state frame parser and what it guarantees |
| `Resynchronisation` | a parser that is not where the sender thinks it is |
| `Transports` | several parsers sharing one chunk buffer |
| `OtaUpdate`, `OtaDriver`, `OtaLoss`, `OtaLinks`, `OtaTraffic` | the firmware update on both sides, what it asks of the flash driver, over an imperfect link, over several connections, and among other messages |
| `Credentials` | Wi-Fi credentials, packed and unpacked |
| `Statistics` | the firmware's keystroke and click counters |
| `Slices` | Go slices edited in place |
| `Keymap`, `Reporting` | the keycode tables and the Reporter |
| `KeyboardProperties`, `MotionProperties`, `MotionLimits`, `ReportHistory` | the Reporter against the history of events; the two flush disciplines; the limits of a report; when a report is due |
| `Pipeline` | from the history of events to what the target receives |
| `Kvm`, `KvmDevices`, `KvmInput`, `KvmRaces`, `KvmAtomic` | the grab controller: its steps, the devices it tracks, with the Reporter, interleaved reader threads, and how the last two models meet |
| `WholeRun`, `KvmMirror` | from every run of the daemon to what the target holds, with events handled in one piece and interleaved |
| `NetLink` | the TCP link's connections and readers |
| `Discovery` | finding input devices and owning their descriptors |

`dafny verify dfyconfig.toml` checks the project. Every lemma turns Dafny's automatic induction
off; where a proof is inductive, the induction is written out.

## Where the code and its documentation part

The model follows the code. These promises of the comments do not hold as written:

- main.c:629 says that a leftover of a frame resyncs on the next sync byte. It does not: a parser
  left anywhere but in sync loses or mistakes some list of frames (`ExactIffInSync`), because a
  0xAB inside a frame is data, and one in place of a type ends the frame that follows. What brings
  it back is a gap without 0xAB, of a length that depends on the state and is at most 1028 bytes
  (`GapIsExact`), or as many bytes of frames that hold no 0xAB behind their first
  (`SelfSynchronises`). Noise that ends in 0xAB is the other danger (`NoiseEndingInSyncs`).
- report.go:48-50 calls the summing of deltas lossless. It is, exactly while no accumulator
  exceeds its report field at a flush (`NoLossIffNoSaturation`; `SaturatedRun` is a run where one
  does). And a tick between the events of
  one frame moves a click (`MidFrameTickMovesClick`): at a SYN both modes have told the target the
  same exactly when the coalescing one flushes there or has nothing to flush (`SamePlaceIff`).
- report.go:220-221 promises a target without stuck keys when the grab goes off. With each event
  handled in one piece that holds for every voluntary release (`Handover`). With readers that
  check the grab and act on it later, it holds exactly when at most one of them was past its check
  at the release (`NeutralIffOneLate`). A forced release sends nothing.
- ota.go:42-44 says that an interrupted transfer leaves the running firmware intact. On its own it
  does (`InterruptedIsSafe`), but it leaves an update running, and a later transfer that loses its
  BEGIN can complete it with a mixed image, if the sizes happen to add up (`MixedImage` is such a
  run, `LossExactly` the exact law); only the driver's validation is left then.
- main.c:372 describes the END payload as a size checked against the bytes received. A payload
  under four bytes skips that check and leaves only the driver's own validation
  (`ShortEndSkipsTheCheck`). The daemon always sends the size.
- main.c:314 allows for one OTA at a time. Nothing enforces it: two transports streaming at
  once overwrite each other's chunk under a checksum that still fits (`SharedBufferRace`;
  `ChunkIntactIff` says exactly when they do not).
- The descriptor declares wheel values from -127 (main.c:136), but -128 can be sent
  (`FarDownRun`), exactly when a flush finds a wheel turned that far (`DeclaredIffNeverFarDown`).
- main.go:254-255 forwards an event "only while grabbed". An event that passed that check under
  one grab may be forwarded under the next: the target then holds a key that nothing since the
  grab has pressed (`StaleRun`). That cannot happen if and only if no reader is past its check when
  the grab is taken (`FreshIffNoneLate`).

(main.c stands for firmware/esp32s3_hid_idf/main/main.c.)

## Model

| member | source | states |
|---|---|---|
| Wire.Frame | sink.go:53-63 | the checksum loop yields sync, type, payload and the XOR of type and payload |
| Wire.KeyboardFrame | sink.go:65 | a keyboard report becomes a well-formed message |
| Wire.MouseFrame | sink.go:67-74 | a mouse report with 16-bit motion and 8-bit wheel becomes a well-formed message |
| Wire.ControlFrame | main.go:374 | a control byte becomes a well-formed message |
| Wire.MouseRoundTrip | sink.go:67-74 | buttons, dx, dy and wheel are recovered from the six bytes, signs included |
| Wire.OtaBeginFrame | ota.go:21-26 | the frame of the length-prefixed token and 32-bit size |
| Wire.OtaDataFrame | ota.go:29-34 | the frame of a chunk with its 16-bit length |
| Wire.OtaEndFrame | ota.go:37-40 | the frame of the 32-bit size |
| Bytes.Le32Truncates | ota.go:57 | the size that arrives is the image's size modulo 2^32 |
| Parsing.Parser.constructor | firmware/esp32s3_hid_idf/main/main.c:532 | a new parser is valid and in sync |
| Parsing.Parser.Feed | firmware/esp32s3_hid_idf/main/main.c:459-514 | one byte, fields and both buffers updated in place, does exactly what the step function says and keeps every index in bounds |
| Parsing.Parser.FeedOta | firmware/esp32s3_hid_idf/main/main.c:497-512 | the four chunk-streaming states, against the same step function |
| Parsing.Parser.FeedAll | firmware/esp32s3_hid_idf/main/main.c:538 | feeding one read byte by byte is a run over its bytes |
| Parsing.RunPiecesIsRun | firmware/esp32s3_hid_idf/main/main.c:534-539 | how the link cuts the stream into reads makes no difference |
| ParserProperties.FrameRoundTrip | firmware/esp32s3_hid_idf/main/main.c:459-514 | from sync, a well-formed message's frame dispatches exactly that message and ends in sync |
| ParserProperties.StreamRoundTrip | firmware/esp32s3_hid_idf/main/main.c:459-514 | every list of well-formed messages, cut into reads anywhere, is dispatched exactly and in order |
| ParserProperties.RunBody | firmware/esp32s3_hid_idf/main/main.c:465-511 | with sync, type and length intact a frame is dispatched if and only if its checksum fits, and the parser is in sync at its end |
| ParserProperties.ChecksumExact | firmware/esp32s3_hid_idf/main/main.c:485-511 | a frame hit by error masks is dispatched if and only if the XOR of the masks is zero |
| ParserProperties.LossyStream | firmware/esp32s3_hid_idf/main/main.c:459-514 | lost and damaged frames never affect their neighbours |
| ParserProperties.ChecksumStep | firmware/esp32s3_hid_idf/main/main.c:465-507 | the running checksum always is the XOR of the bytes consumed since the sync byte |
| ParserProperties.NothingForged | firmware/esp32s3_hid_idf/main/main.c:459-514 | whatever arrives, every dispatched message is well formed and its whole frame occurs in the stream, in order and without overlap |
| Resynchronisation.RankDecreases | firmware/esp32s3_hid_idf/main/main.c:459-514 | outside sync every byte lowers a rank of at most 1028, and only a byte that ends a frame dispatches |
| Resynchronisation.Resync | firmware/esp32s3_hid_idf/main/main.c:459-514 | from any state, as many bytes without 0xAB as the rank bring the parser to sync with at most one dispatch |
| Resynchronisation.GapIsExact | firmware/esp32s3_hid_idf/main/main.c:459-514 | the rank is exact in every state: all gaps of n bytes without 0xAB bring the parser to sync if and only if n is at least the rank |
| Resynchronisation.ResyncThenExact | firmware/esp32s3_hid_idf/main/main.c:459-514 | after 1028 such bytes every list of frames is parsed exactly |
| Resynchronisation.ResyncIsTight | firmware/esp32s3_hid_idf/main/main.c:500-508 | 1027 such bytes need not be enough |
| Resynchronisation.NoiseEndingInSyncs | firmware/esp32s3_hid_idf/main/main.c:462-473 | from any state, noise long enough to end the current frame and ending in k sync bytes leaves the following frames intact if and only if k is even |
| Resynchronisation.ExactIffInSync | firmware/esp32s3_hid_idf/main/main.c:459-514 | every list of frames is read right if and only if the parser starts in sync |
| Resynchronisation.SomeFrameLost | firmware/esp32s3_hid_idf/main/main.c:626-630 | for every parser left inside a frame, a list of frames it does not read right |
| Resynchronisation.SelfSynchronises | firmware/esp32s3_hid_idf/main/main.c:459-514 | frames without an inner 0xAB bring a parser back to sync from any state once they are as long as its rank, with no gap, and all later frames are read right |
| Transports.OtherStep | firmware/esp32s3_hid_idf/main/main.c:505-508 | another transport's byte spoils this one's chunk if and only if it overwrites, with a different one, a byte already received |
| Transports.ChunkIntactIff | firmware/esp32s3_hid_idf/main/main.c:505-508 | over every interleaving a transport's chunk is at every moment what it would be alone if and only if no byte does that |
| Transports.NonInterference | firmware/esp32s3_hid_idf/main/main.c:198-203 | in every interleaving in which no byte does that, a transport dispatches exactly what its own bytes say |
| Transports.DispatchesOwnIff | firmware/esp32s3_hid_idf/main/main.c:509-511 | in every interleaving a transport dispatches exactly what its own bytes say if and only if at every fitting checksum the shared buffer holds its own chunk |
| Transports.BufferIsLastWrites | firmware/esp32s3_hid_idf/main/main.c:505-508 | what the shared buffer holds at an index is the byte written there last by any transport |
| Transports.ExclusiveNeverClobbers | firmware/esp32s3_hid_idf/main/main.c:314 | one transport streaming at a time is enough for that |
| Transports.DispatchBesideOta | firmware/esp32s3_hid_idf/main/main.c:566-574 | while one transport alone receives chunks, every transport dispatches exactly what its own bytes say; what those messages do to an update is stated under OtaTraffic |
| Transports.FrameInterior | firmware/esp32s3_hid_idf/main/main.c:459-514 | strictly inside a frame the parser is out of sync and has dispatched nothing |
| Transports.StateIsOwn | firmware/esp32s3_hid_idf/main/main.c:875-880 | a parser's state depends on its own transport's bytes only |
| Transports.SharedBufferRace | firmware/esp32s3_hid_idf/main/main.c:314 | without the proviso a chunk's checksum passes over another transport's data |
| OtaUpdate.Updater.BeginUpdate | firmware/esp32s3_hid_idf/main/main.c:327-354 | length and token checks, abort of a running update, begin; against the specification step |
| OtaUpdate.Updater.WriteChunk | firmware/esp32s3_hid_idf/main/main.c:356-368 | write, or abort when the driver refuses, and the 32-bit counter |
| OtaUpdate.Updater.EndUpdate | firmware/esp32s3_hid_idf/main/main.c:373-406 | size comparison, validation and switch of the boot slot |
| OtaUpdate.RunOta | ota.go:45-91 | for every image, token and point of failure, also inside a frame: the frames written are the transfer's up to the failing one, part of that one follows, and success means all of them |
| OtaUpdate.SentIsPrefix | ota.go:68-91 | what the link has carried then is a prefix of the transfer's bytes, and all of them only if every write got its whole frame out |
| OtaUpdate.ChunksCarryImage | ota.go:76-87 | the chunks put together are the image |
| OtaUpdate.ChunksWellFormed | ota.go:76-87 | every chunk fits the firmware's buffer and is not empty |
| OtaUpdate.TokenGate | firmware/esp32s3_hid_idf/main/main.c:327-335 | a BEGIN has an effect if and only if its payload is one the daemon could build for this token, followed by anything |
| OtaUpdate.NothingWithoutToken | firmware/esp32s3_hid_idf/main/main.c:327-368 | starting with no update running, over every run without such a BEGIN nothing is written and nothing switches |
| OtaUpdate.SwitchesExactly | firmware/esp32s3_hid_idf/main/main.c:327-406 | for every message and driver outcome: the counter tracks the bytes in the slot, and the boot slot switches exactly for an END that finds an update running, a fitting size and an agreeing driver |
| OtaDriver.ProtocolKept | firmware/esp32s3_hid_idf/main/main.c:327-406 | over every run between restarts, whatever the driver returns: an update runs exactly while a driver handle is open, and every call is one the driver allows then |
| OtaDriver.BeginCalls | firmware/esp32s3_hid_idf/main/main.c:337-349 | a BEGIN with the token ends a running update first; then one runs if and only if a slot is found and begun, with the size of the payload and an empty image |
| OtaDriver.DataCalls | firmware/esp32s3_hid_idf/main/main.c:356-368 | a chunk for a running update is written, and a refusal aborts and ends the update |
| OtaDriver.EndCalls | firmware/esp32s3_hid_idf/main/main.c:373-405 | an END for a running update ends it in every case, with exactly these calls: abort if the size does not fit, else validation, and the switch if the image is accepted |
| OtaDriver.NoCalls | firmware/esp32s3_hid_idf/main/main.c:329-335 | every other message makes no call, and ends an update only by a restart |
| OtaDriver.FailureEnds | firmware/esp32s3_hid_idf/main/main.c:343-398 | a driver call that fails ends the update |
| OtaDriver.OverAfterEnd | firmware/esp32s3_hid_idf/main/main.c:373-390 | after an END no update runs and no call is made until a BEGIN presents the token |
| OtaDriver.RestartsExactly | firmware/esp32s3_hid_idf/main/main.c:488-489 | the board restarts exactly on a control message and on credentials that are a packed pair in range |
| OtaUpdate.ShortEndSkipsTheCheck | firmware/esp32s3_hid_idf/main/main.c:376-387 | an END without a size field switches after no byte at all |
| OtaUpdate.TransferApplied | firmware/esp32s3_hid_idf/main/main.c:327-406 | the transfer's messages cause exactly the right driver calls, leave the image in the slot and switch once |
| OtaUpdate.EndToEnd | ota.go:45-91 | what runOTA writes, cut anywhere and fed to a parser in sync, gives begin the exact size and write the image in order, and switches the boot slot |
| OtaUpdate.LongTokenNeverBegins | firmware/esp32s3_hid_idf/main/main.c:201 | starting with no update running, with a token over 123 bytes no update ever starts |
| OtaLoss.TransferWorksIff | ota.go:21-91 | of all prefixes of the transfer's bytes exactly the whole with a token of at most 123 bytes switches the boot slot, under the same proviso |
| OtaLoss.OtherTokenDoesNothing | firmware/esp32s3_hid_idf/main/main.c:332-335 | starting with no update running, a transfer made with another token than the board's, whole or in part, does nothing |
| OtaLinks.OneConn | firmware/esp32s3_hid_idf/main/main.c:875-880 | a connection with a fresh parser dispatches its first messages, and all of them if and only if all its bytes arrived |
| OtaLinks.MissingIsSafe | net.go:92-106 | over any number of connections, starting with no update running, with anything missing the boot slot stays, whatever the driver returns |
| OtaLinks.SwitchesIffAllDelivered | net.go:92-106 | over any number of connections, starting with no update running, the boot slot switches if and only if every connection delivered every byte written to it |
| OtaLoss.LossIsSafe | firmware/esp32s3_hid_idf/main/main.c:327-406 | a transfer with any message missing never switches, whatever the driver returns, if its BEGIN arrives or no update was running |
| OtaLoss.LossExactly | firmware/esp32s3_hid_idf/main/main.c:327-406 | from any state, with a driver that agrees: the slot switches if and only if everything arrived, or the BEGIN was lost, an update was running and its bytes and the arrived ones add up to the size modulo 2^32; and what is in the slot |
| OtaLoss.MixedImage | firmware/esp32s3_hid_idf/main/main.c:327-406 | for all images of two chunks: a transfer broken off after its first chunk and one that loses its BEGIN and first chunk switch the slot to half of either image |
| OtaLoss.SwitchesUnderLoss | firmware/esp32s3_hid_idf/main/main.c:327-406 | the same law on the wire, for frames delivered, lost or detectably damaged |
| OtaLoss.InterruptedIsSafe | ota.go:68-91 | a transfer of which only a proper part of the bytes arrives, torn anywhere, never switches, for any token, whatever the driver returns and whatever went before (with a token over 123 bytes no update can have been running) |
| OtaLoss.SwitchesIffNothingLost | firmware/esp32s3_hid_idf/main/main.c:356-406 | starting with no update running, with frames delivered, lost or detectably damaged on the wire, the boot slot switches if and only if every frame arrived intact |
| OtaTraffic.OtherTrafficIsIgnored | firmware/esp32s3_hid_idf/main/main.c:485-511 | reports and rejected credentials between the messages of a transfer change nothing |
| OtaTraffic.SwitchesIffNoRestart | firmware/esp32s3_hid_idf/main/main.c:487-491 | a transfer among any other messages switches the boot slot, with the image in it, if and only if no control message and no accepted credentials restart the board between its BEGIN and its END |
| OtaTraffic.UpdateBesideHid | firmware/esp32s3_hid_idf/main/main.c:459-514 | in any interleaving with reports and rejected credentials on the other transports the update goes through |
| Credentials.SetWifiCreds | main.go:384-401 | credentials in range become the frame of the packed pair, others are refused |
| Credentials.AcceptsExactly | firmware/esp32s3_hid_idf/main/main.c:280-295 | the firmware accepts exactly the payloads that start with a packed pair in range |
| Credentials.Unpack | firmware/esp32s3_hid_idf/main/main.c:285-300 | it stores that pair, each string up to its first NUL |
| Credentials.CredentialsRoundTrip | main.go:384-401 | over the wire both strings are stored byte for byte, if and only if neither holds a NUL |
| Statistics.Stats.constructor | firmware/esp32s3_hid_idf/main/main.c:409-413 | counters and previous report start at zero |
| Statistics.Stats.Account | firmware/esp32s3_hid_idf/main/main.c:418-440 | a report updates the counters and history of its own kind and nothing else |
| Statistics.Stats.CountKeys | firmware/esp32s3_hid_idf/main/main.c:422-431 | the nested scan counts the slots that hold a key absent from the previous report |
| Statistics.Stats.CountClicks | firmware/esp32s3_hid_idf/main/main.c:434-438 | the bit loop counts the bits that are new in the mask |
| Statistics.NewKeysExact | firmware/esp32s3_hid_idf/main/main.c:422-430 | one report counts each newly held key once if and only if no new key fills two slots; never less |
| Statistics.KeystrokesConserved | firmware/esp32s3_hid_idf/main/main.c:415-431 | over every run the keystrokes are the keys released plus the keys held, if and only if no report fills two slots with one new key |
| Statistics.CleanIsNewOnce | firmware/esp32s3_hid_idf/main/main.c:415-431 | reports with pairwise different keys meet that condition |
| Statistics.KeystrokeCounterExact | firmware/esp32s3_hid_idf/main/main.c:429 | under it, since boot the 32-bit counter is the keys pressed modulo 2^32 |
| Statistics.ClicksConserved | firmware/esp32s3_hid_idf/main/main.c:434-438 | over every run the clicks are the button bits released plus those held |
| Statistics.ClickCounterExact | firmware/esp32s3_hid_idf/main/main.c:436 | since boot the 32-bit counter is that sum modulo 2^32 |
| Keymap.UsageDeterminesKeycode | keymap.go:37-60 | no two keycodes share a usage |
| Keymap.KeyUsageRange | keymap.go:37-56 | key usages fit a byte and are neither an empty slot nor the rollover code |
| Keymap.BitsDisjoint | keymap.go:64-82 | each modifier and each button owns one bit, and no modifier is a button |
| Keymap.SameKey | keymap.go:15-60 | every key that keymap.go names has the usage that the HID Usage Tables give to a key of that name, and no other code has one |
| Keymap.ModifierBits | keymap.go:58-73 | modifier bits are in the order of the modifiers' usages |
| Keymap.ButtonBits | keymap.go:76-82 | the five buttons take the lowest bits in order |
| Reporting.Reporter.constructor | report.go:35-46 | a new Reporter is neutral |
| Slices.Slice.Append | report.go:87 | appends in place, or to a larger copy when the backing array is full |
| Slices.Slice.DeleteAt | report.go:93 | moves the elements behind the cut down in the same array |
| Slices.Slice.Drop | main.go:175-181 | filters into the array it reads from |
| Reporting.Reporter.PressKey | report.go:83-88 | appends a usage unless it is listed |
| Reporting.Reporter.ReleaseKey | report.go:90-97 | removes the first occurrence in place and keeps the order of the rest |
| Reporting.Reporter.BuildKeyboardReport | report.go:100-114 | the eight bytes: modifiers, zero, and six slots or rollover |
| Reporting.Reporter.Handle | report.go:117-182 | one event does exactly what the specification step says, to state and to what is sent |
| Reporting.Reporter.HandleKey | report.go:122-153 | the key branch: buttons before repeats, then modifiers, then mapped keys |
| Reporting.Reporter.HandleSyn | report.go:166-181 | the SYN branch: the keyboard first, then the mouse as the mode says |
| Reporting.Reporter.SendKeyboard | report.go:185-190 | sends the current keyboard report and clears its flag |
| Reporting.Reporter.SendMouse | report.go:194-206 | sends buttons and clamped motion, then clears motion and flags |
| Reporting.Reporter.CoalesceTick | report.go:54-60 | one tick flushes pending motion |
| Reporting.Reporter.ClearState | report.go:210-218 | drops everything and sends nothing |
| Reporting.Reporter.Reset | report.go:222-236 | drops everything and sends a neutral keyboard and mouse report |
| KeyboardProperties.HeldMeansLatest | report.go:134-153 | a key is held if and only if its latest non-repeat event is a press |
| KeyboardProperties.KeyListRefines | report.go:83-97 | after every history the key list is exactly the held keys, without repetition, in the order their holds began |
| KeyboardProperties.MasksRefine | report.go:122-145 | after every history the modifier byte and button mask are the OR of the held bits |
| KeyboardProperties.ReportDecodes | report.go:100-114 | a report read as HID 1.11 Appendix B.1 and C prescribe gives back modifiers and up to six keys, and rollover beyond |
| KeyboardProperties.FlushedReportRefines | report.go:185-190 | what a flushed report decodes to is what the history says is held |
| MotionProperties.ClampNearest | report.go:63-81 | a report field holds the nearest value it can |
| MotionLimits.WheelBelowDeclaredRange | firmware/esp32s3_hid_idf/main/main.c:136-137 | the wheel byte leaves the declared range exactly for sums of -128 or less |
| MotionLimits.DeclaredIffNeverFarDown | firmware/esp32s3_hid_idf/main/main.c:136-137 | over every history all wheel values sent are declared ones if and only if no flush finds a wheel turned by -128 or less |
| MotionLimits.FarDownRun | report.go:73-81 | a run that sends -128, with and without an inverted wheel |
| ReportHistory.KeyboardPending | report.go:122-153 | a keyboard report is pending if and only if a modifier or mapped key was pressed or released since the last SYN; repeats do not count |
| ReportHistory.KeyboardStream | report.go:166-190 | over every history the keyboard reports sent are exactly those due, in order |
| ReportHistory.MousePending | report.go:122-164 | over every history the pending motion and flags are what came since the last mouse report |
| ReportHistory.MouseStream | report.go:51-61 | over every history, in both modes and with ticks anywhere, the mouse reports sent are exactly those due, each with the buttons held and the motion since the last |
| MotionProperties.ItemSends | report.go:155-182 | an event or tick sends at most a keyboard report and then a mouse report, each exactly when it is due |
| MotionProperties.MotionConserved | report.go:155-206 | for every run and ticks anywhere: motion in equals motion sent plus pending plus discarded by saturation plus dropped by int32 wrap-around, per axis |
| MotionProperties.NoOverflowNoWrap | report.go:155-164 | wrap-around drops nothing while every sum fits int32 |
| MotionProperties.NoLossIffNoSaturation | report.go:199 | saturation discards nothing, in either direction, if and only if every accumulator fits its field at every flush |
| MotionLimits.SaturatedRun | report.go:63-71 | a run that tells the target 32767 of 40000 counts and loses the rest |
| MotionProperties.MotionDelivered | report.go:51-61 | without overflow nothing stays pending after a SYN without coalescing, or after a tick with it |
| MotionProperties.CaughtUpAtSyn | report.go:166-180 | after every SYN, in both modes, the target's last keyboard report and button mask are the current ones |
| MotionProperties.SameKeyboardStream | report.go:166-180 | both modes send the same keyboard reports in the same order, wherever ticks fall |
| MotionProperties.DisplacementGap | report.go:171-180 | for every run, at a SYN the modes differ by what the coalescing one leaves pending and by what each of them lost |
| MotionProperties.SamePlaceIff | report.go:171-180 | in a run without loss, at every SYN both modes have sent the same buttons, and the same displacement if and only if a button is pending in the coalescing one or no motion is |
| MotionProperties.ClickLandsAtSamePlace | report.go:171-180 | so they have at every SYN closing a frame with a button event and no tick inside, whatever the ticks of earlier frames |
| MotionProperties.MidFrameTickMovesClick | report.go:54-60 | a tick inside a frame breaks that: a run where the click lands three counts early |
| Pipeline.ReportRoundTrip | sink.go:65-74 | every report the Reporter can emit is recovered from its message |
| Pipeline.SendableArrive | firmware/esp32s3_hid_idf/main/main.c:442-457 | however the bytes are cut, the target receives exactly the reports that were sent, in order, with the same signed values |
| Pipeline.ReportsArrive | firmware/esp32s3_hid_idf/main/main.c:442-457 | so it is for the reports of every history |
| Pipeline.TargetMirrorsHistory | report.go:166-190 | after every SYN what the target holds is what the history says: modifiers, up to six keys in press order or rollover, and buttons |
| Pipeline.ReportIsCleanIff | report.go:103-112 | the current report keeps its key slots apart if and only if at most six keys are held |
| Pipeline.StreamIsCleanIff | report.go:100-114 | every keyboard report of the emitted stream does if and only if none was sent with more than six keys down |
| Pipeline.StreamCountsIff | firmware/esp32s3_hid_idf/main/main.c:415-431 | the keystrokes counted from the emitted stream are the keys pressed if and only if that is so; otherwise they are too many |
| Pipeline.StreamCounter | firmware/esp32s3_hid_idf/main/main.c:429 | and then the 32-bit counter is the keys pressed modulo 2^32 |
| KvmInput.Controller.constructor | main.go:35-37 | a new controller is released |
| KvmInput.Controller.SetGrabbed | main.go:42-47 | records the state and notifies if hooked |
| KvmInput.Controller.ApplyGrab | main.go:69-96 | the grab loop with rollback is all or nothing and resets the Reporter on success and on release |
| KvmInput.Controller.GrabAll | main.go:71-81 | takes the devices in order up to the first that fails |
| KvmInput.Controller.UngrabFirst | main.go:75-77 | gives back exactly the first devices |
| KvmInput.Controller.SetGrab | main.go:52-59 | does nothing when already there, else applies the grab |
| KvmInput.Controller.ToggleGrab | main.go:62-66 | flips the grab |
| KvmInput.Controller.Handle | main.go:100-123 | a press of the toggle key flips the grab, and every event of that key is swallowed |
| KvmInput.Controller.ReleaseLocked | main.go:141-151 | lets go of every device and clears the Reporter without sending |
| KvmInput.Controller.TrackIfNew | main.go:155-165 | adds a device unless its path is tracked |
| KvmInput.Controller.DeviceLost | main.go:172-185 | the lost device is filtered out in place, then the grab is released |
| KvmInput.Controller.ReadOne | main.go:244-261 | one round of a reader: handle, check, forward |
| Kvm.CallsObeyed | main.go:42-185 | after any call the grab is on exactly when it should be; a new grab holds every tracked device; the state is notified once on every change and on a failed attempt to grab, and never else; the Reporter is told of changes only |
| Kvm.WithoutDropsOne | main.go:175-181 | the filter takes out exactly the lost device and keeps the order |
| KvmDevices.LostIsGone | main.go:172-185 | a lost device leaves the list and its path with it, the others keep their order, and the grab is off |
| KvmDevices.BackAgain | main.go:155-165 | a node that comes back on the path of a lost one is tracked again, last in the list, whatever else happened in between |
| KvmDevices.OthersLeaveDevices | main.go:42-151 | only hot-plug and loss change the list |
| KvmDevices.TrackedByHistory | main.go:155-185 | over every run exactly the paths are tracked whose latest event is a hot-plug and not the loss of their device |
| Kvm.PerformKeeps | main.go:42-185 | every call keeps the grab invariant: released, nothing is held; grabbed, exactly the devices present at the grab, a prefix of the list; the last notification is true; grabs never outnumber commands |
| Kvm.GrabInvariantAlways | main.go:42-185 | the invariant holds over every run, with ioctls failing anywhere |
| Kvm.InitialHolds | main.go:35-37 | a new controller satisfies the invariant |
| Kvm.HotPlugIsNotHeld | main.go:155-165 | a device plugged in while grabbed is tracked and not held |
| KvmInput.Handover | main.go:69-151 | with each event handled in one piece: while released nothing is sent; each grab and each voluntary release leaves the target neutral; a forced release sends nothing and leaves the target as it was |
| KvmInput.AlwaysQuiet | main.go:69-151 | over every run with each event handled in one piece, whenever released the Reporter is neutral with nothing pending |
| KvmInput.SilentUntilGrabbed | report.go:51-61 | over every run without a grab nothing reaches the target, whatever is typed and however often the timer fires |
| WholeRun.AlwaysInStep | main.go:223-262 | over every run with each event handled in one piece, while grabbed the Reporter is where the events since the last grab take it from a reset |
| WholeRun.ToggleKeyStaysHere | main.go:114-121 | over every run no event of the toggle key is forwarded, release and repeat included |
| WholeRun.RestIsForwarded | main.go:251-261 | while the grab stays on every other event is forwarded, in order |
| WholeRun.TargetMirrorsSinceGrab | main.go:223-262 | from the start of the daemon, over every run with each event handled in one piece and however the link cuts the bytes: after a SYN while grabbed the target holds exactly what the events since the last grab say |
| KvmRaces.CheckThenActBound | main.go:251-256 | over every interleaving: after a release at most the readers already past their check feed the Reporter, at most once each; with none it is neutral and has sent nothing since |
| KvmRaces.NeutralAlways | main.go:251-256 | over every interleaving: after a voluntary release with at most one such reader the target has no key and no button down until the next grab |
| KvmRaces.NeutralIffOneLate | report.go:220-236 | that bound is exact: the target stays neutral after every voluntary release with n such readers if and only if n is at most one |
| KvmRaces.GrabInvariantInterleaved | main.go:42-185 | the grab invariant holds over every interleaving too |
| KvmRaces.StuckRun | main.go:251-256 | for every n above one, a run in which n readers are past their check at a voluntary release and a key stays pressed |
| KvmRaces.LateReadersStickAKey | main.go:251-256 | how: two late events press a key after the release is over |
| KvmAtomic.AtomicRunTaken | main.go:42-262 | every run with events in one piece in which fewer readers are lost than there are is also a run of the interleaved model, with the same controller and the same reports |
| KvmAtomic.CallsInOrder | main.go:42-185 | over every interleaving the controller is where its calls, one after the other, take it |
| KvmAtomic.SectionOwes | main.go:84-151 | a change of the grab owes the Reporter a reset if it was asked for, and a silent clear if it was forced |
| KvmAtomic.EventTaken | main.go:244-261 | read, checked and forwarded with nothing in between, an event does what it does in one piece |
| KvmAtomic.LossTaken | main.go:172-185 | so does a loss, and its reader ends |
| KvmMirror.FollowsAlways | main.go:251-256 | over every interleaving: while grabbed the Reporter is where what entered it since the grab takes it from a reset, and at most as many of those events are late as readers were past their check at the grab |
| KvmMirror.ToggleNeverArrives | main.go:114-121 | over every interleaving no event of the toggle key enters the Reporter |
| KvmMirror.RestIsChecked | main.go:251-256 | every other event that is read is checked, and passes exactly while grabbed |
| KvmMirror.OneReaderEach | main.go:212-214 | a device that is new gets a reader of its own, and nothing else adds one |
| KvmMirror.LostReaderEnds | main.go:236-243 | a reader that lost its device has ended, over every interleaving |
| KvmMirror.TargetMirrorsArrivals | main.go:251-256 | over every interleaving and however the link cuts the bytes: after a SYN while grabbed the target holds exactly what those events say |
| KvmMirror.FreshIffNoneLate | main.go:251-256 | the target holds exactly what the events of this grab alone say, over every interleaving, if and only if no reader was past its check at the grab |
| KvmMirror.StaleRun | main.go:251-256 | for every number of such readers above zero, a run in which the target holds a key that no event of this grab pressed |
| NetLink.NetSink.constructor | net.go:25-32 | a new link has no connection |
| NetLink.NetSink.EnsureConn | net.go:69-90 | keeps a connection, or dials at most once per half second |
| NetLink.NetSink.WriteFrame | net.go:92-106 | writes on the connection, dialled first if need be, and closes and forgets it when that fails |
| NetLink.NetSink.ReaderFailed | net.go:51-55 | a reader forgets the connection only if it is its own |
| NetLink.NetSink.CloseSink | net.go:114-123 | closes and forgets the current connection |
| NetLink.NextKeeps | net.go:47-123 | every step keeps the link invariant: the current connection is open; every other open one is about to be closed by its own reader; no dial while one is current; dials half a second apart |
| NetLink.LinkSafety | net.go:47-123 | the invariant holds over every interleaving, and nothing leaks once all readers are done and the link is down |
| NetLink.StaleReadersAreHarmless | net.go:47-60 | over every interleaving a connection stays current until its own write or reader fails or the sink is closed |
| NetLink.EndedConnections | net.go:47-123 | exactly those events end it, and each leaves it closed and forgotten |
| NetLink.DialOutcome | net.go:78-104 | after a dial the new connection is current and open, unless the write it was made for fails: then it is closed and forgotten |
| NetLink.ConnectionsInOrder | net.go:69-90 | over every interleaving connections come one after the other: what is current later was made later |
| NetLink.DialsExactly | net.go:69-82 | a dial begins if and only if one is asked for, there is no connection and half a second has passed |
| NetLink.DialsAgain | net.go:36-43 | a link that is down is dialled again half a second later |
| NetLink.ReadersProgress | net.go:47-60 | a reader fails, forgets its connection and closes it, once each and in this order |
| Discovery.Discover | evdev.go:172-213 | the passes return the selection and close the other opened nodes, in path order, each once |
| Discovery.SelectExact | evdev.go:189-209 | the selection is exactly the nodes named or sharing a USB key with a named node, in path order |
| Discovery.SiblingsTogether | evdev.go:189-199 | the nodes of a USB device stay together once one is named; an unnamed node stays out without a device or if none of its siblings is named |
| Discovery.KeptOrClosed | evdev.go:199-209 | every opened node is either kept or closed, once |
| Discovery.PollKeeps | main.go:207-211 | a poll keeps descriptor ownership |
| Discovery.OfferKeeps | main.go:212-218 | offering a probe to the controller tracks it or closes it |
| Discovery.OfferTracks | main.go:212-218 | an offered path is tracked afterwards, by the probe if it was new, and the probe is closed if not |
| Discovery.PollProbes | main.go:207-211 | a poll opens one probe for each path found |
| Discovery.PollTracksAll | main.go:207-219 | over a whole poll the devices tracked before stay in order, and exactly their paths and those found are tracked |
| Discovery.LoseKeeps | main.go:172-184 | losing a device removes exactly it, in order, and closes exactly its descriptor |
| Discovery.DescriptorsOwned | main.go:155-220 | over every run tracked paths are unique, and between polls the open descriptors are exactly the tracked ones |

## Left out

- Restarts after a control, config or END message: they forget a running update, which is
  modelled; that they also reset every parser and lose the bytes in flight is not, and
  statements about parsers cover the stretch between two starts of the firmware.
- Driver internals: flash, NVS and image validation appear as calls with an outcome.
- Parsing.Parser.Feed: takes the shared chunk buffer as an argument and returns the dispatched
  message instead of calling its handler; the handlers are modelled on messages.
- Pipeline.ReportsArrive: assumes that the USB host is ready; a report that meets a host not
  ready after 50 ms is dropped (main.c:454-455), and suspend and wakeup are timing.
- Reporting.Reporter.Handle: sink errors are only logged by the source and do not appear.
- OtaUpdate.EndToEnd: images of 2^32 bytes and more, whose size does not fit the BEGIN frame.
- OtaUpdate.RunOta: the erase pause and the wait for the board afterwards; reading the file.
- KvmInput.Controller.Handle: the set `pressed`, which is written and never read.
- KvmRaces.CheckThenActBound: watchLink's check and release under two locks are a forced release
  that may come at any time, and a lost device is reported by any idle reader; both allow more
  runs than the source.
- OtaLinks.SwitchesIffAllDelivered: which messages are written to which connection is given, as
  consecutive parts of the transfer (`NetLink.ConnectionsInOrder`); when a write fails the daemon
  gives the transfer up, and a part that is written may still be lost with its connection.
- NetLink.NetSink.EnsureConn: reads the clock once where the source reads it twice.
- Discovery.Discover: names, USB keys and whether a node opens are given; sysfs, ioctls, the
  glob and its sorting are system and library calls, and so is the classification of a device.
- The serial and BLE sinks, their reconnection, and their liveness polling.
- MQTT plumbing beyond its ON, OFF and TOGGLE commands, which are controller calls; no order of
  published states is claimed, since each is published from its own goroutine.
- Radio control bits, status pages, command line, configuration files and logging.
- Ungrab failures: the source only logs them, and the model lets every ungrab succeed.
