# usb_watchdog in Dafny

A model of `usb_watchdog.py`, the command-line tool that configures, pets and
queries the Macpod USB Watchdog dongle over HID. It covers the value checkers
of the command line, the `USBWatchDog` class (feature-report framing, the
16-bit codec, the ping-light/buzzer flag merge, serial number, timeouts,
frequencies, reboot indicator, beacon mode, the status input report and the
pet output report), and the script around it (`general_configure`,
`print_settings`, `handle_petting`, the seven sub-command handlers and
`main`'s open / dispatch / close with its exit codes).

Modules:

- `Types`: bytes, `Option`, `Result` and the error kinds the source raises.
- `Codec`: `check_timeout`, `check_frequency`, `check_serialnumber`, the
  little-endian uint16 codec, bit tests and the chr/ord conversions.
- `Hid`: the HID transport as an abstract device. `HidState` holds the reply
  of every feature register, the queue of input reports, a `present` flag, a
  log of every call made, and two fault flags: one for transfers from the
  device (feature-report reads and input reads) and one for transfers to it
  (feature-report sends and output writes). A refused transfer to the
  device reports -1 bytes written. `HidDevice` is the mutable
  object that the watchdog's handle points to. An accepted feature report
  becomes that register's new reply.
- `Protocol`: one function per `USBWatchDog` operation, from "is the handle
  open" and the transport state to the result and the next transport state.
- `ProtocolProperties`: round trips and other properties relating several
  protocol operations.
- `Watchdog`: the `USBWatchDog` class. Its handle `h` is `null` once closed.
  Every method is proved to have exactly the effect of its `Protocol`
  function.
- `Actions`: the script as functions of the parsed command line (`Config`,
  standing for the global `args`) and the transport state. `Outcome.code` is
  the process exit status.
- `Script`: the script's functions as methods on a `USBWatchDog`, each proved
  equal to its `Actions` function. `PetContinuously` is the `while 1` loop.
- `ActionProperties`: what the script promises. This covers the exit codes,
  the read-only `print_settings`, read-back after `general_configure`, and
  `main` closing exactly the handle it opened. It also holds the finding below.

Exceptions become `Failure` values. Every exception that reaches `main`
without being turned into a `USBWatchDogError` ends the process with status
1 after the `finally` clause has closed the device, and the model gives
status 1 there as well.

## Model

| member | source | states |
|---|---|---|
| Codec.CheckTimeout | usb_watchdog.py:24-28 | accepts a value iff it is non-zero and at most 2**16-1 (negative values pass), and returns it unchanged |
| Codec.CheckFrequency | usb_watchdog.py:30-34 | accepts exactly 42..255 and returns the value unchanged |
| Codec.CheckSerialNumber | usb_watchdog.py:19-22 | accepts exactly the strings `^[\w-]+$` matches, including those with one trailing newline |
| Codec.PatternAcceptsTrailingNewline | usb_watchdog.py:19-22 | word characters followed by "\n" match the pattern although "\n" is not a word character |
| Codec.MatchedCharsAreAscii | usb_watchdog.py:302-307 | every character of a string the pattern accepts has a code below 128, so `ord` of each is a byte |
| Codec.ToUint16 | usb_watchdog.py:202-203 | the decoded value is in 0..65535, with byte 0 as its low byte and byte 1 as its high byte |
| Codec.FromUint16 | usb_watchdog.py:205-208 | fails (ValueError) iff the value exceeds 65535; otherwise two items whose little-endian sum is the value, and the high item is a byte iff the value is non-negative |
| Codec.Uint16RoundTrip | usb_watchdog.py:202-208 | decoding the encoding of any 0..65535 value gives the value back |
| Codec.Uint16BytesRoundTrip | usb_watchdog.py:202-208 | encoding the decoding of any byte pair gives the pair back |
| Codec.CheckedTimeoutEncodes | usb_watchdog.py:24-28 | every timeout check_timeout accepts encodes, and the encoding is a byte pair iff the timeout is positive |
| Codec.BytesToText | usb_watchdog.py:296-298 | one character per byte, each with that byte as its code |
| Codec.TextToCodes | usb_watchdog.py:307 | one code per character, in order |
| Codec.TextCodesRoundTrip | usb_watchdog.py:296-307 | chr of ord gives back any text whose characters are below 256 |
| Protocol.GetFeatureReport | usb_watchdog.py:210-217 | NotOpen on a closed handle and nothing sent; asks for length+1 bytes; succeeds iff the register answers with at least length+1 bytes; returns bytes 1..length |
| Protocol.SendFeatureReport | usb_watchdog.py:219-223 | NotOpen on a closed handle; succeeds iff every item is a byte and the transfer works; on success the register holds the report and only the log also changes |
| Protocol.ReadInput | usb_watchdog.py:225-230 | one read is logged; succeeds iff the next queued report has exactly the requested length; returns it and dequeues it |
| Protocol.Close | usb_watchdog.py:287-290 | succeeds iff the handle is open; then the transport's close is logged |
| Protocol.GetLightsBuzzer | usb_watchdog.py:232-234 | the first payload byte of the flags register, failing exactly when the report read fails |
| Protocol.GetFlag | usb_watchdog.py:323-345 | whether the given bit of the flags register is set, failing exactly when the report read fails |
| Protocol.MergeFlags | usb_watchdog.py:236-250 | the ping-light and buzzer bits take the given values and otherwise keep the current ones; all other bits are cleared |
| Protocol.SetPinglightBuzzer | usb_watchdog.py:236-270 | succeeds iff the flags register can be read and the transfer works; logs the read then the write of [id, merged flags]; only that register changes |
| Protocol.GetVersion | usb_watchdog.py:292-294 | the two version bytes, failing exactly when the report read fails |
| Protocol.GetSerialNumber | usb_watchdog.py:296-298 | a 20-character string whose codes are the register's 20 payload bytes |
| Protocol.SetSerialNumber | usb_watchdog.py:300-307 | succeeds iff the register reads the blank sentinel, the string matches the pattern, has 20 characters and the transfer works; then sends and stores [2] + the character codes. A register holding anything else gives AlreadySet; on a blank register a string off the pattern gives NotAlphanumeric and a matching one of another length gives WrongLength; each refusal logs only the register read |
| Protocol.GetTimeout | usb_watchdog.py:309-319 | the register's two payload bytes as a little-endian value in 0..65535 |
| Protocol.SetTimeout | usb_watchdog.py:313-321 | ValueError before the handle is checked when the value exceeds 65535; otherwise sends [id, low, high] |
| Protocol.GetFrequency | usb_watchdog.py:351-353 | the register's payload byte |
| Protocol.SetFrequency | usb_watchdog.py:355-367 | ValueError before the handle is checked when the value exceeds 255; otherwise sends [id, value], with no lower bound |
| Protocol.GetRebootIndicator | usb_watchdog.py:369-371 | true iff the register's payload byte is non-zero |
| Protocol.SetRebootIndicator | usb_watchdog.py:373-374 | sends [9, 1] |
| Protocol.GetBeaconMode | usb_watchdog.py:376-378 | true iff the register's payload byte is non-zero |
| Protocol.SetBeaconMode | usb_watchdog.py:380-381 | sends [10, 1] for on and [10, 0] for off |
| Protocol.GetStatus | usb_watchdog.py:383-390 | succeeds iff two 4-byte reports are queued and readable; decodes the second, dequeues both and logs two reads; registers untouched |
| Protocol.OutputValue | usb_watchdog.py:272-278 | bit 0x1 is the timeout flag, bit 0x2 is the clear-alarm flag, and no other bit is set |
| Protocol.UpdateWatchdog | usb_watchdog.py:272-281 | NotOpen on a closed handle; otherwise logs the write of [1, value]; succeeds iff the transfer works |
| Protocol.Pet | usb_watchdog.py:392-393 | always writes [1, 3], whatever the argument; succeeds iff open and the transfer works |
| Protocol.SetBeaconState | usb_watchdog.py:395-396 | writes [1, 3] for triggered and [1, 2] otherwise |
| ProtocolProperties.StatusRoundTrip | usb_watchdog.py:383-390 | decoding a status report recovers the triggered, reboot and beacon flags and the counter, whatever its first byte |
| ProtocolProperties.StatusFlushesFirstSample | usb_watchdog.py:384-385 | with samples A then B queued, get_status reports B, never a different A, and consumes both |
| ProtocolProperties.TimeoutRoundTrip | usb_watchdog.py:309-321 | a timeout in 0..65535 that is set reads back unchanged |
| ProtocolProperties.FrequencyRoundTrip | usb_watchdog.py:351-367 | any byte frequency that is set reads back unchanged, including values check_frequency would refuse |
| ProtocolProperties.PinglightKeepsBuzzer | usb_watchdog.py:236-250 | setting the ping light leaves the buzzer bit as it was, and the ping light reads back as set |
| ProtocolProperties.BuzzerKeepsPinglight | usb_watchdog.py:236-250 | setting the buzzer leaves the ping-light bit as it was, and the buzzer reads back as set |
| ProtocolProperties.SerialNumberRoundTrip | usb_watchdog.py:296-307 | an accepted serial number reads back unchanged |
| ProtocolProperties.SerialNumberSetOnce | usb_watchdog.py:300-302 | once the register holds anything but the blank sentinel, every new serial number is refused and nothing is sent |
| ProtocolProperties.SerialNumberSendFailure | usb_watchdog.py:300-307 | a valid serial number on a blank register that the device refuses is still sent after the read, fails with SendFailed and leaves the registers as they were |
| ProtocolProperties.SerialNumberReport | usb_watchdog.py:307 | an accepted serial number is sent as 21 bytes: report id 2, then the code of each character in order |
| ProtocolProperties.FlagsSendFailure | usb_watchdog.py:236-270 | when the flags register reads but the device refuses the write, the merged report is still sent after the read, the call fails with SendFailed and no register changes |
| ProtocolProperties.ShortWriteFails | usb_watchdog.py:272-281 | when the device does not take the whole output report, the write is logged and the call fails with an unexpected value |
| ProtocolProperties.BeaconModeRoundTrip | usb_watchdog.py:376-381 | the beacon mode that is set reads back unchanged |
| ProtocolProperties.PetIsBeaconOn | usb_watchdog.py:392-396 | pet and set_beacon_state(True) send identical reports, and pet ignores its argument |
| Watchdog.BuildFlags | usb_watchdog.py:236-250 | the `\|=` accumulation produces exactly the merged flags byte |
| Watchdog.USBWatchDog.constructor | usb_watchdog.py:283-285 | the new watchdog is open on the given transport |
| Watchdog.USBWatchDog.Open | usb_watchdog.py:283-285 | logs an open by vendor 0x16D0 and product 0x0776; succeeds with a fresh open watchdog iff the dongle is present, otherwise the open's error |
| Watchdog.USBWatchDog.Close | usb_watchdog.py:287-290 | drops the handle; result and transport as Protocol.Close |
| Watchdog.USBWatchDog.GetFeatureReport | usb_watchdog.py:210-217 | result and transport as Protocol.GetFeatureReport; handle kept |
| Watchdog.USBWatchDog.SendFeatureReport | usb_watchdog.py:219-223 | result and transport as Protocol.SendFeatureReport; handle kept |
| Watchdog.USBWatchDog.ReadInput | usb_watchdog.py:225-230 | result and transport as Protocol.ReadInput; handle kept |
| Watchdog.USBWatchDog.GetNonvolatileLightsBuzzer | usb_watchdog.py:232-234 | as Protocol.GetLightsBuzzer on register 5 |
| Watchdog.USBWatchDog.SetNonvolatilePinglightBuzzer | usb_watchdog.py:236-250 | as Protocol.SetPinglightBuzzer on register 5 |
| Watchdog.USBWatchDog.GetVolatileLightsBuzzer | usb_watchdog.py:252-254 | as Protocol.GetLightsBuzzer on register 6 |
| Watchdog.USBWatchDog.SetVolatilePinglightBuzzer | usb_watchdog.py:256-270 | as Protocol.SetPinglightBuzzer on register 6 |
| Watchdog.USBWatchDog.GetNonvolatilePinglight | usb_watchdog.py:323-325 | as Protocol.GetFlag on register 5, bit 0x1 |
| Watchdog.USBWatchDog.SetNonvolatilePinglight | usb_watchdog.py:327-328 | as Protocol.SetPinglightBuzzer on register 5 with only the ping light given |
| Watchdog.USBWatchDog.GetNonvolatileBuzzer | usb_watchdog.py:330-332 | as Protocol.GetFlag on register 5, bit 0x2 |
| Watchdog.USBWatchDog.SetNonvolatileBuzzer | usb_watchdog.py:334-335 | as Protocol.SetPinglightBuzzer on register 5 with only the buzzer given |
| Watchdog.USBWatchDog.GetVolatilePinglight | usb_watchdog.py:337-339 | as Protocol.GetFlag on register 6, bit 0x1 |
| Watchdog.USBWatchDog.SetVolatilePinglight | usb_watchdog.py:341-342 | as Protocol.SetPinglightBuzzer on register 6 with only the ping light given |
| Watchdog.USBWatchDog.GetVolatileBuzzer | usb_watchdog.py:344-346 | as Protocol.GetFlag on register 6, bit 0x2 |
| Watchdog.USBWatchDog.SetVolatileBuzzer | usb_watchdog.py:348-349 | as Protocol.SetPinglightBuzzer on register 6 with only the buzzer given |
| Watchdog.USBWatchDog.GetVersion | usb_watchdog.py:292-294 | as Protocol.GetVersion |
| Watchdog.USBWatchDog.GetSerialNumber | usb_watchdog.py:296-298 | as Protocol.GetSerialNumber |
| Watchdog.USBWatchDog.SetSerialNumber | usb_watchdog.py:300-307 | as Protocol.SetSerialNumber, with its three refusals in the source's order |
| Watchdog.USBWatchDog.GetNonvolatileTimeout | usb_watchdog.py:309-311 | as Protocol.GetTimeout on register 3 |
| Watchdog.USBWatchDog.SetNonvolatileTimeout | usb_watchdog.py:313-314 | as Protocol.SetTimeout on register 3 |
| Watchdog.USBWatchDog.GetVolatileTimeout | usb_watchdog.py:316-318 | as Protocol.GetTimeout on register 4 |
| Watchdog.USBWatchDog.SetVolatileTimeout | usb_watchdog.py:320-321 | as Protocol.SetTimeout on register 4 |
| Watchdog.USBWatchDog.GetNonvolatileBuzzerFrequency | usb_watchdog.py:351-353 | as Protocol.GetFrequency on register 7 |
| Watchdog.USBWatchDog.SetNonvolatileBuzzerFrequency | usb_watchdog.py:355-358 | as Protocol.SetFrequency on register 7 |
| Watchdog.USBWatchDog.GetVolatileBuzzerFrequency | usb_watchdog.py:360-362 | as Protocol.GetFrequency on register 8 |
| Watchdog.USBWatchDog.SetVolatileBuzzerFrequency | usb_watchdog.py:364-367 | as Protocol.SetFrequency on register 8 |
| Watchdog.USBWatchDog.GetRebootIndicator | usb_watchdog.py:369-371 | as Protocol.GetRebootIndicator |
| Watchdog.USBWatchDog.SetRebootIndicator | usb_watchdog.py:373-374 | as Protocol.SetRebootIndicator |
| Watchdog.USBWatchDog.GetNonvolatileBeaconMode | usb_watchdog.py:376-378 | as Protocol.GetBeaconMode |
| Watchdog.USBWatchDog.SetNonvolatileBeaconMode | usb_watchdog.py:380-381 | as Protocol.SetBeaconMode |
| Watchdog.USBWatchDog.GetStatus | usb_watchdog.py:383-390 | as Protocol.GetStatus |
| Watchdog.USBWatchDog.UpdateWatchdog | usb_watchdog.py:272-281 | as Protocol.UpdateWatchdog |
| Watchdog.USBWatchDog.Pet | usb_watchdog.py:392-393 | as Protocol.Pet |
| Watchdog.USBWatchDog.SetBeaconState | usb_watchdog.py:395-396 | as Protocol.SetBeaconState |
| Script.ConfigureTimeouts | usb_watchdog.py:412-418 | the first two steps of general_configure, stopping at the first failure; it takes a flag choosing the corrected or the as-written general_configure, as do the other configure methods, the configure, oneshot and continuous handlers and Script.Run |
| Script.ConfigurePinglights | usb_watchdog.py:421-429 | the two ping-light steps of general_configure |
| Script.ConfigureBuzzers | usb_watchdog.py:432-440 | the two buzzer steps of general_configure |
| Script.ConfigureFrequencies | usb_watchdog.py:443-449 | the two buzzer-frequency steps of general_configure |
| Script.ConfigureModeAndIndicator | usb_watchdog.py:451-458 | the beacon-mode and reboot-indicator steps of general_configure; as written, a sub-command without the beacon-mode option fails there with AttributeError |
| Script.GeneralConfigure | usb_watchdog.py:410-461 | result and transport as Actions.ConfigureFrom from position 0, corrected or as written: the ten steps in order, stopping at the first failure |
| Script.ReadIdentity | usb_watchdog.py:467-472 | print_settings' reads of the serial number and both timeouts |
| Script.ReadFlags | usb_watchdog.py:473-480 | print_settings' reads of the four ping-light and buzzer flags |
| Script.ReadModes | usb_watchdog.py:481-488 | print_settings' reads of both frequencies, the beacon mode and the reboot indicator |
| Script.PrintSettings | usb_watchdog.py:464-491 | result and transport as Actions.PrintSettings: eleven getters in order, stopping at the first failure |
| Script.HandlePetting | usb_watchdog.py:494-518 | exit code and transport as Actions.Petting |
| Script.HandleConfigureAction | usb_watchdog.py:521-523 | exit code and transport as Actions.HandleConfigure |
| Script.HandleOneshotAction | usb_watchdog.py:526-529 | exit code and transport as Actions.HandleOneshot |
| Script.PetContinuously | usb_watchdog.py:537-540 | the `while 1` loop's exit code and transport as Actions.PetRounds over the configured number of rounds |
| Script.HandleContinuousAction | usb_watchdog.py:532-540 | exit code and transport as Actions.HandleContinuous |
| Script.HandleRebootedAction | usb_watchdog.py:543-552 | exit code and transport as Actions.HandleRebooted |
| Script.HandleTriggeredAction | usb_watchdog.py:555-564 | exit code and transport as Actions.HandleTriggered |
| Script.HandleModeAction | usb_watchdog.py:567-579 | exit code and transport as Actions.HandleMode |
| Script.HandleBeaconAction | usb_watchdog.py:582-599 | exit code and transport as Actions.HandleBeacon |
| Script.Run | usb_watchdog.py:602-643 | exit code and transport as Actions.RunWith: Actions.Run when corrected, Actions.RunAsWritten as written |
| ActionProperties.ReadFromSucceeds | usb_watchdog.py:464-491 | the reads from any position on succeed iff reads from the device work and every remaining register answers; no register, input or flag changes |
| ActionProperties.ReadFromRequests | usb_watchdog.py:464-491 | on success the reads from a position on log exactly the remaining feature requests, in order |
| ActionProperties.PrintSettingsOnlyReads | usb_watchdog.py:464-491 | print_settings succeeds iff reads from the device work and all eleven registers answer; it logs exactly the eleven requests in order and never changes a register or the input queue |
| ActionProperties.SentTimeoutIsUint16 | usb_watchdog.py:313-321 | a timeout the device accepted was in 0..65535 |
| ActionProperties.SentFrequencyIsByte | usb_watchdog.py:355-367 | a frequency the device accepted was in 0..255 |
| ActionProperties.SettingObserved | usb_watchdog.py:410-458 | after one successful configure step on a device whose reads work, its getter reads back the value asked for |
| ActionProperties.SettingKeeps | usb_watchdog.py:410-458 | a later configure step leaves an earlier step's value readable, including on the shared flags registers |
| ActionProperties.ConfigureKeeps | usb_watchdog.py:410-458 | the remaining configure steps leave an earlier step's value readable |
| ActionProperties.ConfigureObserved | usb_watchdog.py:410-458 | after successful configure steps from a position on, on a device whose reads work, each of those settings reads back as asked |
| ActionProperties.ConfigureReadsBack | usb_watchdog.py:410-461 | after a successful general_configure on a device whose reads work, every option given reads back as given, and a requested reboot-indicator clear leaves [9, 1] in its register |
| ActionProperties.SendTraffic | usb_watchdog.py:219-223 | a feature send only adds feature traffic to the log, and the input queue is kept |
| ActionProperties.FlagsTraffic | usb_watchdog.py:236-270 | a flags update only adds feature traffic to the log |
| ActionProperties.SettingTraffic | usb_watchdog.py:410-461 | one configure step only adds feature traffic and never touches the input queue |
| ActionProperties.ConfigureTraffic | usb_watchdog.py:410-461 | general_configure only adds feature traffic and never touches the input queue |
| ActionProperties.PettingDecision | usb_watchdog.py:494-518 | handle_petting writes [1, 3] iff the status is readable and shows no beacon mode and no detected reboot or trigger; it exits 0 iff it wrote and the device accepted the report, and 1 when the device refused it; beacon mode gives 1 before the detection flags are consulted; a detected reboot gives 2 and takes precedence over a detected trigger, which gives 3 |
| ActionProperties.QueryExitCodes | usb_watchdog.py:543-579 | rebooted exits 2 or 0 on the reboot bit, triggered 3 or 0 on the trigger bit, mode 2 or 0 on the beacon bit; each exits 1 when the status cannot be read; all three only read |
| ActionProperties.BeaconOnlyInBeaconMode | usb_watchdog.py:582-599 | beacon writes [1, 3] for on or [1, 2] for off iff the status is readable and in beacon mode; it exits 0 iff it wrote and the device accepted the report, and 1 otherwise |
| ActionProperties.PetRoundsNeverZero | usb_watchdog.py:532-540 | the petting loop never ends with status 0 |
| ActionProperties.PetsWhenCalm | usb_watchdog.py:494-518 | on a calm readable status and a device that accepts writes, one petting round consumes two samples and logs two reads and the pet |
| ActionProperties.CalmRoundsShift | usb_watchdog.py:537-540 | after a calm round, the remaining samples are still calm for one round fewer |
| ActionProperties.PetRoundsUntilInterrupt | usb_watchdog.py:537-540 | on n calm samples and a device whose transfers work, the loop pets exactly n times, two reads and one pet per round, and then the interrupt gives status 1 |
| ActionProperties.StatusTraffic | usb_watchdog.py:383-390 | get_status neither opens nor closes the device |
| ActionProperties.ReadTraffic | usb_watchdog.py:464-491 | print_settings only adds feature traffic |
| ActionProperties.PettingTraffic | usb_watchdog.py:494-518 | handle_petting neither opens nor closes the device |
| ActionProperties.PetRoundsTraffic | usb_watchdog.py:537-540 | the petting loop neither opens nor closes the device |
| ActionProperties.HandleConfigureTraffic | usb_watchdog.py:521-523 | configure exits 0 or 1 and only adds feature traffic |
| ActionProperties.OneshotTraffic | usb_watchdog.py:526-529 | oneshot exits 0, 1, 2 or 3 and neither opens nor closes the device |
| ActionProperties.ContinuousTraffic | usb_watchdog.py:532-540 | continuous exits 1, 2 or 3 and neither opens nor closes the device |
| ActionProperties.BeaconTraffic | usb_watchdog.py:582-599 | beacon neither opens nor closes the device |
| ActionProperties.DispatchTraffic | usb_watchdog.py:614-627 | every sub-command exits 0, 1, 2 or 3 and neither opens nor closes the device |
| ActionProperties.MainClosesWhatItOpened | usb_watchdog.py:602-643 | when the open fails, main exits 1 after logging only the open; otherwise it exits 0..3, the log starts with the one open and ends with one close, and no other open or close happens in between |
| ActionProperties.ContinuousNeverExitsZero | usb_watchdog.py:532-540 | `continuous` never exits 0, as written or corrected |
| ActionProperties.AsWrittenConfigureFails | usb_watchdog.py:451-454 | as written, general_configure fails for a sub-command without the beacon-mode option |
| ActionProperties.OneshotAsWrittenNeverPets | usb_watchdog.py:451-454 | as written, oneshot and continuous always exit 1 and never send an output (pet) report; feature reports for settings given before the beacon-mode step are still sent |
| ActionProperties.NoSettingsConfigureNothing | usb_watchdog.py:410-461 | with no setting option given, general_configure succeeds and sends nothing |
| ActionProperties.OneshotPetsHealthyDevice | usb_watchdog.py:526-529 | corrected, oneshot with no settings on a readable, calm device sends the pet report and exits 0, or 1 when the device refuses it; as written it exits 1 |

## Left out

- Command-line parsing (`argparse`, lines 37-150): `Config` holds the parsed values. It also holds the 'on'/'off' options as booleans and the options of other sub-commands as absent. The `int()` conversion in the checkers is outside the model, and they take the parsed integer.
- The beacon sub-command's parser accepts the settings options, but `handle_beacon_action` ignores them. The model ignores them too.
- `print`, `vprint`, `--verbose` and `print(args)`: output only.
- `time.sleep` and `--pet-interval`: timing is not modelled.
- `KeyboardInterrupt`: the continuous loop runs `Config.rounds` rounds and the interrupt then ends it with status 1. In the source, the `USBWatchDogError(1)` raised on the interrupt is caught by `main`'s outer `except USBWatchDogError`, which sets the status to 1; `finally` closes the device and `exit` gives that status, as the model does.
- The HID library: it is an abstract transport (see `Hid`), not the hidapi code. A reply longer than asked for, like the extra byte some Windows hosts deliver, is only truncated, as the source does.
- Firmware reactions: the device is a register file, so writing [9, 1] is not turned into clearing the reboot indicator, and the status reports are given as a queue.
- Exception classes: IOError, ValueError, the conversion error for a non-byte report and AttributeError become distinct `Error` values. Every uncaught one exits 1, as the caught ones do.
- Protocol.SetTimeout: a negative timeout passes `check_timeout` and makes a report with a negative item. The model refuses that report as NotAByte before sending; what hidapi would put on the wire is not modelled.
- Script.GeneralConfigure, Script.PrintSettings: each is split into helper methods of two to four steps to keep the proofs small. The steps and their order are the source's.
- Device faults: each direction of transfer either always works or always fails during one run, so a device that fails a read or a write after an earlier one in the same direction succeeded is not modelled.

## Findings

| source | as written | input that shows it | evidently intended | confidence | as-written member | corrected member |
|---|---|---|---|---|---|---|
| usb_watchdog.py:451-454 (parsers at 116-131) | `general_configure` reads `args.nonvolatile_beacon_mode`, which only the `configure` parser defines; for `oneshot` and `continuous` this raises AttributeError, which no clause catches, so the device is closed and the process exits 1 before petting | `usb_watchdog.py oneshot` on a healthy dongle in watchdog mode | a sub-command without the option skips the beacon-mode step, and oneshot pets and exits 0 | high, not executed | ActionProperties.OneshotAsWrittenNeverPets | ActionProperties.OneshotPetsHealthyDevice |
