# Wireless CNC pendant bridge: what the receivers may and may not do

This project models the firmware of a wireless jog pendant bridge and proves what it must never do: hold a key
too long, move two axes, resume motion by itself after a fault, load half a configuration, or bind to a controller
nobody confirmed. `dafny verify dfyconfig.toml` checks everything.

Five connected pieces are modelled, each in the form its source has. Objects whose methods update their fields are
classes; every method is proved equal to a function on values, and the long-run properties are proved about those
functions over every sequence of events.

- **The polled gamepad receiver** (`GamepadReceiver`, with `ControlMapper`, `ProductionConfig`, `MassoKeyboard`,
  `UsbOutput`, `Lite2Report`, `ReportMeaning`). One `Receiver` object and a `Step` function over reports, connection, descriptor,
  inquiry and timer events, setup passes and output passes. Events carry unbounded time, and the code sees only its
  remainder modulo 2^32. `GamepadSafety`, `GamepadTiming`, `GamepadAxes`, `GamepadPairing` and `GamepadPeers` hold the
  properties of whole runs, `PairingCommands` what each command of a pairing changes. `MainLoop` says what runs the main loop can make; `GamepadClockZero`, `RejectedCandidate` and
  `SampleReports` hold complete runs of that kind.
- **The two-slot store** (`Crc32`, `RecordCodec`, `PersistentConfig`, `AtomicRegister`). `AtomicRegister` shows the two
  flash slots behave as one atomic register through failed writes, reboots and power cuts at any flash step.
  `Crc32` relates the loop to polynomial division over bit streams and to the code of section 8 of RFC 1952; the
  sequence comparison is that of section 3.2 of RFC 1982.
- **The phone protocol and bridge** (`Crc8`, `MobileProtocol`, `MobileSession`, `MobileReceiver`, `MobileMeaning`,
  `MobileSafety`, `MobileSilence`, `MobileClockZero`).
- **The setup channel** (`FieldParser`, `QuotedText`, `MappingText`, `MappingPrinter`, `SetupFraming`, `SetupProtocol`,
  `SetupRoundTrip`, `SetupStream`, `SetupDrops`, `ConfigService`). The channel object drives the gamepad receiver object itself, so one pass over
  the serial port is proved to be exactly one setup event of the receiver. A byte of the channel is a `char`.
- **The profile registry** (`ProfileRegistry`).

What a report or a frame asks for is defined a second time, from its raw buttons, sticks and bytes and with the
documented numbers written out: `ReportMeaning.Asked` and `MobileMeaning.Requested`. The receivers are proved to send
exactly that, and the theorems about whole runs are stated with it. The lemmas named `...IsDocumented`, `...InFull` and
`...Exactly` do the same for acceptance, pairing, storing, framing and answering.

`Types`, `Bits` and `Lfsr` are shared ground: the clock, bit streams, and shift registers over arbitrary generators.

## Assumptions

- Configurable receivers are polled (firmware/diagnostics/live_bridge_bench.cpp:33), so every callback and service
  function is one atomic step.
- The host, the radio and the flash driver are inputs of each step. `AtomicRegister.Honest` lists what is taken for
  granted of the flash driver: a write reported as failed leaves the slot unchanged or undecodable, a read-back that
  matches is true, torn bytes do not decode, and deletion works.
- One step reads the clock once; the code may read it again some microseconds later within the same pass.
- Accepting a pairing request and creating the link key are one step.
- Reading an address text that holds no address leaves the address as it was, as BTstack's `sscanf_bd_addr` does.
- Links are opened only after the code let them in, and reports come only over open links (`HonestRadio`). Links are
  encrypted, so that a link opens only with a link key (`BondedRadio`; firmware/diagnostics/live_bridge_bench.cpp:702-705). Only the theorems
  of `GamepadPeers` about whose reports arm the output take these for granted; every sample run meets them.
- Timing statements are about a host that is mounted, ready and accepting, with passes at most `gap` <= 4000 ms apart.

## Where the code falls short of its promise

- **Clock value zero.** `last_valid_report_ms == 0` means "none", so a report consumed in the millisecond in which the
  32-bit clock reads zero disables the stale guard. `GamepadClockZero.ClockZeroHoldsKey` is a complete run of a paired
  receiver from boot through the first wrap of the clock, with the main loop in order and on time and an honest radio
  throughout, in which a key is still down eight seconds after the last report.
  `GamepadTiming.SilenceReleasesUnlessClockZero` gives the exact condition: silence releases the key if and only if the
  last report's clock value was not zero. The phone bridge has the same guard, the same condition (`MobileSilence`) and
  such a run (`MobileClockZero`). Both timing theorems therefore ask that nothing is consumed at clock value zero.
- **The rejected candidate's address.** Rolling an attempt back restores the target's text and its valid flag, but its
  address only when there is a stored or compiled one, and incoming connections are compared with the address alone
  (firmware/diagnostics/live_bridge_bench.cpp:340-345, 648-654). On a receiver built without a compiled address
  (CMakeLists.txt:452) and with nothing stored, the address filter therefore still passes the last candidate that was
  rejected: `RejectedCandidateIsLetIn` for every address, `RollbackRestoresFilter` as an if-and-only-if. No link key is
  left for it, nor for anyone else (`NobodyStoredNobodyBonded`), and pairing outside setup is refused, so the filter is
  all it passes.
- **The rejected candidate's open link.** The peer of a report is not looked at, so a link that opened for a candidate can
  still arm the output between the rollback and its closing, although its link key is gone: `RejectedCandidateArms`.
  `ArmedByStoredUnlessForgotten` gives the exact condition over encrypted links, with or without a stored controller.
- **Deletion after a failed verify.** If the driver offers no deletion, a complete write whose read-back fails is
  reported as a failure, yet the next boot takes the new record: `FailedVerifyNeedsDeletion` is an if-and-only-if.
- **Unused address bytes.** A stored record without an address may carry arbitrary address bytes, so accepted records
  are canonical exactly when they carry an address or those bytes are zero (`AcceptedIsCanonical`);
  `LeftoverIsAccepted` is such a record.
- **Replay distance.** A 16-bit number can be accepted again after three acceptances, and no earlier
  (`SameNumberIsThreeApart`, `ThreeStepsCanReturn`). Any numbers that step forward are accepted in full
  (`ForwardNumbersAreAccepted`).
- **Dropped answers.** Not every command is answered: a whole answer is dropped when the queue is full. `Service` says
  when: if all answers of a pass together fit into 4096 bytes none is lost, and if the host takes nothing meanwhile that is
  an if-and-only-if. `SeventyTwoLinesAreTooMany` is the input: 71 lines of one byte have their answers fit, 72 do not.
- **The precision control** is neither printed nor read by the setup channel, so a mapping is restored only under the
  precision control it was printed with.

## Model

| member | source | states |
|---|---|---|
| Types.ElapsedAcrossWraps | firmware/diagnostics/live_bridge_bench.cpp:463-474 | unsigned subtraction of two clock readings is the true elapsed time up to whole wraps, and never more than it |
| MassoKeyboard.ReportReadsBack | firmware/src/masso_keyboard.cpp:58-110 | reading the keyboard report by the key table alone gives back what the frame asked for; an unknown CNC profile sends nothing |
| ProductionConfig.ValidationIsDocumented | firmware/src/production_config.cpp:38-72 | for any bytes, validation accepts exactly three different shoulder or trigger buttons and known face actions |
| ProductionConfig.RefusalIsDocumented | firmware/src/production_config.cpp:38-72 | the reason a mapping is refused for, in the order of the checks, and the compiled default mapping |
| ProductionConfig.MotionIsDocumented | firmware/src/production_config.cpp:74-93 | under a valid mapping dead-man, continuous and precision are held exactly when their buttons are down |
| ProductionConfig.FacesAreDocumented | firmware/src/production_config.cpp:94-126 | cancel, cycle and step selection are held exactly when buttons 0x1, 0x2, 0x8 or 0x10 with those actions are down; the selected step is that of the last one down, actions 3 to 6 being 0.01, 0.10, 0.50 and 1.00 mm |
| ProductionConfig.ApplyProductionMapping | firmware/src/production_config.cpp:74-126 | the loop over face buttons computes: cancel and cycle held if any button with that action is held, the last step button wins, an invalid mapping is a held cancel |
| ProductionConfig.MappedGrows | firmware/src/production_config.cpp:94-125 | considering one more face button changes exactly the field its action names |
| ReportMeaning.AskedIsSent | firmware/src/control_mapper.cpp:9-114 | for every raw report under a valid mapping, what a CNC controller reads off the wire is what the report asks for: cancel before motion, motion before steps, a selected size before the cycle |
| ReportMeaning.AskedIsRemembered | firmware/src/control_mapper.cpp:9-114 | the mapper afterwards, from the same raw facts: the moving axis, the centre demand, the held buttons and the cycle |
| ReportMeaning.InvalidIsRemembered | firmware/src/production_config.cpp:74-85 | an invalid mapping leaves no lock and demands centring |
| Lite2Report.ParseIsDocumented | firmware/src/lite2_report.cpp:10-43 | exactly the 11-byte reports that start with a1 01 are read; sticks are bytes 5, 6 and 8, counted from 127, 127 and 128 in steps of 256 and cut at 32767 |
| Lite2Report.ButtonsAreDocumented | firmware/src/lite2_report.cpp:10-43 | each button of the word is its bit of report byte 2 or 3 |
| ControlMapper.Mapper.Update | firmware/src/control_mapper.cpp:9-114 | the output frame and the new latches, lock, centre demand and cycle position equal the specification functions |
| ControlMapper.UpdateIsDocumented | firmware/src/control_mapper.cpp:9-114 | what one update puts out, from the raw sticks: a step, or a jog on the locked axis, or on Z, else on the larger of X and Y, or nothing |
| ControlMapper.UpdateLeaves | firmware/src/control_mapper.cpp:9-114 | the lock, the centre demand, the two latches and the cycle position one update leaves |
| ControlMapper.DefaultIsUsable | firmware/include/red_monkey_mpg/control_mapper.hpp:9-12 | with the compiled settings a sample may be acted on for 150 ms |
| ControlMapper.ExclusiveInEveryRun | firmware/src/control_mapper.cpp:37-103 | a locked axis and a demanded centre never hold together, in any run |
| ControlMapper.JogIsDeliberate | firmware/src/control_mapper.cpp:9-114 | a jog needs connected, fresh, dead-man held, no cancel, and its own axis past the deadzone in its direction |
| ControlMapper.StepIsDeliberate | firmware/src/control_mapper.cpp:29-72 | a step selection needs connected, fresh, dead-man and cancel up, all sticks centred and a newly pressed button |
| ControlMapper.FreshLockMoves | firmware/src/control_mapper.cpp:85-103 | a jog from an unlocked mapper is on Z exactly when the right stick is past the deadzone, otherwise on X exactly when it is deflected at least as far as Y, and its axis is past the deadzone |
| ControlMapper.AxisIsKept | firmware/src/control_mapper.cpp:9-114 | from a jog on, without a separating input, only that axis can be locked |
| ControlMapper.AxisChangeIsSeparated | firmware/src/control_mapper.cpp:9-114 | two jogs on different axes have between them an input that was lost, had the dead-man up, or was centred |
| ControlMapper.CycleNeverSkips | firmware/src/control_mapper.cpp:29-72 | the k-th announced cycle press selects the k-th resolution, however other inputs interleave |
| ControlMapper.PressAnnouncesModFour | firmware/src/control_mapper.cpp:52-70 | the k-th announced cycle press selects the resolution at place k mod 4 |
| ControlMapper.PressesFromPowerOn | firmware/src/control_mapper.cpp:52-70 | from power-on the announced presses go 0.01, 0.10, 0.50, 1.00 mm and round again, whatever comes between |
| UsbOutput.WireAlternates | firmware/diagnostics/mobile_ble_bench.cpp:285-325 | between mount changes accepted reports alternate key and all-keys-up, for any publisher and host |
| UsbOutput.ServiceKeepsAlternation | firmware/diagnostics/live_bridge_bench.cpp:476-510 | one service pass extends an alternating wire and remembers its last report |
| UsbOutput.PassIsDocumented | firmware/diagnostics/live_bridge_bench.cpp:476-510 | one endpoint pass in full: mount change, absent or busy host, accepted report, release between two keys, refusal |
| UsbOutput.WantedArrivesInTwo | firmware/diagnostics/live_bridge_bench.cpp:476-510 | an attentive host holds whatever stays wanted after at most two passes |
| UsbOutput.ReleasedSendsNoKey | firmware/diagnostics/live_bridge_bench.cpp:476-510 | while a release is wanted only all-keys-up can be accepted |
| GamepadReceiver.Receiver.ConsumeControllerReport | firmware/diagnostics/live_bridge_bench.cpp:131-185 | the whole receiver state after a report, in every branch |
| GamepadReceiver.Receiver.FailClosedNow | firmware/diagnostics/live_bridge_bench.cpp:239-246 | link, arming and output after a failure |
| GamepadReceiver.Receiver.ServiceStaleInput | firmware/diagnostics/live_bridge_bench.cpp:463-474 | a stale key is released and re-arming demanded, otherwise nothing changes |
| GamepadReceiver.Receiver.ServiceUsbKeyboard | firmware/diagnostics/live_bridge_bench.cpp:476-510 | the endpoint state and the report accepted by the host |
| GamepadReceiver.Receiver.StartPairingScan | firmware/diagnostics/live_bridge_bench.cpp:525-551 | a scan rolls an uncommitted candidate back, releases and disarms |
| GamepadReceiver.Receiver.SelectPairingCandidate | firmware/diagnostics/live_bridge_bench.cpp:553-583 | only the scanned candidate is selected, its old link key dropped unless stored |
| GamepadReceiver.Receiver.ConfirmPairingCandidate | firmware/diagnostics/live_bridge_bench.cpp:585-624 | commits exactly when selected, chord matured, bonded and stored; drops the previous bond |
| GamepadReceiver.Receiver.CancelPairingNow | firmware/diagnostics/live_bridge_bench.cpp:626-658 | target text, valid flag and address after a rollback, the address kept when there is no stored or compiled one; drops the rejected bond |
| GamepadReceiver.Receiver.ServiceSetup | firmware/diagnostics/live_bridge_bench.cpp:727-741 | commands in order, then disarm while open and roll back on closing |
| GamepadReceiver.Receiver.Handle | firmware/diagnostics/live_bridge_bench.cpp:248-461 | every event, the inquiry filter and the incoming-connection filter included, is one step of the state machine, and the wire grows by what the host accepted |
| GamepadReceiver.SessionStaysOpen | firmware/src/config_service.cpp:193-335 | no command closes the session it came through |
| PairingCommands.ScanInFull | firmware/diagnostics/live_bridge_bench.cpp:525-551 | every field after a scan command: uncommitted candidate rolled back, key released, re-arming demanded, scan requested now |
| PairingCommands.SelectInFull | firmware/diagnostics/live_bridge_bench.cpp:553-583 | only the scanned candidate is selected; exactly its own link key is dropped, unless it is the stored controller |
| PairingCommands.ConfirmInFull | firmware/diagnostics/live_bridge_bench.cpp:585-624 | a commit ends the selection, disarms, keeps the target and drops exactly the link key of the controller it replaces; without a commit only the store may change |
| PairingCommands.CancelInFull | firmware/diagnostics/live_bridge_bench.cpp:626-658 | target, flags and link keys after a rollback |
| PairingCommands.InquiryInFull | firmware/diagnostics/live_bridge_bench.cpp:257-301 | a device becomes the candidate exactly while a scan runs and its name or class is the known one |
| PairingCommands.ConfirmationInFull | firmware/diagnostics/live_bridge_bench.cpp:315-330 | a link key is added only for the selected candidate, in an open session |
| PairingCommands.LinkEventsInFull | firmware/diagnostics/live_bridge_bench.cpp:302-451 | every field after the inquiry ends, a link opens or closes, is let in or declined, or its descriptor arrives |
| PairingCommands.SettleInFull | firmware/diagnostics/live_bridge_bench.cpp:727-741 | an open session disarms after each pass, a closing one rolls pairing back |
| GamepadSafety.SafeAlways | firmware/diagnostics/live_bridge_bench.cpp:131-246 | in every reachable state: re-arm demanded means no key wanted; open setup means no motion; closed setup means no candidate and no scan |
| GamepadSafety.CommandsKeepCore | firmware/diagnostics/live_bridge_bench.cpp:525-658 | the same holds between any two commands of one setup pass |
| GamepadSafety.ArmingIsExact | firmware/diagnostics/live_bridge_bench.cpp:131-185 | a report demands re-arming if it is unreadable, and ends the demand if and only if it is consumed outside setup and pairing with the dead-man button up and all sticks within 9000 |
| GamepadSafety.ReportIsExact | firmware/diagnostics/live_bridge_bench.cpp:131-185 | after any report the wanted key is what its raw buttons and sticks ask for, if output is enabled under a valid mapping, and none otherwise |
| GamepadSafety.ReportLeavesMapper | firmware/diagnostics/live_bridge_bench.cpp:131-185 | the mapper after any report, from raw facts; a re-arming report starts from a forgotten one |
| GamepadSafety.ReportTouchesNothingElse | firmware/diagnostics/live_bridge_bench.cpp:131-185 | a report changes nothing but arming, mapper, wanted key and, for a candidate tried in an open session, its chord |
| GamepadSafety.OutputPassInFull | firmware/diagnostics/live_bridge_bench.cpp:463-510 | an output pass releases and disarms exactly after 150 ms without a report, unless that came at clock value zero, and then serves the endpoint |
| GamepadSafety.EnabledByArmingReport | firmware/diagnostics/live_bridge_bench.cpp:131-185 | output is enabled only by a neutral report, with nothing disarming since |
| GamepadSafety.KeyNeedsArmingReport | firmware/diagnostics/live_bridge_bench.cpp:463-510 | a key on the wire has before it a valid neutral report outside setup and pairing, and no fault between |
| GamepadSafety.KeyComesFromLatestReport | firmware/diagnostics/live_bridge_bench.cpp:131-185 | a wanted key was published by the latest report while output was enabled under a valid mapping, and is exactly what that report's raw buttons and sticks asked for |
| GamepadAxes.AxisChangeOnWireIsSeparated | firmware/src/control_mapper.cpp:9-114 | two jog keys for different axes accepted by the host have strictly between them a report with the dead-man up or all axes centred, or an event that disarmed the receiver |
| GamepadSafety.InvalidMappingYieldsNoKey | firmware/src/production_config.cpp:74-85 | an invalid mapping never yields a key |
| GamepadSafety.WireAlternatesAlways | firmware/diagnostics/live_bridge_bench.cpp:476-510 | over whole receiver runs the wire alternates and `sent` is its last report |
| GamepadSafety.MemoryMatchesFlashAlways | firmware/src/persistent_config.cpp:179-222 | after every successful or failed save and pairing, memory is what a boot would load |
| GamepadTiming.KeyIsNeverHeldLong | firmware/diagnostics/live_bridge_bench.cpp:463-510 | no key is held more than 150 ms plus one pass interval after the last consumed report, across clock wraps |
| GamepadTiming.SilenceReleasesUnlessClockZero | firmware/diagnostics/live_bridge_bench.cpp:463-474 | when only the main loop runs, setup passes included, the key is released if and only if the last report did not arrive at clock value zero |
| GamepadClockZero.ClockZeroHoldsKey | firmware/diagnostics/live_bridge_bench.cpp:463-474 | a run of a paired receiver from boot, in main-loop order and time and over an encrypted link, that meets every pacing condition but the clock-zero one, in which the key is still held after eight silent seconds |
| GamepadPairing.PairingIsATransaction | firmware/diagnostics/live_bridge_bench.cpp:525-658 | bonds stay within stored and selected, the stored bond survives every attempt, without a candidate text and valid flag are those of the stored or compiled address and the address is too where there is one, a closed session has no candidate |
| GamepadPeers.LetsInHomeOrLastChoice | firmware/diagnostics/live_bridge_bench.cpp:334-345 | without a candidate the receiver lets in the stored or compiled controller, or else the last candidate it ever selected |
| GamepadPeers.RollbackRestoresFilter | firmware/diagnostics/live_bridge_bench.cpp:648-654 | among real addresses only the home controller is let in, if and only if there is one or no real candidate was ever selected |
| RejectedCandidate.RejectedCandidateIsLetIn | firmware/diagnostics/live_bridge_bench.cpp:648-654 | a run in main-loop order and time after which the address filter still passes any rejected candidate, with no link key left |
| GamepadPeers.NobodyStoredNobodyBonded | firmware/diagnostics/live_bridge_bench.cpp:640-647 | with nobody stored and nobody selected there is no link key at all |
| GamepadPeers.ArmedByStoredUnlessForgotten | firmware/diagnostics/live_bridge_bench.cpp:525-658 | over encrypted links the arming peer is the stored controller, if and only if no rollback of its selection and no commit of another one has made the receiver forget it since its link opened |
| GamepadPeers.OnlyTheseForget | firmware/diagnostics/live_bridge_bench.cpp:525-658 | the commands and events that make the receiver forget a peer: cancel, a new scan, the app closing, an unsupported descriptor, the commit of another |
| GamepadPeers.ArmedByHomeUnlessLinkIsOld | firmware/diagnostics/live_bridge_bench.cpp:131-185 | output is armed by the home controller if and only if the reporting link was let in under the target address now in force |
| GamepadPeers.ArmedByHomeOnceClosed | firmware/diagnostics/live_bridge_bench.cpp:441-451 | once the peer's link has closed under the present target, only the home controller arms |
| GamepadPeers.LinkIsUpExactly | firmware/diagnostics/live_bridge_bench.cpp:359-451 | over any run reports are looked at if and only if a supported descriptor has come since the link was last made or lost |
| RejectedCandidate.RejectedCandidateArms | firmware/diagnostics/live_bridge_bench.cpp:626-658 | a run in main-loop order and time, with pairing before the link opens, in which a rejected candidate's open link arms the output of a receiver that has another controller stored |
| GamepadPairing.ChordConfirmedBy | firmware/diagnostics/live_bridge_bench.cpp:145-165 | a matured chord was held in every valid report across at least 3000 ms with the candidate selected throughout |
| GamepadPairing.StoredAddressIsEarned | firmware/diagnostics/live_bridge_bench.cpp:585-624 | the stored address changes only to a candidate with such a chord |
| GamepadPairing.CommitIsEarned | firmware/diagnostics/live_bridge_bench.cpp:585-624 | every commit, even of the same address, takes such a chord |
| GamepadPairing.ChordIsExact | firmware/diagnostics/live_bridge_bench.cpp:145-165 | the chord clock starts, runs and clears by the three raw buttons alone, and matures if and only if it shows 3000 ms |
| GamepadPairing.ChordMatures | firmware/diagnostics/live_bridge_bench.cpp:145-165 | in real time a chord matures at exactly the first report 3000 ms after its start |
| GamepadPairing.CommitsExactly | firmware/diagnostics/live_bridge_bench.cpp:585-624 | a confirmation commits if and only if the chord of the selected candidate has matured, it is bonded and real, and flash takes the record |
| GamepadPairing.CommitTakesFreshBond | firmware/diagnostics/live_bridge_bench.cpp:553-624 | a commit of another controller takes a link key made during that same selection |
| GamepadPairing.ScanTimerIsExact | firmware/diagnostics/live_bridge_bench.cpp:190-213 | a requested scan is given up exactly when its timer comes more than 65 s after the request |
| Crc32.ComputeCrc32 | firmware/src/persistent_config.cpp:39-48 | the nested loop computes the CRC of the first `size` bytes |
| Crc32.RegisterIsDivision | firmware/src/persistent_config.cpp:39-48 | the byte loop is division of the bit stream by the generator |
| Crc32.CrcIsRfc1952 | firmware/src/persistent_config.cpp:39-48 | the loop agrees with the table code of section 8 of RFC 1952 on every input |
| Crc32.BurstBreaksCheck | firmware/src/persistent_config.cpp:94-120 | two records with good checks never differ by a burst of at most 32 bits |
| Crc32.EmptyCheck | firmware/src/persistent_config.cpp:39-48 | the check of no bytes is zero |
| RecordCodec.AddressBytesValid | firmware/src/persistent_config.cpp:50-58 | the byte scan refuses exactly the all-zero and all-ones addresses |
| RecordCodec.BytesRoundTrip | firmware/src/persistent_config.cpp:72-92 | unpacking and packing 44 bytes is the identity |
| RecordCodec.LayoutIsDocumented | firmware/src/persistent_config.cpp:72-92 | each of the 44 bytes of a stored record: magic, schema, size, sequence, masks, actions, address, profile and the check of the first 40 |
| RecordCodec.FlagIsDocumented | firmware/src/persistent_config.cpp:50-92 | the address is marked as present exactly when there is one and it is neither all zeros nor all ones |
| RecordCodec.StoredIsRecovered | firmware/src/persistent_config.cpp:72-120 | decode of encode recovers mapping, sequence and address |
| RecordCodec.AcceptedIsChecked | firmware/src/persistent_config.cpp:94-120 | accepted bytes are complete, carry a good check, and hold a valid mapping and address |
| RecordCodec.DecodesExactly | firmware/src/persistent_config.cpp:94-120 | any bytes are accepted with given contents if and only if they say so place by place, with a valid mapping and a real address or none |
| RecordCodec.AcceptedIsCanonical | firmware/src/persistent_config.cpp:94-120 | an accepted record is the encoding of its contents exactly when unused address bytes are zero |
| RecordCodec.LeftoverIsAccepted | firmware/src/persistent_config.cpp:94-120 | a record with a leftover address byte is accepted and is not the encoding of what it says |
| RecordCodec.BurstIsRejected | firmware/src/persistent_config.cpp:94-120 | a stored record hit by a burst of at most 32 bits is refused |
| PersistentConfig.NewerIsSerialOrder | firmware/src/persistent_config.cpp:122-124 | the comparison is serial number arithmetic of section 3.2 of RFC 1982, also where that leaves numbers unordered |
| PersistentConfig.LoadIsDocumented | firmware/src/persistent_config.cpp:136-177 | which slot a boot adopts, in terms of serial order, also where that leaves numbers unordered, and when it falls back to the default |
| PersistentConfig.ConfigStore.LoadMapping | firmware/src/persistent_config.cpp:136-177 | the newest decodable slot is adopted, else the compiled default |
| PersistentConfig.ConfigStore.StoreMapping | firmware/src/persistent_config.cpp:179-208 | memory, result and every intermediate flash state of a store |
| PersistentConfig.ConfigStore.StoreControllerAddress | firmware/src/persistent_config.cpp:210-222 | the address is kept on success and restored on failure |
| PersistentConfig.StoreIsDocumented | firmware/src/persistent_config.cpp:179-208 | which slot a save writes, and memory and flash after success, refusal and misreading |
| AtomicRegister.NewRecordWins | firmware/src/persistent_config.cpp:122-177 | a complete new record wins the next boot, also when the sequence wraps |
| AtomicRegister.EveryCutIsOldOrNew | firmware/src/persistent_config.cpp:179-208 | a power cut at any flash step boots to exactly the old or exactly the new contents |
| AtomicRegister.StoreIsAtomicRegister | firmware/src/persistent_config.cpp:136-222 | from any flash, over any saves, pairings, reboots and power cuts, memory equals flash and each operation is all or nothing |
| AtomicRegister.OneOperation | firmware/src/persistent_config.cpp:179-222 | a completed operation moves the register exactly when it reports success |
| AtomicRegister.SaveSucceedsExactly | firmware/src/persistent_config.cpp:179-208 | a save reports success if and only if the mapping is valid and flash takes the complete record and reads it back |
| AtomicRegister.PairSucceedsExactly | firmware/src/persistent_config.cpp:210-222 | a pairing reports success if and only if the address is real and flash takes the complete record and reads it back |
| AtomicRegister.FailedVerifyNeedsDeletion | firmware/src/persistent_config.cpp:194-204 | after a failed verify of a complete write, memory matches flash if and only if the driver can delete |
| Crc8.MobileCrc8 | firmware/src/mobile_protocol.cpp:17-27 | the nested loop computes the CRC of the first `length` bytes |
| Crc8.CrcIsDivision | firmware/src/mobile_protocol.cpp:17-27 | the byte loop is division of the bit stream by the generator |
| Crc8.CrcIsLinear | firmware/src/mobile_protocol.cpp:17-27 | for messages of any length the CRC is linear over xor |
| Crc8.CrcKeepsParity | firmware/src/mobile_protocol.cpp:17-27 | the CRC has the bit parity of the message |
| Crc8.AppendedCrcGivesZero | firmware/src/mobile_protocol.cpp:46-48 | a message followed by a byte has CRC zero exactly when the byte is its CRC |
| MobileProtocol.MobileInputSession.ConsumeFrame | firmware/src/mobile_protocol.cpp:36-126 | the error, input and new session of every buffer, null and short ones included |
| MobileSession.SessionIsItsHistory | firmware/src/mobile_protocol.cpp:29-126 | after any buffers the session is a function of the accepted frames alone |
| MobileSession.RejectedLeavesSession | firmware/src/mobile_protocol.cpp:36-74 | leaving every rejected buffer out of a run gives the same session, and any rejection leaves any session as it was |
| MobileSession.EventIsDeliveredOnce | firmware/src/mobile_protocol.cpp:76-126 | an event is delivered exactly when its number differs from the latest accepted event's |
| MobileSession.AcceptedNumbersIncrease | firmware/src/mobile_protocol.cpp:60-74 | unwrapped accepted numbers strictly increase |
| MobileSession.SameNumberIsThreeApart | firmware/src/mobile_protocol.cpp:60-74 | the same 16-bit number is accepted again at the third later acceptance at the earliest |
| MobileSession.ForwardNumbersAreAccepted | firmware/src/mobile_protocol.cpp:36-74 | every list of numbers that steps forward is accepted in full by some run of frames |
| MobileSession.ThreeStepsCanReturn | firmware/src/mobile_protocol.cpp:60-74 | four frames, all accepted, the last with the number of the first: three is the best possible distance |
| MobileSession.DamagedFrameIsRejected | firmware/src/mobile_protocol.cpp:36-48 | an acceptable frame hit by an odd number of flips or a burst of at most 8 bits is rejected by any session |
| MobileMeaning.AcceptanceIsDocumented | firmware/src/mobile_protocol.cpp:36-74 | a buffer is accepted if and only if it is the documented frame and its number is at most half the number space ahead |
| MobileMeaning.FirstErrorIsReported | firmware/src/mobile_protocol.cpp:36-62 | a malformed buffer is refused for the first thing wrong with it, in this order |
| MobileReceiver.Receiver.HandleFrame | firmware/diagnostics/mobile_ble_bench.cpp:138-213 | the whole bridge state after a written frame |
| MobileReceiver.Receiver.ServiceTimeout | firmware/diagnostics/mobile_ble_bench.cpp:271-282 | a timed-out key is released and a neutral controller demanded, otherwise nothing changes |
| MobileReceiver.Receiver.Handle | firmware/diagnostics/mobile_ble_bench.cpp:227-325 | every event is one step of the bridge's state machine |
| MobileSafety.GateHoldsAlways | firmware/diagnostics/mobile_ble_bench.cpp:138-325 | a demanded neutral controller means no key wanted, in every reachable state |
| MobileMeaning.FrameIsExact | firmware/diagnostics/mobile_ble_bench.cpp:138-213 | after any buffer the wanted key is what the frame's bytes ask for, if it is accepted, and none otherwise; when a neutral controller is demanded |
| MobileMeaning.FrameLeaves | firmware/diagnostics/mobile_ble_bench.cpp:138-213 | mapper and session after any buffer, from its bytes |
| MobileMeaning.OtherEventsInFull | firmware/diagnostics/mobile_ble_bench.cpp:227-325 | the bridge after a link comes or goes, after the timeout and after an endpoint pass |
| MobileSafety.KeyNeedsNeutralFrame | firmware/diagnostics/mobile_ble_bench.cpp:138-325 | a key on the wire has before it an accepted neutral frame and nothing that stops output between |
| MobileSafety.KeyComesFromLatestFrame | firmware/diagnostics/mobile_ble_bench.cpp:138-213 | a wanted key was asked for by the latest frame: a jog as below, or a step by a newly delivered event with the dead-man up and no direction |
| MobileSafety.JogComesFromLatestFrame | firmware/diagnostics/mobile_ble_bench.cpp:138-213 | a wanted jog is what the latest frame asked for |
| MobileSafety.KeyIsNeverHeldLong | firmware/diagnostics/mobile_ble_bench.cpp:271-325 | no key is held more than 150 ms plus two pass intervals after the last accepted frame |
| MobileSafety.WireAlternatesAlways | firmware/diagnostics/mobile_ble_bench.cpp:285-325 | over whole runs of the bridge the wire alternates and `sent` is its last report |
| MobileSilence.SilenceReleasesUnlessClockZero | firmware/diagnostics/mobile_ble_bench.cpp:271-325 | when only the main loop runs, the key is released if and only if the last frame was not accepted at clock value zero |
| MobileClockZero.ClockZeroHoldsKey | firmware/diagnostics/mobile_ble_bench.cpp:271-282 | a run from boot that meets every pacing condition but the clock-zero one, in which the key is still held after eight silent seconds |
| MobileSafety.TimeoutIsExact | firmware/diagnostics/mobile_ble_bench.cpp:271-282 | the timeout fires exactly after 150 ms, unless the frame came at clock value zero |
| FieldParser.FindOnceIsUnique | firmware/src/config_service.cpp:12-16 | on any line a key is found exactly when it stands there once, overlaps counted |
| FieldParser.ReadStringIsLiteral | firmware/src/config_service.cpp:18-30 | a value is read exactly when the line says it behind a key that stands once, and it is not empty and fits |
| FieldParser.NumberIsLiteral | firmware/src/config_service.cpp:32-40 | a number is read exactly when digits stand behind a unique key and a comma, a brace or the end of the line follows, and is cut at 2^32 - 1 |
| MappingText.ParsesExactly | firmware/src/config_service.cpp:90-127 | on any line a mapping is read exactly when it is valid and the line names every part of it |
| MappingText.NamesAreDocumented | firmware/src/config_service.cpp:42-88 | the words for every control, every action and the CNC profile |
| QuotedText.KeyStandsAtName | firmware/src/config_service.cpp:12-16 | a quoted key can stand in a line only where a piece between quotes is its name |
| MappingPrinter.PrintedIsRead | firmware/src/config_service.cpp:218-239 | a printed mapping is read back inside any line that uses its field names nowhere else |
| MappingPrinter.PrintedAnywhereIsRead | firmware/src/config_service.cpp:218-239 | a printed mapping is read back inside any text in which each key stands once |
| SetupRoundTrip.ReportedConfigurationIsRead | firmware/src/config_service.cpp:218-239 | the complete GET_CONFIG answer is cut neither by the body nor by the response buffer, and reads back as the mapping in force |
| SetupRoundTrip.SentLineIsUnderstood | firmware/src/config_service.cpp:282-300 | the complete SET_CONFIG line of a valid mapping is a request to save exactly it |
| SetupStream.SentConfigurationIsSaved | firmware/src/config_service.cpp:282-383 | those bytes, cut over setup passes in any way and with any other events between them, save exactly that mapping once |
| SetupStream.SentConfigurationIsInForce | firmware/src/config_service.cpp:282-383 | if flash takes the record, the sent mapping is afterwards in force and what the next boot loads, however the bytes were cut |
| SetupRoundTrip.MappingChangesAsTold | firmware/src/config_service.cpp:282-300 | the mapping in force changes only to a valid one the line spelled out and flash accepted |
| SetupRoundTrip.AddressChangesAsTold | firmware/src/config_service.cpp:321-328 | the stored controller changes only on a confirmation that commits |
| SetupProtocol.AddressTextIsInjective | firmware/diagnostics/live_bridge_bench.cpp:553-557 | comparing canonical address texts is comparing addresses |
| SetupProtocol.AddressTextIsBytewise | firmware/diagnostics/live_bridge_bench.cpp:553-557 | an address text is its bytes, high byte first, with colons between them |
| SetupProtocol.FramesAreRequests | firmware/src/config_service.cpp:193-335 | handling frames is executing the requests they amount to |
| SetupProtocol.CommandIsLiteral | firmware/src/config_service.cpp:193-205 | a command word is recognised if and only if the line says it in protocol 1, behind a key that stands once, below 32 bytes |
| SetupProtocol.LineIsObeyed | firmware/src/config_service.cpp:193-335 | what each command word does to the receiver; any other line does nothing |
| SetupProtocol.ReplyIsTruthful | firmware/src/config_service.cpp:193-335 | an answer says ok if and only if a query is answered or a command has succeeded |
| SetupProtocol.RefusalIsTruthful | firmware/src/config_service.cpp:193-335 | why a refused line was refused |
| SetupProtocol.SuccessIsDocumented | firmware/src/config_service.cpp:193-335 | what each successful answer says |
| SetupProtocol.FrameIsDocumented | firmware/src/config_service.cpp:185-191 | every answer opens with the protocol number and its verdict |
| SetupProtocol.NoticesAreDocumented | firmware/src/config_service.cpp:385-404 | which pairing states are announced, and when |
| SetupProtocol.ScanResultIsWhole | firmware/src/config_service.cpp:385-397 | a scan result is announced uncut, for every signal strength the radio can report |
| SetupProtocol.LimitsAreDocumented | firmware/src/config_service.cpp:185-239 | bodies of 699 bytes and answers of 895 are the longest that are not cut |
| SetupFraming.FramesSplitAtLineFeeds | firmware/src/config_service.cpp:352-383 | the framing is splitting at line feeds and judging each line on its own |
| SetupFraming.FramesOnlyGrow | firmware/src/config_service.cpp:352-383 | later bytes never change frames already completed, so chunking does not matter |
| SetupFraming.NewFramesInParts | firmware/src/config_service.cpp:352-383 | what two stretches of bytes complete is what they complete one after the other |
| SetupFraming.BufferedJudge | firmware/src/config_service.cpp:360-381 | the bounded buffer and overflow mark decide a line of any length correctly |
| SetupFraming.JudgeIsDocumented | firmware/src/config_service.cpp:352-381 | a line is refused for a byte below 32 other than CR or for more than 1024 bytes, ignored if empty, and otherwise handled without its CRs |
| ConfigService.ConfigService.WriteLine | firmware/src/config_service.cpp:145-162 | a line is queued whole, and all that waits is offered to the host, exactly when there is room for all of it |
| ConfigService.ConfigService.ServiceTx | firmware/src/config_service.cpp:164-183 | all that waits is offered, and bytes left plus bytes pending stay the accepted lines, for any partial or broken write |
| ConfigService.ConfigService.HandleLine | firmware/src/config_service.cpp:193-335 | one line changes the receiver as its request does and queues its answers |
| ConfigService.ConfigService.HandleEvent | firmware/src/config_service.cpp:385-404 | one receiver event, and the scan result or pairing state it announces to an open port |
| ConfigService.ConfigService.ReadBytes | firmware/src/config_service.cpp:352-381 | 256 bytes are read, fewer only if the port runs dry; every completed line carried out in order, buffers in bounds |
| ConfigService.ConfigService.Service | firmware/src/config_service.cpp:337-383 | backpressure, session end, commands executed from the consumed stream, and when an answer is lost: never if they fit together, and otherwise whenever the host takes nothing |
| SetupDrops.SeventyTwoLinesAreTooMany | firmware/src/config_service.cpp:185-199 | the answers of n one-byte lines fit into the queue if and only if n is less than 72 |
| ConfigService.ConfigService.SetupStep | firmware/diagnostics/live_bridge_bench.cpp:719-741 | a channel pass is exactly one setup event of the receiver, carrying the requests of the consumed lines |
| ProfileRegistry.Select | firmware/src/controller_profile.cpp:15-42 | matched exactly for the only eligible entry at the strongest level, ambiguous exactly for two or more there |
| ProfileRegistry.AnswerIgnoresOrder | firmware/src/controller_profile.cpp:15-42 | any two orders of the same registry give the same answer |
| ProfileRegistry.AnswerIsDocumented | firmware/src/controller_profile.cpp:7-42 | matched means the only eligible entry at its level with no exact one besides it, ambiguous two of them, none nobody eligible |

## Left out

- BTstack, CYW43, TinyUSB, the watchdog, timers and the LED: their answers are inputs of the steps.
- Interrupt interleavings of builds that are not polled, which configurable receivers forbid.
- The descriptor's SHA-256 identity: whether a descriptor is supported is an input.
- Connection identifiers: whether a call is attempted and whether an accepted connection goes through are inputs.
- `sscanf` leniency on malformed addresses: an address is a 48-bit number, and its text is the canonical one.
- The identity and profile-list texts of GET_INFO and GET_CNC_PROFILES: they are parameters of the channel object.
- Channels without pairing hooks: the hooks of the gamepad receiver are always present.
- The phone bridge's status notifications and GATT database.
- ConfigService.CdcPort.Write: a backend that claims to have taken more than it was given is taken to have taken nothing,
  because nothing can be known about what it sent.
- GamepadTiming.KeyIsNeverHeldLong: does not cover reports consumed at clock value zero, where it is false, nor a host that
  stops accepting reports, which no firmware can release.
- MobileSafety.KeyIsNeverHeldLong: as above; the bound has two pass intervals because the timeout and the endpoint are
  serviced by separate steps there.
- MobileSession.AcceptedNumbersIncrease: numbers are unwrapped from the accepted frames themselves, so a peer that skips
  more than 32767 numbers is not told apart from one that repeats.
- The website, scripts, build files and the bench programs for scanning and dumping reports.
