# Verified model of the intersection controller firmware

The firmware runs a traffic intersection: a control module (CPM) holds the intersection
configuration, signal modules (SSM) drive and supervise the lamps, and a power module (PSM)
supervises the grid. This project models the hardware-independent logic of the three in Dafny and
proves what it promises. `dafny verify dfyconfig.toml` checks all of it.

| file | models |
|---|---|
| `Crc32.dfy` | the CRC-32: bit-serial definition, table, byte loop, error detection |
| `ChannelBits.dfy` | channel flags as bits, 16-bit words as bytes |
| `PersistenceJournal.dfy` | the dual-slot journal record: build, validate, select, torn images |
| `Flash.dfy` | erase, program and read over a flash bank that may fail before any operation |
| `FlashPersistenceAdapter.dfy` | one key in two slots, each in its own page |
| `SignalFlashConfig.dfy` | the twelve flash flags, saved and loaded through the above |
| `CrashSafety.dfy` | end to end: one save, cut anywhere and with any slot reads |
| `SaveRuns.dfy` | any run of such saves; inputs on which a configuration is lost |
| `ValidationRules.dfy` | ordered rule tables and "the first failing rule" |
| `IntersectionConfig.dfy` | the configuration record, reference lists, input mapping, defaults |
| `IntersectionRules.dfy` | the table of rules the validator checks, with errors and indices |
| `IntersectionWellFormed.dfy` | the declarative predicate over the fields |
| `IntersectionDecision.dfy` | the table decides the predicate, section by section |
| `IntersectionGuarantees.dfy` | what acceptance guarantees; rebuild and defaults |
| `IntersectionErrors.dfy` | what each reported error and index say about the fields |
| `IntersectionValidate.dfy` | the validator's loops and arrays, proved against the table |
| `FlashSync.dfy` | the flash-sync generator over a wrapping tick |
| `MeasurementService.dfy` | persisted settings against runtime fields |
| `FlashSchedule.dfy` | the generator driven by the persisted settings |
| `GridFrequency.dfy` | the grid-frequency monitor in its two forms, in lockstep |
| `SignalDiagnostics.dfy` | the lamp-out monitor against its whole history |
| `OutputVerify.dfy` | the output verification against its whole history |
| `Telemetry.dfy` | the 8-byte voltage and current frame and its decoder |

How to read it. Code that updates state is a class or a method proved against a function of the
inputs and the old state; the theorems are about those functions. Flash and EEPROM accesses carry the
number of hardware operations that still succeed, or which reads and writes succeed, so a theorem
about "any run" covers power cuts and failed accesses. Monitors keep a ghost history since Reset, and
their validity says that every field is what that history defines.

Results that differ from what one might expect, each with its exact condition:

- A save cut after two of its four double-words is rejected by the CRC, except for exactly one
  sequence number, 0x24F556BB; there the cut record is accepted, its contents are not, and the
  configuration is unreadable until the next save (`OnlyPoisonHasZeroCrc`,
  `PoisonLosesTheConfiguration`, `AtomicExactlyUnlessPoisoned`). From erased flash, with both slots
  readable, that takes more than 620058298 attempts (`FirstSavesAreAtomic`).
- A save that reports success is shadowed exactly when it saw no valid record because slot 1 could
  not be read, and that holds a valid one with a sequence number in 1 .. 2^31: then the next Load
  returns what slot 1 held (`CompletedSaveLoads`, `SuccessfulSaveLost`).
- A save targets the latest record exactly under the read failures that `OverwritesLatestExactlyWhen`
  names. Cut before it commits, it leaves only the record of the other slot (`FallsBack`,
  `OnlyRecordOverwritten`, `LatestRecordOverwritten`).
- An Init that can neither read nor write a record that does not hold its default parts the live
  settings from the stored ones. A valid, writable command for the settings that are live is then
  dropped, and the next Init brings the old ones back (`CommandDropped`, `CommandDroppedReachable`).
  When the two agree after any run is `AgreesExactlyWhen`.
- The strike counter of the frequency monitor is not saturated: with 65536 strikes it is 0 again and
  the tick does not trip (`DeadGridTripsExactlyWhen`). The measured frequency is cut to eight bits,
  so 306 Hz passes for 50 Hz and 260 Hz is refused by a band around 250 Hz (`Alias306Hz`,
  `Refused260Hz`, `BandTestExactWhen`).
- A FlashSync cycle sends a mid frame exactly when some call is late for the period it sees and the
  latch was clear or an earlier call of the cycle was early (`CycleSendsMidExactlyWhen`). Gaps below
  half a period always suffice (`Cycle`); calls exactly half a period apart lose every mid frame but
  the first (`HalfPeriodCallsStaySilent`). The source comments that a cycle sends its mid frame at
  most once; it sends another exactly when a later call is early again for the period it sees and one
  after it late, as after a raised period (`SecondMidExactlyWhen`, `RaisedPeriodSendsTwoMids`).
- The frequency monitor is primed exactly when the edges since its last time-out end in an odd number
  of equal captures: two equal captures cancel (`RunShowsLive`, `OkExactlyWhen`).
- Symmetric concurrency lists are guaranteed exactly with one ring
  (`SymmetryGuaranteedExactlyWhen`).

## Model

| member | source | states |
|---|---|---|
| `SaveRuns.LoadAfterAnyRun` | SSM/App/Domain/SignalFlashConfig.c:37-95 | over any run of saves, each stopped after any number of flash operations and with any slot reads, Load returns what the last attempt that changed the configuration made of it: its flags, nothing after a poisoned cut, or what the other slot held after the latest record was overwritten by mistake; and the initial configuration if none did |
| `SaveRuns.OneAttempt` | SSM/App/Adapters/STM32/FlashPersistenceAdapter.c:83-134 | what Load returns after one attempt, from any slot contents, stopped anywhere and with any slot reads |
| `SaveRuns.AtomicExactlyWhen` | SSM/App/Adapters/STM32/FlashPersistenceAdapter.c:83-134 | one attempt leaves the old or the attempted configuration except exactly when it loses one by the poisoned cut or falls back on a third |
| `SaveRuns.EffectWhenReadable` | SSM/App/Adapters/STM32/FlashPersistenceAdapter.c:83-134 | with both slots read an attempt replaces the configuration exactly when it completes, or stops after three double-words of a record whose CRC over 24 bytes is zero; loses it exactly by the poisoned cut; and otherwise keeps it |
| `SaveRuns.LoadAfterReadableRun` | SSM/App/Domain/SignalFlashConfig.c:37-95 | over any run that reads both slots no attempt after the last change completed, and Load returns the flags of that change, or nothing if it was the poisoned cut |
| `SaveRuns.NoPoisonYet` | SSM/App/Adapters/STM32/FlashPersistenceAdapter.c:106-117 | a run no longer than the distance of the next sequence number to the poisoned one loses no configuration: Load returns the flags of the last change |
| `SaveRuns.FirstSavesAreAtomic` | SSM/App/Adapters/STM32/FlashPersistenceAdapter.c:83-134 | so the first 620058298 attempts from erased flash, each cut anywhere, are all atomic |
| `SaveRuns.SuccessfulSaveLost` | SSM/App/Adapters/STM32/FlashPersistenceAdapter.c:94-134 | an input on which a save that reports success is not loaded: from erased flash, save twice, then save while neither slot can be read; Load returns the second configuration |
| `SaveRuns.OnlyRecordOverwritten` | SSM/App/Adapters/STM32/FlashPersistenceAdapter.c:94-134 | an input on which the only record is erased: slot 0 cannot be read and power fails after the erase; nothing is left to load |
| `SaveRuns.LatestRecordOverwritten` | SSM/App/Adapters/STM32/FlashPersistenceAdapter.c:94-134 | an input on which the latest of two records is erased: slot 1 cannot be read and power fails after the erase; Load returns the one before |
| `CrashSafety.AtomicExactlyUnlessPoisoned` | SSM/App/Adapters/STM32/FlashPersistenceAdapter.c:83-134 | a save stopped anywhere leaves the old or the new configuration if and only if it is not stopped after two double-words of the record with sequence number 0x24F556BB while a configuration is stored |
| `CrashSafety.CutSaveSeeing` | SSM/App/Adapters/STM32/FlashPersistenceAdapter.c:83-134 | what Load returns after a save stopped after 0, 1, 2, 3 or 4 double-words, whatever the two slots held and whichever could be read: after three it is the new flags exactly when the CRC of the first 24 bytes is zero |
| `CrashSafety.CutSave` | SSM/App/Adapters/STM32/FlashPersistenceAdapter.c:83-134 | the same with both slots read: the saved flags, nothing, or the old configuration, and exactly when each |
| `CrashSafety.EarlyCompleteUnique` | SSM/App/Domain/PersistenceJournal.c:44-69 | for given flags at most one sequence number completes the record after three double-words |
| `CrashSafety.LeavesStored` | SSM/App/Adapters/STM32/FlashPersistenceAdapter.c:94-134 | a save that does not commit keeps the stored configuration unless it mistakes the latest record |
| `CrashSafety.FallsBack` | SSM/App/Adapters/STM32/FlashPersistenceAdapter.c:94-134 | one that does mistake it leaves exactly the record of the other slot, if that is valid |
| `CrashSafety.OnlyPoisonHasZeroCrc` | SSM/App/Domain/PersistenceJournal.c:44-69 | of the 2^32 sequence numbers exactly one gives the torn 24-byte head a CRC of zero |
| `CrashSafety.PoisonLosesTheConfiguration` | SSM/App/Adapters/STM32/FlashPersistenceAdapter.c:83-134 | the exception is reachable: a stored configuration that such a cut makes unreadable, for every configuration |
| `CrashSafety.CompletedSaveLoads` | SSM/App/Adapters/STM32/FlashPersistenceAdapter.c:37-134 | what Load returns after a save that reported success, whichever slots could be read during it: the saved flags, unless no valid record was seen only because slot 1 was unreadable and its sequence number lies in 1 .. 2^31; then what slot 1 held before |
| `Crc32.TableEntry` | SSM/App/Domain/Crc32.c:17-83 | each of the 256 constants is the register after eight clocks from its index |
| `Crc32.Compute` | SSM/App/Domain/Crc32.c:85-97 | the table-driven loop returns the bit-serial CRC-32/ISO-HDLC (section 8 of RFC 1952) of the first len bytes, for every byte string |
| `Crc32.CheckValue` | SSM/App/Domain/Crc32.c:85-97 | the published check value of CRC-32/ISO-HDLC: "123456789" has the CRC 0xCBF43926 |
| `Crc32.TableStepIsByteStep` | SSM/App/Domain/Crc32.c:91-95 | one table step is eight clocks of the reflected shift register with the byte added |
| `Crc32.EightBitsAreByteStep` | SSM/App/Domain/Crc32.c:91-95 | feeding the eight bits of a byte one at a time is the byte step |
| `Crc32.StepsLinear` | SSM/App/Domain/Crc32.c:85-97 | clocking the register is linear over exclusive or |
| `Crc32.CrcAffine` | SSM/App/Domain/Crc32.c:85-97 | for equal-length a, b, c the CRC of a xor b xor c is the xor of the three CRCs |
| `Crc32.BurstChangesRegister` | SSM/App/Domain/Crc32.c:85-97 | any nonempty change within 32 consecutive bits, at any bit position, changes the register and so the CRC |
| `Crc32.ShortStringsDiffer` | SSM/App/Domain/Crc32.c:85-97 | two different bit strings of at most 32 bits lead one register to two different ones |
| `Crc32.CommonTail` | SSM/App/Domain/Crc32.c:85-97 | different registers stay different under any common continuation |
| `Crc32.ResidueIffCrc` | SSM/App/Domain/Crc32.c:85-97 | message plus four bytes leaves the residue 0xDEBB20E3 if and only if the four bytes are the little-endian CRC of the message |
| `Crc32.TrailerUnique` | SSM/App/Domain/Crc32.c:85-97 | no two trailers take a register to the same place |
| `PersistenceJournal.JournalRecord.RecordBuild` | SSM/App/Domain/PersistenceJournal.c:19-42 | refuses sizes 0 and above 16 without change; otherwise the payload is the data followed by zeros, the header fields are the magic, the sequence, the size, 1 and 0xA5, and the CRC field is the CRC of those 28 bytes |
| `PersistenceJournal.JournalRecord.RecordIsValid` | SSM/App/Domain/PersistenceJournal.c:44-69 | true exactly for magic 0x4A53534D, version 1, commit 0xA5, a size from 1 to 16 that the caller admits, and the CRC of the 28 bytes before the CRC field |
| `PersistenceJournal.BuiltExactly` | SSM/App/Domain/PersistenceJournal.c:19-42 | every field of a built record, with zeros after the data |
| `PersistenceJournal.ValidExactlyWhen` | SSM/App/Domain/PersistenceJournal.c:44-69 | validity in terms of the fields and their limits as numbers |
| `PersistenceJournal.SelectLatest` | SSM/App/Domain/PersistenceJournal.c:71-98 | null exactly when neither record is valid, never an invalid one, otherwise the only valid one or the one later in serial-number order |
| `PersistenceJournal.BuiltIsValid` | SSM/App/Domain/PersistenceJournal.c:19-69 | a built record is valid for exactly the callers that admit its payload size |
| `PersistenceJournal.ParseImage` | SSM/App/Domain/PersistenceJournal.c:19-69 | a record survives its 32-byte little-endian image |
| `PersistenceJournal.ImageParse` | SSM/App/Domain/PersistenceJournal.c:19-69 | and every 32-byte image survives being read as a record |
| `PersistenceJournal.ValidIffResidue` | SSM/App/Domain/PersistenceJournal.c:44-69 | validity is header validity together with one register residue over all 32 bytes |
| `PersistenceJournal.BurstRejected` | SSM/App/Domain/PersistenceJournal.c:44-69 | no nonempty change within 32 consecutive bits of a valid image, CRC field and boundary included, is accepted |
| `PersistenceJournal.FourByteDamageRejected` | SSM/App/Domain/PersistenceJournal.c:19-69 | damage within four consecutive bytes of a built record is always rejected |
| `PersistenceJournal.LaterIsSelected` | SSM/App/Domain/PersistenceJournal.c:92-98 | of two valid records 1 to 2^31 - 1 steps apart modulo 2^32 (section 3.2 of RFC 1982) the later is selected, whichever argument it is |
| `PersistenceJournal.OrderMattersExactlyWhen` | SSM/App/Domain/PersistenceJournal.c:92-98 | swapping the arguments changes the choice exactly for equal or opposite sequence numbers |
| `PersistenceJournal.ShortTornRejected` | SSM/App/Domain/PersistenceJournal.c:44-69 | an image with no or one double-word programmed is never accepted |
| `PersistenceJournal.LongTornAcceptedIff` | SSM/App/Domain/PersistenceJournal.c:44-69 | with two or three double-words programmed it is accepted exactly when the CRC of its first 24 bytes is zero |
| `Flash.FlashDevice.FlashErase` | SSM/Core/Src/flash.c:76-100 | erases exactly the pages the bytes touch, as far as the hardware operations last |
| `Flash.FlashDevice.ProgramNext` | SSM/Core/Src/flash.c:131-146 | programs the next zero-padded double-word of erased flash and nothing else |
| `Flash.FlashDevice.FlashWrite` | SSM/Core/Src/flash.c:102-150 | refuses bad arguments without change, otherwise leaves every byte of the bank as erased and programmed so far; succeeds exactly when all operations do |
| `Flash.FlashDevice.FlashRead` | SSM/Core/Src/flash.c:152-180 | copies the requested bytes, or refuses and leaves the buffer alone |
| `Flash.WriteReadsBack` | SSM/Core/Src/flash.c:102-180 | a completed write reads back as the bytes written |
| `Flash.WriteStaysInItsPages` | SSM/Core/Src/flash.c:43-150 | however far a write gets, only bytes of the pages it spans change, all of them in the user area |
| `Flash.PaddedWriteFits` | SSM/Core/Src/flash.c:102-150 | rounding up to whole double-words leaves neither the user area nor the erased pages |
| `Flash.AcceptedExactlyWhen` | SSM/Core/Src/flash.c:102-180 | a write or read is accepted exactly when it is not empty, is aligned to 8 or 4, and all its bytes lie in 0x0803F000 to 0x0803FFFF |
| `Flash.WriteLeavesAround` | SSM/Core/Src/flash.c:102-150 | a completed write leaves zeros up to the end of its last double-word, 0xFF in the rest of its 2048-byte pages, and everything else as it was |
| `FlashPersistenceAdapter.Adapter.RecordReadOrZero` | SSM/App/Adapters/STM32/FlashPersistenceAdapter.c:37-47 | the bytes of the slot, or zeros when the read request fails |
| `FlashPersistenceAdapter.Adapter.AdapterRead` | SSM/App/Adapters/STM32/FlashPersistenceAdapter.c:49-81 | delivers the payload of the record selected among the slots that could be read, or fails |
| `FlashPersistenceAdapter.Adapter.AdapterWrite` | SSM/App/Adapters/STM32/FlashPersistenceAdapter.c:83-134 | after any slot reads and any number of hardware operations the slots are the old ones with the slot not chosen among those seen holding that much of the next record |
| `FlashPersistenceAdapter.CompletedWriteIsRead` | SSM/App/Adapters/STM32/FlashPersistenceAdapter.c:83-134 | what is read after a completed write of any request, whichever slots could be read during it |
| `FlashPersistenceAdapter.OverwritesLatestExactlyWhen` | SSM/App/Adapters/STM32/FlashPersistenceAdapter.c:94-117 | a write targets the slot of the latest record exactly when that slot could not be read and, if it is slot 1, slot 0 holds a valid record |
| `FlashPersistenceAdapter.CutWriteSeeing` | SSM/App/Adapters/STM32/FlashPersistenceAdapter.c:83-134 | what is read after a write stopped after any number of double-words, for any request, any slot contents and any slot reads: the torn image if it is a valid record and the write was not shadowed, else the survivor |
| `FlashPersistenceAdapter.SurvivorExactlyWhen` | SSM/App/Adapters/STM32/FlashPersistenceAdapter.c:94-117 | the record left when the write does not commit is the stored one exactly when the write did not mistake the latest record, or both slots hold the same |
| `FlashPersistenceAdapter.CutWrite` | SSM/App/Adapters/STM32/FlashPersistenceAdapter.c:83-134 | the same with both slots read, for any request and any slot contents |
| `FlashPersistenceAdapter.AcceptedImage` | SSM/App/Adapters/STM32/FlashPersistenceAdapter.c:94-117 | a valid record with the next sequence number in the unchosen slot becomes the stored one, across sequence wrap-around |
| `FlashPersistenceAdapter.RejectedImage` | SSM/App/Adapters/STM32/FlashPersistenceAdapter.c:94-117 | an invalid image in the unchosen slot leaves the stored record in place |
| `FlashPersistenceAdapter.SlotAfterWrite` | SSM/App/Adapters/STM32/FlashPersistenceAdapter.c:119-133 | a cut 32-byte write leaves a torn image in its slot and does not touch the other |
| `SignalFlashConfig.DecodeEncode` | SSM/App/Domain/SignalFlashConfig.c:37-95 | save then load yields the same twelve flags |
| `SignalFlashConfig.BurstRefused` | SSM/App/Domain/SignalFlashConfig.c:37-68 | a change within 32 consecutive bits of accepted bytes is refused |
| `SignalFlashConfig.FlashBitsMeaning` | SSM/App/Domain/SignalFlashConfig.c:78-86 | the bit of channel j, which counts 2^j, is clear in the inverted word exactly for a flashing channel |
| `SignalFlashConfig.FlashBitsNumber` | SSM/App/Domain/SignalFlashConfig.c:76-86 | as a number the sixteen flash bits are 0xFFFF less 2^j for each flashing channel j, so the four unused bits are ones |
| `SignalFlashConfig.WireBytes` | SSM/App/Domain/SignalFlashConfig.c:70-95 | the twelve bytes: "SSMF", that number with the low byte first, two zeros, and the CRC of the first eight |
| `SignalFlashConfig.AcceptedWire` | SSM/App/Domain/SignalFlashConfig.c:45-62 | Load accepts exactly twelve bytes with that magic and CRC, and takes the flags from the twelve low bits of bytes 4 and 5 |
| `ChannelBits.MaskIsPower` | SSM/App/Domain/SignalFlashConfig.c:78-86 | the mask of channel j is the number 2^j |
| `SignalFlashConfig.Load` | SSM/App/Domain/SignalFlashConfig.c:37-68 | returns the flags that the slots it could read stand for, or refuses and leaves the output untouched; as a number, the twelve low bits of stored bytes 4 and 5 are 0xFFF less 2^j for each flashing channel j |
| `SignalFlashConfig.Save` | SSM/App/Domain/SignalFlashConfig.c:70-95 | writes the encoded flags through the adapter, as far as the hardware operations last; as a number, bytes 4 and 5 are 0xFFFF less 2^j for each flashing channel j |
| `FlashSync.Generator.FlashSync` | PSM/App/Domain/MeasurementService.c:308-353 | one call sends the frame and reaches the state that the elapsed ticks modulo 2^32 call for |
| `FlashSync.MidFrameExactlyWhen` | PSM/App/Domain/MeasurementService.c:308-353 | inside a cycle, for any gaps and any periods in force, a call sends the mid frame if and only if it is in the second half and the previous call of the cycle was not; for the first call, if and only if the latch was clear |
| `FlashSync.CycleSendsMidExactlyWhen` | PSM/App/Domain/MeasurementService.c:308-353 | for any gaps and any periods a cycle sends a mid frame if and only if some call is late for the period it sees and the latch was clear at the start of the cycle or an earlier call was early for its own |
| `FlashSync.SteadyCycleSendsMidExactlyWhen` | PSM/App/Domain/MeasurementService.c:308-353 | under one period: if and only if some call comes in the second half and the latch was clear or some call comes in the first half; never two; and the latch it leaves behind |
| `FlashSync.NextStartExactlyWhen` | PSM/App/Domain/MeasurementService.c:310-322 | a call ends the cycle exactly when it comes at or after the period then in force |
| `FlashSync.Cycle` | PSM/App/Domain/MeasurementService.c:308-353 | for any run with a fixed period and gaps 1 to g below half of it, every start frame is followed by exactly one mid frame, half a period to half a period + g later, and the next start frame, a period to a period + g later, across any number of tick wraps |
| `FlashSync.FirstStart` | PSM/App/Domain/MeasurementService.c:308-353 | a first start frame comes within a period + g of the first call, whatever the initial state |
| `FlashSync.ToNextStart` | PSM/App/Domain/MeasurementService.c:308-353 | from anywhere in a cycle, whatever periods follow up to a bound, the next start frame and its time |
| `FlashSync.ChangedPeriodEndsCycle` | PSM/App/Domain/MeasurementService.c:424-445 | a changed period governs the cycle in progress at once: the cycle ends at the first call, from the change on, at or after the new period |
| `FlashSync.SecondMidExactlyWhen` | PSM/App/Domain/MeasurementService.c:329-347 | for any gaps and any periods a cycle whose mid frame is out sends another if and only if a later call of it is early for the period it sees and one after that late for its own |
| `FlashSync.OneChangeSendsSecondMidExactlyWhen` | PSM/App/Domain/MeasurementService.c:329-347 | with one change of period: if and only if the first call under the new period falls in its first half and a later call of the cycle in its second half |
| `FlashSync.RaisedPeriodSendsTwoMids` | PSM/App/Domain/MeasurementService.c:329-347 | such a run, from boot: two mid frames in one cycle |
| `FlashSync.HalfPeriodCycle` | PSM/App/Domain/MeasurementService.c:308-353 | with calls exactly half a period apart a cycle sends its mid frame if and only if the latch was clear, and leaves it set |
| `FlashSync.HalfPeriodCallsLoseMidFrames` | PSM/App/Domain/MeasurementService.c:308-353 | so from a start frame on every second call starts a cycle and only the first of these cycles can send its mid frame |
| `FlashSync.HalfPeriodCallsStaySilent` | PSM/App/Domain/MeasurementService.c:308-353 | from any state and any first call, boot included, such a run reaches a start frame within three calls and sends no mid frame after the first cycle |
| `FlashSync.HalfPeriodCallsFromBoot` | PSM/App/Domain/MeasurementService.c:308-353 | from boot, one period or more after tick 0: start, mid, start, silence, start, silence, for ever |
| `FlashSchedule.PeriodIsValid` | PSM/App/Domain/MeasurementService.c:121-134 | whatever commands and write failures come between the calls, every FlashSync call sees the period 200 * p ms of the valid p that is live then |
| `FlashSchedule.AlwaysRestarts` | PSM/App/Domain/MeasurementService.c:308-445 | whatever is commanded, every start frame is followed by another, at or after the period then in force, one to eight seconds + g later |
| `FlashSchedule.LivePeriodIsCycle` | PSM/App/Domain/MeasurementService.c:149-353 | from any start frame on, while the period p is live and gaps are below 100 p ms, cycles last from 200 p to less than 200 p + g ms with one mid frame at 100 p |
| `MeasurementService.Service.Init` | PSM/App/Domain/MeasurementService.c:149-208 | runtime settings become those the EEPROM bytes stand for; bad and unreadable records count as defaults and are rewritten |
| `MeasurementService.StepAgreesExactlyWhen` | PSM/App/Domain/MeasurementService.c:149-466 | after any operation the period agrees exactly when the operation restored it, or it agreed before and was not broken: Init restores it if the record is read, rewritten or holds the default, and breaks it otherwise; a valid, writable PeriodSet of a period that is not live restores it; likewise the offset |
| `MeasurementService.AgreesExactlyWhen` | PSM/App/Domain/MeasurementService.c:149-466 | over every run, with any failures: in the end period and offset each agree exactly when some operation restored them and none broke them since, or they agreed at the start and none broke them at all |
| `MeasurementService.Service.PeriodSet` | PSM/App/Domain/MeasurementService.c:384-445 | changes runtime and EEPROM together, and only for a valid new period whose write succeeds |
| `MeasurementService.Service.OffsetSet` | PSM/App/Domain/MeasurementService.c:403-466 | changes runtime and EEPROM together, and only for a valid new offset whose write succeeds |
| `MeasurementService.RunRefinesActs` | PSM/App/Domain/MeasurementService.c:63-466 | over every run that begins with Init, from any EEPROM bytes, with any arguments and any failing reads and writes: EEPROM and runtime are the stored and the live settings of a two-settings machine, the period is 200 * p with 5 <= p <= 40, and a readable Init makes the stored settings live |
| `MeasurementService.StepRefinesAct` | PSM/App/Domain/MeasurementService.c:149-466 | each operation does to EEPROM and runtime what it does to the two settings |
| `MeasurementService.RunRefinesCommands` | PSM/App/Domain/MeasurementService.c:63-208 | as long as every Init can read or overwrite each record the two are one: EEPROM and runtime agree and hold the settings last commanded |
| `MeasurementService.CommandDropped` | PSM/App/Domain/MeasurementService.c:424-445 | after an Init that could neither read nor write another stored period, a valid and writable command for the default period does nothing, and the next readable Init brings the stored one back |
| `MeasurementService.CommandDroppedReachable` | PSM/App/Domain/MeasurementService.c:149-445 | such a run: 8 s stored, 1 s live, PeriodSet(5) dropped, 8 s again after a restart |
| `MeasurementService.OwnBytesOnly` | PSM/App/Domain/MeasurementService.c:72-108 | no operation writes outside its own record |
| `MeasurementService.SetterTakesEffectExactlyWhen` | PSM/App/Domain/MeasurementService.c:384-466 | a PeriodSet takes effect exactly for a writable period from 5 to 40 that is not live, an OffsetSet exactly for a writable operation 0, 1 or 2 that is not live with its value; then the record is 0xF0 and the argument bytes |
| `MeasurementService.InitLeavesRecords` | PSM/App/Domain/MeasurementService.c:149-208 | after Init every record that could be written holds the live settings behind 0xF0; one in order or not writable is as it was |
| `GridFrequency.FrequencyCaptureFSM.OnEdge` | PSM/App/Domain/FrequencyCaptureFSM.c:27-79 | the whole new state after one edge: priming, a forward, a wrapped and a repeated capture, the clock divided by the difference, cut to whole hertz and to eight bits; published exactly when primed before |
| `GridFrequency.FrequencyCaptureFSM.Evaluate` | PSM/App/Domain/FrequencyCaptureFSM.c:81-150 | the whole new state and the verdict after one evaluation: time-out, band clamped to a byte, wrapping strike count, threshold |
| `GridFrequency.Tim2.CaptureCallback` | SSM/Core/Src/tim.c:411-450 | the interrupt code on an edge computes the state of the parameterised machine, in 64-bit variables; the frequency is 100000 divided by the difference, cut to whole hertz and to eight bits |
| `GridFrequency.Tim2.DelayElapsedCallback` | SSM/Core/Src/tim.c:458-506 | the interrupt code on a tick reaches the state of the parameterised machine and enters standby exactly when that says so |
| `GridFrequency.Lockstep` | SSM/Core/Src/tim.c:330-506 | started together and fed any edges and ticks, both programs stay in the same state and trip at exactly the same events |
| `GridFrequency.StrikesAreStreak` | PSM/App/Domain/FrequencyCaptureFSM.c:127-149 | the strike counter is the length of the non-OK streak modulo 2^16 |
| `GridFrequency.TripsExactlyWhen` | PSM/App/Domain/FrequencyCaptureFSM.c:127-149 | a tick trips exactly when it is not OK and the streak modulo 2^16 has reached the threshold; below 65536 that is the streak itself |
| `GridFrequency.DeadGridTripsExactlyWhen` | PSM/App/Domain/FrequencyCaptureFSM.c:81-149 | without edges the n-th tick has streak n and trips exactly when n modulo 2^16 has reached the threshold: at 65535 for every threshold, at 65536 only for threshold 0 |
| `GridFrequency.DifferenceIsModular` | PSM/App/Domain/FrequencyCaptureFSM.c:45-66 | for captures within the counter the difference is exact modulo the counter period, without 32-bit overflow |
| `GridFrequency.TrueInterval` | PSM/App/Domain/FrequencyCaptureFSM.c:45-66 | two edges up to a counter period apart give their true distance wherever the counter wraps; exactly a period apart they give 0 |
| `GridFrequency.RunIsExplained` | PSM/App/Domain/FrequencyCaptureFSM.c:27-79 | over every run the stored fields are those of the last edges, and a nonzero frequency comes from the last two |
| `GridFrequency.OkExactlyWhen` | PSM/App/Domain/FrequencyCaptureFSM.c:27-149 | over every run an evaluation is OK exactly when there is an edge since the last one that came too late, it lies within the timeout, an odd number of equal captures ends those edges, and the frequency they leave is in the band |
| `GridFrequency.HertzMeans` | PSM/App/Domain/FrequencyCaptureFSM.c:68-72 | the frequency of a difference is the largest h with h * difference at most the clock |
| `GridFrequency.OkTicks` | SSM/Core/Src/tim.c:411-506 | for the interrupt code, without the frequency: when the last two live edges left the machine primed, d >= 391 ticks apart across any wrap, the verdict is OK exactly within 100 ms of the last and for 1786 <= d <= 2222 |
| `GridFrequency.StandbyExactlyWhen` | SSM/Core/Src/tim.c:488-503 | it enters standby exactly when the streak of other verdicts, modulo 2^16, has reached 10 |
| `GridFrequency.RunShowsLive` | PSM/App/Domain/FrequencyCaptureFSM.c:27-149 | over every run the machine is primed exactly when the live edges end in an odd number of equal captures, and its frequency is that of the last two if both left it primed, else 0 |
| `GridFrequency.LiveEdgesEndEdges` | PSM/App/Domain/FrequencyCaptureFSM.c:98-112 | the live edges are the last of all edges |
| `GridFrequency.OkMeans` | PSM/App/Domain/FrequencyCaptureFSM.c:81-149 | over every run an OK verdict means an edge within the timeout and a last pair whose frequency is in the band, below 256 Hz without truncation |
| `GridFrequency.BandTestExactWhen` | PSM/App/Domain/FrequencyCaptureFSM.c:69-130 | for every configuration the eight-bit band test is right exactly when the frequency h is below 256 Hz, or is within the top of the band and its low byte reaches the bottom, or is above the band and its low byte misses it |
| `GridFrequency.Refused260Hz` | PSM/App/Domain/FrequencyCaptureFSM.c:69-130 | 260 Hz, inside a band of 230 to 270 Hz, is refused |
| `GridFrequency.Alias306Hz` | PSM/App/Domain/FrequencyCaptureFSM.c:66-69 | 306 Hz is taken for 50 Hz |
| `SignalDiagnostics.Monitor.Step` | SSM/App/Domain/SignalDiagnostics.c:15-71 | one cycle keeps every baseline and fault equal to what the whole history says, and returns 1 exactly when some fault went from 0 to 1 |
| `SignalDiagnostics.Monitor.Reset` | SSM/App/Domain/SignalDiagnostics.c:10-13 | afterwards the history is empty |
| `SignalDiagnostics.FirstLesson` | SSM/App/Domain/SignalDiagnostics.c:45-52 | the first sample of a combination with at least 50 mA |
| `SignalDiagnostics.BaselineIsFixed` | SSM/App/Domain/SignalDiagnostics.c:45-52 | a learned baseline never changes, whatever follows |
| `SignalDiagnostics.BaselineAfter` | SSM/App/Domain/SignalDiagnostics.c:43-52 | an unlearned baseline waits for the next sample that shows its combination, not the dark one, with at least 50 mA |
| `SignalDiagnostics.LearnsFrom50` | SSM/App/Domain/SignalDiagnostics.c:45-52 | it is learned at 50 mA and not at 49 |
| `SignalDiagnostics.LampOutNow` | SSM/App/Domain/SignalDiagnostics.c:53-67 | a cycle is a lamp-out exactly when its combination was learned before and the current is below floor(baseline / 2) |
| `SignalDiagnostics.LampOutAtExtends` | SSM/App/Domain/SignalDiagnostics.c:53-67 | a latched fault stays justified by the past alone |
| `SignalDiagnostics.MaskIdentifiesOutputs` | SSM/App/Domain/SignalDiagnostics.c:24-34 | two samples share a combination exactly when they show the same three outputs |
| `OutputVerify.Verifier.Step` | SSM/App/Domain/OutputVerify.c:15-43 | one cycle keeps every counter at min(255, current disagreement streak) and the fault at "five in a row at some time" |
| `OutputVerify.DisagreesExactlyWhen` | SSM/App/Domain/OutputVerify.c:23-27 | of the four combinations of off and on, the two mixed ones disagree |
| `OutputVerify.Streak` | SSM/App/Domain/OutputVerify.c:23-33 | the streak is the greatest n such that the last n cycles disagree |
| `OutputVerify.FaultIsSticky` | SSM/App/Domain/OutputVerify.c:37-40 | a fault is never forgotten |
| `OutputVerify.ToleratedExactlyWhen` | SSM/App/Domain/OutputVerify.c:15-43 | no fault exactly when every channel agrees at least once in any five consecutive cycles |
| `OutputVerify.FaultedAfter` | SSM/App/Domain/OutputVerify.c:37-40 | a cycle raises the fault exactly when it completes a streak of five on some channel |
| `Telemetry.Pack` | SSM/App/Domain/CurrentMeasurement.c:11-33 | low bytes and packed high bits of the four saturated currents, also as numbers: min(current, 1023) % 256, and the sum of 4^i times min(current i, 1023) / 256 |
| `Telemetry.Encode` | SSM/App/Domain/VoltageCurrentFrame.c:9-46 | the eight bytes of the frame; the first two, as a number with the low byte first, are the sum of 2^j over the energised channels j |
| `Telemetry.BuildFrame` | SSM/App/Domain/VoltageCurrentFrame.c:9-46 | pack then encode: the receiver reads back every channel flag, min(current, 1023) and the status, and the top four bits of byte 1 are zero; all eight bytes as numbers |
| `Telemetry.FrameIsDecodable` | SSM/App/Domain/VoltageCurrentFrame.c:9-46 | decoding a frame gives the flags, the saturated currents and the status |
| `Telemetry.DecodedIsReencoded` | SSM/App/Domain/VoltageCurrentFrame.c:9-46 | conversely every eight bytes with a clear top nibble in byte 1 are the encoding of what they decode to |
| `Telemetry.HighBitsMeaning` | SSM/App/Domain/CurrentMeasurement.c:14-32 | field i of the packed byte holds the two high bits of current i |
| `Telemetry.VoltageBitsMeaning` | SSM/App/Domain/VoltageCurrentFrame.c:16-27 | the bit of channel j, which counts 2^j, is set in the voltage word exactly for an energised channel |
| `Telemetry.VoltageBitsNumber` | SSM/App/Domain/VoltageCurrentFrame.c:16-30 | the two bytes of the voltage word are, as a number, the sum of 2^j over the energised channels j |
| `Telemetry.HighBitsNumber` | SSM/App/Domain/CurrentMeasurement.c:14-32 | the packed byte is, as a number, the sum of 4^i times min(current i, 1023) / 256 |
| `IntersectionValidate.Validate` | CPM/Libs/Intersection/IntersectionConfig.c:545-1662 | accepts exactly the well-formed configurations; otherwise errorInfo holds the error and object index of the first failing rule in scan order, and these name a field that is out of order |
| `IntersectionErrors.RejectionBlames` | CPM/Libs/Intersection/IntersectionConfig.c:545-1662 | whatever error and object index the scan reports, the field they name is out of order: one condition on the fields for each of the 89 errors, with object numbers as the operator counts them |
| `IntersectionErrors.NothingToBlame` | CPM/Libs/Intersection/IntersectionConfig.c:545-1662 | and conversely no field of a well-formed configuration is out of order by these conditions |
| `IntersectionValidate.CheckAll` | CPM/Libs/Intersection/IntersectionConfig.c:545-1662 | the whole scan reports what the rule table says |
| `IntersectionDecision.AcceptedExactlyWhenWellFormed` | CPM/Libs/Intersection/IntersectionConfig.c:545-1662 | no rule of the table fails if and only if the declarative well-formedness predicate holds |
| `IntersectionDecision.UnitRulesMean` | CPM/Libs/Intersection/IntersectionConfig.c:566-648 | the unit rules hold exactly for counts and unit parameters in range |
| `IntersectionDecision.EnabledMeans` | CPM/Libs/Intersection/IntersectionConfig.h:614-617 | a phase is enabled exactly when its option word is odd |
| `IntersectionDecision.PhaseRulesMean` | CPM/Libs/Intersection/IntersectionConfig.c:678-833 | the seventeen rules of a phase hold exactly when its ring and startup exist and, if it is enabled, its green, gap, clearance and pedestrian times fit together and its concurrency list is in order |
| `IntersectionDecision.VehicleRulesMean` | CPM/Libs/Intersection/IntersectionConfig.c:1071-1156 | the rules of a vehicle detector hold exactly when it calls and switches to existing phases, is not paired with itself, and its options and lengths are in range |
| `IntersectionDecision.PreemptRulesMean` | CPM/Libs/Intersection/IntersectionConfig.c:1208-1336 | the rules of a pre-emption hold exactly when its nine lists name existing phases and overlaps once each and its flags are in range |
| `IntersectionDecision.ChannelRulesMean` | CPM/Libs/Intersection/IntersectionConfig.c:1441-1547 | the rules of a channel hold exactly when its source is at most the phase count for types 2 and 3, at most 32 for types 4 to 6 and 0 for type 1, with masks and lists in order |
| `IntersectionDecision.OverlapRulesMean` | CPM/Libs/Intersection/IntersectionConfig.c:1549-1659 | the rules of an overlap hold exactly when it is unused or a normal one with included phases, with lists and times in order |
| `IntersectionDecision.RingRulesMean` | CPM/Libs/Intersection/IntersectionConfig.c:835-909 | the ring and assignment rules hold exactly when each ring in use serves its own enabled phases, each once, and nothing else |
| `IntersectionGuarantees.EnabledPhasesServedOnce` | CPM/Libs/Intersection/IntersectionConfig.c:835-909 | in every accepted configuration the slots in use, over all rings, serve each enabled phase exactly once, in its own ring, and no disabled phase |
| `IntersectionGuarantees.SlotsCountEnabledPhases` | CPM/Libs/Intersection/IntersectionConfig.c:835-909 | the ring phase counts sum to the number of enabled phases |
| `IntersectionGuarantees.ConcurrencyBound` | CPM/Libs/Intersection/IntersectionConfig.c:78-115 | an enabled phase of an accepted configuration lists distinct enabled phases of the other ring, so no more than that ring has slots, at most four, none with one ring |
| `IntersectionGuarantees.SymmetryGuaranteedExactlyWhen` | CPM/Libs/Intersection/IntersectionConfig.c:78-115 | of an accepted configuration every accepted variant with other concurrency lists is symmetric on the enabled phases if and only if there is one ring |
| `IntersectionGuarantees.ListsMayChange` | CPM/Libs/Intersection/IntersectionConfig.c:78-115 | any list that meets its own rule may replace an enabled phase's list in an accepted configuration |
| `IntersectionGuarantees.ChannelSources` | CPM/Libs/Intersection/IntersectionConfig.c:1498-1545 | in every accepted configuration a channel of type 2 or 3 is driven by an existing phase, one of types 4 to 6 by one of 32 overlaps, one of type 1 by nothing |
| `IntersectionGuarantees.ChannelMayChangeExactlyWhen` | CPM/Libs/Intersection/IntersectionConfig.c:1441-1547 | any channel of an accepted configuration may be replaced by exactly the channels that meet these bounds and the other limits of a channel, as numbers |
| `IntersectionValidate.ValidateReferenceList` | CPM/Libs/Intersection/IntersectionConfig.c:38-195 | the three seen-array validators accept exactly the lists that fit and name existing objects without repetition |
| `IntersectionValidate.ValidatePhaseConcurrencyList` | CPM/Libs/Intersection/IntersectionConfig.c:78-115 | accepts exactly the lists of enabled phases of other rings |
| `IntersectionValidate.CheckUnit` | CPM/Libs/Intersection/IntersectionConfig.c:566-648 | first failing rule of the counts and unit parameters |
| `IntersectionValidate.CheckPhases` | CPM/Libs/Intersection/IntersectionConfig.c:678-833 | first failing rule of the phases in use, disabled ones being checked for ring and startup only |
| `IntersectionValidate.CheckRings` | CPM/Libs/Intersection/IntersectionConfig.c:835-895 | first failing rule of the ring plans, with one array of phases seen shared by all rings |
| `IntersectionValidate.CheckUnassigned` | CPM/Libs/Intersection/IntersectionConfig.c:897-909 | first enabled phase that no ring serves |
| `IntersectionValidate.CheckPatterns` | CPM/Libs/Intersection/IntersectionConfig.c:953-1000 | first failing rule of the coordination patterns |
| `IntersectionValidate.CheckSplits` | CPM/Libs/Intersection/IntersectionConfig.c:1002-1040 | first failing rule of the splits, row by row |
| `IntersectionValidate.CheckActions` | CPM/Libs/Intersection/IntersectionConfig.c:1042-1069 | first failing rule of the time-base actions |
| `IntersectionValidate.CheckVehicleDetectors` | CPM/Libs/Intersection/IntersectionConfig.c:1071-1156 | first failing rule of the vehicle detectors |
| `IntersectionValidate.CheckPedDetectors` | CPM/Libs/Intersection/IntersectionConfig.c:1158-1183 | first failing rule of the pedestrian detectors |
| `IntersectionValidate.CheckPreempts` | CPM/Libs/Intersection/IntersectionConfig.c:1208-1355 | first failing rule of the pre-emptions, each followed by its queue-delay weights |
| `IntersectionValidate.CheckPhaseInputs` | CPM/Libs/Intersection/IntersectionConfig.c:1357-1414 | first failing rule of the phase inputs, with two arrays of inputs seen |
| `IntersectionValidate.CheckPreemptInputs` | CPM/Libs/Intersection/IntersectionConfig.c:1416-1439 | first failing rule of the pre-emption inputs |
| `IntersectionValidate.CheckChannels` | CPM/Libs/Intersection/IntersectionConfig.c:1441-1547 | first failing rule of the channels; a source is checked against the phase count for types 2 and 3 and against the overlaps for types 4 to 6 |
| `IntersectionValidate.CheckOverlaps` | CPM/Libs/Intersection/IntersectionConfig.c:1549-1659 | first failing rule of the overlaps, only type other and normal being accepted |
| `IntersectionConfig.NormalizeVehicleDetectorOptions` | CPM/Libs/Intersection/IntersectionConfig.c:197-206 | never both locks, and a change exactly when both were asked for |
| `IntersectionConfig.FirstCaller` | CPM/Libs/Intersection/IntersectionConfig.c:208-252 | the least-numbered input that calls a phase, 0 if none |
| `IntersectionValidate.MapCallers` | CPM/Libs/Intersection/IntersectionConfig.c:225-251 | one loop of the rebuild maps each phase to its first caller, in terms of the calls |
| `IntersectionValidate.Store.RebuildLegacyInputMapping` | CPM/Libs/Intersection/IntersectionConfig.c:208-252 | each phase gets the first vehicle detector and the first pedestrian input that call it, or 0 if none does, in terms of the detectors themselves, and nothing else changes |
| `IntersectionConfig.RebuiltMaps` | CPM/Libs/Intersection/IntersectionConfig.c:208-252 | the same as a law of the rebuild |
| `IntersectionConfig.DefaultInputs` | CPM/Libs/Intersection/IntersectionConfig.c:266-543 | the defaults map phase p to detector p and pedestrian input p |
| `IntersectionConfig.DefaultPlan` | CPM/Libs/Intersection/IntersectionConfig.c:266-543 | the defaults enable eight phases, four in order in each ring, with these times, no lists and no driven channel |
| `IntersectionConfig.RebuildRepairsInputs` | CPM/Libs/Intersection/IntersectionConfig.c:208-252 | after a rebuild every entry is in range and no input serves two phases, whatever was there before |
| `IntersectionGuarantees.RebuiltAcceptedExactlyWhen` | CPM/Libs/Intersection/IntersectionConfig.c:1357-1414 | a rebuilt configuration is accepted exactly when everything but the phase inputs is in order |
| `IntersectionGuarantees.RebuildKeepsAcceptance` | CPM/Libs/Intersection/IntersectionConfig.c:208-252 | an accepted configuration stays accepted |
| `IntersectionGuarantees.DefaultsAccepted` | CPM/Libs/Intersection/IntersectionConfig.c:266-543 | the factory defaults are accepted |
| `IntersectionValidate.Store.InitDefaults` | CPM/Libs/Intersection/IntersectionConfig.c:266-543 | sets the defaults with rebuilt inputs, phase p at inputs p; the result is well formed |

## Left out

- FlashPersistenceAdapter.Adapter.AdapterRead: the storage request queue is not modelled; a read request of a slot is served or fails at once.
- FlashPersistenceAdapter.Adapter.AdapterWrite: the same for the write request, so a request that times out and is still carried out later is not a run here.
- A page erase or double-word program interrupted half-way by a power cut: each is atomic here; flash controller flags, unlocking and the watchdog are not modelled.
- Flash bank 2: `FlashPageGet` is modelled for it, but the user area lies in bank 1 and so does the modelled memory.
- EEPROM writes that fail after changing some bytes.
- FlashSchedule: an Init between FlashSync calls, which also clears the generator's state, starts a new run.
- The LED, measurement-frame and CAN transmission parts of the measurement service; the flash-sync frame is only named by its kind.
- Re-arming of the timer compare register, entering standby, and the other timers in `tim.c`.
- The frequency monitors start together: a later restart of the interrupt code, which keeps its strike count, is not a run of `Lockstep`.
- Floating-point RMS computation, CAN back-pressure, the flash-sync watchdog, the sample accumulator and the signal card identity: only easy members.
- The status byte of the telemetry frame is an input; how the measurement task assembles it from fault flags is not modelled.
- Null-pointer guards, and a null `errorInfo`.
- Configuration fields that neither validation, the defaults' acceptance nor the input mapping depends on (descriptions, reserved bytes, unchecked times).
- `ValidatePhaseReferenceList`, `ValidateChannelReferenceList` and `ValidateOverlapReferenceList` are one method with their bounds as parameters; the validator's single function is split into one method per object and per loop.
- The second, larger configuration validator under CPM/CP, and the chunked configuration protocol between the CP and MP processors.
- IntersectionValidate.Store.InitDefaults: default values of fields that nothing validates are not in the record, and the loops that fill arrays with constants are sequence expressions.
- IntersectionValidate.Store.RebuildLegacyInputMapping: the clearing loop and the two detector loops are two calls of one method, on sequences.
