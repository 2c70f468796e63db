# ASense: verified models

ASense is a laptop control program: a privileged daemon and a kernel driver
change firmware state step by step, read every change back, and undo it when
something fails. This project models the parts of it where that is delicate and
proves what they keep. `dafny verify dfyconfig.toml` checks everything.

| file | models |
|---|---|
| FanHardware | the two-channel fan transaction of src/hardware.rs over firmware that refuses, garbles and misreports |
| FanLease | the fan lease of src/daemon.rs: any number of client threads, one pair of fans, every interleaving of their atomic steps |
| LightingPolicy, LightingDriver | the record policy and the lighting stores, power switch, probe and resume of the kernel driver |
| NvidiaOffsets | the clock-offset transaction of src/nvidia.rs |
| NvidiaMarker | the deferred NVIDIA reconciliation between the resume process, the daemon and PROFILE commands |
| HidItems, HidDescriptor, DescriptorBytes | the HID report-descriptor parser, after sections 6.2.2.2 to 6.2.2.8 of the Device Class Definition for HID 1.11 |
| SortedMerge, HidInventory | the passive HID inventory: collection, merging, validation |
| Utf8, ByteStream, CommandFraming, ResponseLine | both ends of the control socket, under any chunking and any time-outs |
| Text, ControlCommands, ProfileReceipt, LightingStateText | the printers and parsers of commands, receipts and lighting states |
| RawDecoders | the driver's readers against the decoders of src/passive_diagnostics.rs |
| ResizeState, ProfileSync | the two state machines of src/app.rs that do not need a window |
| CrossChecks | offsets, percentages and records where two parts must mean the same |

Firmware, sockets and devices are adversarial objects: local variables without a
value decide whether an access fails and what is stored or shown. A ghost log
remembers what was written. `honest` firmware reports what it shows, and
`faithful` devices also do what they are asked; most claims need neither. The
clock-offset device counts its `faults` down instead, so claims can say how many
failures they stand.

## What the proofs show about the source

- src/daemon.rs:664-666 says that the disconnect of a client whose lease was
  revoked must not undo the override. That holds until the client claims the
  fans again. It fails for a client that was in its socket read when it lost the
  lease (`FanLease.StaleMeansRevokedInRead`) and sends a PROFILE before it passes
  the head of its loop: the claim takes the free slot before anything else is
  checked, the old session stays, and the disconnect puts the fans back to
  Automatic although another client's acknowledged Maximum should persist.
  `FanLease.RevokedClientUndoesTheOverride` is such a run. The exact condition,
  for every answer to the PROFILE and every continuation up to the disconnect, is
  `FanLease.DisconnectAfterProfile`: no other client owned the fans, nobody
  overrode them since, and either the PROFILE rewrote the fans itself without
  verifying them, or it did not and the session still carried a lease. An error
  does not help: `FanLease.RefusedProfileStillRewrites`.
- Generations of src/app.rs wrap at 2^64, so a stale time-out is harmless unless
  an exact multiple of 2^64 corrections began after its own
  (`ResizeState.StaleTimeout`, with the run in `ResizeState.WrappedTimeoutHits`).
- A target list of src/nvidia.rs that contradicts itself passes the validation
  when it is in range (`NvidiaOffsets.OffsetDevice.CheckTargets`), never succeeds,
  and on a device without failures leaves every offset as it was
  (`NvidiaOffsets.OffsetDevice.ApplyOffsetTargets`).
- power_store (kernel/asense_rgb.c:1351-1414) remembers the brightness of a lit
  keyboard that it is to switch off even when the switch itself then fails: it
  does so exactly if the snapshot succeeded
  (`LightingDriver.AsenseRgb.PowerStore`), and
  `LightingDriver.FailedSwitchRemembers` is a failed switch that changed it.
- A comment at src/passive_hid.rs:641 says that the first Usage owns the following
  collection. It does if and only if it resolves to a page and a number or no
  later one does (`HidDescriptor.FirstUsageOwnsIff`); in
  `HidDescriptor.SecondUsageOwns` the second one owns it, and
  `HidDescriptor.SecondUsageIsReported` is what the parser reports for its bytes.
- The window compares a pair of offsets and whether all P-states share it
  (src/app.rs:1984-1989), but telemetry reports no pair when they differ
  (src/telemetry.rs:557-579). So uneven offsets are never reported as a mismatch:
  `CrossChecks.UnevenIsUnread` says exactly when none is seen.

## Model

| member | source | states |
|---|---|---|
| FanHardware.ReadbackDecodesThePercentage | src/hardware.rs:1166-1175 | for every scale from 198 on, any raw value within one step of the requested percentage, rounded either way, is read back as that percentage |
| FanHardware.PercentRoundTrip | src/hardware.rs:1166-1175 | rounding up to a raw value and back loses no percentage, at every scale from 198 on (255 is the instance) |
| FanHardware.RoundTripIff | src/hardware.rs:1166-1175 | for every percentage and every scale the round trip keeps the percentage if and only if rounding up adds less than the larger half of the scale |
| FanHardware.IntegerDriverKeepsThePercentage | src/hardware.rs:1166-1175 | a kernel driver that keeps whole percentages neither selects the preceding one nor spoils the readback |
| FanHardware.PercentRoundTripNeedsTheScale | src/hardware.rs:1166-1175 | 198 is the least such bound: at 197 the round trip of 33 percent fails, exactly at the limit of the condition |
| FanHardware.ManualIsPrepared | src/hardware.rs:707-731 | however far the Manual sequence gets, Manual is first written after both channels were verified at Maximum and both speeds were accepted |
| FanHardware.RunOnward | src/hardware.rs:707-731 | two access sequences in a row run like one: the first failure ends both |
| FanHardware.OrderSurvives | src/hardware.rs:733-752 | recovery writes never disturb the order of the Manual writes |
| FanHardware.RecoveryBegins | src/hardware.rs:570-588 | a recovery writes Automatic to both channels first, and goes on to Maximum exactly if that was not verified |
| FanHardware.AcerHardware.SetBothModes | src/hardware.rs:700-705 | the accesses are the four of the mode sequence up to the first failure; success means both channels hold the mode |
| FanHardware.AcerHardware.SetManual | src/hardware.rs:707-731 | percentages outside 20..=100 touch nothing; otherwise exactly the fourteen accesses in order up to the first failure; success means both hold Manual and the requested speeds |
| FanHardware.AcerHardware.VerifyMode | src/hardware.rs:758-762 | passes only if the register holds the expected mode |
| FanHardware.AcerHardware.VerifyPwmPercent | src/hardware.rs:784-820 | passes only if the register decodes to the expected percentage, on either backend |
| FanHardware.AcerHardware.ForceModeUnchecked | src/hardware.rs:741-752 | both channels are written even when the first write fails; success means both hold the mode |
| FanHardware.AcerHardware.ReadFanState | src/hardware.rs:591-660 | the reads of the backend in order; every mode and every speed reported is that of its own channel, a speed as the raw register of the kernel driver or as the scaled Gaming-WMI percentage |
| FanHardware.AcerHardware.ReadVerifiedFanState | src/hardware.rs:598-621 | succeeds only if both channels are read in the expected mode, and writes nothing |
| FanHardware.AcerHardware.Recover | src/hardware.rs:570-588 | Automatic is forced first, and Maximum after it if and only if that failed; the accesses are exactly those, the error carries what each ended with, and a reported mode is verified |
| FanHardware.AcerHardware.ApplyFanSetting | src/hardware.rs:537-589 | the accesses are those of the attempt and of its recovery and no others; every outcome but a failed recovery leaves both channels in one verified mode (as requested, Automatic or Maximum, as the result says), and the error carries what the attempt failed with; pre-write refusals change nothing; Manual is only written in order; success reads back mode and percentages, each from its own channel; a device that never fails and rounds like an integer driver succeeds if and only if the percentages are valid or, for the other modes, the old Gaming-WMI speeds are readable, and otherwise ends verified in Automatic |
| FanLease.DaemonRuntime.ClaimFanCommand | src/daemon.rs:204-221 | who owns the fans after a claim, and that only Auto and Maximum override another owner |
| FanLease.DaemonRuntime.ReleaseUnleasedFans | src/daemon.rs:223-227 | the slot is released exactly by its owner and only when its session needs no Auto |
| FanLease.ClaimDecides | src/daemon.rs:204-221 | a claim is refused exactly to a FAN MANUAL or PROFILE while another client owns the fans; otherwise FAN and PROFILE take the slot and no other command touches it |
| FanLease.Execute | src/daemon.rs:865-1005 | a command against the hardware, rediscovered with any backend, has a session, a success and a fan state that the state machine allows for some environment, so its runs cover the implementation; a successful FAN MANUAL ends with both channels in Manual and with each fan at its own percentage, FAN AUTO, FAN MAXIMUM and a PROFILE on Gaming-WMI end in their modes, and on a device that never fails every acceptable FAN command succeeds |
| FanLease.FanCommandSettles | src/daemon.rs:706-731 | a FAN command that may claim the fans, once answered: verified Auto and Maximum are released and need neither watchdog nor Auto, verified Manual and everything unverified stays leased and watched |
| FanLease.EnforceThermalWatchdog | src/daemon.rs:1330-1355 | the watchdog against the hardware ends in the session, place and fan state of the state machine's head of the loop; a watched session whose temperature is unreadable or at least 92 (processor) or 84 (graphics) degrees goes on only with both fans at Maximum, ends without a write when the lock is busy, and always goes on over a device that never fails |
| FanLease.WatchdogActs | src/daemon.rs:1330-1355 | for every state: the check of a hot, watched owner gives verified Maximum and a session that still hands the fans back, or sends the client to its cleanup |
| FanLease.RunKeepsWatch | src/daemon.rs:653-668 | in every run the owner of fans that are Manual or unverified, and not reported lost, is watched or already leaving after its watchdog failed |
| FanLease.HotFansAreCooled | src/daemon.rs:653-668 | so in every run such fans are set to Maximum by the next hot check of their owner, or that check ends the client with its lease |
| FanLease.ReadsAfterCheck | src/daemon.rs:653-690 | no client comes to its read but through that check |
| FanLease.CleanUpAfterDisconnect | src/daemon.rs:735-766 | the cleanup against the rediscovered hardware and the slot ends in the state machine's disconnect; it reports an error exactly unless Automatic was verified, leaves both fans in Automatic when it reports none, writes nothing without a lease, and never fails over a device that never fails |
| FanLease.LeaseIsHandedBack | src/daemon.rs:735-755 | the cleanup of a live lease ends in Automatic when it is verified, frees the slot in any case, and leaves a reported error when it could not begin |
| FanLease.DispatchKeepsInv | src/daemon.rs:706-718 | claiming and executing any command keeps the lease invariant |
| FanLease.DisconnectKeepsInv | src/daemon.rs:735-755 | disconnect cleanup keeps the lease invariant |
| FanLease.TopOfLoopKeepsInv | src/daemon.rs:653-668 | watchdog and revocation at the head of the loop keep the lease invariant |
| FanLease.RunKeepsInv | src/daemon.rs:635-766 | the invariant holds in every run of any number of clients |
| FanLease.AbandonedWasReported | src/daemon.rs:735-766 | unsafe fans without a lease go back to a cleanup or failsafe that reported an error, with no verified transaction since |
| FanLease.FansAreNeverLostSilently | src/daemon.rs:635-817 | in every interleaving: Manual or unverified fans have a live owner whose session will hand them back, or a failsafe error was reported and nothing verified the fans since |
| FanLease.LeaseIsExclusive | src/daemon.rs:204-221 | no other client's step touches fans, owner or session of a lease, except an explicit Auto or Maximum |
| FanLease.MaximumWaits | src/daemon.rs:795-803 | a Maximum awaiting its response was verified, and its client has only written that response since |
| FanLease.PersistentMaximumWasAcknowledged | src/daemon.rs:720-731 | a session is PersistentMaximum only if its Maximum was verified, its OK was written after that, and the client owned the fans when it was released |
| FanLease.WithoutTheLease | src/daemon.rs:653-668 | a client without the lease stays without it until it sends FAN or PROFILE |
| FanLease.DisconnectWithoutTheLease | src/daemon.rs:735-755 | and its disconnect changes nothing but its own departure |
| FanLease.TopOfLoopSettles | src/daemon.rs:661-667 | passing the head of the loop without the lease clears the session and writes nothing |
| FanLease.DisconnectAfterProfile | src/daemon.rs:653-755 | for every answer to a PROFILE and every continuation without another claim, the disconnect rewrites the fans if and only if the PROFILE left a lease and nobody overrode it since |
| FanLease.ProfileDecides | src/daemon.rs:706-718 | a PROFILE leaves a lease exactly if it claimed the slot and either rewrote the fans without verifying them, or did not rewrite them and the old session carried one; without a rewrite the fans stay |
| FanLease.LeaseLasts | src/daemon.rs:635-766 | a lease lasts until somebody overrides it or its client is gone, and without a claim none comes back |
| FanLease.RefusedProfileStillRewrites | src/daemon.rs:204-221 | a PROFILE answered with an error, or whose response cannot be written, still leaves the disconnect that rewrites the fans |
| FanLease.StaleMeansRevokedInRead | src/daemon.rs:661-690 | a session outlives its lease only through an Auto or Maximum of another client while it was in its read |
| FanLease.RevokedClientUndoesTheOverride | src/daemon.rs:664-666 | a concrete run in which a revoked client's disconnect undoes an acknowledged Maximum |
| LightingPolicy.StaticEffectIsWritable | kernel/asense_rgb_policy.h:49-82 | the static record is write-valid exactly for a brightness up to 100 |
| LightingPolicy.DynamicConfirmationIsExact | kernel/asense_rgb_policy.h:104-129 | a dynamic request is confirmed exactly by an identical readback, under every flag combination |
| LightingPolicy.ReadOnlyRecords | kernel/asense_rgb_policy.h:84-102 | what may be read but not written is a stale static record or the black boot record, both of bounded brightness |
| LightingPolicy.CheckZonesMatch | kernel/asense_rgb_policy.h:131-148 | the nested comparison decides equality of brightness and of the visible zones |
| LightingPolicy.TakenIsConfirmed | kernel/asense_rgb_policy.h:104-129 | a record that the firmware took is always confirmed, strictly so unless the machine shadows the static colour |
| LightingPolicy.ColorsStayVisible | kernel/asense_rgb.c:998-1027 | a record made from the visible colours shows those colours again |
| LightingPolicy.CanonicalIsWritable | kernel/asense_rgb.c:1052-1068 | the record kept for a rollback is write-valid for everything that may be read |
| LightingDriver.TransactionIsWritable | kernel/asense_rgb.c:1189-1239 | whatever part of a static transaction was made, its effect records are write-valid |
| LightingDriver.TransactionShape | kernel/asense_rgb.c:1189-1239 | poll and enable first where the machine needs it, then the colour of each zone in order, and the static record of the requested brightness last; with one global colour that record alone |
| LightingDriver.EffectRequestMeans | kernel/asense_rgb.c:1112-1127 | the seven numbers are mode, speed, brightness, direction, red, green and blue; any number over 255 is out of range |
| LightingDriver.ZonesRequestMeans | kernel/asense_rgb.c:1241-1287 | a request is accepted exactly for one colour of 24 bits per zone and a brightness up to 100; every zone has its own colour with red in the high byte, the others are black |
| LightingDriver.AsenseRgb.ReadRgbState | kernel/asense_rgb.c:998-1027 | honest firmware is read as the record and colours it shows, the global static colour included |
| LightingDriver.AsenseRgb.SnapshotRgbState | kernel/asense_rgb.c:1052-1068 | a snapshot is write-valid and of bounded brightness, whatever was read, and writes nothing |
| LightingDriver.AsenseRgb.WriteZones | kernel/asense_rgb.c:1189-1239 | the writes are a prefix of preamble, zones and record; success on honest firmware means the record reads back |
| LightingDriver.AsenseRgb.EffectStore | kernel/asense_rgb.c:1100-1146 | a refused request or a snapshot that cannot be taken (no zones, or an unreadable record on honest firmware) changes nothing and fails; success: the request is the one record written, reads back and is the new cache; failure after the snapshot: driver state unchanged, the request and then the record of the snapshot are the two records written and, if the latter took, the canonical snapshot is shown again; faithful firmware succeeds if and only if the snapshot was taken and nothing shadows the colour or the colour shown is the requested one |
| LightingDriver.AsenseRgb.ZonesStore | kernel/asense_rgb.c:1289-1331 | without a snapshot nothing changes and the store fails; after it the log holds the writes of the request, which stop early only at one that did not take, and on failure after them the zones of the snapshot and its record, so the canonical old state returns when those took, as they do on faithful firmware; success commits the readback; faithful firmware succeeds if and only if the record is readable, the request valid, and the machine shows all its zones (with one global static colour: black beyond the first) |
| LightingDriver.AsenseRgb.PowerStore | kernel/asense_rgb.c:1351-1414 | without a snapshot nothing changes and the switch fails; after it the log holds the writes of the switch and, on failure, the zones of the snapshot and its record after them, so the canonical old state returns when those took, as they do on faithful firmware; success commits the readback; the brightness of a lit keyboard that is switched off is remembered, also on failure, and switching on keeps a brightness or uses the remembered one; on faithful firmware the switch succeeds if and only if the state can be read and is either writable or shows every colour of its static replacement, and then the switched record is shown |
| LightingDriver.FailedSwitchRemembers | kernel/asense_rgb.c:1351-1414 | a run in which a failed switch changes the remembered brightness from 40 to 60 |
| LightingDriver.AsenseRgb.RollBack | kernel/asense_rgb.c:1323-1328 | the zones of the snapshot are written first and its record after them however that ended; only write-valid records are replayed, and if all took, record and zones of the snapshot are back |
| LightingDriver.AsenseRgb.Probe | kernel/asense_rgb.c:2310-2334 | discovery writes nothing, caches only write-valid records and always leaves a brightness to switch on with |
| LightingDriver.AsenseRgb.Resume | kernel/asense_rgb.c:2037-2075 | resume writes at most the cached record or the static transaction of the cached zones; success means that what it wrote reads back; failure keeps the cache; faithful firmware always shows the cached dynamic record, or all cached colours and their brightness, again |
| LightingDriver.RunDriver | kernel/asense_rgb.c:1100-1414 | in every run of probes, stores, rollbacks and resumes over arbitrary answers, every record written is write-valid |
| LightingDriver.PowerCycle | kernel/asense_rgb.c:1351-1414 | on faithful firmware off and on restores mode, brightness and all visible colours, and a dynamic record completely, for every flag combination |
| NvidiaOffsets.OffsetDevice.Snapshot | src/nvidia.rs:1449-1459 | a snapshot describes every P-state truly, in order |
| NvidiaOffsets.OffsetDevice.CheckTargets | src/nvidia.rs:1479-1497 | the validation passes exactly for requests on known P-states within their limits, and its error names a request that is not |
| NvidiaOffsets.OffsetDevice.WriteTargets | src/nvidia.rs:1499-1533 | the writes are those the snapshot differs from, in order, up to the first failure; every accepted one is remembered with its old value; without contradictory requests all hold |
| NvidiaOffsets.OffsetDevice.ConfirmTargets | src/nvidia.rs:1535-1567 | the final check passes exactly when every request holds |
| NvidiaOffsets.OffsetDevice.RollbackAfterFailure | src/nvidia.rs:1571-1602 | the mutations are undone newest first; without failures every offset is as before, otherwise every offset that may differ is named, each one named was written before, and each stands for a failure of the device during the rollback |
| NvidiaOffsets.OffsetDevice.ApplyOffsetTargets | src/nvidia.rs:1473-1569 | all or nothing: success means every target holds, no other offset moved and exactly the differing offsets were written in order; a failure after the first write means a beginning of those writes was followed by the undo of every accepted one, newest first, so every offset that differs or is named was written once more with its old value; any other error names its cause and leaves the device untouched; one failure of the device never leaves a request that does not contradict itself half done, and a device without failures succeeds if and only if the request is in range and does not contradict itself |
| NvidiaOffsets.OffsetDevice.ApplyUniformOffsets | src/nvidia.rs:1461-1471 | the same, rollback included, for one pair of offsets on every P-state |
| NvidiaOffsets.OffsetDevice.ApplyOemTurbo | src/nvidia.rs:1003-1008 | without authorization nothing at all happens; success means +100 and +200 MHz on every P-state; otherwise the outcomes of the uniform transaction; a device without failures succeeds exactly when authorized and in range |
| NvidiaOffsets.OffsetDevice.ResetOemOffsets | src/nvidia.rs:1010-1014 | the same for the reset, which means 0 MHz on every P-state |
| NvidiaOffsets.OffsetDevice.RestoreOffsets | src/nvidia.rs:1016-1039 | without authorization nothing at all happens; success needs a snapshot of every P-state and puts the recorded offsets back; a failed transaction is rolled back like the others |
| NvidiaOffsets.OffsetDevice.TurboAndBack | src/nvidia.rs:1003-1039 | restoring the snapshot of a Turbo transaction brings back every offset, and a device without failures never refuses it |
| NvidiaOffsets.RequestsMeanTargets | src/nvidia.rs:1479-1512 | the requests are exactly the two offsets of every target |
| NvidiaOffsets.RequestsAt | src/nvidia.rs:1499-1504 | they come target by target, core before memory |
| NvidiaOffsets.PlannedIff | src/nvidia.rs:1504-1508 | the writes of a request list are exactly the requests for another value than the snapshot shows |
| NvidiaOffsets.PlannedInOrder | src/nvidia.rs:1500-1512 | and they keep the order of the requests |
| NvidiaOffsets.UndoAt | src/nvidia.rs:1577-1592 | each mutation is undone once, with its old value, in reverse order |
| NvidiaOffsets.OffsetDevice.RevertedIsWritten | src/nvidia.rs:1571-1602 | after a rollback every offset that differs from the snapshot or is named was written once more with its old value |
| NvidiaOffsets.ConflictingTargetsNeverHold | src/nvidia.rs:1539-1566 | targets that want different values of one offset hold on no device |
| NvidiaMarker.RunKeepsInv | src/daemon.rs:401-515 | at most one actor is in a locked phase, and it is the holder of the lock |
| NvidiaMarker.VerifiedHolds | src/daemon.rs:433-451 | an actor about to remove the marker verified profile and GPU in the same hold of the lock, and no marker was recorded since |
| NvidiaMarker.MarkerGoesAfterVerification | src/daemon.rs:401-515 | on the reference model a marker disappears only by such an actor, in every interleaving with processes that may die |
| NvidiaMarker.MarkerIsNotLost | src/daemon.rs:412-430 | a recorded marker that is gone was followed by a verification |
| NvidiaMarker.PollerClears | src/daemon.rs:484-515 | while the lock is free, one undisturbed poller clears the marker |
| HidItems.TokeniseSerialise | src/passive_hid.rs:589-611 | cutting a serialised item list gives the list back |
| HidItems.SerialiseTokenise | src/passive_hid.rs:589-611 | the items and the bytes after them make up the input; what is left is nothing, a long item or a cut item |
| HidItems.DigitsOf | src/passive_hid.rs:745-749 | the byte at place i of an item is the digit of 256 to the i of its value |
| HidDescriptor.StepAgrees | src/passive_hid.rs:612-701 | at every position the parser's step with its stacks is the one found by looking back without stacks, errors included |
| HidDescriptor.FoldAgrees | src/passive_hid.rs:589-701 | the parser reaches a position exactly if every item before it is legal, and then knows what looking back finds |
| HidDescriptor.PopRestoresPush | src/passive_hid.rs:630-640 | Push and Pop are brackets: the matching Pop restores the global state of its Push, whatever stands between |
| HidDescriptor.AcceptedIff | src/passive_hid.rs:579-734 | a descriptor parses if and only if it is whole short items, each legal, both nestings closed, at most 64 reports of at most 4096 bytes |
| HidDescriptor.FirstDefectDecides | src/passive_hid.rs:589-701 | the first illegal item decides the error class |
| HidDescriptor.ReportsAreExact | src/passive_hid.rs:703-724 | the reports are exactly the IDs with a Feature item, ascending, each the least whole number of bytes for its declared bits plus one for a numbered report, 1..=4096 |
| HidDescriptor.ApplicationUsageIsShared | src/passive_hid.rs:725-729 | an application usage is reported if and only if there is a Feature item and that usage encloses all of them |
| HidDescriptor.FirstUsageOwnsIff | src/passive_hid.rs:641-660 | the first Usage since the last Main item owns what follows if and only if it brings a page of its own or fits a current one, or no later Usage does |
| HidDescriptor.SecondUsageOwns | src/passive_hid.rs:641-660 | an item list whose second Usage owns the collection |
| HidDescriptor.SecondUsageIsReported | src/passive_hid.rs:579-734 | the bytes of that list parse, and the reported application usage is the second one |
| HidDescriptor.FieldBitsFit | src/passive_hid.rs:667-686 | size times count never leaves 64 bits; only their sum can |
| HidDescriptor.ParsingSerialisedItems | src/passive_hid.rs:579-734 | parsing the serialisation of any well-formed items is folding them |
| HidDescriptor.OnwardIsFold | src/passive_hid.rs:589-701 | going on item by item equals cutting first and folding then |
| HidDescriptor.DescriptorParser.TakeGlobalItem | src/passive_hid.rs:613-640 | the in-place update of a Global item is the fold's step |
| HidDescriptor.DescriptorParser.TakeMainItem | src/passive_hid.rs:645-698 | the in-place update of a Main item is the fold's step |
| HidDescriptor.DescriptorParser.Conclude | src/passive_hid.rs:703-733 | the geometry loop gives the fold's reports and usage, or its error |
| HidDescriptor.ParseReportDescriptor | src/passive_hid.rs:579-734 | the byte loop returns what cutting into items and folding means, for every input |
| DescriptorBytes.PageSizeAndCount | src/passive_hid.rs:579-749 | for every page, usage, size and count byte of a small descriptor: the little-endian page and usage and one report of size times count bits come out, or the error that is due |
| DescriptorBytes.NumberedReport | src/passive_hid.rs:579-749 | for every byte of a descriptor with a four-byte Usage, a Report ID and a count between Push and Pop, and Feature items inside and after: the upper half of the Usage overrides the page, the numbered report has one byte more, and the Pop brings back count and ID |
| SortedMerge.DedupIsStrict | src/passive_hid.rs:186-204 | merging neighbours of a sorted list leaves strictly increasing keys |
| SortedMerge.DedupKeepsFirsts | src/passive_hid.rs:201-204 | merging keeps exactly the first element of every key |
| SortedMerge.LexDecides | src/passive_hid.rs:251-259 | the first difference decides the comparison, and a beginning comes before the whole |
| HidInventory.A1IsValid | src/passive_hid.rs:466-505 | a parsed A1 payload passes validation, is shown in hexadecimal, and its targets are exactly the declared ones, each once |
| HidInventory.CollectedIsValid | src/passive_hid.rs:207-248 | whatever a function answers, its record passes validation |
| HidInventory.SeenIsCollected | src/passive_hid.rs:207-248 | a function whose descriptor declares report A1 and which answers it well is recorded with descriptor, hash, requested length, payload and exactly its targets |
| HidInventory.GatherIsComplete | src/passive_hid.rs:166-184 | none of the first eight allow-listed functions is left out |
| HidInventory.InventoryIsValid | src/passive_hid.rs:186-204 | merging valid records in any correct sort order gives a bounded, strictly sorted, valid inventory |
| HidInventory.BestEvidenceIsKept | src/passive_hid.rs:186-204 | every collected identity is kept exactly once, by a record that no other with that identity precedes or betters |
| HidInventory.KeyIff | src/passive_hid.rs:251-266 | two records are merged exactly when role, vendor, product, usage page, usage and descriptor hash are equal |
| HidInventory.BetterIsKept | src/passive_hid.rs:268-291 | a descriptor that was seen is kept over one that was not, and among equal descriptors a payload that was seen |
| HidInventory.SeenPayloadIsKept | src/passive_hid.rs:186-204 | a payload that any function of an identity showed is not lost: the record kept for that identity shows one |
| HidInventory.NumberingDoesNotMatter | src/passive_hid.rs:186-204 | collecting the same records in another order keeps records with the same identity, evidence, payload and driver |
| HidInventory.InventoryPassesValidation | src/passive_hid.rs:144-205 | every collected inventory passes the receiver's check, error numbers and hexadecimal payloads included (src/passive_hid.rs:778-885) |
| Utf8.DecodeEncode | src/daemon.rs:125-129 | every string survives encoding and strict decoding |
| Utf8.EncodeDecode | src/daemon.rs:125-129 | only encodings decode |
| Utf8.CharBytes | src/daemon.rs:1373-1381 | a character takes one to four bytes by its code point, and the payload bits of these bytes are the code point |
| ByteStream.LineInChunk | src/daemon.rs:95-97 | the first newline of a chunk is that of the stream, if the chunk reaches so far |
| CommandFraming.FramesSplit | src/daemon.rs:78-112 | the frames and the rest make up the stream: whole commands of legal size, then nothing, an unfinished command, or one that is too long |
| CommandFraming.SplitIsUnique | src/daemon.rs:78-112 | nothing else splits the stream so |
| CommandFraming.CommandDecoder.Push | src/daemon.rs:114-123 | pending never exceeds 192 bytes; too much clears it |
| CommandFraming.CommandDecoder.Read | src/daemon.rs:78-112 | one read delivers the next frame of all undelivered bytes whatever the chunks; a time-out loses nothing; an unfinished command is never delivered; only a reader that times out or fails keeps it waiting |
| CommandFraming.ReadAll | src/daemon.rs:635-690 | with time-outs anywhere, the commands read so far are the first ones of the stream and the rest is still to come; more calls than time-outs and bytes reach its end |
| ResponseLine.SanitizeResponsePayload | src/daemon.rs:1370-1384 | the result is the longest cleaned beginning of the payload that fits |
| ResponseLine.SanitisedIsSafe | src/daemon.rs:1370-1384 | it has no control character, no newline byte and at most 32764 bytes |
| ResponseLine.SanitisedCharacters | src/daemon.rs:1370-1384 | line ends become spaces, other control characters question marks, and every other character stays |
| ResponseLine.CleanPayloadIsKept | src/daemon.rs:1370-1384 | a clean payload that fits is sent unchanged |
| ResponseLine.LineIsOneLine | src/daemon.rs:1357-1368 | any response is one line of at most 32768 bytes |
| ResponseLine.ParseLine | src/control.rs:467-482 | the client recovers exactly the trimmed payload, for success and for rejection |
| ResponseLine.ReadResponseLine | src/control.rs:388-465 | under any chunking one read takes exactly one line, an over-long one included, and leaves the stream at the next line; it reports a time-out or a failure only if there was one |
| ResponseLine.LineArrives | src/control.rs:388-465 | what the daemon writes is what the client's read finds, and what comes later is left |
| ResponseLine.Exchange | src/control.rs:375-386 | a response over the wire is recovered trimmed and sanitised, always so if the reader neither times out nor fails |
| Text.TrimAfterTrimEnd | src/control.rs:467-482 | the two ends of a string are trimmed independently |
| Text.WordsJoin | src/daemon.rs:870-870 | splitting at white space undoes joining words |
| Text.SplitJoin | src/daemon.rs:1262-1271 | splitting at a separator undoes joining |
| Text.ParsePrint | src/daemon.rs:1303-1307 | a printed number of the type parses to itself, decimal and hexadecimal |
| Text.ParseHexColor | src/daemon.rs:1309-1318 | a printed colour parses to itself |
| ControlCommands.ParseEncode | src/control.rs:231-300 | every FAN MANUAL, LIGHTING APPLY and REAR_LOGO request that the client sends parses in the daemon to the same request |
| ControlCommands.RequestReachesTheDaemon | src/control.rs:375-386 | and as bytes it is the next frame the daemon decodes, within 192 bytes |
| ControlCommands.ParsableIff | src/daemon.rs:920-930 | a request is parsed from some line if and only if its numbers are in range, its device is a word and it has at most 16 zones |
| CrossChecks.FanManualLine | src/control.rs:231-237 | FAN MANUAL 40 70 is the line for 40 percent on the processor and 70 on the graphics fan, on both sides |
| CrossChecks.PercentagesAgree | src/daemon.rs:1320-1328 | the daemon parses exactly the percentages that the hardware accepts |
| ProfileReceipt.ParsedIsConsistent | src/control.rs:647-720 | the parser yields consistent receipts only |
| ProfileReceipt.RoundTripIff | src/control.rs:647-776 | parsing undoes printing if and only if the receipt is consistent |
| LightingStateText.ParseLightingState | src/app.rs:4679-4735 | the field loop accepts exactly complete lists of valid fields, and the last field of a kind counts |
| LightingStateText.ParsedIsInRange | src/app.rs:4679-4752 | whatever is accepted is in the driver's ranges |
| LightingStateText.RoundTripIff | src/lighting.rs:379-397 | the window shows exactly the printed state when it is in range and refuses it otherwise |
| LightingStateText.ShowIsInjective | src/app.rs:4747-4752 | packing colours into one number keeps states apart |
| CrossChecks.ReadableIsShown | src/app.rs:4679-4752 | every record that the driver may read is one that the window shows |
| RawDecoders.UsbDecodes | src/passive_diagnostics.rs:1273-1293 | any text decodes exactly if it is sixteen digits of a word that the driver's reader accepts, with the value it shows |
| RawDecoders.TimeoutDecodes | src/passive_diagnostics.rs:1295-1302 | the same for the keyboard time-out |
| RawDecoders.BootSoundDecodes | src/passive_diagnostics.rs:1304-1311 | the same for the boot sound |
| RawDecoders.LcdDecodes | src/passive_diagnostics.rs:1313-1321 | the same for the LCD override |
| RawDecoders.UsbAgrees | kernel/asense_rgb.c:685-707 | for every word, raw file and text file decode to one value exactly when the reader accepts the word |
| RawDecoders.TimeoutAgrees | kernel/asense_rgb.c:728-746 | the same for the keyboard time-out |
| RawDecoders.BootSoundAgrees | kernel/asense_rgb.c:760-775 | the same for the boot sound |
| RawDecoders.LcdAgrees | kernel/asense_rgb.c:790-807 | the same for the LCD override |
| RawDecoders.LogoAgrees | kernel/asense_rgb.c:823-839 | the same for the eight bytes of the rear logo |
| RawDecoders.BatteryAgrees | kernel/asense_rgb.c:633-654 | both battery fields of every record: absent exactly where the driver reports them unsupported, and the same value otherwise |
| RawDecoders.DocumentedWords | kernel/asense_rgb.c:685-807 | the documented words of USB charging, an uninitialized time-out and a packed LCD status read as documented |
| ResizeState.AspectResizeState.ObserveResize | src/app.rs:483-523 | acknowledgement, intermediate size, override and new request each change exactly the fields they should |
| ResizeState.AspectResizeState.ExpirePendingCorrection | src/app.rs:541-564 | another generation changes nothing; the own one settles the correction at the actual size |
| ResizeState.AspectResizeState.FinishNativeDrag | src/app.rs:566-585 | a drag ends once; a pending correction is the final snap, otherwise the last size waits |
| ResizeState.AspectResizeState.CorrectWhenIdle | src/app.rs:606-645 | the idle callback consumes the waiting size and begins a correction unless it is close |
| ResizeState.AspectResizeState.SetWindowMode | src/app.rs:667-695 | a mode change drops the waiting size and the drag and begins a correction that ignores intermediate sizes |
| ResizeState.StepKeepsInv | src/app.rs:483-690 | one idle callback is outstanding exactly when the flag says so, waiting needs one, pending excludes waiting and has its time-out armed, finalize belongs to pending |
| ResizeState.RunKeepsInv | src/app.rs:483-690 | in every run of window events and callbacks |
| ResizeState.TimeoutActsIff | src/app.rs:541-564 | a time-out changes the state if and only if a correction of its generation is pending |
| ResizeState.OwnTimeoutClears | src/app.rs:541-603 | a pending correction's own time-out is armed and clears it |
| ResizeState.StaleTimeout | src/app.rs:525-564 | a stale time-out changes nothing unless a multiple of 2^64 corrections began after its own |
| ResizeState.WrappedTimeoutHits | src/app.rs:525-539 | a run in which the wrapped generation is hit |
| ResizeState.EndedMeansAccepted | src/app.rs:483-564 | whatever ends a pending correction reports the size that is accepted from then on |
| ResizeState.DragEndsOnce | src/app.rs:566-585 | a second report of the end of a drag changes nothing |
| ResizeState.CloseIff | src/app.rs:393-395 | two sizes are close up to two physical pixels either way |
| ResizeState.RequestWaits | src/app.rs:483-523 | a new size waits for exactly one idle callback |
| ResizeState.IdleCorrects | src/app.rs:606-645 | that callback accepts a close target or begins a correction whose time-out is armed and which the next size of the window ends |
| ResizeState.ModeChangeHolds | src/app.rs:667-695 | after a mode change no size but one close to its target ends the correction or changes anything |
| ResizeState.DragEndIsHonoured | src/app.rs:566-585 | the last size of a drag waits for its correction, at once or when the one under way has ended |
| ResizeState.FinalSnapFollows | src/app.rs:483-564 | and when that one ends anywhere but close to its target, the size it ended with waits for its idle callback |
| ResizeState.CallbacksRunOut | src/app.rs:588-645 | callbacks alone never go on for ever |
| ResizeState.QuietMeansSettled | src/app.rs:588-645 | when none is left, nothing is pending, waiting or to be finalized |
| ProfileSync.AppState.ReconcileProfileTelemetry | src/app.rs:1967-2041 | one sample changes target, grace, debounce, profile, health and status exactly as specified |
| ProfileSync.AppState.ApplyTelemetry | src/app.rs:2099-2131 | the same for the whole sample, with and without a profile, on either kind of machine |
| ProfileSync.AppState.ProfileApplied | src/app.rs:1733-1752 | a verified profile is shown under its raw name and becomes the target with a full grace |
| ProfileSync.AppliedStarts | src/app.rs:1733-1752 | a verified known profile starts a target with its full grace, shown and healthy |
| ProfileSync.TargetIsKept | src/app.rs:1746-1750 | after a verified apply the window shows the target, under its raw name, as long as the target is set, and the grace counts the processed samples |
| ProfileSync.ThirteenSamplesClear | src/app.rs:1999-2008 | thirteen processed samples clear the target at the latest |
| ProfileSync.TwelveSamplesKeep | src/app.rs:1999-2008 | and not earlier: twelve samples that lag behind leave the target set |
| ProfileSync.ClearsIff | src/app.rs:1988-2008 | a step clears the target if and only if it confirms it or the grace is used up |
| ProfileSync.WarningNeedsTwo | src/app.rs:2009-2028 | a warning is raised by a mismatching sample only if an earlier one mismatched with no reassurance and no new apply between |
| ProfileSync.FirstMismatchIsQuiet | src/app.rs:2009-2020 | a first mismatch is counted and changes neither profile nor health nor status |
| ProfileSync.TwoMismatchesWarn | src/app.rs:2009-2028 | and without a target it is raised whenever that happens |
| ProfileSync.ReassuranceWithdraws | src/app.rs:2029-2040 | one matching or offset-less sample withdraws it |
| CrossChecks.ConfirmedIff | src/app.rs:1979-1989 | telemetry confirms a profile exactly when every P-state has its offsets, 100 and 200 MHz for Turbo and none otherwise |
| CrossChecks.UnevenIsUnread | src/telemetry.rs:557-579 | telemetry neither confirms nor contradicts a profile exactly when there is no P-state or two of them differ |
| CrossChecks.SwitchAndObserve | src/nvidia.rs:1003-1014 | after a successful Turbo or reset transaction telemetry confirms that kind of profile and contradicts the other |

## Left out

- Sysfs, hwmon and DMI discovery, file reading, NVML loading, ioctls, sockets, peer credentials and socket activation: foreign calls, replaced by abstract devices, byte streams and locks.
- Poisoned locks and panics of a client thread, which the source turns into errors or an aborted thread.
- Protocol negotiation: handshakes and undecodable commands are answers that may come at any time and that touch neither fans nor lease.
- Fan RPM channels and the file layout of the fan backends; a Manual setting is told whether both temperatures are readable.
- The missing-speed error path of Gaming-WMI without Manual support: Manual is refused before it could be reached.
- Splitting of long source functions: the sequences of set_manual, asense_write_zones and power_store are one function each there and several methods here.
- The descriptor parser's locals are the fields of an object here, one method for each kind of item.
- src/mutation_lock.rs and src/gui_instance.rs: the lock is assumed to exclude.
- Client admission (src/daemon.rs:230-256): a counter that would only add easy members.
- src/tuning.rs, src/platform.rs and src/telemetry.rs: a profile transaction is refused, leaves the GPU unverified or verifies it; of telemetry only the pair of offsets it reports is modelled.
- JSON capabilities, diagnostics and the lighting cache of the daemon; SHA-256 is any function to 64 hexadecimal digits.
- C number parsing, sysfs visibility and the quirk table: stores take parsed numbers, flags and zone mask as parameters.
- The rear-logo power gate (kernel/asense_rgb.c:841-857): it shares the effect method but is no keyboard record.
- The uevent text of a HID function: its three numbers are parameters; its privacy-safe name and interface are constants.
- Commands other than the three that carry numbers and colours are words that parse in one comparison.
- Deadlines and clocks: a time-out may come at any moment, and a reader is interrupted or times out finitely often.
- Window geometry in floating point: the target of a correction is any size.
- Sorting and merging of the inventory are the library's and appear as relations and functions; the uevent and driver link are read elsewhere.
- Diagnostic errors: of stage, class and number, only the number is validated and modelled.
- Everything of the window that is not profile or resize state, except that it may change health and status at any time.
- Sizes, megahertz values and counters are unbounded where the source neither wraps nor saturates them.
