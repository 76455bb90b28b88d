# Verified models of a bounded IEC 61850 server stack

The stack serves MMS from fixed buffers, with no heap, and keeps promises that are easy
to state and hard to keep: from one restart to the next no buffered report is delivered
twice or lost without being counted, a checkpoint torn by a power cut never yields a
mixture, only the client that selected an object may operate it, and bytes are framed
and reassembled the same however they arrive. This project models that behaviour in
Dafny and proves those promises over all inputs and all runs; where one of them fails,
it gives the run and the exact condition.

`dafny verify dfyconfig.toml` checks the whole project.

| module | what it models |
|---|---|
| `BrcbLog`, `BrcbHistory`, `BrcbSchedule`, `BrcbPlans`, `BrcbDue` | a buffered report control block as a window on a log: what each operation does, what every run keeps, what an event window collects, when a capture plan is still good, when a report falls due |
| `BrcbRuntime`, `UnevenRing` | the same control block as the ring of slots the code has, refining the log; a ring whose own image is refused |
| `CheckpointRecord`, `CrashSafety` | the two-bank checkpoint store and what survives an interruption at any octet |
| `CheckpointDevice`, `Checkpointing` | the storage backend and the store's loops over it, up to checkpoint and restore of a control block |
| `StateImage`, `ImageExact`, `StateCodec`, `LegacyImage` | the recovery image in both versions: format, which octets are one, in-place encoder and decoder, downgrade |
| `DeviceLife`, `DeviceRun` | whole lives of a device: operations, checkpoints cut anywhere, restarts; the store's code as steps of such lives |
| `Reservation`, `ReservationControl` | who may use the control block and when; delivery by poll and commit under any interleaving of clients |
| `GuardedControl`, `GuardedPlanner` | select-before-operate for one planner |
| `SharedControl`, `SharedAnswers`, `SharedControlBinding`, `SelectionSteps` | select-before-operate shared by several associations: whole calls, every answer told from the record of calls, their code, and the same calls at the grain of atomic accesses |
| `ConnectionLifecycle`, `ServedReports` | connection phases and the report of an association's end; connections and the control block they serve together |
| `Tpkt`, `Segmentation` | framing, the stall gate, COTP segmentation and reassembly |
| `WriteRequest` | the nested BER Write request and a reader for it |
| `Directory` | GetNameList paging over the virtual hierarchy |
| `RcbServer`, `RcbFailover`, `RcbTrial` | the dynamic control block trial: every server it may meet, the pre-claim search, the lifecycle and its cleanup |
| `ModelComparison` | the comparator of two model projections |
| `Octets`, `Crc`, `Fnv` | octet fields and the two checksums |

Where a source file changes state step by step the model is a class or a method with
loops, proved against a specification function; the theorems over runs are about those
functions. Clocks, authorization, process callbacks, network replies, report encoding
and member reads are parameters, so every theorem holds for all of their answers.

## What turned out false, and exactly when it holds

- A restored image gives back the same window if and only if every report fits the slot
  it lands in (`StateImage.ImageRoundTrip`). Slots of one size always do
  (`StateCodec.EqualSlotsFit`); three captures into slots of one and two octets leave a
  control block that refuses its own image (`UnevenRing.OwnImageRefused`). TimeOfEntry is
  never part of an image, although the retained entry has one.
- EntryIDs are not unique across a restart: they are given out again if and only if
  something was captured between the checkpoint and the loss of power, and something is
  captured afterwards (`DeviceLife.RestartReusesEntryIdsExactly`, `TwoReportsOneEntryId`).
- Reports are not conserved over a restart. After a completed checkpoint and a run
  without cursor moves, purge or restore, a report already settled is up for delivery
  again if and only if the run settled one that the saved window had yet to deliver
  (`DeviceLife.RepeatsExactly`, witness `CommittedComesBack`). One that was captured and
  never delivered is gone, with no drop counted and no gap raised, if and only if the run
  captured any and, when the power went, had one still to deliver or had evicted one of
  those (`VanishesExactly`, witness `CapturedVanishes`). `RestartRepeatsAndLosesExactly`
  says which, report by report.
- A commit is that of the report polled as long as nothing is restored in between and
  fewer than 2^64 - 1 reports follow it (`Reservation.CommittedIsStaged`). With a restore
  in between, any other report under the same EntryID can be committed without ever
  having been sent (`RestoreCommitsUnsent`).
- A plan outlived by other operations is not always refused: it is current if and only if
  its purpose is still wanted, a capture would evict as before, and every counter it
  carries has gone full circle (`BrcbPlans.PlanCurrentExactly`,
  `BrcbHistory.RevisionWrapsAround`).
- A definition mismatch is refused if and only if the two definitions differ in more than
  the integrity period and their hashed texts do not collide, which texts one octet apart
  never do (`StateImage.ImageAcceptedExactly`, `HashedTextTellsApart`); definitions that
  differ only in the integrity period take each other's images
  (`FingerprintSkipsIntegrityPeriod`).
- An accepted Oper does not always carry what was selected: beside the guards it takes
  the selected plain fields, and a value and an origin that equal the selected ones or
  collide with them under the planner's 64-bit hash; with at most one octet each they are
  always the selected ones (`GuardedControl.AcceptedOperateIsSelectedExactly`). Two texts
  of ten octets do collide, so a command can be selected for one originator and operated
  for another (`Fnv.TextsCollide`, `GuardedControl.OtherOriginOperated`), and likewise
  with another value (`OtherValueOperated`).
- Chunking of a TPKT stream matters if and only if it has a bad header with a good frame
  in front of it; then every prefix of the good frames is what some cut hands out
  (`Tpkt.ChunkingMattersExactly`, `AnyPrefixOfBadStream`, `BadStreamsDependOnChunking`).
- CommandTermination is owed per association, so two associations can owe one for the
  same object (`SharedControl.TerminationsArePerAssociation`).
- A shared selection can be taken over exactly from its timeout on if and only if the
  deadline does not pass the end of the 64-bit clock
  (`SharedControl.TakeoverExactlyAtTimeout`).
- Whole-call exclusivity does not survive interleaving at the grain of atomic accesses
  (`SelectionSteps.TwoOpersPastTheCheck`). An Oper past its owner check belongs to the
  owner if and only if no other worker has evicted it since the check
  (`AppliedOperWasVouched`), so two at once need such an eviction
  (`TwoOpersNeedAnEviction`). A late clear can make a selection permanent
  (`LateClearMakesSelectionPermanent`); an owner has the deadline of its grant unless
  another association has stored one since (`OwnerHasItsDeadline`). The shared value is
  the one the process was given last, whenever no worker is between its callback and its
  store, if no two ever were there together (`ValueIsProcess`), so in every run in which
  no Oper past its owner check is overtaken by an eviction (`InStepUnlessOvertaken`). Two
  Opers that overlap there can leave the two apart for good (`ProcessAndValuePart`).
  No service waits for another, it ends within sixteen accesses of its own
  (`ServiceEnds`), and a select can use up all of them and be refused with the object
  free (`OutrunFourTimes`).
- Reporting outlives a fault of its owner's connection (`ServedReports.FaultKeepsReporting`),
  and ends with the close, reset or disconnect that follows (`EndDisables`).
- An object is listed under its own name if and only if that does not end in `$` or
  another item continues it with `$` (`Directory.ObjectListedExactly`).
- The trial can delete a DataSet that its own binding still names: once the bounded event
  log has dropped the record of the binding, or where a reply hid that the binding had
  taken effect, and in no other case (`RcbTrial.Trial`). Both happen
  (`ForgottenBinding`, `HiddenBinding`); with a server that refuses only the unbinding,
  exactly from as many reports on as the log has room for behind the binding's record.
- The trial can clear a binding that others wrote: only at its normal end, never in the
  cleanup after a failure, and only if the server showed no DatSet of the block at
  discovery and this run's DataSet name at start(), though nothing was bound in between
  (`RcbTrial.Trial`, `BestEffortCleanup`). So it never happens where reads show a DatSet
  exactly if the block is bound. It does where a server shows the DatSet only while the
  DataSet it names exists, and an earlier run has left the block bound to one that is
  gone (`ForeignBindingCleared`).
- A request with an invoke id of 128 or more is built but does not read back
  (`WriteRequest.WriteRoundTrip`), and requests of 128 or 129 octets read but are not
  built (`LongerDecodes`).

## Model

| member | source | states |
|---|---|---|
| BrcbHistory.StepMoves | src/mms/static_brcb_runtime.cpp:237-741 | every operation is one of stay, admit, deliver, place the cursor, wipe; a refused one leaves the window alone |
| BrcbHistory.RunKeepsWindow | src/mms/static_brcb_runtime.cpp:428-741 | after every run from any restorable state the window is exactly the newest min(capacity, captured) reports since the last purge or restore, EntryIDs consecutive; the drop counter counts the undelivered evictions and the gap is up exactly while one happened since the purge |
| BrcbHistory.EveryReportSettledOnce | src/mms/static_brcb_runtime.cpp:428-741 | in every run without manual cursor moves each report captured since the last purge or restore is delivered once, lost and counted once, or still queued, in order; what a restart does to reports is the matter of DeviceLife |
| BrcbHistory.CommittedIsPrefix | src/mms/static_brcb_runtime.cpp:645-662 | while no gap is up, the committed reports are a prefix of the captured ones |
| BrcbHistory.BumpCycle | src/mms/static_brcb_runtime.cpp:46-50 | a revision comes back exactly after a multiple of 2^32 - 1 bumps |
| BrcbHistory.RevisionCountsMoves | src/mms/static_brcb_runtime.cpp:428-741 | over every run the queue revision counts exactly the operations that moved the queue |
| BrcbHistory.StalePlanRefused | src/mms/static_brcb_runtime.cpp:428-460 | a plan outlived by a number of queue moves that is no multiple of 2^32 - 1 is refused and changes nothing |
| BrcbHistory.RevisionWrapsAround | src/mms/static_brcb_runtime.cpp:711-718 | after 2^32 - 1 rewinds the same plan is current again |
| BrcbHistory.FreshPlanCurrent | src/mms/static_brcb_runtime.cpp:387-426 | a plan just made is current |
| BrcbPlans.PlanCurrentExactly | src/mms/static_brcb_runtime.cpp:440-460 | after any run without a restore a plan is current if and only if it is still wanted, would evict as before, and revisions, EntryIDs and sequence numbers have all gone full circle |
| BrcbPlans.CapturesAreNumbered | src/mms/static_brcb_runtime.cpp:52-63 | the k-th report of a run gets the k-th EntryID and sequence number from where the run started |
| BrcbPlans.RevisionsCount | src/mms/static_brcb_runtime.cpp:237-625 | pending and schedule revision count exactly the operations that changed either |
| BrcbPlans.SameEntryIdExactly | src/mms/static_brcb_runtime.cpp:58-63 | reports of two runs from one saved window share an EntryID exactly if their positions differ by a multiple of 2^64 - 1 |
| BrcbPlans.WindowIsRecent | src/mms/static_brcb_runtime.cpp:428-741 | until something is restored the window is the newest part of what it held at first and what was captured since, numbered without a break |
| BrcbPlans.SameIdSameReport | src/mms/static_brcb_runtime.cpp:58-63 | with no restore and fewer than 2^64 - 1 reports after it, an EntryID in the window names the same report as before |
| BrcbSchedule.ExactAlways | src/mms/static_brcb_runtime.cpp:328-368 | in every reachable state the pending count is the number of members with a reason, and a window is open exactly when it is positive |
| BrcbSchedule.WindowCoalesces | src/mms/static_brcb_runtime.cpp:328-368 | after every run each member's pending reasons are exactly those it was notified for since the window was last cleared, and the window is due BufTm after the first of them |
| BrcbSchedule.CollectLists | src/mms/static_brcb_runtime.cpp:477-527 | a report lists exactly the selected members, once each, in order, with their values and reasons |
| BrcbSchedule.EventReportIsComplete | src/mms/static_brcb_runtime.cpp:428-560 | in every reachable state a current event plan whose members can be read reaches the encoder with exactly the notified members |
| BrcbSchedule.PendingEventSurvives | src/mms/static_brcb_runtime.cpp:237-625 | over every run that does not clear the window no pending event is lost or put off |
| BrcbSchedule.ClearsWhileEnabled | src/mms/static_brcb_runtime.cpp:237-625 | with reporting on, only an event report, switching off or a restore clears the window |
| BrcbSchedule.ProducesExactly | src/mms/static_brcb_runtime.cpp:462-560 | in a reachable state a plan gives the failure of the first member to report that cannot be read, or what the encoder makes of a report that lists exactly the members to report, with their values and reasons, never of an empty one |
| BrcbSchedule.CaptureAnswers | src/mms/static_brcb_runtime.cpp:428-625 | every answer to a capture; a refusal changes nothing, and a report stored is the last entry, with its EntryID, time, number and mark |
| BrcbDue.SettingsStand | src/mms/static_brcb_runtime.cpp:237-326 | after every run reporting is as last switched, off since a restore, and the settings are the last allowed ones that came while it was off |
| BrcbDue.NotifyAnswers | src/mms/static_brcb_runtime.cpp:328-368 | a notification is accepted, or refused for the first of three reasons, as the record of operations says |
| BrcbDue.InterrogationAnswers | src/mms/static_brcb_runtime.cpp:370-385 | the same for a request for an interrogation |
| BrcbDue.SettingAnswers | src/mms/static_brcb_runtime.cpp:257-326 | the same for new TrgOps, OptFlds and integrity period |
| BrcbDue.EventDueExactly | src/mms/static_brcb_runtime.cpp:387-426 | after every run from a cleared window, with reporting on and no interrogation pending, an event report is due if and only if the first notification since the window was cleared is BufTm old |
| BrcbDue.AlwaysTimed | src/mms/static_brcb_runtime.cpp:237-625 | while reporting is on an interrogation is pending exactly if one was accepted and neither reported nor dropped by a switch, and the integrity due time is a period after the last integrity report, or else after the first scan, since the switch |
| BrcbDue.DueExactly | src/mms/static_brcb_runtime.cpp:387-426 | after every run next_due has a plan exactly for what the record says is due: an interrogation, else a ripe event window, else an integrity report |
| BrcbDue.QuietUntilEnabled | src/mms/static_brcb_runtime.cpp:214-234 | after initialize nothing falls due in any run until reporting is first switched on; the buffer starts empty, without gap and at EntryID 1 |
| BrcbDue.RestoreLeaves | src/mms/static_brcb_state_codec.cpp:355-383 | after a restore the window is the loaded one, reporting is off, nothing is pending and the settings stay; a plan current before is refused, also once reporting is on again |
| BrcbRuntime.Initialize | src/mms/static_brcb_runtime.cpp:180-235 | a control block exactly if definition, member count and storage are acceptable, and then an empty log |
| BrcbRuntime.AcceptableExactly | src/mms/static_brcb_runtime.cpp:89-206 | which definitions are accepted, field by field |
| BrcbRuntime.Runtime.constructor | src/mms/static_brcb_runtime.cpp:213-234 | an empty log |
| BrcbRuntime.Runtime.Front | src/mms/static_brcb_runtime.cpp:627-643 | the entry at the cursor of the window the ring holds |
| BrcbRuntime.Runtime.CommitDelivery | src/mms/static_brcb_runtime.cpp:645-662 | refines the log's commit |
| BrcbRuntime.Runtime.FindEntry | src/mms/static_brcb_runtime.cpp:664-681 | the first window index with that EntryID |
| BrcbRuntime.Runtime.ReplayFrom | src/mms/static_brcb_runtime.cpp:683-695 | refines the log's cursor move to the entry |
| BrcbRuntime.Runtime.ResumeAfter | src/mms/static_brcb_runtime.cpp:697-709 | refines the log's cursor move past the entry |
| BrcbRuntime.Runtime.RewindToOldest | src/mms/static_brcb_runtime.cpp:711-718 | refines the log's move to the oldest entry |
| BrcbRuntime.Runtime.PurgeBuffer | src/mms/static_brcb_runtime.cpp:720-739 | refines the log's purge |
| BrcbRuntime.Runtime.SetEnabled | src/mms/static_brcb_runtime.cpp:237-255 | refines enabling with its schedule restart |
| BrcbRuntime.Runtime.SetTriggers | src/mms/static_brcb_runtime.cpp:283-305 | refines the TrgOps change: refused for bits that mean nothing and while enabled, a no-op when equal, otherwise a restart of the schedule |
| BrcbLog.TriggersTellApart | src/mms/static_brcb_runtime.cpp:18-25 | allowed TrgOps octets are told apart by their flags, so comparing flags is comparing octets |
| BrcbRuntime.Runtime.SetOptionalFields | src/mms/static_brcb_runtime.cpp:257-281 | refines the OptFlds change |
| BrcbRuntime.Runtime.SetIntegrityPeriod | src/mms/static_brcb_runtime.cpp:307-326 | refines the period change |
| BrcbRuntime.Runtime.Notify | src/mms/static_brcb_runtime.cpp:328-368 | refines the notice, error cases included |
| BrcbRuntime.Runtime.RequestGeneralInterrogation | src/mms/static_brcb_runtime.cpp:370-385 | refines the request |
| BrcbRuntime.Runtime.NextDue | src/mms/static_brcb_runtime.cpp:387-426 | refines the choice of the due report and its plan |
| BrcbRuntime.Runtime.Capture | src/mms/static_brcb_runtime.cpp:428-625 | refines capture, with eviction in place and every failure path; a failed or stale capture consumes no EntryID |
| CheckpointRecord.CompleteBankOffered | src/mms/static_brcb_checkpoint_store.cpp:135-233 | a completely written bank is believed, as exactly the record written |
| CheckpointRecord.TornFooter | src/mms/static_brcb_checkpoint_store.cpp:135-233 | a footer cut short is accepted only if the missing octets equal the erased ones |
| CheckpointRecord.TornBankOffered | src/mms/static_brcb_checkpoint_store.cpp:135-200 | a bank cut anywhere is believed only if it equals the whole one |
| CheckpointRecord.PartlyErasedOffersNothing | embedded/mms_brcb_persistence_hard_profile_smoke.cpp:139-150 | a bank erased by even one octet offers nothing |
| CheckpointRecord.OfferedExactly | src/mms/static_brcb_checkpoint_store.cpp:135-200 | a bank offers a record if and only if it holds header, payload and footer octet for octet as they are written |
| CheckpointRecord.NewerExactly | src/mms/static_brcb_checkpoint_store.cpp:88-95 | of two generations the one ahead by less than half the circle is newer |
| CheckpointRecord.CorruptionDetectedExactly | src/mms/static_brcb_checkpoint_store.cpp:135-200 | with one octet changed a bank offers nothing if the octet is of its header, payload or footer, and the same as before otherwise |
| CheckpointRecord.CorruptedFallsBack | src/mms/static_brcb_checkpoint_store.cpp:321-395 | a restore then believes what the other bank offers |
| CrashSafety.CorruptNewestFallsBack | embedded/mms_brcb_persistence_hard_profile_smoke.cpp:347-362 | an octet of the newest record changed: a restore believes what it believed before that checkpoint |
| CrashSafety.TargetBankAfter | src/mms/static_brcb_checkpoint_store.cpp:241-319 | an interrupted attempt leaves its bank as it was, silent, or holding the whole new record |
| CrashSafety.AttemptKeepsOrReplaces | src/mms/static_brcb_checkpoint_store.cpp:241-319 | one attempt keeps the newest record or replaces it by its own; success means the latter |
| CrashSafety.RestoreSeesLastAcknowledgedOrLater | embedded/mms_brcb_persistence_hard_profile_smoke.cpp:122-155 | over every run of attempts cut anywhere, from any storage, a restore sees what was there or the exact payload of the last acknowledged attempt or a later one |
| CrashSafety.EveryBankTraceable | src/mms/static_brcb_checkpoint_store.cpp:241-405 | over every run each bank offers nothing, what it offered first, or the whole payload of some attempt |
| CheckpointDevice.Storage.Write | embedded/mms_brcb_persistence_hard_profile_smoke.cpp:122-137 | the backend writes a prefix up to its budget and reports whether that was all |
| CheckpointDevice.Storage.Erase | embedded/mms_brcb_persistence_hard_profile_smoke.cpp:139-150 | the backend erases, possibly a prefix only |
| CheckpointDevice.InspectBank | src/mms/static_brcb_checkpoint_store.cpp:135-200 | reads a bank in chunks and judges it as the record specification does, or fails with the device |
| CheckpointDevice.ReadPayloadCrc | src/mms/static_brcb_checkpoint_store.cpp:109-133 | the checksum of a payload read in chunks is that of the whole |
| CheckpointDevice.BuildHeader | src/mms/static_brcb_checkpoint_store.cpp:202-218 | writes the header record in place |
| CheckpointDevice.BuildFooter | src/mms/static_brcb_checkpoint_store.cpp:220-233 | writes the footer record in place |
| CheckpointDevice.WriteRecord | src/mms/static_brcb_checkpoint_store.cpp:241-319 | erases, writes and syncs one bank; wherever it stops, the storage is one the crash model allows |
| Checkpointing.Store.Checkpoint | src/mms/static_brcb_checkpoint_store.cpp:241-319 | an attempt of the crash model with the image of the runtime as its payload, made if and only if the layout is valid and the image fits buffer and bank; acknowledged on storage that does not fail, and otherwise as the attempt was |
| Checkpointing.Store.Restore | src/mms/static_brcb_checkpoint_store.cpp:321-405 | installs the window of the record it loads, from the newest bank or, where that cannot be read, the other; any failure leaves the runtime as it was; where every read succeeds the status is exactly that of the newest record: none, too long for the buffer, refused, or taken |
| Checkpointing.RestoredWindowIsLastAcknowledgedOrLater | src/mms/static_brcb_checkpoint_store.cpp:241-405 | from erased storage, after any interrupted run, what is there to restore is the whole window saved by the last acknowledged attempt or a later one, taken back exactly if it fits the slots |
| DeviceLife.AlwaysLoadable | src/mms/static_brcb_state_codec.cpp:231-383 | over every life of operations, cut checkpoints and restarts, from any storage, the window is one that can be saved and taken back |
| DeviceLife.RestartGivesLastSavedOrLater | src/mms/static_brcb_checkpoint_store.cpp:241-405 | over every life the next restart comes up as the window of the last acknowledged checkpoint or a later one if it fits, and fresh only otherwise |
| DeviceLife.FallbackGivesSavedWindow | embedded/mms_brcb_checkpoint_fallback_hard_profile_smoke.cpp:68-132 | where only one bank can be read, a restart comes up as some whole saved window or fresh |
| DeviceLife.RestartReusesEntryIdsExactly | src/mms/static_brcb_state_codec.cpp:347-383 | EntryIDs are given out again if and only if reports were captured after the checkpoint and again after the restart |
| DeviceLife.TwoReportsOneEntryId | src/mms/static_brcb_state_codec.cpp:347-383 | from any such device, two different reports under one EntryID |
| DeviceLife.RestartRepeatsAndLosesExactly | src/mms/static_brcb_checkpoint_store.cpp:241-405 | after a completed checkpoint, a lost run and a restart: which reports are up for delivery again and which are gone, drop counter and gap being those saved |
| DeviceLife.RepeatsExactly | src/mms/static_brcb_checkpoint_store.cpp:241-405 | a settled report comes up again if and only if the lost run settled one the saved window had yet to deliver |
| DeviceLife.VanishesExactly | src/mms/static_brcb_checkpoint_store.cpp:241-405 | a report is gone uncounted if and only if the lost run captured any and still had one to deliver or had evicted one of them |
| DeviceLife.CommittedComesBack | src/mms/static_brcb_state_codec.cpp:347-383 | from any device with a report to deliver: checkpoint, commit, power loss, and it is next in line again |
| DeviceLife.CapturedVanishes | src/mms/static_brcb_state_codec.cpp:347-383 | from any device: checkpoint, capture, power loss, and the report is gone with no drop counted and no gap raised |
| DeviceRun.Boot | src/mms/static_brcb_checkpoint_store.cpp:321-405 | restoring through the store is a restart of a life; with readable storage and a buffer that fits, the one from the newest record |
| DeviceRun.Persist | src/mms/static_brcb_checkpoint_store.cpp:241-319 | checkpointing through the store is a save of a life, acknowledged exactly if its status is ok |
| Checkpointing.ErasedOffersNothing | src/mms/static_brcb_checkpoint_store.cpp:135-200 | erased storage offers nothing to restore |
| Crc.UpdateAppend | include/ariec61850/integrity/crc32.hpp:11-23 | the checksum state over a concatenation is the state over the parts in turn |
| Crc.UpdateChunk | include/ariec61850/integrity/crc32.hpp:11-24 | the byte and bit loops fold the register over the octets |
| Crc.OneOctetTellsApart | include/ariec61850/integrity/crc32.hpp:11-35 | texts that differ in one octet never have the same checksum |
| Crc.CheckValue | include/ariec61850/integrity/crc32.hpp:9-35 | the checksum of '123456789' is 0xCBF43926 |
| Fnv.HashBytes | src/control/guarded_control.cpp:64-74 | the loop computes 64-bit FNV-1a with wrap-around |
| Fnv.OneOctetTellsApart | src/control/guarded_control.cpp:64-74 | texts of one length that differ in one octet never have the same hash |
| Fnv.TextsCollide | src/control/guarded_control.cpp:64-74 | two texts of ten octets with one hash |
| StateImage.ImageRoundTrip | src/mms/static_brcb_state_codec.cpp:161-383 | a restored image gives the same entries, cursor, drop count, gap and next EntryID if and only if each entry fits its slot; otherwise it is refused |
| StateImage.LegacyRoundTrip | src/mms/static_brcb_state_codec.cpp:231-383 | a version 1 image gives the same entries, all undelivered |
| StateImage.OtherDefinitionRefused | src/mms/static_brcb_state_codec.cpp:231-290 | an image with another fingerprint is refused as such |
| StateImage.HashedTextTellsApart | src/mms/static_brcb_state_codec.cpp:89-123 | acceptable definitions have the same hashed text if and only if they agree in all but the integrity period |
| StateImage.ImageAcceptedExactly | src/mms/static_brcb_state_codec.cpp:231-290 | an image of one definition is refused by another as a mismatch if and only if they differ in more than the integrity period and their texts do not collide; otherwise it is taken back exactly if it fits |
| StateImage.FingerprintSkipsIntegrityPeriod | src/mms/static_brcb_state_codec.cpp:108-123 | definitions differing only in the integrity period have the same fingerprint |
| StateImage.ReachableIsOrdered | src/mms/static_brcb_runtime.cpp:428-741 | every window reachable by any run, restores included, from any restorable one satisfies what the round trip asks |
| StateImage.ParsedIsLoadable | src/mms/static_brcb_state_codec.cpp:290-340 | whatever image is accepted gives an ordered window no larger than the ring |
| ImageExact.ParsedIsImage | src/mms/static_brcb_state_codec.cpp:231-383 | whatever is accepted is octet for octet the image of the window it gives, in one of the two versions |
| ImageExact.ParseExactly | src/mms/static_brcb_state_codec.cpp:231-383 | a restore gives a window if and only if the octets are its image and its reports fit their slots |
| StateCodec.Encode | src/mms/static_brcb_state_codec.cpp:161-229 | writes exactly the version 2 image of the ring, or nothing and the size it needs |
| StateCodec.Restore | src/mms/static_brcb_state_codec.cpp:231-383 | accepts exactly what the specification parses; a refusal leaves the runtime as it was, an acceptance installs the window with reporting disabled |
| StateCodec.EqualSlotsFit | src/mms/static_brcb_state_codec.cpp:300-345 | with slots of one size every window fits |
| UnevenRing.OwnImageRefused | src/mms/static_brcb_state_codec.cpp:299-318 | a control block that, after three captures, refuses its own image |
| LegacyImage.BuildLegacyV1 | embedded/mms_brcb_recovery_v2_hard_profile_smoke.cpp:93-119 | writes the downgrade in place and nothing beyond it, or refuses |
| LegacyImage.DowngradeIsV1 | embedded/mms_brcb_recovery_v2_hard_profile_smoke.cpp:93-119 | the downgrade of an image is the version 1 image of the same window |
| LegacyImage.DowngradeRestoresUndelivered | embedded/mms_brcb_recovery_v2_hard_profile_smoke.cpp:93-119 | restoring the downgrade gives the same entries, all undelivered |
| Reservation.AlwaysGuarded | src/mms/static_brcb_control.cpp:79-311 | in every reachable state reporting enabled implies a connected owner |
| Reservation.ForeignActsChangeNothing | src/mms/static_brcb_control.cpp:92-275 | no call by another association changes more than the clock would, and none is granted |
| Reservation.TakeoverExactlyAtDeadline | src/mms/static_brcb_control.cpp:79-128 | a disconnected reservation admits another Owner exactly from close time plus ResvTms (or at the last tick of the clock), the same Owner at once |
| Reservation.PollOnlyLooks | src/mms/static_brcb_connection.cpp:43-118 | polling never moves the queue and stages the report at the cursor for the live owner only |
| Reservation.CommitAdvancesByOne | src/mms/static_brcb_connection.cpp:120-146 | a commit succeeds only for the live owner and the staged report and moves the cursor by one |
| Reservation.InterleavingIsRun | src/mms/static_brcb_control.cpp:92-311 | behind every interleaving of clients the control block has run the operations of its trace |
| Reservation.EveryInterleavingConserves | src/mms/static_brcb_connection.cpp:43-146 | under any interleaving without replays each report captured since the last purge or restore is delivered once, lost and counted once, or still queued |
| Reservation.ReserveAnswers | src/mms/static_brcb_control.cpp:92-128 | a reservation is granted exactly if nobody holds the block, the reservation has lapsed, or its own holder is not on another association |
| Reservation.ReleaseAnswers | src/mms/static_brcb_control.cpp:145-157 | every answer to a release |
| Reservation.ExecuteAnswers | src/mms/static_brcb_control.cpp:159-275 | every answer to a service: access first, switching always, an interrogation with reporting on, all else with it off |
| Reservation.ClosedAnswers | src/mms/static_brcb_control.cpp:277-296 | what the end of an association does to holder and reporting |
| Reservation.PollAnswers | src/mms/static_brcb_connection.cpp:43-118 | every answer to a poll in a reachable state, and the report staged |
| Reservation.CommitAnswers | src/mms/static_brcb_connection.cpp:120-146 | a commit succeeds if and only if the report was staged, reporting is on, the connection is the holder's and the report is at the cursor |
| Reservation.PollStagesOldest | src/mms/static_brcb_connection.cpp:43-118 | over every interleaving without replays the owner's poll stages the oldest report neither delivered nor lost, and says there is none exactly if there is none |
| Reservation.CommittedIsStaged | src/mms/static_brcb_connection.cpp:43-146 | whatever happens between poll and commit, with no restore and fewer than 2^64 - 1 reports after it, the report committed is the one staged |
| Reservation.RestoreCommitsUnsent | src/mms/static_brcb_connection.cpp:120-146 | with a restore in between, any report under that EntryID can be committed unsent |
| ReservationControl.Control.Tick | src/mms/static_brcb_control.cpp:79-90 | refines expiry by the clock |
| ReservationControl.Control.Reserve | src/mms/static_brcb_control.cpp:92-128 | refines the reservation rules |
| ReservationControl.Control.Release | src/mms/static_brcb_control.cpp:145-157 | refines release |
| ReservationControl.Control.Execute | src/mms/static_brcb_control.cpp:130-275 | refines the guarded commands |
| ReservationControl.Control.OnAssociationClosed | src/mms/static_brcb_control.cpp:277-296 | refines closure: disabled, and released or left to expire |
| ReservationControl.Control.Poll | src/mms/static_brcb_connection.cpp:43-118 | refines polling |
| ReservationControl.Control.CommitSent | src/mms/static_brcb_connection.cpp:120-146 | refines the commit |
| GuardedControl.MatchTellsApart | src/control/guarded_control.cpp:206-241 | a command that matches the selected one agrees with it in every plain field and in the sizes, and differs in no single octet of value or origin |
| GuardedControl.SelectionIsFaithful | src/control/guarded_control.cpp:254-475 | in every run the planner's selection is that of the grant in force: same owner, deadline and fingerprint |
| GuardedControl.InForceSinceGrant | src/control/guarded_control.cpp:254-507 | a grant in force was neither ended nor replaced by any later call |
| GuardedControl.AcceptedOperateHadSelection | src/control/guarded_control.cpp:362-437 | each accepted Oper on an SBO object follows a grant to the same association for a command of the same plain fields, sizes and hashes, in time, re-authorized, with nothing in between that ends it |
| GuardedControl.MatchesExactly | src/control/guarded_control.cpp:206-241 | a command matches the selected one if and only if the plain fields agree and value and origin each equal the selected one or collide with it |
| GuardedControl.AcceptedOperateIsSelectedExactly | src/control/guarded_control.cpp:362-437 | an Oper on an SBO object is accepted if and only if it is valid, authorized, in time under a selection of its client, with the plain fields selected and value and origin equal to the selected ones or colliding with them; with at most one octet each, equal |
| GuardedControl.OtherOriginOperated | src/control/guarded_control.cpp:206-437 | a run in which a command is selected for one originator and operated for another |
| GuardedControl.OtherValueOperated | src/control/guarded_control.cpp:206-437 | a run in which one value is selected and another operated |
| GuardedControl.OperateAcceptedExactly | src/control/guarded_control.cpp:362-437 | an Oper on an SBO object is accepted if and only if it is valid, authorized and matches a selection of its client in force and not late |
| GuardedControl.OperateAnswers | src/control/guarded_control.cpp:362-437 | every answer to an Oper, on every model and after every run, told from the record of calls |
| GuardedControl.DirectOperateAcceptedExactly | src/control/guarded_control.cpp:362-437 | an Oper on a direct object is accepted if and only if object, client and sequence are valid, it is authorized and no command awaits termination; it waits exactly under enhanced security |
| GuardedControl.SelectAnswers | src/control/guarded_control.cpp:268-360 | every answer to a Select, told from the record of calls |
| GuardedControl.CancelAnswers | src/control/guarded_control.cpp:439-475 | every answer to a Cancel, told from the record of calls |
| GuardedControl.NumbersInTurn | src/control/guarded_control.cpp:243-252 | control numbers left to the planner are 1 to 255 in turn over every run |
| GuardedControl.NumberAnswered | src/control/guarded_control.cpp:268-437 | a grant or a direct Oper is answered with the number it brought or the one whose turn it is |
| GuardedControl.SelectedNumberAnswered | src/control/guarded_control.cpp:362-437 | an Oper on an SBO object is answered with the number of its selection |
| GuardedControl.SelectGrantedExactly | src/control/guarded_control.cpp:268-360 | a Select is granted if and only if it is valid, authorized, nothing awaits termination and no selection is in force or the one in force is late |
| GuardedControl.WaitingIsOwed | src/control/guarded_control.cpp:362-503 | the planner waits exactly while an accepted command has not been terminated |
| GuardedControl.OneCommandAtATime | src/control/guarded_control.cpp:362-496 | no Oper is accepted while one awaits termination; the termination carries its number |
| GuardedPlanner.GuardedControlPlanner.Select | src/control/guarded_control.cpp:268-360 | refines both forms of select |
| GuardedPlanner.GuardedControlPlanner.Operate | src/control/guarded_control.cpp:362-437 | refines operate |
| GuardedPlanner.GuardedControlPlanner.Cancel | src/control/guarded_control.cpp:439-475 | refines cancel |
| GuardedPlanner.GuardedControlPlanner.CommandTermination | src/control/guarded_control.cpp:477-496 | refines termination |
| GuardedPlanner.GuardedControlPlanner.OnAssociationClosed | src/control/guarded_control.cpp:498-503 | refines association loss |
| SharedControl.OwnerWasGranted | src/mms/static_direct_control.cpp:164-231 | in every run whoever owns the object was granted it and has owned it ever since, with that deadline and command |
| SharedControl.AcceptedOperWasSelected | src/mms/static_direct_control.cpp:330-390 | each accepted Oper follows a selection by the same association, unbroken, inside the timeout, for the same command under enhanced security, and uses it up |
| SharedControl.OperAcceptedExactly | src/mms/static_direct_control.cpp:330-390 | an Oper on an SBO object is accepted if and only if it is permitted, its association holds a grant for the same command still in time, owes no termination and the process takes it |
| SharedAnswers.SelectionStands | src/mms/static_direct_control.cpp:164-231 | after every run owner and deadline are those of the last grant, unless its holder has ended it, and then nobody's |
| SharedAnswers.AnswersExactly | src/mms/static_direct_control.cpp:319-552 | every service of every model is answered as the record of calls calls for, refusals with their reason |
| SharedAnswers.CountersCount | src/mms/static_direct_control.cpp:330-390 | an association's counters and last command are those of the record |
| SharedAnswers.FlagsFollow | src/mms/static_direct_control.cpp:164-176 | the flags of a selection go up with its grant and down with its end |
| SharedControl.ValueIsLastOrdered | src/mms/static_direct_control.cpp:370-381 | over every run the shared value is what the last accepted non-test command ordered |
| SharedControl.TakeoverExactlyAtTimeout | src/mms/static_direct_control.cpp:148-220 | another association gets a held selection exactly from its timeout on, if and only if the deadline does not wrap |
| SharedControl.PendingIsOwed | src/mms/static_direct_control.cpp:363-388 | what an association has pending is the command it last had accepted and not terminated |
| SharedControl.TerminationEchoesItsOper | tools/static_ied_server.cpp:2545-2611 | the termination sent is that of the accepted command; until then further Opers of the association are refused |
| SharedControl.TerminationsBalance | tools/static_ied_server.cpp:2545-2611 | every accepted command is terminated once, dropped with its association, or still owed |
| SharedControl.TerminationsArePerAssociation | src/mms/static_direct_control.cpp:363-388 | two associations that both owe a termination for one object |
| SharedControlBinding.Binding.AcquireSelection | src/mms/static_direct_control.cpp:178-220 | the four-attempt loop decides as specified and never needs more than two attempts undisturbed |
| SharedControlBinding.Binding.ReleaseSelection | src/mms/static_direct_control.cpp:164-176 | refines release |
| SharedControlBinding.Binding.OwnsLiveSelection | src/mms/static_direct_control.cpp:222-231 | refines the ownership test, releasing an expired selection |
| SharedControlBinding.Binding.ApplyOperate | src/mms/static_direct_control.cpp:330-390 | refines Oper with all its refusals |
| SharedControlBinding.Binding.ReadSbo | src/mms/static_direct_control.cpp:439-457 | refines selection by Read |
| SharedControlBinding.Binding.WriteSbow | src/mms/static_direct_control.cpp:483-512 | refines select with value |
| SharedControlBinding.Binding.WriteCancel | src/mms/static_direct_control.cpp:514-543 | refines cancel |
| SharedControlBinding.Binding.OnAssociationClosed | src/mms/static_direct_control.cpp:545-552 | refines association loss |
| SharedControlBinding.Binding.WriteOperContextual | src/mms/static_direct_control.cpp:319-328 | another association's Oper is refused and changes nothing |
| SelectionSteps.ServiceAlone | src/mms/static_direct_control.cpp:164-390 | the atomic accesses of a service, undisturbed, amount to the whole call |
| SelectionSteps.OneAtATimeIsWholeCalls | src/mms/static_direct_control.cpp:164-552 | calls made one at a time do access by access what the whole-call model says |
| SelectionSteps.OwnerHeldFromGrant | src/mms/static_direct_control.cpp:178-220 | in every interleaving of accesses an owner has held the object without a break since it was granted it |
| SelectionSteps.AppliedOperWasVouched | src/mms/static_direct_control.cpp:222-390 | in every interleaving an Oper reaches the process only if its association was seen to own the object, unbroken since the grant for that command, and owns it still if and only if no other worker has evicted it since |
| SelectionSteps.TwoOpersNeedAnEviction | src/mms/static_direct_control.cpp:196-204 | two Opers past the owner check, about to be applied or stored, imply an eviction of one of them after its check |
| SelectionSteps.ValueIsProcess | src/mms/static_direct_control.cpp:365-380 | if no two workers are ever between process callback and store, the shared value is the one the process was given last, or the one worker there is about to store it |
| SelectionSteps.GuardingOwns | src/mms/static_direct_control.cpp:222-380 | if no Oper past its owner check is evicted, whoever is past it owns the object |
| SelectionSteps.InStepUnlessOvertaken | src/mms/static_direct_control.cpp:196-380 | process and shared value part only in runs in which such an eviction happens |
| SelectionSteps.ProcessAndValuePart | src/mms/static_direct_control.cpp:365-380 | an interleaving after which process and shared value differ with every Oper done |
| SelectionSteps.OwnerHasItsDeadline | src/mms/static_direct_control.cpp:164-220 | an owner has the deadline stored by its grant, or else one that another association stored afterwards |
| SelectionSteps.TwoOpersPastTheCheck | src/mms/static_direct_control.cpp:344-366 | an interleaving with two opposite Opers past the owner check |
| SelectionSteps.LateClearMakesSelectionPermanent | src/mms/static_direct_control.cpp:164-176 | an interleaving after which a selection never expires |
| SelectionSteps.ServiceEnds | src/mms/static_direct_control.cpp:164-390 | no service waits for another: whatever the others do, it has ended after sixteen accesses of its own |
| SelectionSteps.OutrunFourTimes | src/mms/static_direct_control.cpp:178-220 | the bound is met: a select that evicts an expired owner in each of its four attempts is refused by its sixteenth access, with the object free |
| ConnectionLifecycle.AlwaysSound | src/mms/connection_runtime.cpp:292-698 | in every reachable state an established connection is active with a context, and an unnotified association is established or faulted |
| ConnectionLifecycle.ToldExactlyAtItsEnd | src/mms/connection_runtime.cpp:292-328 | an end is reported exactly at the first close, reset or disconnect after the association was established |
| ConnectionLifecycle.EveryEndToldOnce | embedded/mms_brcb_lifecycle_hard_profile_smoke.cpp:235-315 | over every run the reports number the established associations, less one still open |
| ConnectionLifecycle.NothingOwedAfterTheEnd | embedded/mms_brcb_lifecycle_hard_profile_smoke.cpp:235-315 | after a close, reset or disconnect no report is owed |
| ConnectionLifecycle.FreshExactly | src/mms/connection_runtime.cpp:330-698 | a connection waits for a connection request if and only if since the start or a reset only incomplete windows and requests without room for the answer came |
| ConnectionLifecycle.ConnectedExactly | src/mms/connection_runtime.cpp:330-698 | it waits for an association, with TPDU size t, if and only if a request that settles t was then answered and only incomplete windows and data without room for the answer came since |
| ConnectionLifecycle.EstablishedExactly | src/mms/connection_runtime.cpp:330-698 | it is established, with its context and sizes, if and only if usable data then associated with them and only served or incomplete windows came since |
| ConnectionLifecycle.ClosedExactly | src/mms/connection_runtime.cpp:312-698 | it is closed if and only if the transport was closed, or the peer disconnected outside a fault, and no reset came since |
| ServedReports.AlwaysLinked | embedded/mms_brcb_lifecycle_hard_profile_smoke.cpp:235-315 | over every run of connections, clients and process, reporting is on only for an owner whose connection is established or in fault |
| ServedReports.EndDisables | src/mms/static_brcb_control.cpp:277-296 | the end of the owner's connection switches reporting off at once |
| ServedReports.FaultKeepsReporting | src/mms/connection_runtime.cpp:346-360 | a fault alone leaves the control block enabled |
| ConnectionLifecycle.ConnectionRuntime.NotifyAssociationClosed | src/mms/connection_runtime.cpp:292-310 | refines the report |
| ConnectionLifecycle.ConnectionRuntime.ShutTransport | src/mms/connection_runtime.cpp:312-318 | refines close |
| ConnectionLifecycle.ConnectionRuntime.StartOver | src/mms/connection_runtime.cpp:320-328 | refines reset |
| ConnectionLifecycle.ConnectionRuntime.ProcessTcpWindow | src/mms/connection_runtime.cpp:330-698 | refines the phase changes a window causes |
| Tpkt.SplitCovers | scripts/run-phase4c-timeout-recovery.py:59-72 | the frames and the residue concatenate to the input, and the residue holds no frame |
| Tpkt.SplitResumes | scripts/run-phase4c-timeout-recovery.py:59-72 | splitting may stop anywhere and go on with the residue |
| Tpkt.ChunkingInvariance | scripts/run-phase4c-timeout-recovery.py:59-72 | however a stream is cut, without a bad header the result is the one-shot parse; with one, a feed fails and what came out is a prefix |
| Tpkt.ChunkingMattersExactly | scripts/run-phase4c-timeout-recovery.py:59-72 | two cuts of a stream give different frames if and only if it has a bad header behind a good frame |
| Tpkt.AnyPrefixOfBadStream | scripts/run-phase4c-timeout-recovery.py:59-72 | every prefix of a bad stream's good frames is what some cut hands out |
| Tpkt.BadStreamsDependOnChunking | scripts/run-phase4c-timeout-recovery.py:59-72 | a bad stream on which two cuts differ |
| Tpkt.TpktStreamGate.Feed | scripts/run-phase4c-timeout-recovery.py:59-72 | one feed splits the buffer and the chunk |
| Tpkt.StallProxy.Handle | scripts/run-phase4c-timeout-recovery.py:195-209 | keeps the sent octets, the counters and the fault flag those of the frames seen |
| Tpkt.StallProxy.Relay | scripts/run-phase4c-timeout-recovery.py:185-210 | over every stream and chunking, exactly the frames up to the first end of message are forwarded and the two counters sum to all frame octets |
| Segmentation.EncodeInto | include/ariec61850/osi/cotp_tpkt_stream.hpp:55-100 | writes exactly the segments of the payload, touches nothing else, and fails exactly for a bad TPDU size or a short buffer |
| Segmentation.PlanIsExact | include/ariec61850/osi/cotp_tpkt_stream.hpp:24-49 | the planned segment count and size are those of the stream |
| Segmentation.SegmentationRoundTrip | embedded/mms_negotiated_limits_hard_profile_smoke.cpp:97-125 | for every payload and TPDU size the stream is accepted, splits into the segments and gives the payload back |
| Segmentation.SegmentationIsMinimal | include/ariec61850/osi/cotp_tpkt_stream.hpp:24-100 | no accepted stream of the same payload has fewer frames |
| Segmentation.FirstMessagePasses | scripts/run-phase4c-timeout-recovery.py:185-210 | of two segmented messages in any chunks the stall gate lets exactly the first through |
| Segmentation.DataFrameReads | src/osi/cotp_span.cpp:220-311 | a data frame is read back as written, by the codec and by the gate's end test |
| Segmentation.ValidateSegmentedStream | embedded/mms_negotiated_limits_hard_profile_smoke.cpp:97-125 | accepts exactly streams that are one message of Data frames within the TPDU size, end mark on the last only |
| Segmentation.Reassemble | embedded/mms_brcb_connection_hard_profile_smoke.cpp:121-141 | succeeds exactly on a complete message that fits, and then the buffer starts with it |
| WriteRequest.BuildWriteRequest | embedded/mms_brcb_objects_hard_profile_smoke.cpp:52-112 | zero, or exactly the octets of the request with the rest of the buffer untouched |
| WriteRequest.WriteRoundTrip | embedded/mms_brcb_objects_hard_profile_smoke.cpp:52-112 | a built request reads back as its four values exactly for invoke ids below 128 |
| WriteRequest.DecodedIsEncoded | embedded/mms_brcb_objects_hard_profile_smoke.cpp:52-112 | what reads as a request of at most 127 octets is the built request of the values read |
| WriteRequest.LongerDecodes | embedded/mms_brcb_objects_hard_profile_smoke.cpp:58-64 | a request of 128 octets that reads though the builder refuses it |
| Directory.ObjectListedExactly | src/mms/static_dispatcher.cpp:306-338 | when an object is listed under its own name |
| Directory.ParentsAreListed | src/mms/static_dispatcher.cpp:306-338 | every prefix of a listed name at a separator is listed |
| Directory.InsertKeepsBest | src/mms/static_dispatcher.cpp:183-206 | the page stays the smallest names seen, and the flag tells exactly whether any was left out |
| Directory.InsertSorted | src/mms/static_dispatcher.cpp:183-206 | the in-place insertion with its binary search and shift does that |
| Directory.NameListPage | src/mms/static_dispatcher.cpp:270-364 | a page is the next names of the sorted duplicate-free closure after the token, with more_follows exact; an unknown token is refused, and so is a buffer too small for it |
| Directory.SliceExactly | src/mms/static_dispatcher.cpp:339-364 | the answer owed is an error exactly if not even an empty list fits, or no name does while some are left; otherwise the names that follow, as many as page and buffer take, and more_follows exactly if any are left |
| Directory.EnumerationExists | src/mms/static_dispatcher.cpp:270-364 | every domain has exactly one such sorted list |
| Directory.Discover | embedded/mms_interop_pagination_hard_profile_smoke.cpp:77-130 | following the last name returned enumerates the whole list once, in ceil(n/page) requests when pages are full |
| RcbFailover.Evaluate | include/ariec61850/mms/rcb_contention.hpp:59-116 | contended exactly if busy at some probe or if two probes contradict each other |
| RcbFailover.ContradictsExactly | include/ariec61850/mms/rcb_contention.hpp:59-116 | two probes contradict each other exactly if both tell of enabled state, DataSet, revision or reservation, and differently; a reservation told by time differs from one told by flag |
| RcbFailover.FailoverTracker.Observe | src/mms/rcb_failover.cpp:34-79 | a stable candidate is selected, a contended one excluded; never more attempts than allowed, none twice |
| RcbFailover.EligibleExactly | src/mms/rcb_selection.cpp:591-602 | a block may be selected exactly if it was read in full and found unbound, neither enabled nor reserved, is not excluded and, without the unbuffered fallback, is buffered |
| RcbFailover.Pick | src/mms/rcb_selection.cpp:570-720 | selects among the blocks that discovery read in full and found unbound, disabled and unreserved, that are not excluded and of an allowed kind; none of them comes ahead of it by score, kind, device and name, and none is selected only if there is none |
| RcbFailover.BestIsBest | src/mms/rcb_selection.cpp:640-664 | no eligible block comes ahead of the selection |
| RcbFailover.PreferenceDecides | src/mms/rcb_selection.cpp:603-617 | what the points come to: the preferred block first, then the wanted device, then a buffered block unless the other outdoes it in all the rest, then disabled, logical node, revision and name |
| RcbFailover.AheadOrders | src/mms/rcb_selection.cpp:640-664 | the order is transitive and never goes both ways, and of two blocks with different names one is ahead |
| RcbFailover.FindCandidate | tools/dynamic_rcb_trial.cpp:343-379 | the search sends only probe reads, so many for each candidate tried, tries only blocks found available, and ends with a candidate exactly if the last probes were stable |
| RcbTrial.Subscription.AddEvent | src/mms/report_subscription_runtime.cpp:582-589 | the bounded log keeps the newest events; where the DatSet write stands in it |
| RcbTrial.Subscription.RecordedExactly | tools/dynamic_rcb_trial.cpp:249-259 | the DatSet write is on record exactly if it was confirmed and fewer events than the log holds came after |
| RcbTrial.Subscription.Start | src/mms/report_subscription_runtime.cpp:203-428 | whatever fails, the flags know of everything this run did and heard back about, and only this control block is written; success means name and enable read back, a reservation where there is one to make, and an interrogation where it is wanted |
| RcbTrial.Subscription.Stop | src/mms/report_subscription_runtime.cpp:430-495 | what cannot be taken down stays pending |
| RcbTrial.BestEffortCleanup | tools/dynamic_rcb_trial.cpp:261-309 | unbinds exactly a binding on record with nothing pending, and never one of others; deletes exactly a created DataSet with nothing pending and no failed unbind |
| RcbTrial.Create | src/mms/dynamic_data_set.cpp:485-563 | a DataSet that does not verify is not created, and is rolled back before anything is bound |
| RcbTrial.ReadBlocks | src/mms/live_discovery.cpp:699-747 | discovery reads the blocks one by one; every view is what a read of that block told |
| RcbTrial.Search | tools/dynamic_rcb_trial.cpp:318-379 | discovery, selection and the pre-claim search only read; a candidate was told to be unbound, disabled and unreserved at discovery and comes with stable probes |
| RcbTrial.Trial | tools/dynamic_rcb_trial.cpp:313-515 | over every server: an unarmed run only reads; only a candidate shown free at discovery and stable at its probes is written; a run passes only with the DataSet deleted, the block unbound and after reads that showed this run's name and the block enabled, and every verdict of an unarmed or unusable run is as said; a deletion finds nothing of this run's standing, save for a hidden write or a forgotten binding; nothing of others is switched off or released, and a binding of theirs is cleared only at the normal end and only if discovery was shown no DatSet and start() this run's name with every block as before, so never where reads are honest; a perfect server is passed, and one that refuses the unbinding fails and loses the DataSet under the binding exactly from a number of reports on |
| RcbTrial.ForgottenBinding | tools/dynamic_rcb_trial.cpp:261-309 | a whole run against a server that refuses only to clear DatSet, ending in a deletion under the binding |
| RcbTrial.HiddenBinding | tools/dynamic_rcb_trial.cpp:261-309 | a whole run against a server whose reply hides the binding, ending the same way |
| RcbTrial.ForeignBindingCleared | tools/dynamic_rcb_trial.cpp:483-489 | a whole run in which nothing fails, against a server that shows a DatSet only while its DataSet exists, ending with the binding of others cleared |
| ModelComparison.Comparison.CompareSet | tools/compare_live_model_json.py:239-250 | added to the report is exactly what either side lacks, each value once |
| ModelComparison.Comparison.CompareSignatures | tools/compare_live_model_json.py:393-404 | added is each attribute of both sides whose captured signatures contradict each other, with both of them |
| ModelComparison.Comparison.CompareBlock | tools/compare_live_model_json.py:303-357 | added are exactly the respects in which the two views of a control block contradict each other, with what each side tells |
| ModelComparison.Comparison.CompareRuntime | tools/compare_live_model_json.py:288-357 | added are exactly the control blocks one side lacks and the contradictions in those both have |
| ModelComparison.ReportedExactly | tools/compare_live_model_json.py:239-423 | a difference is in the report once, and exactly if it is one by the rule of its category, blocks exactly as a structural one or a clash of signatures does, and its kind is compared |
| ModelComparison.CompatibleExactly | tools/compare_live_model_json.py:360-423 | nothing in the report blocks if and only if identity and all six structural sets agree and, with types on, no common attribute has contradicting signatures |
| ModelComparison.Compare | tools/compare_live_model_json.py:360-423 | the report holds exactly the differences described, each once; compatible if and only if structure and, with types on, signatures agree; comparing runtime never changes that |

## Left out

- Report PDU encoding, member reads and MMS dispatch of the control block's attributes: the encoder and the reads are parameters of capture, so their failures are covered but not their octets.
- BrcbPlans.PlanCurrentExactly: runs without a restore; with one, BrcbHistory.StalePlanRefused still gives the refusal.
- Octets of a slot behind the stored PDU: a slot is modelled by its PDU and its room.
- Control references, item names and AddCause codes of the planner: parsing and constants beside the decision.
- GuardedControl.AcceptedOperateHadSelection: the command is matched in what the code keeps of it, the sizes, plain fields and 64-bit hashes, because more does not hold; AcceptedOperateIsSelectedExactly says when it is the selected one.
- CheckpointDevice.Storage.Erase: may stop after any prefix, which the backend of the smokes cannot do; the theorems hold for that larger family.
- size_t overflow in segment planning and image sizing: sizes are unbounded naturals; the code's guards against it are not reached.
- Null callbacks and null state of a control binding, and the encoding of its Read responses: configuration errors and golden octets.
- Decoding of the Oper, SBOw and Cancel structures: a command that does not decode is an input of the service.
- Memory ordering of the shared atomics: the access-level model is sequentially consistent and covers the SBO-enhanced model; it counts refusals and leaves their reasons to the whole-call model.
- ConnectionLifecycle.ConnectionRuntime.ProcessTcpWindow: what a window holds and how far its handling gets is an input, since session, presentation, ACSE and dispatch are not modelled.
- Session, presentation and MMS decoding after reassembly: golden codecs that follow the framing.
- GetNameList in declaration order and for other object classes: linear scans that would only add easy members.
- RcbTrial.Trial: which control blocks with readable attributes there are and how their names sort are inputs, discovery beside the control blocks is a number of reads, and other clients do not interfere during the run; replies are arbitrary.
- RcbFailover.Evaluate: probe values are compared as already trimmed and lower-cased.
- The unbuffered control block: its event window follows the same coalescing rules as the buffered one.
- The sorted order and the wording of the comparator's report: a difference holds its category, side, value and what both sides tell.
- The projection of model documents into the sets that are compared: reading and normalizing fields.
- Sockets, threads, process launching, command lines and evidence files: no algorithm beside the ones above.
