# Realtime sync: a verified model of its durable and conflict-prone parts

Realtime keeps an Obsidian vault in sync through a server. Five of its parts decide whether a
user's work survives, and each is modelled and proved here:

1. **The crash-safe document store** (`server/src/crdt_storage.rs`). A document is a checksummed
   snapshot, an append-only segment of framed updates and an atomically replaced manifest.
   `StorageFormat` holds the frames and the replay, `StorageRecovery` what the three recovery modes
   guarantee for every segment and tail, `StorageStore` the operations with every system call
   allowed to fail, `StorageWorld` the server at work with crashes anywhere. `StorageLoad`,
   `StorageSteps` and `StorageAdrift` prove what each step keeps, `StorageRun` what whole runs keep,
   `StorageLate` what becomes of updates acknowledged after a failed rejection, and `StorageKept` when no
   update ever acknowledged is missing. `StorageEngine` and `StorageServer` are the objects the server
   mutates and a run of them.
2. **The bootstrap event log** (`src/bootstrapEvents.ts`). `BootstrapModel` sets the log beside the
   vault the events really happened to, `BootstrapPlan` the shared index that a plan is published
   on, and `BootstrapEventLog` the class with its planning loops.
3. **Text merging** (`src/textMerge.ts`, `src/diff.ts`). `TextLines`, `TextMerge`, `TextThreeWay` and
   `TextMergedLines` treat the line-oriented three-way merge, `TextMergeRun` its loops, and
   `TextApply` the rewriting of a shared text in UTF-16 code units.
4. **Attachment sync** (`src/BinarySync.ts`, `src/lineage.ts`, `src/localSyncState.ts`,
   `src/ConfigSync.ts`). `Attachments` is a state machine of any number of devices and one path with
   delayed, guarded commits, `AttachmentOutcomes` what its steps lead to; `AttachmentSync` is one device as
   an object; `Lineage`, `LocalState`, `LocalSyncState`, `ConfigDecision` and `TransferLimiter` are its
   parts.
5. **Document epochs** (`server/src/crdt_epoch.rs`). `Epochs` holds the manifest, `EpochRun` whole runs,
   `EpochWrites` what becomes of the writes, and `EpochManifest` the object.

## How to read the model

Whatever the programs take from elsewhere is a parameter. `Engine` carries SHA-256 (32 bytes, and
not all zeros on the empty string), the update validator and the CRDT as a state with a partial
`apply` and a lossless encoder. The array diff is a function whose parts rebuild both arguments.
`Digest` names a document's physical directories. Outcomes of system calls, the user's choices,
vault iteration order and every interleaving are arguments of the steps, so a theorem about all
argument sequences is a theorem about all runs.

Classes mirror the objects the source mutates. Each of their methods is proved equal to a function
on the object's value. `StorageServer.RunDocument`, `BootstrapEventLog.PlanWindow`,
`AttachmentSync.RunDevices` and `LocalSyncState.RunRecords` put arbitrary runs through the objects and
promise the theorems about those functions of the objects themselves.

A store is *in step* while its process has the document that its records lead to. It is *adrift* once
rejecting a panicking update failed, because the discard was not confirmed or the document could not be
read again, and the server goes on with whatever the panic left in memory
(`server/src/crdt.rs:1679-1723`). That document, `half`, may be anything. Updates acknowledged in step
and late are kept apart. A compaction adrift makes the document in memory the durable one, the new
*root* of what follows; a store is *whole* if its root is the new document with the history before it
applied. The *history* is what was acknowledged in step and what loads brought back. A load that ends an
episode adrift may drop late updates from it, so the theorems of `StorageRun` are about the history, and
those of `StorageKept` about everything *promised*, that is the history and what was acknowledged late,
and everything *told* to the clients over the run.

## What the proofs found

- A record that is durable but cannot be integrated blocks startup; `StorageRun.CrashSafety` gives all
  cases in which startup refuses, and an offline repair recovers the whole history in each.
- If rejecting a panicking update fails, the server sets no latch and goes on acknowledging.
  - What was acknowledged before survives every restart and repair, in the document
    (`StorageRun.CrashSafetyAdrift`), as long as no compaction intervenes. A compaction makes the
    document in memory durable, and that may be anything a panic leaves:
    `StorageLate.DriftedCompactionServesHalf` is the failing family, and `StorageRun.WholeExactlyWhenTrue`
    the exact condition for the root over all runs.
  - What is acknowledged afterwards survives exactly as `StorageLate.LateUpdates`,
    `StorageLate.LateRunExactly` (discard not confirmed) and `StorageLate.UnreadRunExactly` (document
    not readable) say. It is lost behind a record that was not cut, behind padding
    (`StorageLate.AcknowledgedBehindPaddingIsLost`, silently in some cases), and if it integrates only
    into the half-applied document (`StorageLate.AcknowledgedOnHalfIsLost`).
  - `StorageKept.NothingIsMissing` puts both together: over every run, no update ever acknowledged is
    missing from the history and the root is complete, if and only if every load that ended an episode
    adrift found everything promised and every compaction adrift was true.
    `StorageKept.CompleteExactlyWhenHonest` is the same for the documents that serve.
  - It is not enough that panics leave the document as it was: every document served is complete then
    (`StorageKept.GentlePanicsServeEverything`), but an update acknowledged behind a record that could
    not be discarded is still dropped by a repair (`StorageKept.UncutRecordLosesLate`). It is enough
    together with confirmed discards (`StorageKept.GentleAndConfirmedLoseNothing`).
- A clean-up of expired epochs trusts the manifest in memory. After an activation that was not saved
  it can remove the document the saved manifest still points at:
  `EpochRun.UnsavedRolloverLosesDocument` is a reachable run, `EpochRun.SoundExactlyWhenHarmless` the
  exact condition over all runs, and `EpochRun.EpochsStaySound` what holds in any case.
- A replacement document left over from an interrupted rollover is loaded as it is when the rollover is
  taken up again. Writes acknowledged in between are then gone from the serving document
  (`EpochWrites.StaleReplacementLosesWrites`). A restart after a harmful clean-up serves an empty document
  (`EpochWrites.HarmfulCleanupLosesWrites`). `EpochWrites.WritesServedExactly` gives the exact condition
  over all runs.
- Epoch directories are told apart only if a document id is not the name of one of its own later
  epochs; `EpochRun.SelfNamedIsUnsafe` shows that this is necessary and sufficient.
- An edit of a shared text that has stray surrogate halves on both sides can be spoiled by the very cut
  that avoids pairs. This is a finding about the modelled shared text, which spoils halves that a deletion
  brings together when something is inserted between them; the source says only that it replaces a pair
  that is split (`src/diff.ts:15-17`). `TextApply.ApplyText` and `TextApply.SpoilableExactlyWithStrays` say
  exactly when, and a well-formed text is never affected.
- The header comment of `src/BinarySync.ts` says that the user is asked whenever both sides moved off
  the baseline. The code pulls without asking when the local side is missing;
  `Attachments.DecisionIsThreeWay` follows the code.

## Model

| member | source | states |
|---|---|---|
| `StorageRun.CrashSafety` | server/src/crdt_storage.rs:117-255 | For every run of a new document that is in step (appends with any system call failing, rejections, compactions cut anywhere, crashes that may garble unconfirmed bytes, restarts, repairs), a crash and restart bring back exactly the history in order, plus the update in flight exactly when its whole record landed, and the document is the root with those since applied, so the new document with all of them applied if the store was whole; startup is refused exactly when its files cannot be read, when that update cannot be integrated, when the damage does not look like an interrupted append, or when it does and cannot be cut away; a repair restores the same in every case. The history is everything acknowledged, less what loads that ended an earlier episode adrift dropped |
| `StorageRun.CrashSafetyAdrift` | server/src/crdt.rs:1640-1758 | For every run adrift, appending, failing and rejecting: what was acknowledged before is back after every restart that is not refused and every repair, applied in the document that then serves; a repair always brings the document back, and a whole store stays whole |
| `StorageKept.NothingIsMissing` | server/src/crdt.rs:1640-1758 | Over every run, at every point everything promised at any earlier point is still in the history, and the root is the new document with the history before it applied, if and only if every load that ended an episode adrift found in the segment records that integrate and hold everything promised, and every compaction adrift made a document durable that equals the new one with everything promised applied; then everything the clients were ever told is in the history, in order. Both for a history that is only extended at its end and for one that may gain records of failed rejections in between |
| `StorageKept.PromisedStep` | server/src/crdt.rs:1640-1758 | The same for one step: everything promised is kept exactly if the step is not a load adrift that succeeds without finding it |
| `StorageKept.RecoverableStrictly` | server/src/crdt_storage.rs:528-647 | For a history only extended at its end, a load finds everything promised exactly when the segment begins with the records of what was promised and they integrate behind the snapshot |
| `StorageKept.EverythingToldIsServed` | server/src/crdt_storage.rs:117-255 | For every run that ends in step and whose loads adrift kept what was late: after a crash, every restart that is not refused and every repair serve a history that holds everything the clients were ever told, in order, and the document is the new one with that history applied if every compaction adrift was true |
| `StorageKept.CompleteExactlyWhenHonest` | server/src/crdt.rs:1679-1758 | Over every run, the running document is at every point, in step or adrift, the new one with everything promised applied, if and only if no failed rejection goes on with a document from which something promised is missing; every compaction adrift is true then |
| `StorageKept.CompleteStep` | server/src/crdt.rs:1679-1758 | The same for one step |
| `StorageKept.GentlePanicsServeEverything` | server/src/crdt.rs:1669-1684 | If every panic leaves the document as it was, the running document is the new one with everything promised applied at every point, adrift or not (late updates can still be dropped by a later load) |
| `StorageKept.GentleAndConfirmedLoseNothing` | server/src/crdt.rs:1669-1723 | If moreover every discard is confirmed, no load ever drops anything, whatever else fails: the history is only extended, holds everything told, and every running document and the root are complete |
| `StorageKept.UncutRecordLosesLate` | server/src/crdt.rs:1712-1723 | A failing family without compactions and with gentle panics: an update panics and its discard is refused, the next one is acknowledged, and after a crash a repair drops it while the store stays whole and serves the document as it was before |
| `StorageKept.RunOutcome` | server/src/crdt_storage.rs:117-255 | Between any two points of a run what was acknowledged in step is only extended, and so is everything promised if the loads adrift in between keep it; as long as every compaction adrift in between is true, a whole store stays whole, and a document in step is the new one with the history applied, which holds everything told if every load adrift kept it |
| `StorageRun.WholeExactlyWhenTrue` | server/src/crdt.rs:1712-1758 | Over every run, the root is at every point the new document with the history before it applied if and only if every compaction adrift made a document durable that equals the new one with everything promised applied (what loads adrift drop from the history is `StorageKept.NothingIsMissing`) |
| `StorageRun.WholeStep` | server/src/crdt.rs:1749-1758 | The same for one step: only a compaction adrift can make the root differ from the history before it, and does so exactly when what the latest panic left, with everything since applied, is not what was promised |
| `StorageRun.StepOutcome` | server/src/crdt_storage.rs:117-255 | One step keeps the invariant and what was acknowledged in step; in step it extends that by at most the update being appended or, on a load, the one in flight |
| `StorageRun.RunningStoreAgrees` | server/src/crdt_storage.rs:117-208 | In every reachable running process in step `log_bytes` is the record boundary behind the acknowledged updates and equals the file length unless an append failed, and the document is the root with everything since applied; adrift, the file still begins with those records, the document is what the latest panic left with everything acknowledged after it applied, and `log_bytes` is not short of what was promised; the file never exceeds the replay limit even when torn |
| `StorageRun.AppendAnswered` | server/src/crdt_storage.rs:117-190 | How every append is answered in every reachable process in step: stuck exactly if a partial record cannot be cut, too large exactly if the records with this one would exceed the replay limit (which `requires_compaction` foretells), an I/O error exactly if the write fails, durable exactly otherwise; and the latch is set exactly if part of a record may be left |
| `StorageRun.HealthyAppendIsAcknowledged` | server/src/crdt_storage.rs:117-170 | In every reachable process in step an append that leaves the segment within the replay limit, with its system calls succeeding, is acknowledged if it integrates and otherwise handed to rejection |
| `StorageRun.RecordsAreCounted` | server/src/crdt_storage.rs:117-255 | Over every run, the record total in the manifest counts exactly the updates in the snapshot if and only if every compaction adrift counted right, and then the total of a process in step is the number of updates in the history, up to the bound of a u64 |
| `StorageRun.CrashesLeaveAnything` | server/src/crdt_storage.rs:541-600 | The crashes the theorems allow for: in every reachable process in step, behind the history a crash can leave the whole record in flight or anything no longer than it that fails its checksum |
| `StorageRun.CompactionEmptiesTheSegment` | server/src/crdt_storage.rs:227-255 | In every reachable process, in step or adrift, a compaction that gets through makes exactly the document in memory the durable one and starts an empty segment in the next generation, with room for any acceptable update; adrift that document is what the latest panic left with everything since applied |
| `StorageRun.CompactionSweeps` | server/src/crdt_storage.rs:253-254 | Of the older generations' files a compaction that gets through leaves exactly those whose deletion failed |
| `StorageSteps.RestartOutcome` | server/src/crdt_storage.rs:424-482 | What a startup recovers from any disk in step, and exactly when it refuses, including files that cannot be read and a truncation that fails |
| `StorageSteps.RepairOutcome` | server/src/crdt_storage.rs:424-455 | An offline repair of any disk in step keeps every acknowledged update, and succeeds if its system calls do |
| `StorageSteps.CompactOutcome` | server/src/crdt_storage.rs:227-255 | A compaction that stops or crashes after any of its writes, whatever old files were deleted, leaves the same history committed |
| `StorageAdrift.RejectOutcome` | server/src/crdt.rs:1712-1723 | Rejecting a panicking update leaves the clients' history untouched: it ends in step if the cut is confirmed and the document can be read again, and otherwise adrift with the document the panic left, the record in the segment exactly if the cut was refused, and the right segment length exactly if it was confirmed |
| `StorageAdrift.DriftRestart` | server/src/crdt_storage.rs:424-482 | A load while adrift is refused or puts the store in step again with every update acknowledged before |
| `StorageAdrift.DriftCompact` | server/src/crdt_storage.rs:227-255 | A compaction while adrift leaves the old generation committed, or makes exactly the document in memory the new root |
| `StorageLate.LateUpdates` | server/src/crdt.rs:1640-1723 | For every run adrift, a load that succeeds brings back everything acknowledged late exactly when the segment begins with their records and they integrate; startup does so without cutting anything exactly when the segment is just those records, which its length tells unless a failed load has cut it; behind an undiscarded record startup always refuses and a repair returns only what was acknowledged before |
| `StorageLate.UnreadRunExactly` | server/src/crdt.rs:1712-1723 | After a confirmed discard whose reload could not read, and any appends: what was acknowledged before is kept, and what is acknowledged since comes back, by a repair and by startup, if and only if it integrates without the half-applied update |
| `StorageLate.AcknowledgedOnHalfIsLost` | server/src/crdt.rs:1712-1723 | An update that integrates only into the half-applied document is acknowledged, startup then refuses, and a repair cuts it away |
| `StorageLate.DriftedCompactionServesHalf` | server/src/crdt.rs:1712-1758 | For every document x: a panic that leaves x, a failed rejection and a compaction make a restart serve x, and nothing is missing exactly if x is what the acknowledged updates lead to |
| `StorageLate.LateRunExactly` | server/src/crdt.rs:1640-1723 | After a discard that was not confirmed and any appends, a crash and restart bring back everything acknowledged, cutting nothing, if and only if the discard had cut the record, every append since was refused up front, or written whole and integrated, or landed nothing without setting the length, and the updates integrate |
| `StorageLate.AcknowledgedBehindPaddingIsLost` | server/src/crdt_storage.rs:157-208 | After an unconfirmed cut, an append that fails behind its header makes the next acknowledged update unrecoverable: a repair drops it, and startup drops it silently or refuses, depending on the length the header claims |
| `StorageLate.DiscardKeepsLength` | server/src/crdt_storage.rs:192-208 | A helper: file length and `log_bytes` agree after a discard exactly when its truncation is confirmed or refused |
| `StorageLoad.LoadAny` | server/src/crdt_storage.rs:424-482 | Loading a committed generation with any bytes behind its segment brings back every acknowledged update and then what else reads as records, or leaves the generation committed; a repair whose truncation works always succeeds |
| `StorageStore.RefusedExactlyWhenCompactionRequired` | server/src/crdt_storage.rs:130-190 | A helper: an append is refused as too large, changing nothing but a pending repair, exactly when `requires_compaction` says so, and that is when its record does not fit behind `log_bytes` |
| `StorageStore.DiscardUndoesAppend` | server/src/crdt_storage.rs:117-208 | Discarding the record just appended undoes the append: file, length and both counters are what they were |
| `StorageStore.WritesInOrder` | server/src/crdt_storage.rs:227-255 | A compaction stopped anywhere has never written a segment without its snapshot, nor a manifest without both, and has touched no other generation |
| `StorageStore.LoadSweeps` | server/src/crdt_storage.rs:424-455 | A load that succeeds removes exactly the older files whose deletion succeeds; one that fails removes none; an inspection changes nothing |
| `StorageStore.ManifestVersions` | server/src/crdt_storage.rs:74-96 | A manifest of format version 2 loads exactly like one of version 3 |
| `StorageStore.ManifestRefused` | server/src/crdt_storage.rs:74-96 | A manifest is refused exactly for another version or format or for naming another generation's files, and then nothing is touched |
| `StorageStore.CreatedLoadsBack` | server/src/crdt_storage.rs:370-422 | A document can be created exactly if its snapshot is within the limit, and then loads back as it is |
| `StorageStore.SetLenBytes` | server/src/crdt_storage.rs:192-208 | A helper: cutting keeps the bytes before the length, and extending adds zeros |
| `StorageFormat.ReplayLog` | server/src/crdt_storage.rs:528-657 | The replay loop returns exactly the specified records, length, document and error in each mode, and leaves exactly the kept bytes in the file, also when its truncation fails |
| `StorageFormat.SnapshotCanonical` | server/src/crdt_storage.rs:659-690 | A frame decodes to a snapshot exactly when it is that snapshot encoded and within the size limit |
| `StorageRecovery.NoModeCutsIntactRecords` | server/src/crdt_storage.rs:528-647 | For an intact segment followed by any bytes, whenever a replay succeeds in any mode the recovered updates begin with all of the segment's and the kept file contains it |
| `StorageRecovery.DamagedTailOutcome` | server/src/crdt_storage.rs:549-605 | Whatever stands behind an intact segment and fails its checksum is cut at exactly the last durable record by a repair, and by startup exactly when it runs past the end or is all zeros |
| `StorageRecovery.TornTailIsCutExactly` | server/src/crdt_storage.rs:549-600 | A strict prefix of a record, or zeros of any length, behind an intact segment is cut at exactly the last durable record by startup and repair, and reported by inspection |
| `StorageRecovery.CompletedRecordIsAdopted` | server/src/crdt_storage.rs:601-637 | A completed record is adopted whole in every mode if it integrates; otherwise only repair proceeds, without it |
| `StorageRecovery.UnintegrableRecordBlocks` | server/src/crdt_storage.rs:614-632 | A durable record that cannot be integrated hides everything behind it from startup, and repair cuts there |
| `StorageRecovery.UnacceptableRecordBlocks` | server/src/crdt_storage.rs:570-613 | A whole record that is too large or malformed is refused by startup and inspection, with that reason, and cut by a repair |
| `StorageRecovery.ModesAreOrdered` | server/src/crdt_storage.rs:535-646 | Success in inspection means all modes agree and change nothing; success of startup recovery means repair agrees; repair succeeds exactly on segments within the limit with a valid header |
| `StorageRecovery.RepairedSegmentIsIntact` | server/src/crdt_storage.rs:535-646 | What any mode leaves on disk is an intact segment that every mode then replays unchanged |
| `StorageRecovery.ScanCanonical` | server/src/crdt_storage.rs:549-637 | The bytes a replay accepts are exactly the records of the updates it returns |
| `StorageEngine.DocumentPersistence.AppendUpdate` | server/src/crdt_storage.rs:117-170 | The append changes counters, latch and file exactly as specified for every combination of failing repair, write and undo; a failed one changes no counter and a successful one adds exactly its record |
| `StorageEngine.DocumentPersistence.DiscardLastRecord` | server/src/crdt_storage.rs:192-208 | Discarding changes file and counters as specified; an error leaves the counters alone |
| `StorageEngine.DocumentPersistence.Compact` | server/src/crdt_storage.rs:227-255 | Compaction writes snapshot, segment and manifest in that order and only then switches generation; an error leaves the manifest alone |
| `StorageEngine.DocumentPersistence.TruncateLog` | server/src/crdt_storage.rs:173-181 | Truncation sets the segment's length, or fails with or without having done so |
| `StorageEngine.Open` | server/src/crdt_storage.rs:424-482 | Loading decodes the committed snapshot, replays its segment and sweeps older generations as specified, and leaves the specified disk also when it fails or cannot read |
| `StorageServer.PersistentDocument.ApplyUpdate` | server/src/crdt.rs:1640-1706 | Appending and integrating is the modelled step, and the update is reported durable exactly when it joins what is promised |
| `StorageServer.PersistentDocument.RejectAppendedUpdate` | server/src/crdt.rs:1712-1723 | Discarding and reloading is the modelled step, including the process that goes on after either fails |
| `StorageServer.RunDocument` | server/src/crdt.rs:1640-1758 | Any run put through the objects, crashes inside appends and compactions included, and opened again gives what the crash theorems promise: the exact history in step or one that begins with it adrift, refused exactly as they say, and the document that history leads to |
| `BootstrapEventLog.PlanWindow` | src/bootstrapEvents.ts:49-135 | For every possible sequence of events, the plan of a fresh log, published step by step on the opening index, always applies (each rename and create lands on a vacant path) and yields the final vault's index; it touches exactly the paths whose file is not the untouched original |
| `BootstrapEventLog.BootstrapEventLog.Plan` | src/bootstrapEvents.ts:104-135 | The same for any log that abstracts the vault, in whatever order the maps are iterated; files outside rename cycles keep their original identity, files in cycles their path's |
| `BootstrapEventLog.BootstrapEventLog.PlanRenames` | src/bootstrapEvents.ts:108-125 | The rename loop terminates, every rename it emits lands on a vacated path, and what it leaves is a permutation of its own paths |
| `BootstrapEventLog.BootstrapEventLog.Create` | src/bootstrapEvents.ts:49-53 | A creation is captured as specified, replacing a deleted original in place |
| `BootstrapEventLog.BootstrapEventLog.Modify` | src/bootstrapEvents.ts:55-63 | An edit is captured as specified |
| `BootstrapEventLog.BootstrapEventLog.Delete` | src/bootstrapEvents.ts:65-72 | A deletion is captured against the file's original path |
| `BootstrapEventLog.BootstrapEventLog.Rename` | src/bootstrapEvents.ts:74-82 | A rename composes with earlier ones and is forgotten when undone |
| `BootstrapModel.LogAbstractsVault` | src/bootstrapEvents.ts:44-82 | After every possible sequence of events: captured entries match the vault, no two files share an origin, `movedFrom` is the inverse of the moved entries, `deleted` is exactly the originals that are gone |
| `BootstrapModel.QueriesAreExact` | src/bootstrapEvents.ts:89-97 | `removed` holds exactly for paths that existed at the start and are vacant now; `renamedFrom` names the true original path |
| `BootstrapPlan.RenameReady` | src/bootstrapEvents.ts:113-123 | A rename whose target is no pending source applies to the index and leaves the remaining ones applicable |
| `BootstrapPlan.StuckIsCycles` | src/bootstrapEvents.ts:115-120 | With no rename ready, the pending paths are exactly the rename cycles of the vault |
| `BootstrapPlan.FinalIndexReached` | src/bootstrapEvents.ts:127-134 | Cycles edited in place and new files created, the index is the final vault's |
| `TextLines.LinesSplit` | src/textMerge.ts:11-13 | Splitting loses no character, and only the last line may lack its terminator |
| `TextLines.SplitIsUnique` | src/textMerge.ts:11-13 | Any properly terminated list of lines is what splitting its concatenation returns |
| `TextMerge.ComputeEdits` | src/textMerge.ts:15-41 | The edit loop computes the specified edits |
| `TextMerge.EditsReproduce` | src/textMerge.ts:15-41 | A side's edits, applied to the base, give that side back; they are ordered and separated by kept lines |
| `TextThreeWay.CombinedChain` | src/textMerge.ts:80-93 | Without a conflict the combined edits are exactly both sides', each once, sorted and disjoint |
| `TextMergedLines.MergeTextExactly` | src/textMerge.ts:66-102 | What `mergeText` returns for all texts: a conflict if and only if the three texts differ pairwise and two different edits, one from each side, are not clear of one another; if two texts are equal, the other one; otherwise the text whose lines are the base with exactly both sides' edits applied, of which each side's own edits alone give that side back |
| `TextThreeWay.MergeIsThreeWay` | src/textMerge.ts:75-101 | The combined edits: the copy offset never runs backward, and erasing one side's edits and applying the rest to the base gives the other side exactly |
| `TextThreeWay.MergeSymmetric` | src/textMerge.ts:66-102 | Swapping local and remote changes neither verdict nor content |
| `TextThreeWay.ShortcutsAgree` | src/textMerge.ts:71-73 | The three equality shortcuts return what the general merge would, given a diff that finds no change between equal inputs |
| `TextMergedLines.MergedSplitsBack` | src/textMerge.ts:91-101 | Splitting the joined lines of the combination gives exactly those lines: no interior line lacks its terminator |
| `TextMergeRun.CompareSides` | src/textMerge.ts:78-89 | The nested loop reports a conflict exactly when two different edits overlap, and otherwise marks exactly the duplicated remote edits |
| `TextMergeRun.RunMerge` | src/textMerge.ts:66-102 | The whole procedure computes `MergeText`, which `TextMergedLines.MergeTextExactly` describes |
| `TextMergeRun.ContainsLines` | src/textMerge.ts:111-119 | The greedy scan succeeds exactly when the inner text's non-blank lines can be found in the outer one, in order |
| `TextMergeRun.ContentStrips` | src/textMerge.ts:104-108 | A helper: the content of a line is the line without its final line feed, or carriage return and line feed |
| `TextMergeRun.ContentLinesExactly` | src/textMerge.ts:104-108 | A helper: the content lines of a text are its lines' contents in order, without the blank ones |
| `TextMergeRun.MergeWithoutBaseline` | src/textMerge.ts:128-139 | A merge without baseline takes one side whole, only when it holds every non-blank line of the other; exactly otherwise it is a conflict |
| `TextApply.ChangedRegion` | src/diff.ts:28-52 | The loops compute the region as a function of the two texts; prefix and suffix outside it are common, it is as tight as whole characters allow, and for all texts none of its ends lies inside a surrogate pair |
| `TextApply.ApplyText` | src/diff.ts:24-59 | The shared text becomes exactly the new one if and only if the changed region of the two texts does not insert between two surrogate halves that the deletion brought together, which never happens to a well-formed text; deleted and inserted pieces are that region, and well formed if the texts are |
| `TextApply.SpoilableExactlyWithStrays` | src/diff.ts:37-52 | A text can be spoiled by some edit if and only if somewhere in it two high surrogates in a row are followed by two low ones |
| `TextApply.StrayHalvesAreSpoiled` | src/diff.ts:37-52 | A failing input: replacing one unit between two high and two low surrogates |
| `Attachments.NoSyncStepLosesAVersion` | src/BinarySync.ts:488-758 | In every reachable world of any number of devices, a sync step that takes a version off a disk takes one that is published with its bytes stored, or saved as a conflict copy |
| `Attachments.NothingIsLost` | src/BinarySync.ts:488-782 | Every version ever on a disk that its user did not overwrite or delete is still there, saved beside it, or published with its bytes stored |
| `Attachments.RunSafe` | src/BinarySync.ts:488-1082 | All interleavings of edits, remote changes, delayed downloads and uploads, conflict choices and restarts keep every baseline and index entry published, every pending overwrite justified and every stored upload in the blob store |
| `Attachments.DecisionIsThreeWay` | src/BinarySync.ts:513-601 | A reading aid, not a result: the decision table by which side moved off the baseline and whether a publish of this device was lost or raced |
| `Attachments.OnlyBaselineIsReplaced` | src/BinarySync.ts:535-601 | A helper: a decision deletes or overwrites the local file only if it is the version this device last agreed on |
| `Attachments.UploadsAreWellFounded` | src/BinarySync.ts:943-987 | In every reachable world, a published upload names bytes already stored, a `prev` equal to the entry it replaced, and descends from it |
| `Attachments.LocalEditIsPublished` | src/BinarySync.ts:535-601 | A helper: on a settled device an edit or new file is queued, stored and published over the entry it was made from, and disk, baseline and index agree again |
| `Attachments.RemoteVersionIsTaken` | src/BinarySync.ts:551-703 | A helper: on a settled device a newer or new entry is downloaded and disk, baseline and index agree again |
| `Attachments.KeepingRemoteSavesLocal` | src/BinarySync.ts:1063-1081 | A helper: keeping the remote side of a conflict puts it, or its deletion, on disk with the local version saved beside the path |
| `Attachments.KeepingLocalSavesRemote` | src/BinarySync.ts:1044-1062 | A helper: keeping the local side publishes it over the remote version, which is saved beside the path |
| `AttachmentOutcomes.LocalDeletionIsPublished` | src/BinarySync.ts:551-567 | On a settled device, once the user deletes the file a reconcile removes entry, baseline and record if it can tell that from a file never pulled, and otherwise leaves the entry and pulls the file again unless its removal is still to be published |
| `AttachmentOutcomes.RemoteDeletionIsTaken` | src/BinarySync.ts:537-549 | On a settled device, once the entry is cleared a reconcile removes file, baseline and record, unless the vault refuses |
| `AttachmentOutcomes.AgreementIsNoted` | src/BinarySync.ts:515-528 | A reconcile that finds disk and entry equal makes that the baseline and records it; both absent clears the baseline |
| `AttachmentOutcomes.ConflictChangesNothing` | src/BinarySync.ts:569-602 | If both sides moved to different contents, a reconcile changes nothing but a first record |
| `AttachmentOutcomes.UnreadableChangesNothing` | src/BinarySync.ts:530-533 | A helper: a file that cannot be read is not taken for deleted |
| `AttachmentOutcomes.EmptyHashIsNoEntry` | src/BinarySync.ts:535-567 | An entry that names no content counts as none |
| `AttachmentOutcomes.FirstSightIsCandidate` | src/BinarySync.ts:510-512 | A file seen for the first time becomes a candidate under its own content, with no baseline after a restart |
| `AttachmentOutcomes.TransferExactly` | src/BinarySync.ts:674-703 | A download whose entry and file are unchanged is on disk, and is agreed on only if it reads back; any other leaves file, baseline and record alone |
| `AttachmentOutcomes.OvertakenUploadIsDropped` | src/BinarySync.ts:962-974 | A noticed change of the file, or another entry, overtakes an upload: it publishes nothing |
| `AttachmentOutcomes.PublishIsRecorded` | src/BinarySync.ts:761-768 | A publish leaves entry, baseline and record at the content published, and remembers what it replaced |
| `AttachmentOutcomes.LostPublishIsRetried` | src/BinarySync.ts:574-597 | If the entry is back at the version a publish replaced, it is queued again; if it is another version that does not descend from it, the user is asked |
| `AttachmentOutcomes.ChoiceExactly` | src/BinarySync.ts:1063-1081 | A choice of the remote side is acted on exactly if file and entry are the versions it was made for |
| `AttachmentOutcomes.DroppedJobIsGone` | src/BinarySync.ts:898-913 | A helper: an upload that is given up is gone and nothing else is |
| `AttachmentOutcomes.RestartKeepsBaseline` | src/BinarySync.ts:239-262 | A restart keeps the baseline the record names, whatever the entry became meanwhile; a device without records takes the entry |
| `AttachmentOutcomes.RestartSeeds` | src/BinarySync.ts:239-262 | A legacy record takes the entry for its baseline; a candidate, or no record, does not |
| `AttachmentOutcomes.RestartDropsWork` | src/BinarySync.ts:239-262 | A helper: a restart ends what was under way and touches neither file, entry nor copies |
| `AttachmentOutcomes.RestoredEntryIsPulled` | src/BinarySync.ts:802-823 | A restored entry whose bytes are stored is published over the present one and pulled to disk; without its bytes nothing changes |
| `AttachmentOutcomes.ReleasedExactly` | src/BinarySync.ts:358-400 | The entry of a file that moved away is dropped exactly if nothing is at the path again and no other version was published there; a path no longer tracked loses entry and baseline |
| `AttachmentOutcomes.ConvergedSettles` | src/BinarySync.ts:1006-1017 | A helper: a conflict that dissolved settles the device |
| `AttachmentOutcomes.BooksAreHonest` | src/BinarySync.ts:488-1082 | The books of the model: a version leaves `held` only by the user's doing, and conflict copies are kept |
| `AttachmentOutcomes.PublishedIsShared` | src/BinarySync.ts:943-983 | A helper: a version counts as published only by being put in the index, and as stored only from the disk |
| `AttachmentOutcomes.OtherDevicesUntouched` | src/BinarySync.ts:488-1082 | A step on one device changes no other, and nothing stored or published is taken back |
| `AttachmentSync.BinarySync.Reconcile` | src/BinarySync.ts:503-602 | Reading, deciding and acting change the device as specified; the file is removed only if it is the baseline and the entry is gone, and otherwise left alone |
| `AttachmentSync.BinarySync.TransferToDisk` | src/BinarySync.ts:674-703 | A download changes the disk only if index and disk are what they were when it was decided |
| `AttachmentSync.BinarySync.SendBytes` | src/BinarySync.ts:943-961 | Bytes are stored only if the file still is what was queued |
| `AttachmentSync.BinarySync.PublishUpload` | src/BinarySync.ts:962-983 | An upload publishes exactly if its bytes are stored and neither the file nor the entry changed meanwhile, and then names the entry it replaced |
| `AttachmentSync.BinarySync.ApplyKeepRemote` | src/BinarySync.ts:1063-1081 | Keeping the remote side removes the file only if file and entry are the very versions it was chosen for |
| `AttachmentSync.RunDevices` | src/BinarySync.ts:488-1082 | Any interleaving put through any number of device objects keeps every version its user did not overwrite or delete on the disk, beside it, or published with its bytes stored |
| `Lineage.LineageOfChain` | src/lineage.ts:24-30 | Along any chain of publishes from any entry, the recorded lineage is the prefixes of the replaced versions, newest first, cut to eight |
| `Lineage.AncestorsRecognised` | src/lineage.ts:24-36 | The newest entry of a chain recognises exactly its predecessor and whatever shares a prefix with one of the last eight versions |
| `Lineage.JunkIsIgnored` | src/lineage.ts:24-30 | A helper: of a lineage read from the index exactly the strings count, in order |
| `Lineage.NoAncestors` | src/lineage.ts:24-30 | A helper: over nothing, or an entry that names no content, a publish records no ancestors |
| `LocalState.ProvenanceIsTrue` | src/localSyncState.ts:95-277 | After any operations, an acknowledged fingerprint was recorded by `markSynced` or `markPublished` for that identity, a disk fingerprint by `markDisk` for it, and a recorded publish belongs to the record's identity |
| `LocalState.NextJustified` | src/localSyncState.ts:43-60 | Each transition, including move, candidate, commit, migration and epoch rewind, keeps every record's claims justified |
| `LocalState.AcknowledgementLasts` | src/localSyncState.ts:182-267 | A reconciled or published content is reported for its identity, and no other, until the path is touched or the index epoch rewound |
| `LocalState.RemovedIsForgotten` | src/localSyncState.ts:269-271 | After a removal nothing is reported for the path, and nothing else changes |
| `LocalState.CandidatePromotedExactly` | src/localSyncState.ts:130-214 | A candidate, committed or not, is acknowledged exactly by a reconciled sync or one of the very content it was begun with |
| `LocalState.CandidateWaits` | src/localSyncState.ts:130-214 | Synced with other content it stays a candidate and is acknowledged once its own content is |
| `LocalState.CandidateKeepsKnown` | src/localSyncState.ts:130-154 | A helper: a candidate keeps what was known of the path, and what was on disk only for its identity |
| `LocalState.RewoundExactly` | src/localSyncState.ts:95-103 | The records are forgotten exactly if the epoch adopted is lower than the one recorded |
| `LocalState.MigratedOnce` | src/localSyncState.ts:160-164 | A helper: only a record without identity takes one, and nothing is acknowledged by that |
| `LocalState.PublishRemembered` | src/localSyncState.ts:220-236 | What a publish replaced is remembered, and who published the baseline is kept by later syncs of the same identity only |
| `LocalState.DiskFingerprintCarried` | src/localSyncState.ts:238-250 | What was found on disk is reported for its identity across commits, syncs and publishes of it, and dropped by others |
| `LocalState.MarkedKind` | src/localSyncState.ts:123-127 | A helper: marking sets the kind, starts a record if there is none, and changes nothing else |
| `LocalState.KindIsRecorded` | src/localSyncState.ts:123-250 | A helper: every operation records the kind it is told, and only the epoch's own touches the epoch |
| `LocalState.MovedExactly` | src/localSyncState.ts:273-277 | A record moves with its path; a path without one becomes a candidate that predates any identity |
| `LocalState.HistoryIsHonest` | src/localSyncState.ts:182-245 | A helper: the history against which provenance is stated grows by exactly what an operation says |
| `LocalSyncState.RunRecords` | src/localSyncState.ts:95-277 | Any sequence of operations put through the object leaves it reporting only what was recorded for the identity asked about |
| `LocalSyncState.LocalSyncState.MarkSynced` | src/localSyncState.ts:182-214 | Recording synced content rewrites the record as specified, skipping identical writes; a reconciled content is acknowledged from then on |
| `LocalSyncState.LocalSyncState.Commit` | src/localSyncState.ts:166-179 | A commit retains an acknowledgement for the same identity and for no other |
| `LocalSyncState.LocalSyncState.Move` | src/localSyncState.ts:273-277 | A move carries the record, and what it acknowledges, to the new path, or starts a candidate there |
| `LocalSyncState.LocalSyncState.AdoptIndexEpoch` | src/localSyncState.ts:95-103 | A lower index epoch forgets every record and says so |
| `ConfigDecision.DecisionByMoves` | src/ConfigSync.ts:49-102 | A reading aid, not a result: the whole settings decision table by which side moved |
| `ConfigDecision.PublishedSettingsAreWellFounded` | src/ConfigSync.ts:511-556 | After every run of local edits, remote changes and overtaken uploads, index entry and baseline name stored bytes, and an upload is published exactly when its bytes are stored and file and entry are unchanged, naming the entry replaced and descending from it |
| `ConfigDecision.UndisturbedUploadIsPublished` | src/ConfigSync.ts:511-556 | An upload that nothing overtakes is published over the entry it was read for and becomes the baseline |
| `ConfigDecision.OvertakenUploadIsDropped` | src/ConfigSync.ts:511-556 | A change of the file or of the entry overtakes an upload: nothing is published |
| `TransferLimiter.NeverOverLimitNorStuck` | src/BinarySync.ts:101-126 | Under every interleaving the job and byte limits hold unless a single job runs, the counters equal the running jobs' count and size, and with nothing running no job is parked and the first to check again starts |
| `TransferLimiter.AdmittedExactly` | src/BinarySync.ts:111-117 | Over every run, a job that arrives or checks again runs afterwards if and only if nothing was running, or the running jobs and it stay within both limits; otherwise it is parked |
| `TransferLimiter.FinishWakesAll` | src/BinarySync.ts:120-124 | A job that finishes is done, every parked one is woken, and the others go on |
| `TransferLimiter.Limiter.TryEnter` | src/BinarySync.ts:111-117 | A job starts exactly if nothing is active or it fits both limits, and is parked otherwise |
| `TransferLimiter.Limiter.Leave` | src/BinarySync.ts:120-124 | A finished job returns its budget and wakes every waiter |
| `EpochRun.EpochsStaySound` | server/src/crdt_epoch.rs:137-371 | Every run of proposals, activations, partly failing clean-ups, failed saves and restarts keeps both manifests valid with strictly increasing retired epochs, and every earlier epoch has a record or no directory; while every clean-up is harmless, both current documents exist |
| `EpochRun.CleanupSparesLiveDocuments` | server/src/crdt_epoch.rs:344-371 | In every reachable store a clean-up spares the current and pending documents of the manifest in memory and drops a record only when it is due and its directory is gone |
| `EpochRun.RecoveryWindowExact` | server/src/crdt_epoch.rs:153-371 | At any point of any run, an activation at t with window w that takes effect: whatever follows short of a clean-up at t + w or later, the retired document stays, and a clean-up in which nothing is stuck removes it if and only if it comes at t + w or later; restarts may intervene if the activation was saved |
| `EpochRun.RemovedOnlyAfterWindow` | server/src/crdt_epoch.rs:344-371 | Over every run with restarts and failed saves, a clean-up removes only directories of epochs that some activation of the run retired, at a time and with a window that are over |
| `EpochRun.SelfNamedIsUnsafe` | server/src/crdt_epoch.rs:476-479 | Clean-ups spare the current document of every valid manifest exactly when the document id is not one of its own epoch ids |
| `EpochRun.SoundExactlyWhenHarmless` | server/src/crdt_epoch.rs:344-371 | Over every run, the saved manifest has its document throughout if and only if every clean-up either got through and was saved or did not get as far as the record of the saved epoch |
| `EpochRun.CleanupExact` | server/src/crdt_epoch.rs:344-371 | The same for one clean-up, with any directories stuck |
| `EpochRun.UnsavedActivationAtRisk` | server/src/crdt_epoch.rs:344-371 | With nothing stuck: the saved document survives a clean-up exactly if the clean-up is saved or no record of its epoch is due |
| `EpochRun.UnsavedRolloverLosesDocument` | server/src/crdt.rs:1188-1210 | A first rollover whose activation cannot be saved, and a clean-up after the recovery window that cannot be saved either, leave a manifest whose document is gone, and a restart serves it |
| `EpochWrites.WritesServedExactly` | server/src/crdt.rs:1134-1215 | Over every run of writes, rollovers, failed saves, restarts and clean-ups, harmful or not, every acknowledged write is served at every point if and only if no activation and no restart switches to a document that was made before writes went elsewhere, and no restart finds the saved epoch without its document after anything was written |
| `EpochWrites.StepExactly` | server/src/crdt.rs:1134-1215 | The same for one step |
| `EpochWrites.WriteIsLogged` | server/src/crdt.rs:1640-1700 | A helper: a write is logged under the serving epoch and is in its document; no other step changes the log |
| `EpochWrites.StaleReplacementLosesWrites` | server/src/crdt_storage.rs:341-368 | A replacement built before a restart is loaded stale when the rollover is taken up again, and a write acknowledged in between is gone from the serving document |
| `EpochWrites.HarmfulCleanupLosesWrites` | server/src/crdt.rs:665-690 | After any run that lost nothing, a harmful clean-up leaves every write served until the restart, which makes an empty document |
| `Epochs.SweepExact` | server/src/crdt_epoch.rs:349-369 | A sweep removes exactly the directories of due records before which nothing is stuck, and gets through exactly if nothing due is stuck |
| `Epochs.SweepOutcome` | server/src/crdt_epoch.rs:349-369 | A sweep, got through or not, drops a record only when its directory is gone, and removes only directories of due records |
| `Epochs.PhysicalInjective` | server/src/crdt_epoch.rs:476-479 | Different epochs have different physical ids |
| `Epochs.Validate` | server/src/crdt_epoch.rs:178-231 | The check accepts exactly the valid manifests |
| `Epochs.RefusedExactly` | server/src/crdt_epoch.rs:178-231 | The list of what the check refuses, and nothing else |
| `Epochs.InitialOrdered` | server/src/crdt_epoch.rs:120-135 | A helper: a new document is in epoch zero under its own id, with nothing proposed or retired |
| `Epochs.BeginOrdered` | server/src/crdt_epoch.rs:137-151 | A proposal keeps the manifest valid, leaves an earlier proposal as it is, and fails exactly on overflow |
| `Epochs.ActivateOrdered` | server/src/crdt_epoch.rs:153-176 | An activation keeps the manifest valid, starts the pending epoch at the time and with the byte counts it is given, and fails exactly without a proposal; what it retires, and until when, is `EpochRun.RecoveryWindowExact` |
| `EpochManifest.EpochManifest.Begin` | server/src/crdt_epoch.rs:137-151 | Proposing changes only the pending epoch, as specified |
| `EpochManifest.EpochManifest.Activate` | server/src/crdt_epoch.rs:153-176 | Activating changes the manifest as specified |
| `EpochManifest.EpochManifest.RemoveExpired` | server/src/crdt_epoch.rs:349-369 | The removal loop leaves exactly the specified records and directories, also when it stops at an error |

## Left out

- The CRDT library itself, SHA-256, JSON manifests, file names and the array diff: kept as parameters or as the values they encode.
- Rebuilding a manifest from loose files (`server/src/crdt_storage.rs:492-526`): it resets the record total and may pick an uncommitted generation; every run theorem is about stores with a readable manifest.
- Directory fsync errors after the rename inside an atomic write: an atomic write is one step whose error means that the old file is in place.
- The in-memory document after a repair that met a panicking record: only the bytes and records it keeps are modelled.
- Bytes behind an acknowledged record that were never confirmed while adrift survive a crash as they are in `StorageWorld`; while nothing was acknowledged late, and always in step, a crash may garble unconfirmed bytes.
- A damaged record that passes its checksum: SHA-256 is taken to detect what a crash makes of a record (`StorageWorld.Landed`).
- A second truncation inside a repair that failed: the server then tries to rebuild the manifest, which is left out above.
- StorageLate.LateRunExactly: expresses the condition by the outcomes of the appends after the discard; for every other run adrift `StorageKept.NothingIsMissing` gives it on the segment at each load.
- Legacy imports, store inspection reports and the temporary directory of a first creation.
- Bootstrap steps for files the index never tracked, folders, and what the handlers do with file contents: the plan's effect on paths and identities is modelled.
- Attachment triggers, retries, timers, pausing and the upload queue's order: a step that is not taken is always allowed, so safety covers them and liveness is not claimed.
- A user edit between hashing a file and acting on the hash: reading, hashing and deciding (or checking a guard and writing) are one step.
- Reclaiming of stored blobs by the server.
- That the file on disk equals the published hash at the moment of publishing: only stored bytes and `prev` are claimed.
- Merging of JSON settings, polling, hash caching, and the preservation of local settings before a decision is made.
- `EpochPolicy::should_rollover`, document measurement and the rebuilding of a replacement document.
- Settings, presence, authentication, modals, routes and auditing.
