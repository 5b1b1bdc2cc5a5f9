/**
 What a reconcile and the steps after it lead to on one device (src/BinarySync.ts): edits and deletions
 travel in both directions, agreement and restarts keep the baseline, and whatever the device cannot
 decide is left alone.
 */
module AttachmentOutcomes {
  import opened Wrappers
  import opened Lineage
  import opened LocalState
  import opened Attachments

  // ----- deletions

  /**
   On a settled device with a file: once the user deletes it, a reconcile that can tell the deletion from
   a file never pulled removes the entry, the baseline and the record; any other leaves the entry, and
   pulls the file again unless its removal is still to be published.
   */
  lemma LocalDeletionIsPublished(w: World, d: Device, noticed: bool, f: Flags, deleteOk: bool)
    requires Settled(d) && d.disk.Some?
    ensures var gone := DeviceAfter(w, d, UserDeletes(noticed));
            var after := ReconcileNow(gone, f, true, deleteOk);
            if !f.initialPull && (f.liveDelete || !d.pendingDownload) then
              after.disk == None && after.index == None && after.base == None && after.record == None
            else if f.pendingRemoval then after == gone
            else
              && after.index == d.index && after.base == d.base && after.record == d.record
              && after.pendingDownload && after.transfers == d.transfers + {Transfer(d.disk.value, None)}
  {
  }

  /** Once the entry of a settled file is cleared, a reconcile removes the file, unless the vault refuses. */
  lemma RemoteDeletionIsTaken(w: World, d: Device, f: Flags, deleteOk: bool)
    requires Settled(d) && d.disk.Some?
    ensures var after := ReconcileNow(DeviceAfter(w, d, RemoteChange(None)), f, true, deleteOk);
            && after.index == None
            && (if deleteOk then after.disk == None && after.base == None && after.record == None
                else after.disk == d.disk && after.base == d.base && (d.record.Some? ==> after.record == d.record))
  {
    hide Candidate;
  }

  // ----- agreement, conflict, doubt

  /** The record says that `h` was agreed on. */
  predicate Records(r: Option<PathState>, h: Hash) {
    && r.Some? && r.value.kind == BinaryKind && r.value.identity == Known(h)
    && r.value.fingerprint == Some(h) && r.value.candidate == Some(false)
  }

  /** A reconcile that finds disk and entry equal makes that the baseline and records it; absence clears it. */
  lemma AgreementIsNoted(d: Device, f: Flags, deleteOk: bool)
    requires d.disk == HashOf(d.index) && d.disk != Some("")
    ensures var after := ReconcileNow(d, f, true, deleteOk);
            && Settled(after) && after.disk == d.disk && after.index == d.index && !after.pendingDownload
            && after.jobs == d.jobs && after.transfers == d.transfers && after.choices == d.choices
            && (d.disk.Some? && d.tracksState ==> Records(after.record, d.disk.value))
  {
  }

  /** If both sides moved off the baseline to different contents, nothing but a first record changes. */
  lemma ConflictChangesNothing(d: Device, f: Flags, deleteOk: bool)
    requires d.disk.Some? && d.disk != d.base && HashOf(d.index) != d.base && d.disk != HashOf(d.index)
    requires d.index.Some? ==> d.index.value.hash != ""
    ensures var after := ReconcileNow(d, f, true, deleteOk);
            after.(record := d.record) == d && (d.record.Some? ==> after == d)
  {
    hide Candidate, DescendsFrom;
  }

  /** An entry that names no content counts as none: a file is treated as unlisted, and absence is left alone. */
  lemma EmptyHashIsNoEntry(d: Device, e: Entry, f: Flags, deleteOk: bool)
    requires e.hash == "" && d.disk != Some("")
    ensures DecideAt(d.(index := Some(e)), Look(d, true), f) ==
            if d.disk.Some? then DecideAt(d.(index := None), Look(d, true), f) else Leave
    ensures d.disk.None? ==> ReconcileNow(d.(index := Some(e)), f, true, deleteOk) == d.(index := Some(e))
  {
    hide DecideDiverged;
  }

  /** A file that cannot be read is not taken for deleted. */
  lemma UnreadableChangesNothing(d: Device, f: Flags, deleteOk: bool)
    ensures ReconcileNow(d, f, false, deleteOk) == d
  {
  }

  /**
   A file seen for the first time, on a device that keeps records, is recorded as a candidate under its
   own content, and nothing is acknowledged for it; after a restart it has no baseline.
   */
  lemma FirstSightIsCandidate(d: Device, f: Flags, deleteOk: bool)
    requires d.tracksState && d.record.None? && d.disk.Some? && d.disk.value != "" && d.disk != HashOf(d.index)
    ensures var after := ReconcileNow(d, f, true, deleteOk);
            after.disk == d.disk ==>
              && after.record.Some? && after.record.value.candidate == Some(true)
              && after.record.value.identity == Known(d.disk.value)
              && after.record.value.candidateFingerprint == d.disk
              && Restart(after).base == None
  {
    hide DescendsFrom;
  }

  // ----- transfers

  /**
   The end of a download. If entry and file are what they were when it was decided, the content is on
   disk, and counts as agreed on only if it reads back; otherwise the file stays and the download is over.
   */
  lemma TransferExactly(d: Device, t: Transfer, verified: bool)
    ensures var after := CommitTransfer(d, t, verified);
            && after.index == d.index && after.jobs == d.jobs && after.transfers == d.transfers - {t}
            && (if HashOf(d.index) != Some(t.hash) || d.disk != t.expected then
                  after.disk == d.disk && after.base == d.base && after.record == d.record && !after.pendingDownload
                else
                  && after.disk == Some(t.hash) && t.hash in after.held
                  && (if verified then
                        after.base == Some(t.hash) && !after.pendingDownload
                        && (d.tracksState ==> Records(after.record, t.hash))
                      else
                        after.base == d.base && after.record == d.record
                        && after.pendingDownload == d.pendingDownload))
  {
  }

  /** A noticed change of the file, or any change of the entry, overtakes an upload: it publishes nothing. */
  lemma OvertakenUploadIsDropped(w: World, d: Device, j: Job, a: Step)
    requires j in d.jobs && j.diskVersion <= d.diskVersion
    requires || (a.UserWrites? && a.noticed) || (a.UserDeletes? && a.noticed)
             || (a.RemoteChange? && HashOf(a.entry) != j.expected
                 && (a.entry.Some? ==> a.entry.value.hash in w.published))
    ensures var overtaken := DeviceAfter(w, d, a);
            var after := CommitUpload(overtaken, j);
            j in overtaken.jobs && after == overtaken.(jobs := overtaken.jobs - {j})
  {
  }

  // ----- publishes that were lost or raced

  /** What a publish leaves behind: the entry, the baseline and, on devices that keep one, the record. */
  lemma PublishIsRecorded(d: Device, j: Job)
    requires MayPublish(d, j)
    ensures var after := CommitUpload(d, j);
            && HashOf(after.index) == after.base == Some(j.hash)
            && after.disk == d.disk && after.transfers == d.transfers && after.jobs == d.jobs - {j}
            && (d.tracksState ==>
                  && Records(after.record, j.hash)
                  && after.record.value.replacedIdentity == after.record.value.publishedFrom == Some(j.expected))
  {
    hide LineageAfter;
  }

  /**
   A device published, and the index then shows another entry that does not descend from what it
   published. If that is exactly the version it replaced, the publish was lost and is queued again. If it
   is any other version that names its parent, the two raced, and the user is asked.
   */
  lemma LostPublishIsRetried(d: Device, j: Job, e: Entry, f: Flags, deleteOk: bool)
    requires d.tracksState && MayPublish(d, j) && d.disk == Some(j.hash) && j.hash != ""
    requires e.hash != "" && e.hash != j.hash && !DescendsFrom(e, j.hash)
    ensures var seen := CommitUpload(d, j).(index := Some(e));
            var after := ReconcileNow(seen, f, true, deleteOk);
            && (j.expected == Some(e.hash) ==>
                  after == seen.(jobs := seen.jobs + {Job(j.hash, Some(e.hash), d.diskVersion, false)}))
            && (j.expected != Some(e.hash) && e.prev.Some? ==> after == seen)
  {
    hide LineageAfter, DescendsFrom;
  }

  /** A choice of the remote side is acted on exactly if file and entry are the versions it was made for. */
  lemma ChoiceExactly(d: Device, c: KeepRemote, deleteOk: bool)
    ensures var after := CommitKeepRemote(d, c, deleteOk);
            var rest := d.(choices := d.choices - {c});
            if d.disk != c.local || HashOf(d.index) != c.remote then after == rest
            else if c.remote.None? then
              if deleteOk then after == rest.(disk := None, base := None, record := None) else after == rest
            else
              && Transfer(c.remote.value, c.local) in after.transfers && after.pendingDownload
              && after.disk == d.disk && after.base == d.base && after.jobs == d.jobs
  {
  }

  /** An upload that is given up is gone, and nothing else is. */
  lemma DroppedJobIsGone(w: World, d: Device, j: Job)
    ensures var after := DeviceAfter(w, d, DropJob(j)); j !in after.jobs && after.(jobs := d.jobs) == d
    ensures forall k :: k in d.jobs && k != j ==> k in DeviceAfter(w, d, DropJob(j)).jobs
  {
  }

  // ----- restarts

  /**
   A restart keeps the baseline of everything that was agreed on. On a device that keeps records it is
   what the record says, whatever the entry became meanwhile; on any other it is the entry.
   */
  lemma RestartKeepsBaseline(d: Device, h: Hash, entry: Option<Entry>)
    requires h != "" && if d.tracksState then Records(d.record, h) else d.record.None?
    ensures Restart(d.(index := entry)).base ==
            if d.tracksState then Some(h) else if HasHash(HashOf(entry)) then HashOf(entry) else None
    ensures d.tracksState ==> Restart(d.(index := entry)).record == d.record
  {
  }

  /** A legacy record, which knows no identity, takes the entry for its own; a candidate or none at all does not. */
  lemma RestartSeeds(d: Device)
    requires d.tracksState && d.index.Some? && d.index.value.hash != ""
    ensures d.record.None? || (d.record.value.candidate == Some(true) && d.record.value.identity != Unknown) ==>
              Restart(d).base == None
    ensures d.record.Some? && d.record.value == Bare(d.record.value.kind) ==>
              && Restart(d).base == HashOf(d.index)
              && Restart(d).record.Some? && Restart(d).record.value.identity == Known(d.index.value.hash)
  {
  }

  /** Whatever was under way is over after a restart; file, entry and copies are untouched. */
  lemma RestartDropsWork(d: Device)
    ensures var after := Restart(d);
            && after.jobs == {} && after.transfers == {} && after.choices == {} && !after.pendingDownload
            && after.disk == d.disk && after.index == d.index && after.saved == d.saved && after.held == d.held
  {
  }

  // ----- restored and moved paths

  /** If its bytes are there, a restored entry is published over the present one and pulled, not deleted again. */
  lemma RestoredEntryIsPulled(w: World, d: Device, h: Hash, f: Flags, deleteOk: bool)
    requires h != "" && d.disk.None? && !f.pendingRemoval
    ensures var restored := DeviceAfter(w, d, RestoreEntry(h));
            var pulled := ReconcileNow(restored, f, true, deleteOk);
            var done := CommitTransfer(pulled, Transfer(h, None), true);
            if h in w.blobs then
              && restored.index == Some(Lineage.Publish(d.index, h))
              && Transfer(h, None) in pulled.transfers && done.disk == Some(h) && Settled(done)
            else restored == d
  {
    hide LineageAfter;
  }

  /**
   The entry of a file that moved away is dropped, with baseline and record, exactly if nothing is at the
   path again and no other version was published there meanwhile; a path no longer tracked loses entry and
   baseline, and its file stays.
   */
  lemma ReleasedExactly(w: World, d: Device)
    ensures var after := DeviceAfter(w, d, ReleaseMoved);
            if d.disk.None? && (d.index.None? || HashOf(d.index) == d.base) then
              after == d.(index := None, base := None, record := None, pendingDownload := false)
            else after == d
    ensures DeviceAfter(w, d, StopTracking) == d.(index := None, base := None)
  {
  }

  /** A conflict that dissolved before the user was asked settles the device; any other leaves it alone. */
  lemma ConvergedSettles(w: World, d: Device)
    ensures var after := DeviceAfter(w, d, Converged);
            if d.index.Some? && d.disk == HashOf(d.index) then after == d.(base := HashOf(d.index)) else after == d
  {
  }

  /**
   What the books say. A version leaves `held` only when the user overwrites or deletes it, and enters it
   whenever it comes to the disk; conflict copies are kept.
   */
  lemma BooksAreHonest(w: World, d: Device, a: Step, h: Hash)
    ensures var after := DeviceAfter(w, d, a);
            && (h in d.held && h !in after.held ==> (a.UserWrites? || a.UserDeletes?) && d.disk == Some(h))
            && (after.disk != d.disk && after.disk == Some(h) ==> h in after.held)
            && d.saved <= after.saved
            && (h in after.saved && h !in d.saved ==> d.disk == Some(h) || HashOf(d.index) == Some(h))
  {
    hide Lineage.Publish, DecideAt, Synced, Published, Candidate, MayPublish, Migrated, SeedBaseline;
  }

  /**
   A version counts as published only by being put in the index, and as stored only by being on the disk
   of the device that stores it.
   */
  lemma PublishedIsShared(w: World, d: Device, a: Step, h: Hash)
    ensures h in NewlyPublished(w, d, a) ==> HashOf(DeviceAfter(w, d, a).index) == Some(h)
    ensures h in Uploaded(d, a) ==> d.disk == Some(h)
  {
    hide LineageAfter, ReconcileNow, CommitTransfer, StoreBytes, SaveLocal, KeepLocal, CommitKeepRemote, Restart;
  }

  /** A step on one device changes no other; what is stored and published is never taken back. */
  lemma OtherDevicesUntouched(w: World, a: Action, id: nat)
    ensures var w' := Attachments.Next(w, a);
            && w.devices.Keys <= w'.devices.Keys && w.blobs <= w'.blobs && w.published <= w'.published
            && (id in w.devices && !(a.At? && a.id == id) ==> w'.devices[id] == w.devices[id])
            && (a.At? && a.id !in w.devices ==> w' == w)
            && (a.Join? && a.id !in w.devices ==>
                  a.id in w'.devices && w'.devices[a.id].disk == None && w'.devices[a.id].base == None
                  && w'.devices[a.id].index == None)
            && (a.OutsidePublish? ==> a.hash in w'.published && a.hash in w'.blobs)
  {
    hide DeviceAfter;
  }
}
