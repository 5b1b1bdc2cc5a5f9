/**
 One device's attachment sync for one path as an object (src/BinarySync.ts), its fields rewritten in
 place, and any number of such objects run against one server.
 */
module AttachmentSync {
  import opened Wrappers
  import opened Lineage
  import opened LocalState
  import opened Attachments

  class BinarySync {
    const tracksState: bool
    var disk: Option<Hash>
    var lastSyncedHash: Option<Hash>
    var entry: Option<Entry>
    var record: Option<PathState>
    var pendingDownload: bool
    var diskVersion: nat
    var uploads: set<Job>
    var transfers: set<Transfer>
    var choices: set<KeepRemote>
    var conflictCopies: set<Hash>
    ghost var held: set<Hash>

    ghost function View(): Device
      reads this
    {
      Device(
        tracksState, disk, lastSyncedHash, entry, record, pendingDownload, diskVersion,
        uploads, transfers, choices, conflictCopies, held)
    }

    constructor (tracksState: bool)
      ensures View() == NewDevice(tracksState)
    {
      this.tracksState := tracksState;
      disk, lastSyncedHash, entry, record := None, None, None, None;
      pendingDownload, diskVersion := false, 0;
      uploads, transfers, choices, conflictCopies, held := {}, {}, {}, {}, {};
    }

    // ----- parts of the handlers

    method MarkSynced(hash: Hash)
      modifies this`record
      ensures View() == Noted(old(View()), Synced(old(record), BinaryKind, hash, hash, true))
    {
      if tracksState {
        record := Some(Synced(record, BinaryKind, hash, hash, true));
      }
    }

    method QueueLocalUpload(expected: Option<Hash>)
      modifies this`uploads
      ensures View() == Carry(old(View()), Upload(expected), false)
    {
      if disk.Some? {
        uploads := uploads + {Job(disk.value, expected, diskVersion, false)};
      }
    }

    method DownloadToDisk(hash: Hash)
      modifies this`pendingDownload, this`transfers
      ensures View() == Carry(old(View()), Download(hash), false)
    {
      pendingDownload, transfers := true, transfers + {Transfer(hash, disk)};
    }

    /** Remove the local file, unless the vault refuses. */
    method DeleteFile(deleteOk: bool)
      modifies this
      ensures View() == Carry(old(View()), DeleteLocal, deleteOk)
    {
      if !deleteOk { return; }
      disk, lastSyncedHash, record := None, None, None;
    }

    /** Both sides are equal, or both absent. */
    method Settle()
      modifies this
      ensures View() == Carry(old(View()), if HasHash(HashOf(old(entry))) then Agreed else BothAbsent, false)
    {
      hide Synced;
      if HasHash(HashOf(entry)) {
        MarkSynced(entry.value.hash);
        lastSyncedHash := Some(entry.value.hash);
      } else {
        lastSyncedHash := None;
      }
      pendingDownload := false;
    }

    /** The file is there and the entry is not. */
    method ReconcileUnlisted(h: Hash, deleteOk: bool)
      modifies this
      ensures var base := old(lastSyncedHash);
              View() == Carry(old(View()),
                if base == None then Upload(None) else if base == Some(h) then DeleteLocal else AskUser, deleteOk)
    {
      if lastSyncedHash == None {
        QueueLocalUpload(None);
      } else if lastSyncedHash == Some(h) {
        DeleteFile(deleteOk);
      }
    }

    /** The entry is there and the file is not. */
    method ReconcileMissing(hash: Hash, f: Flags)
      modifies this
      ensures var seen := f.liveDelete || !old(pendingDownload);
              var deleted := old(lastSyncedHash) == Some(hash) && !f.initialPull && seen;
              View() == Carry(old(View()),
                if deleted then PublishDelete else if f.pendingRemoval then Leave else Download(hash), false)
    {
      if lastSyncedHash == Some(hash) && !f.initialPull && (f.liveDelete || !pendingDownload) {
        entry, lastSyncedHash, record := None, None, None;
      } else if !f.pendingRemoval {
        DownloadToDisk(hash);
      }
    }

    /** Both sides are present and differ. */
    method ReconcileDiverged(h: Hash, remote: Entry)
      requires disk == Some(h)
      modifies this`uploads, this`pendingDownload, this`transfers
      ensures View() ==
              Carry(old(View()), DecideDiverged(h, remote, lastSyncedHash, record, tracksState), false)
    {
      hide DescendsFrom;
      if lastSyncedHash == Some(remote.hash) {
        QueueLocalUpload(Some(remote.hash));
      } else if lastSyncedHash == Some(h) {
        var ownBase := record.Some? && record.value.identity == Known(h) && record.value.publishedFrom.Some?;
        if DescendsFrom(remote, h) {
          DownloadToDisk(remote.hash);
        } else if record.Some? && record.value.replacedIdentity == Some(Some(remote.hash)) {
          QueueLocalUpload(Some(remote.hash));
        } else if tracksState && !ownBase {
          DownloadToDisk(remote.hash);
        } else if remote.prev.None? {
          DownloadToDisk(remote.hash);
        }
      }
    }

    /** A file seen for the first time is recorded as a candidate. */
    method TrackFile(local: Read)
      modifies this`record
      ensures View() == Track(old(View()), local)
    {
      hide Candidate;
      if local.Present? && record.None? && tracksState {
        record := Some(Candidate(None, BinaryKind, Known(local.hash), Some(local.hash)));
      }
    }

    /** Compare what was read with the index entry and the baseline, and act. */
    method Compare(local: Read, f: Flags, readable: bool, deleteOk: bool)
      requires local == Look(View(), readable)
      modifies this
      ensures View() == Carry(old(View()), DecideAt(old(View()), local, f), deleteOk)
    {
      hide DecideDiverged, Carry;
      DecisionKeepsFile(View(), local, f, readable, deleteOk);
      var remoteHash := HashOf(entry);
      if !local.Unreadable? && Found(local) == remoteHash {
        Settle();
      } else if local.Unreadable? {
      } else if local.Present? && !HasHash(remoteHash) {
        ReconcileUnlisted(local.hash, deleteOk);
      } else if local.Absent? && HasHash(remoteHash) {
        ReconcileMissing(remoteHash.value, f);
      } else if local.Present? {
        ReconcileDiverged(local.hash, entry.value);
      }
    }

    // ----- the handlers

    /**
     Read, hash, decide and act. The local file is touched only if it is the version this device last
     agreed on and the entry is gone.
     */
    method Reconcile(f: Flags, readable: bool, deleteOk: bool)
      modifies this
      ensures View() == ReconcileNow(old(View()), f, readable, deleteOk)
      ensures disk != old(disk) ==>
                disk == None && old(lastSyncedHash) == old(disk) && !HasHash(HashOf(old(entry)))
    {
      hide Decide, Carry, Candidate;
      var local := if !readable then Unreadable else if disk.None? then Absent else Present(disk.value);
      TrackFile(local);
      DecisionKeepsFile(View(), local, f, readable, deleteOk);
      Compare(local, f, readable, deleteOk);
    }

    /** The end of a download: write only if index and disk are still what they were when it was decided. */
    method TransferToDisk(t: Transfer, verified: bool)
      requires t in transfers
      modifies this
      ensures View() == CommitTransfer(old(View()), t, verified)
      ensures disk != old(disk) ==>
                old(disk) == t.expected && HashOf(old(entry)) == Some(t.hash) && disk == Some(t.hash)
    {
      hide Synced;
      transfers := transfers - {t};
      if HashOf(entry) != Some(t.hash) || disk != t.expected {
        pendingDownload := false;
        return;
      }
      disk := Some(t.hash);
      held := held + {t.hash};
      if !verified { return; }
      MarkSynced(t.hash);
      lastSyncedHash, pendingDownload := Some(t.hash), false;
    }

    /** The first half of an upload: send the bytes if the file still is what was queued. */
    method SendBytes(j: Job) returns (sent: bool)
      requires j in uploads
      modifies this
      ensures View() == StoreBytes(old(View()), j) && disk == old(disk)
      ensures sent == (disk == Some(j.hash))
    {
      uploads := uploads - {j};
      sent := disk == Some(j.hash);
      if sent {
        uploads := uploads + {j.(stored := true)};
      }
    }

    /** The second half: publish only if neither the file nor the entry changed meanwhile. */
    method PublishUpload(j: Job) returns (published: bool)
      requires j in uploads
      modifies this
      ensures View() == CommitUpload(old(View()), j)
      ensures published == MayPublish(old(View()), j)
      ensures !published ==> entry == old(entry)
      ensures published ==>
                && j.stored && old(diskVersion) == j.diskVersion && HashOf(old(entry)) == j.expected
                && HashOf(entry) == Some(j.hash) && entry.value.prev == Some(j.expected)
    {
      hide Published, LineageAfter;
      uploads := uploads - {j};
      if !j.stored || diskVersion != j.diskVersion || HashOf(entry) != j.expected { return false; }
      entry := Some(Lineage.Publish(entry, j.hash));
      lastSyncedHash := Some(j.hash);
      if tracksState {
        record := Some(Published(record, BinaryKind, j.hash, j.expected));
      }
      published := true;
    }

    /** The user keeps the remote side: the local version is saved first. */
    method ChooseRemote()
      modifies this
      ensures View() == SaveLocal(old(View()))
      ensures disk.Some? ==> disk.value in conflictCopies
    {
      if disk.Some? { conflictCopies := conflictCopies + {disk.value}; }
      choices := choices + {KeepRemote(disk, HashOf(entry))};
    }

    /** The choice is acted on only if file and entry are the very versions it was made for. */
    method ApplyKeepRemote(c: KeepRemote, deleteOk: bool)
      requires c in choices
      modifies this
      ensures View() == CommitKeepRemote(old(View()), c, deleteOk)
      ensures disk != old(disk) ==> old(disk) == c.local && HashOf(old(entry)) == c.remote == None && disk == None
    {
      choices := choices - {c};
      if disk != c.local || HashOf(entry) != c.remote { return; }
      if c.remote.None? {
        DeleteFile(deleteOk);
      } else {
        pendingDownload, transfers := true, transfers + {Transfer(c.remote.value, c.local)};
      }
    }

    /** The user keeps the local side: the remote version is saved and the local one queued over it. */
    method ChooseLocal()
      modifies this
      ensures View() == KeepLocal(old(View()))
      ensures entry.Some? ==> entry.value.hash in conflictCopies
    {
      if entry.Some? { conflictCopies := conflictCopies + {entry.value.hash}; }
      if disk.Some? { uploads := uploads + {Job(disk.value, HashOf(entry), diskVersion, false)}; }
    }

    /** A new session: the baseline is seeded from the device-local record or the index. */
    method BeginSession()
      modifies this
      ensures View() == Attachments.Restart(old(View()))
    {
      if tracksState && record.Some? && HasHash(HashOf(entry)) && record.value.identity == Unknown {
        record := Some(record.value.(
          kind := BinaryKind, identity := Known(entry.value.hash), candidate := Some(false)));
      }
      lastSyncedHash := SeedBaseline(entry, record, tracksState);
      pendingDownload, uploads, transfers, choices := false, {}, {}, {};
    }

    /** What the user, the network and the rest of the plugin do to the path. */
    method Interfere(ghost w: World, blobs: set<Hash>, published: set<Hash>, a: Step)
      requires w.blobs == blobs && w.published == published
      requires a.UserWrites? || a.UserDeletes? || a.RemoteChange? || a.DropJob? || a.Converged?
               || a.RestoreEntry? || a.StopTracking? || a.ReleaseMoved?
      modifies this
      ensures View() == DeviceAfter(w, old(View()), a)
    {
      hide LineageAfter, ReconcileNow, CommitTransfer, CommitUpload, StoreBytes, SaveLocal, KeepLocal;
      hide CommitKeepRemote, Attachments.Restart;
      if a.UserWrites? || a.UserDeletes? {
        if disk.Some? { held := held - {disk.value}; }
        if a.noticed { diskVersion := diskVersion + 1; }
        disk := None;
        if a.UserWrites? {
          disk := Some(a.hash);
          held := held + {a.hash};
        }
      } else if a.RemoteChange? {
        if a.entry.None? || a.entry.value.hash in published { entry := a.entry; }
      } else if a.DropJob? {
        uploads := uploads - {a.job};
      } else if a.Converged? {
        if entry.Some? && disk == HashOf(entry) { lastSyncedHash := disk; }
      } else if a.RestoreEntry? {
        if a.hash in blobs { entry, lastSyncedHash := Some(Lineage.Publish(entry, a.hash)), None; }
      } else if a.StopTracking? {
        entry, lastSyncedHash := None, None;
      } else if disk.None? && (entry.None? || HashOf(entry) == lastSyncedHash) {
        entry, lastSyncedHash, record, pendingDownload := None, None, None, false;
      }
    }

    /** One step; the bytes it stored on the server and the hash it put in the shared index. */
    method Perform(ghost w: World, blobs: set<Hash>, published: set<Hash>, a: Step)
      returns (stored: set<Hash>, shared: set<Hash>)
      requires w.blobs == blobs && w.published == published
      modifies this
      ensures View() == DeviceAfter(w, old(View()), a)
      ensures stored == Uploaded(old(View()), a) && shared == NewlyPublished(w, old(View()), a)
    {
      hide ReconcileNow, CommitTransfer, CommitUpload, StoreBytes, SaveLocal, KeepLocal, CommitKeepRemote;
      hide Attachments.Restart;
      stored, shared := {}, {};
      match a
      case Reconcile(f, readable, deleteOk) => Reconcile(f, readable, deleteOk);
      case FinishDownload(t, verified) => if t in transfers { TransferToDisk(t, verified); }
      case StoreBlob(j) =>
        if j in uploads {
          var sent := SendBytes(j);
          if sent { stored := {j.hash}; }
        }
      case FinishUpload(j) =>
        if j in uploads {
          var done := PublishUpload(j);
          if done { shared := {j.hash}; }
        }
      case ChooseRemote => ChooseRemote();
      case FinishChooseRemote(c, deleteOk) => if c in choices { ApplyKeepRemote(c, deleteOk); }
      case ChooseLocal => ChooseLocal();
      case RestartDevice => BeginSession();
      case UserWrites(_, _) => Interfere(w, blobs, published, a);
      case UserDeletes(_) => Interfere(w, blobs, published, a);
      case RemoteChange(_) => Interfere(w, blobs, published, a);
      case DropJob(_) => Interfere(w, blobs, published, a);
      case Converged => Interfere(w, blobs, published, a);
      case RestoreEntry(hash) =>
        Interfere(w, blobs, published, a);
        if hash in blobs { shared := {hash}; }
      case StopTracking => Interfere(w, blobs, published, a);
      case ReleaseMoved => Interfere(w, blobs, published, a);
    }
  }

  /** A decision other than to delete does not depend on whether the file may be deleted, and keeps it. */
  lemma DecisionKeepsFile(d: Device, local: Read, f: Flags, readable: bool, deleteOk: bool)
    requires local == Look(d, readable)
    ensures var decision := DecideAt(d, local, f);
            && (decision.DeleteLocal? ==> !HasHash(HashOf(d.index)))
            && (!decision.DeleteLocal? ==> Carry(d, decision, deleteOk) == Carry(d, decision, false))
            && (decision == Leave ==> Carry(d, decision, false) == d)
            && (Carry(d, decision, deleteOk).disk != d.disk ==>
                  && Carry(d, decision, deleteOk).disk == None
                  && d.base == d.disk && !HasHash(HashOf(d.index)))
  {
    hide DescendsFrom, Synced;
  }

  lemma RunStep(w: World, actions: seq<Action>, i: nat)
    requires i < |actions|
    ensures Run(w, actions[i..]) == Run(Attachments.Next(w, actions[i]), actions[i + 1..])
  {
    hide Attachments.Next;
    assert actions[i..][1..] == actions[i + 1..];
  }

  /**
   Run any number of devices through any interleaving of steps. Every version that was ever on a
   device's disk, and that its user did not overwrite or delete, is then still there, or saved beside
   it, or published with its bytes on the server.
   */
  method RunDevices(actions: seq<Action>)
    returns (devices: map<nat, BinarySync>, blobs: set<Hash>, published: set<Hash>)
    ensures forall id :: id in devices ==> fresh(devices[id])
    ensures var w := Run(EMPTY_WORLD, actions);
            && w.devices.Keys == devices.Keys && w.blobs == blobs && w.published == published
            && forall id :: id in devices ==> devices[id].View() == w.devices[id]
    ensures forall id, h :: id in devices && h in devices[id].held ==>
              || devices[id].disk == Some(h)
              || h in devices[id].conflictCopies
              || (h in published && h in blobs)
  {
    hide Run, DeviceAfter, Uploaded, NewlyPublished;
    devices, blobs, published := map[], {}, {};
    ghost var w := EMPTY_WORLD;
    for i := 0 to |actions|
      invariant Run(w, actions[i..]) == Run(EMPTY_WORLD, actions)
      invariant w.blobs == blobs && w.published == published && w.devices.Keys == devices.Keys
      invariant forall id :: id in devices ==> fresh(devices[id]) && devices[id].View() == w.devices[id]
      invariant forall id, other :: id in devices && other in devices && id != other ==> devices[id] != devices[other]
    {
      RunStep(w, actions, i);
      match actions[i] {
        case Join(id, tracksState) =>
          if id !in devices {
            var device := new BinarySync(tracksState);
            devices := devices[id := device];
          }
        case OutsidePublish(hash) => blobs, published := blobs + {hash}, published + {hash};
        case At(id, step) =>
          if id in devices {
            var stored, shared := devices[id].Perform(w, blobs, published, step);
            blobs, published := blobs + stored, published + shared;
          }
      }
      w := Attachments.Next(w, actions[i]);
    }
    assert actions[|actions|..] == [];
    RunNothing(w);
    forall id, h | id in devices && h in devices[id].held
      ensures devices[id].disk == Some(h) || h in devices[id].conflictCopies || (h in published && h in blobs)
    {
      assert h in devices[id].View().held;
      NothingIsLost(actions, id, h);
    }
  }

  lemma RunNothing(w: World)
    ensures Run(w, []) == w
  {
  }
}
