/**
 Attachment sync for one path on any number of devices (src/BinarySync.ts). Contents are their
 hashes. Reading, hashing and deciding is one step; an upload and a download are two steps each,
 a start and a guarded commit, with anything happening in between; so is resolving a conflict.

 Each device sees its own replica of the shared index entry, which a remote change may set to any
 published version or clear at any time.
 */
module Attachments {
  import opened Wrappers
  import opened Lineage
  import opened LocalState

  datatype Read = Unreadable | Absent | Present(hash: Hash)

  datatype Decision =
    | Agreed
    | BothAbsent
    | Leave
    | Upload(expected: Option<Hash>)
    | DeleteLocal
    | AskUser
    | PublishDelete
    | Download(hash: Hash)

  /** What a reconcile knows besides the hashes. */
  datatype Flags = Flags(initialPull: bool, liveDelete: bool, pendingRemoval: bool)

  function Found(local: Read): Option<Hash> {
    if local.Present? then Some(local.hash) else None
  }

  predicate HasHash(h: Option<Hash>) {
    h.Some? && h.value != ""
  }

  /** Both sides are present and differ. */
  function DecideDiverged(
    h: Hash, remote: Entry, base: Option<Hash>, state: Option<PathState>, tracksState: bool): Decision
  {
    if base == Some(remote.hash) then Upload(Some(remote.hash))
    else if base == Some(h) then
      var ownBase := state.Some? && state.value.identity == Known(h) && state.value.publishedFrom.Some?;
      if DescendsFrom(remote, h) then Download(remote.hash)
      else if state.Some? && state.value.replacedIdentity == Some(Some(remote.hash)) then Upload(Some(remote.hash))
      else if tracksState && !ownBase then Download(remote.hash)
      else if remote.prev.None? then Download(remote.hash)
      else AskUser
    else AskUser
  }

  /** The three-hash decision: disk, index entry, and the last hash this device agreed on. */
  function Decide(
    local: Read, remote: Option<Entry>, base: Option<Hash>, state: Option<PathState>,
    tracksState: bool, pendingDownload: bool, f: Flags): Decision
  {
    var remoteHash := HashOf(remote);
    if !local.Unreadable? && Found(local) == remoteHash then
      if HasHash(remoteHash) then Agreed else BothAbsent
    else if local.Unreadable? then Leave
    else if local.Present? && !HasHash(remoteHash) then
      if base == None then Upload(None)
      else if base == Some(local.hash) then DeleteLocal
      else AskUser
    else if local.Absent? && HasHash(remoteHash) then
      if base == remoteHash && !f.initialPull && (f.liveDelete || !pendingDownload) then PublishDelete
      else if f.pendingRemoval then Leave
      else Download(remoteHash.value)
    else if local.Present? then DecideDiverged(local.hash, remote.value, base, state, tracksState)
    else Leave
  }

  /** A decision touches the local file only if the file is the version this device last agreed on. */
  lemma OnlyBaselineIsReplaced(
    local: Read, remote: Option<Entry>, base: Option<Hash>, state: Option<PathState>,
    tracksState: bool, pendingDownload: bool, f: Flags)
    requires local.Present?
    ensures var d := Decide(local, remote, base, state, tracksState, pendingDownload, f);
            d.DeleteLocal? || d.Download? ==> base == Some(local.hash)
    ensures Decide(local, remote, base, state, tracksState, pendingDownload, f).Download? ==>
              HashOf(remote) == Some(Decide(local, remote, base, state, tracksState, pendingDownload, f).hash)
  {
  }

  /** The remote side may have overtaken a publish of ours: it neither descends from it nor is known to be clean. */
  predicate RacedOurPublish(h: Hash, remote: Entry, state: Option<PathState>, tracksState: bool) {
    && !DescendsFrom(remote, h)
    && remote.prev.Some?
    && (tracksState ==> state.Some? && state.value.identity == Known(h) && state.value.publishedFrom.Some?)
  }

  /** Our last publish replaced exactly the version the index shows: that publish never arrived. */
  predicate LostOurPublish(h: Hash, remote: Entry, state: Option<PathState>) {
    !DescendsFrom(remote, h) && state.Some? && state.value.replacedIdentity == Some(Some(remote.hash))
  }

  /**
   The decision is the three-way one. A side moved if it is not at the baseline. If only the local
   side moved it is published; if only the remote side moved it is taken, unless it raced or lost a
   publish of ours; if both moved to different contents the user is asked. A missing file counts as
   deleted only when nothing suggests that it was never pulled.
   */
  lemma DecisionIsThreeWay(
    local: Read, remote: Option<Entry>, base: Option<Hash>, state: Option<PathState>,
    tracksState: bool, pendingDownload: bool, f: Flags)
    requires !local.Unreadable? && (remote.Some? ==> remote.value.hash != "")
    ensures var d := Decide(local, remote, base, state, tracksState, pendingDownload, f);
            var localMoved, remoteMoved := Found(local) != base, HashOf(remote) != base;
            var notPulled := f.initialPull || (pendingDownload && !f.liveDelete);
            if Found(local) == HashOf(remote) then d == (if remote.Some? then Agreed else BothAbsent)
            else if local.Absent? && (remoteMoved || notPulled) then
              d == (if f.pendingRemoval then Leave else Download(remote.value.hash))
            else if !remoteMoved then d == (if local.Absent? then PublishDelete else Upload(base))
            else if localMoved then d == AskUser
            else if remote.None? then d == DeleteLocal
            else if LostOurPublish(local.hash, remote.value, state) then d == Upload(HashOf(remote))
            else if RacedOurPublish(local.hash, remote.value, state, tracksState) then d == AskUser
            else d == Download(remote.value.hash)
  {
  }

  // ----- one device

  datatype Job = Job(hash: Hash, expected: Option<Hash>, diskVersion: nat, stored: bool)

  datatype Transfer = Transfer(hash: Hash, expected: Option<Hash>)

  /** The user chose the remote side of a conflict, and the local one is saved beside the path. */
  datatype KeepRemote = KeepRemote(local: Option<Hash>, remote: Option<Hash>)

  /**
   `saved` are the contents of conflict copies. `held` are the versions that were on this disk and
   that the user did not overwrite or delete.
   */
  datatype Device = Device(
    tracksState: bool,
    disk: Option<Hash>,
    base: Option<Hash>,
    index: Option<Entry>,
    record: Option<PathState>,
    pendingDownload: bool,
    diskVersion: nat,
    jobs: set<Job>,
    transfers: set<Transfer>,
    choices: set<KeepRemote>,
    saved: set<Hash>,
    held: set<Hash>)

  function NewDevice(tracksState: bool): Device {
    Device(tracksState, None, None, None, None, false, 0, {}, {}, {}, {}, {})
  }

  function Look(d: Device, readable: bool): Read {
    if !readable then Unreadable else if d.disk.None? then Absent else Present(d.disk.value)
  }

  /** Write the device-local record, on devices that keep one. */
  function Noted(d: Device, r: PathState): Device {
    if d.tracksState then d.(record := Some(r)) else d
  }

  function RemoveLocal(d: Device): Device {
    d.(disk := None, base := None, record := None)
  }

  /** The effects of a decision at the moment it is made. `deleteOk`: the vault lets the file be deleted. */
  function Carry(d: Device, decision: Decision, deleteOk: bool): Device {
    match decision
    case Agreed =>
      if d.index.None? then d
      else
        var h := d.index.value.hash;
        Noted(d, Synced(d.record, BinaryKind, h, h, true)).(base := Some(h), pendingDownload := false)
    case BothAbsent => d.(base := None, pendingDownload := false)
    case Leave => d
    case Upload(expected) =>
      if d.disk.None? then d else d.(jobs := d.jobs + {Job(d.disk.value, expected, d.diskVersion, false)})
    case DeleteLocal => if deleteOk then RemoveLocal(d) else d
    case AskUser => d
    case PublishDelete => d.(index := None, base := None, record := None)
    case Download(hash) => d.(pendingDownload := true, transfers := d.transfers + {Transfer(hash, d.disk)})
  }

  /** A file seen for the first time is recorded as a candidate. */
  function Track(d: Device, local: Read): Device {
    if local.Present? && d.record.None?
    then Noted(d, Candidate(None, BinaryKind, Known(local.hash), Some(local.hash)))
    else d
  }

  function DecideAt(d: Device, local: Read, f: Flags): Decision {
    Decide(local, d.index, d.base, d.record, d.tracksState, d.pendingDownload, f)
  }

  function ReconcileNow(d: Device, f: Flags, readable: bool, deleteOk: bool): Device {
    var local := Look(d, readable);
    var tracked := Track(d, local);
    Carry(tracked, DecideAt(tracked, local, f), deleteOk)
  }

  /** The guarded end of a download: nothing moved since it was decided. `verified`: the write reads back. */
  function CommitTransfer(d: Device, t: Transfer, verified: bool): Device {
    var done := d.(transfers := d.transfers - {t});
    if HashOf(d.index) != Some(t.hash) || d.disk != t.expected then done.(pendingDownload := false)
    else
      var written := done.(disk := Some(t.hash), held := d.held + {t.hash});
      if !verified then written
      else
        var noted := Noted(written, Synced(d.record, BinaryKind, t.hash, t.hash, true));
        noted.(base := Some(t.hash), pendingDownload := false)
  }

  /** The bytes of a queued upload reach the blob store if the file still is what was queued. */
  function StoreBytes(d: Device, j: Job): Device {
    var rest := d.(jobs := d.jobs - {j});
    if d.disk == Some(j.hash) then rest.(jobs := rest.jobs + {j.(stored := true)}) else rest
  }

  predicate MayPublish(d: Device, j: Job) {
    j.stored && d.diskVersion == j.diskVersion && HashOf(d.index) == j.expected
  }

  /** The guarded end of an upload. */
  function CommitUpload(d: Device, j: Job): Device {
    var rest := d.(jobs := d.jobs - {j});
    if !MayPublish(d, j) then rest
    else Noted(rest, Published(d.record, BinaryKind, j.hash, j.expected)).(
      index := Some(Lineage.Publish(d.index, j.hash)),
      base := Some(j.hash))
  }

  /** Choosing the remote side saves the local one first; a copy that raced a change is not acted on. */
  function SaveLocal(d: Device): Device {
    d.(
      saved := if d.disk.Some? then d.saved + {d.disk.value} else d.saved,
      choices := d.choices + {KeepRemote(d.disk, HashOf(d.index))})
  }

  function CommitKeepRemote(d: Device, c: KeepRemote, deleteOk: bool): Device {
    var rest := d.(choices := d.choices - {c});
    if d.disk != c.local || HashOf(d.index) != c.remote then rest
    else if c.remote.None? then (if deleteOk then RemoveLocal(rest) else rest)
    else rest.(pendingDownload := true, transfers := d.transfers + {Transfer(c.remote.value, c.local)})
  }

  /** Choosing the local side saves the remote one and queues the local one over it. */
  function KeepLocal(d: Device): Device {
    var withCopy := if d.index.Some? then d.(saved := d.saved + {d.index.value.hash}) else d;
    if d.disk.None? then withCopy
    else withCopy.(jobs := d.jobs + {Job(d.disk.value, HashOf(d.index), d.diskVersion, false)})
  }

  /** The baseline a device starts a session with. */
  function SeedBaseline(index: Option<Entry>, record: Option<PathState>, tracksState: bool): Option<Hash> {
    var known := if record.Some? && record.value.identity.Known? then Some(record.value.identity.id) else None;
    var settled := record.Some? && record.value.candidate != Some(true);
    if settled && HasHash(known) && record.value.kind == BinaryKind && record.value.fingerprint == known then known
    else if HasHash(HashOf(index)) && (!tracksState || (settled && known == HashOf(index))) then HashOf(index)
    else None
  }

  function Restart(d: Device): Device {
    var migrated :=
      if d.tracksState && d.record.Some? && HasHash(HashOf(d.index))
      then Some(Migrated(d.record.value, BinaryKind, d.index.value.hash))
      else d.record;
    d.(
      record := migrated,
      base := SeedBaseline(d.index, migrated, d.tracksState),
      pendingDownload := false, jobs := {}, transfers := {}, choices := {})
  }

  // ----- the world

  /** `published` are the hashes that were ever in the index; `blobs` those whose bytes the server stores. */
  datatype World = World(devices: map<nat, Device>, blobs: set<Hash>, published: set<Hash>)

  /** What can happen on a device; the first two are the user's doing, the third the network's. */
  datatype Step =
    | UserWrites(hash: Hash, noticed: bool)
    | UserDeletes(noticed: bool)
    | RemoteChange(entry: Option<Entry>)
    | Reconcile(flags: Flags, readable: bool, deleteOk: bool)
    | FinishDownload(transfer: Transfer, verified: bool)
    | StoreBlob(job: Job)
    | FinishUpload(job: Job)
    | DropJob(job: Job)
    | ChooseRemote
    | FinishChooseRemote(choice: KeepRemote, deleteOk: bool)
    | ChooseLocal
    | Converged
    | RestoreEntry(hash: Hash)
    | StopTracking
    | ReleaseMoved
    | RestartDevice

  datatype Action = Join(id: nat, tracksState: bool) | OutsidePublish(hash: Hash) | At(id: nat, step: Step)

  /** What one device's state becomes; `w` supplies the server's side. */
  function DeviceAfter(w: World, d: Device, a: Step): Device {
    match a
    case UserWrites(hash, noticed) =>
      d.(
        disk := Some(hash),
        held := (if d.disk.Some? then d.held - {d.disk.value} else d.held) + {hash},
        diskVersion := if noticed then d.diskVersion + 1 else d.diskVersion)
    case UserDeletes(noticed) =>
      d.(
        disk := None,
        held := if d.disk.Some? then d.held - {d.disk.value} else d.held,
        diskVersion := if noticed then d.diskVersion + 1 else d.diskVersion)
    case RemoteChange(entry) => if entry.Some? && entry.value.hash !in w.published then d else d.(index := entry)
    case Reconcile(flags, readable, deleteOk) => ReconcileNow(d, flags, readable, deleteOk)
    case FinishDownload(t, verified) => if t in d.transfers then CommitTransfer(d, t, verified) else d
    case StoreBlob(j) => if j in d.jobs then StoreBytes(d, j) else d
    case FinishUpload(j) => if j in d.jobs then CommitUpload(d, j) else d
    case DropJob(j) => d.(jobs := d.jobs - {j})
    case ChooseRemote => SaveLocal(d)
    case FinishChooseRemote(c, deleteOk) => if c in d.choices then CommitKeepRemote(d, c, deleteOk) else d
    case ChooseLocal => KeepLocal(d)
    case Converged => if d.index.Some? && d.disk == HashOf(d.index) then d.(base := d.disk) else d
    case RestoreEntry(hash) =>
      if hash in w.blobs then d.(index := Some(Lineage.Publish(d.index, hash)), base := None) else d
    case StopTracking => d.(index := None, base := None)
    case ReleaseMoved =>
      if d.disk.Some? || (d.index.Some? && HashOf(d.index) != d.base) then d
      else d.(index := None, base := None, record := None, pendingDownload := false)
    case RestartDevice => Restart(d)
  }

  /** The bytes a step puts in the blob store. */
  function Uploaded(d: Device, a: Step): set<Hash> {
    if a.StoreBlob? && a.job in d.jobs && d.disk == Some(a.job.hash) then {a.job.hash} else {}
  }

  /** The hash a step puts in the shared index. */
  function NewlyPublished(w: World, d: Device, a: Step): set<Hash> {
    if a.FinishUpload? && a.job in d.jobs && MayPublish(d, a.job) then {a.job.hash}
    else if a.RestoreEntry? && a.hash in w.blobs then {a.hash}
    else {}
  }

  function Next(w: World, a: Action): World {
    match a
    case Join(id, tracksState) => if id in w.devices then w else w.(devices := w.devices[id := NewDevice(tracksState)])
    case OutsidePublish(hash) => w.(blobs := w.blobs + {hash}, published := w.published + {hash})
    case At(id, step) =>
      if id !in w.devices then w
      else
        var d := w.devices[id];
        World(
          w.devices[id := DeviceAfter(w, d, step)],
          w.blobs + Uploaded(d, step),
          w.published + NewlyPublished(w, d, step))
  }

  function Run(w: World, actions: seq<Action>): World
    decreases |actions|
  {
    if actions == [] then w else Run(Next(w, actions[0]), actions[1..])
  }

  const EMPTY_WORLD := World(map[], {}, {})

  // ----- the invariant

  predicate SafeHash(h: Option<Hash>, published: set<Hash>, saved: set<Hash>) {
    h.Some? ==> h.value in published || h.value in saved
  }

  /** A settled record whose identity is its own fingerprint names a published version. */
  predicate RecordPublished(r: Option<PathState>, published: set<Hash>) {
    && r.Some? && r.value.candidate != Some(true) && r.value.identity.Known?
    && r.value.fingerprint == Some(r.value.identity.id)
    ==> r.value.identity.id in published
  }

  predicate DeviceSafe(d: Device, blobs: set<Hash>, published: set<Hash>) {
    && (d.base.Some? ==> d.base.value in published)
    && (d.index.Some? ==> d.index.value.hash in published)
    && RecordPublished(d.record, published)
    && (forall t :: t in d.transfers ==> SafeHash(t.expected, published, d.saved))
    && (forall c :: c in d.choices ==> SafeHash(c.local, published, d.saved))
    && (forall j :: j in d.jobs && j.stored ==> j.hash in blobs)
    && (forall h :: h in d.held ==> d.disk == Some(h) || h in published || h in d.saved)
    && (d.disk.Some? ==> d.disk.value in d.held)
  }

  predicate Safe(w: World) {
    && w.published <= w.blobs
    && (forall id :: id in w.devices ==> DeviceSafe(w.devices[id], w.blobs, w.published))
  }

  // ----- every step is safe

  lemma MoreIsSafer(d: Device, blobs: set<Hash>, published: set<Hash>, blobs': set<Hash>, published': set<Hash>)
    requires DeviceSafe(d, blobs, published) && blobs <= blobs' && published <= published'
    ensures DeviceSafe(d, blobs', published')
  {
  }

  lemma CarrySafe(d: Device, decision: Decision, deleteOk: bool, blobs: set<Hash>, published: set<Hash>)
    requires DeviceSafe(d, blobs, published)
    requires (decision.DeleteLocal? || decision.Download?) && d.disk.Some? ==> d.base == d.disk
    ensures DeviceSafe(Carry(d, decision, deleteOk), blobs, published)
  {
    match decision
    case Agreed =>
    case BothAbsent =>
    case Leave =>
    case Upload(_) =>
    case DeleteLocal =>
    case AskUser =>
    case PublishDelete =>
    case Download(hash) => assert SafeHash(d.disk, published, d.saved);
  }

  lemma ReconcileSafe(d: Device, f: Flags, readable: bool, deleteOk: bool, blobs: set<Hash>, published: set<Hash>)
    requires DeviceSafe(d, blobs, published)
    ensures DeviceSafe(ReconcileNow(d, f, readable, deleteOk), blobs, published)
  {
    hide DecideDiverged, Carry, Decide;
    var local := Look(d, readable);
    var tracked := Track(d, local);
    DecisionIsSafe(tracked, readable, f);
    CarrySafe(tracked, DecideAt(tracked, local, f), deleteOk, blobs, published);
  }

  lemma DecisionIsSafe(d: Device, readable: bool, f: Flags)
    ensures var decision := DecideAt(d, Look(d, readable), f);
            (decision.DeleteLocal? || decision.Download?) && d.disk.Some? ==> d.base == d.disk
  {
    var local := Look(d, readable);
    if local.Present? {
      OnlyBaselineIsReplaced(local, d.index, d.base, d.record, d.tracksState, d.pendingDownload, f);
    }
  }

  lemma TransferSafe(d: Device, t: Transfer, verified: bool, blobs: set<Hash>, published: set<Hash>)
    requires DeviceSafe(d, blobs, published) && t in d.transfers
    ensures DeviceSafe(CommitTransfer(d, t, verified), blobs, published)
  {
  }

  lemma UploadSafe(d: Device, j: Job, blobs: set<Hash>, published: set<Hash>)
    requires DeviceSafe(d, blobs, published) && j in d.jobs
    ensures DeviceSafe(StoreBytes(d, j), if d.disk == Some(j.hash) then blobs + {j.hash} else blobs, published)
    ensures MayPublish(d, j) ==> j.hash in blobs
    ensures DeviceSafe(CommitUpload(d, j), blobs, if MayPublish(d, j) then published + {j.hash} else published)
  {
    hide LineageAfter;
  }

  lemma ChoiceSafe(d: Device, blobs: set<Hash>, published: set<Hash>)
    requires DeviceSafe(d, blobs, published)
    ensures DeviceSafe(SaveLocal(d), blobs, published)
    ensures DeviceSafe(KeepLocal(d), blobs, published)
  {
  }

  lemma KeepRemoteSafe(d: Device, c: KeepRemote, deleteOk: bool, blobs: set<Hash>, published: set<Hash>)
    requires DeviceSafe(d, blobs, published) && c in d.choices
    ensures DeviceSafe(CommitKeepRemote(d, c, deleteOk), blobs, published)
  {
  }

  lemma RestartSafe(d: Device, blobs: set<Hash>, published: set<Hash>)
    requires DeviceSafe(d, blobs, published)
    ensures DeviceSafe(Restart(d), blobs, published)
  {
  }

  lemma StepSafe(w: World, d: Device, a: Step)
    requires Safe(w) && DeviceSafe(d, w.blobs, w.published)
    ensures var blobs, published := w.blobs + Uploaded(d, a), w.published + NewlyPublished(w, d, a);
            published <= blobs && DeviceSafe(DeviceAfter(w, d, a), blobs, published)
  {
    hide ReconcileNow, CommitTransfer, CommitUpload, StoreBytes, SaveLocal, KeepLocal;
    hide CommitKeepRemote, Restart, DeviceSafe;
    assert w.blobs + {} == w.blobs && w.published + {} == w.published;
    match a
    case Reconcile(f, readable, deleteOk) => ReconcileSafe(d, f, readable, deleteOk, w.blobs, w.published);
    case FinishDownload(t, verified) => if t in d.transfers { TransferSafe(d, t, verified, w.blobs, w.published); }
    case StoreBlob(j) => if j in d.jobs { UploadSafe(d, j, w.blobs, w.published); }
    case FinishUpload(j) => if j in d.jobs { UploadSafe(d, j, w.blobs, w.published); }
    case ChooseRemote => ChoiceSafe(d, w.blobs, w.published);
    case FinishChooseRemote(c, deleteOk) => if c in d.choices { KeepRemoteSafe(d, c, deleteOk, w.blobs, w.published); }
    case ChooseLocal => ChoiceSafe(d, w.blobs, w.published);
    case RestartDevice => RestartSafe(d, w.blobs, w.published);
    case UserWrites(_, _) => OtherSafe(w, d, a);
    case UserDeletes(_) => OtherSafe(w, d, a);
    case RemoteChange(_) => OtherSafe(w, d, a);
    case DropJob(_) => OtherSafe(w, d, a);
    case Converged => OtherSafe(w, d, a);
    case RestoreEntry(_) => OtherSafe(w, d, a);
    case StopTracking => OtherSafe(w, d, a);
    case ReleaseMoved => OtherSafe(w, d, a);
  }

  lemma OtherSafe(w: World, d: Device, a: Step)
    requires Safe(w) && DeviceSafe(d, w.blobs, w.published)
    requires a.UserWrites? || a.UserDeletes? || a.RemoteChange? || a.DropJob? || a.Converged?
             || a.RestoreEntry? || a.StopTracking? || a.ReleaseMoved?
    ensures DeviceSafe(DeviceAfter(w, d, a), w.blobs, w.published + NewlyPublished(w, d, a))
  {
    hide LineageAfter;
  }

  /** Every action keeps the world safe. */
  lemma NextSafe(w: World, a: Action)
    requires Safe(w)
    ensures Safe(Next(w, a))
  {
    hide DeviceSafe, DeviceAfter, Uploaded, NewlyPublished;
    var w' := Next(w, a);
    if a.At? && a.id in w.devices {
      StepSafe(w, w.devices[a.id], a.step);
    }
    if a.Join? { NewDeviceSafe(a.tracksState, w.blobs, w.published); }
    forall id | id in w'.devices ensures DeviceSafe(w'.devices[id], w'.blobs, w'.published) {
      if id in w.devices && !(a.At? && a.id == id) {
        MoreIsSafer(w.devices[id], w.blobs, w.published, w'.blobs, w'.published);
      }
    }
  }

  lemma NewDeviceSafe(tracksState: bool, blobs: set<Hash>, published: set<Hash>)
    ensures DeviceSafe(NewDevice(tracksState), blobs, published)
  {
  }

  /** Every run of any number of devices is safe throughout. */
  lemma {:induction false} RunSafe(w: World, actions: seq<Action>)
    requires Safe(w)
    ensures Safe(Run(w, actions))
    decreases |actions|
  {
    hide Next, Safe;
    if actions != [] {
      NextSafe(w, actions[0]);
      RunSafe(Next(w, actions[0]), actions[1..]);
    }
  }

  // ----- what safety means

  /** A step of the sync, as opposed to one of the user. */
  predicate IsSyncStep(a: Step) {
    !a.UserWrites? && !a.UserDeletes?
  }

  /**
   In every reachable world, under every interleaving: a sync step that takes a version off a disk
   takes one that is already published, its bytes stored on the server, or one that was saved as a
   conflict copy on that device.
   */
  lemma NoSyncStepLosesAVersion(actions: seq<Action>, id: nat, a: Step)
    requires id in Run(EMPTY_WORLD, actions).devices && IsSyncStep(a)
    ensures var w := Run(EMPTY_WORLD, actions);
            var before, after := w.devices[id], Next(w, At(id, a)).devices[id];
            before.disk.Some? && after.disk != before.disk ==>
              || (before.disk.value in w.published && before.disk.value in w.blobs)
              || before.disk.value in before.saved
  {
    hide DeviceSafe;
    RunSafe(EMPTY_WORLD, actions);
    var w := Run(EMPTY_WORLD, actions);
    StepKeepsVersions(w, w.devices[id], a);
  }

  lemma StepKeepsVersions(w: World, d: Device, a: Step)
    requires Safe(w) && DeviceSafe(d, w.blobs, w.published) && IsSyncStep(a)
    ensures var after := DeviceAfter(w, d, a);
            d.disk.Some? && after.disk != d.disk ==> d.disk.value in w.published || d.disk.value in d.saved
  {
    hide Decide, Synced, Published, Candidate, LineageAfter;
    if a.Reconcile? {
      DecisionIsSafe(Track(d, Look(d, a.readable)), a.readable, a.flags);
    }
  }

  /**
   Conservation. Every version that was ever on a device's disk, and that its user did not overwrite
   or delete, is still there, or saved beside it, or published with its bytes on the server.
   */
  lemma NothingIsLost(actions: seq<Action>, id: nat, h: Hash)
    requires var w := Run(EMPTY_WORLD, actions); id in w.devices && h in w.devices[id].held
    ensures var w := Run(EMPTY_WORLD, actions);
            var d := w.devices[id];
            d.disk == Some(h) || h in d.saved || (h in w.published && h in w.blobs)
  {
    RunSafe(EMPTY_WORLD, actions);
  }

  /**
   In every reachable world, what an upload publishes names bytes the server already stores, names as
   its predecessor exactly the entry it replaced, and records that entry in its lineage.
   */
  lemma UploadsAreWellFounded(actions: seq<Action>, id: nat, j: Job)
    requires id in Run(EMPTY_WORLD, actions).devices
    ensures var w := Run(EMPTY_WORLD, actions);
            var before, after := w.devices[id], Next(w, At(id, FinishUpload(j))).devices[id];
            after.index != before.index ==>
              && j in before.jobs
              && after.index.Some? && after.index.value.hash == j.hash && j.hash in w.blobs
              && after.index.value.prev == Some(HashOf(before.index))
              && (HasHash(HashOf(before.index)) ==> DescendsFrom(after.index.value, before.index.value.hash))
              && after.base == Some(j.hash)
  {
    RunSafe(EMPTY_WORLD, actions);
    var w := Run(EMPTY_WORLD, actions);
    assert DeviceSafe(w.devices[id], w.blobs, w.published);
  }

  // ----- what the sync achieves

  /** Disk, baseline and index entry agree. */
  predicate Settled(d: Device) {
    d.disk == d.base == HashOf(d.index) && d.disk != Some("")
  }

  const PLAIN := Flags(false, false, false)

  /** On a settled device an edit or a new file is published over the entry it was made from, and settles again. */
  lemma LocalEditIsPublished(w: World, d: Device, h: Hash, noticed: bool)
    requires Settled(d) && h != "" && d.disk != Some(h)
    ensures var edited := DeviceAfter(w, d, UserWrites(h, noticed));
            var queued := ReconcileNow(edited, PLAIN, true, true);
            var job := Job(h, HashOf(d.index), edited.diskVersion, false);
            var stored := StoreBytes(queued, job);
            var published := CommitUpload(stored, job.(stored := true));
            && job in queued.jobs && job.(stored := true) in stored.jobs
            && published.index == Some(Lineage.Publish(d.index, h))
            && published.disk == Some(h) && Settled(published)
  {
    hide LineageAfter, Candidate, Published;
  }

  /** On a settled device a newer version of the entry, or a new one, is downloaded and settles again. */
  lemma RemoteVersionIsTaken(d: Device, e: Entry)
    requires Settled(d) && e.hash != "" && d.disk != Some(e.hash)
    requires d.disk.Some? ==> DescendsFrom(e, d.disk.value)
    ensures var seen := d.(index := Some(e));
            var started := ReconcileNow(seen, PLAIN, true, true);
            var transfer := Transfer(e.hash, d.disk);
            var written := CommitTransfer(started, transfer, true);
            && transfer in started.transfers
            && written.disk == Some(e.hash) && written.index == Some(e) && Settled(written)
  {
    hide DescendsFrom, Candidate, Synced;
  }

  /** Keeping the remote side of a conflict puts it, or its deletion, on disk; the local version is saved beside it. */
  lemma KeepingRemoteSavesLocal(d: Device)
    requires d.disk != HashOf(d.index)
    ensures var chosen := SaveLocal(d);
            var c := KeepRemote(d.disk, HashOf(d.index));
            var acted := CommitKeepRemote(chosen, c, true);
            && c in chosen.choices
            && (d.disk.Some? ==> d.disk.value in chosen.saved)
            && (if d.index.None? then acted.disk == None && acted.base == None
                else
                  var t := Transfer(d.index.value.hash, d.disk);
                  var done := CommitTransfer(acted, t, true);
                  && t in acted.transfers && acted.pendingDownload
                  && done.disk == done.base == HashOf(d.index) && done.saved == chosen.saved)
  {
    hide Synced;
  }

  /** Keeping the local side publishes it over the remote version, which is saved beside the path. */
  lemma KeepingLocalSavesRemote(d: Device)
    requires d.disk.Some? && d.disk != HashOf(d.index)
    ensures var chosen := KeepLocal(d);
            var job := Job(d.disk.value, HashOf(d.index), d.diskVersion, false);
            var stored := StoreBytes(chosen, job);
            var done := CommitUpload(stored, job.(stored := true));
            && job in chosen.jobs && job.(stored := true) in stored.jobs
            && done.index == Some(Lineage.Publish(d.index, d.disk.value))
            && done.disk == done.base == HashOf(done.index) == d.disk
            && (d.index.Some? ==> d.index.value.hash in done.saved)
  {
    hide LineageAfter, Published;
  }
}
