/**
 One document's durable store as values: the files, the manifest, the in-memory persistence
 record, and what each operation of `DocumentPersistence` does to them when every system call
 in it may fail (server/src/crdt_storage.rs:99-286, 424-482).
 */
module StorageStore {
  import opened Wrappers
  import opened Bytes
  import opened StorageFormat

  const FORMAT: string := "realtime-crdt"
  const FORMAT_VERSION: nat := 3
  const LEGACY_FORMAT_VERSION: nat := 2

  datatype FileName = SnapshotFile(generation: nat) | LogFile(generation: nat)

  datatype Manifest = Manifest(
    format: string, version: nat, generation: nat, snapshot: FileName, updates: FileName, totalRecords: nat)

  function NewManifest(generation: nat, totalRecords: nat): Manifest {
    Manifest(FORMAT, FORMAT_VERSION, generation, SnapshotFile(generation), LogFile(generation), totalRecords)
  }

  predicate ManifestValid(m: Manifest) {
    && m.format == FORMAT
    && (m.version == FORMAT_VERSION || m.version == LEGACY_FORMAT_VERSION)
    && m.snapshot == SnapshotFile(m.generation)
    && m.updates == LogFile(m.generation)
  }

  datatype Disk = Disk(manifest: Option<Manifest>, files: map<FileName, Bytes>)

  datatype Persistence = Persistence(
    generation: nat,
    logBytes: nat,
    records: nat,
    totalRecords: nat,
    recoveredTail: bool,
    appendFailed: bool,
    maxLogBytes: nat)

  datatype Store = Store(p: Persistence, disk: Disk)

  datatype StorageError =
    | Io
    | LogTooLarge
    | PartialRecordStuck
    | TooLargeSnapshot
    | GenerationOverflow
    | NoManifest
    | InvalidManifest
    | BadSnapshot(snapshot: SnapshotError)
    | BadDocument
    | BadSegment(segment: ReplayError)

  /** `set_len`: cut, or extend with zeros. */
  function SetLen(file: Bytes, n: nat): (r: Bytes)
    ensures |r| == n
  {
    if n <= |file| then file[..n] else file + Zeros(n - |file|)
  }

  /** The bytes there are kept as far as the new length goes, and the rest reads as zeros. */
  lemma SetLenBytes(file: Bytes, n: nat, i: nat)
    requires i < n
    ensures SetLen(file, n)[i] == if i < |file| then file[i] else 0
  {
  }

  function WithFile(d: Disk, name: FileName, bytes: Bytes): Disk {
    d.(files := d.files[name := bytes])
  }

  // ----- truncation

  function TruncateLog(d: Disk, name: FileName, n: nat, cut: Cut): (Disk, bool) {
    if name !in d.files || cut == CutRefused then (d, false)
    else (WithFile(d, name, SetLen(d.files[name], n)), cut == CutDone)
  }

  // ----- append

  /** How the write of a record ends; a failed write may have landed any part of it. */
  datatype Write = WriteDone | WriteFailed(landed: nat)

  /** The system calls of one append: a pending repair, the write, and the repair after a failed write. */
  datatype AppendIo = AppendIo(repair: Cut, write: Write, undo: Cut)

  function Log(s: Store): FileName {
    LogFile(s.p.generation)
  }

  /** Cut a partial record left by an earlier failed append before writing again. */
  function ClearPartialRecord(s: Store, cut: Cut): (Store, bool) {
    if !s.p.appendFailed then (s, true)
    else
      var (disk, done) := TruncateLog(s.disk, Log(s), s.p.logBytes, cut);
      (Store(s.p.(appendFailed := !done), disk), done)
  }

  predicate Fits<Doc>(e: Engine<Doc>, p: Persistence, u: Bytes) {
    p.logBytes + RECORD_HEADER_BYTES + |u| <= p.maxLogBytes
  }

  function WriteRecord<Doc>(e: Engine<Doc>, s: Store, u: Bytes, write: Write, undo: Cut)
    : (Store, Result<(), StorageError>)
  {
    var record := Record(e, u);
    if Log(s) !in s.disk.files then
      (s.(p := s.p.(appendFailed := true)), Err(Io))
    else match write
      case WriteDone =>
        var disk := WithFile(s.disk, Log(s), s.disk.files[Log(s)] + record);
        var p := s.p.(
          logBytes := SaturatingAdd(s.p.logBytes, |record|),
          records := SaturatingAdd(s.p.records, 1),
          totalRecords := SaturatingAdd(s.p.totalRecords, 1));
        (Store(p, disk), Ok(()))
      case WriteFailed(landed) =>
        var part := if landed < |record| then record[..landed] else record;
        var torn := WithFile(s.disk, Log(s), s.disk.files[Log(s)] + part);
        var (disk, done) := TruncateLog(torn, Log(s), s.p.logBytes, undo);
        (Store(s.p.(appendFailed := s.p.appendFailed || !done), disk), Err(Io))
  }

  function AppendUpdate<Doc>(e: Engine<Doc>, s: Store, u: Bytes, io: AppendIo): (Store, Result<(), StorageError>) {
    var (s1, clear) := ClearPartialRecord(s, io.repair);
    if !clear then (s1, Err(PartialRecordStuck))
    else if !Fits(e, s1.p, u) then (s1, Err(LogTooLarge))
    else WriteRecord(e, s1, u, io.write, io.undo)
  }

  /** Remove the record just appended, given the segment length before it. */
  function DiscardLastRecord(s: Store, before: nat, cut: Cut): (Store, Result<(), StorageError>) {
    if before >= s.p.logBytes then (s, Ok(()))
    else
      var (disk, done) := TruncateLog(s.disk, Log(s), before, cut);
      if !done then (s.(disk := disk), Err(Io))
      else
        var p := s.p.(
          logBytes := before,
          records := SaturatingSub(s.p.records, 1),
          totalRecords := SaturatingSub(s.p.totalRecords, 1));
        (Store(p, disk), Ok(()))
  }

  /** Discarding the record just appended undoes the append: file, length and counters are what they were. */
  lemma DiscardUndoesAppend<Doc>(e: Engine<Doc>, s: Store, u: Bytes, undo: Cut)
    requires Log(s) in s.disk.files && |s.disk.files[Log(s)]| == s.p.logBytes && !s.p.appendFailed
    requires s.p.logBytes + |Record(e, u)| <= U64_MAX && s.p.records < U64_MAX && s.p.totalRecords < U64_MAX
    requires Fits(e, s.p, u) && Record(e, u) != []
    ensures var (s', r) := AppendUpdate(e, s, u, AppendIo(CutDone, WriteDone, undo));
            r == Ok(()) && DiscardLastRecord(s', s.p.logBytes, CutDone) == (s, Ok(()))
  {
    hide Record;
    var log := Log(s);
    var file := s.disk.files[log];
    assert (file + Record(e, u))[..|file|] == file;
    assert s.disk.files[log := file + Record(e, u)][log := file] == s.disk.files;
  }

  // ----- compaction

  /** The generation files a clean-up of the generations before `active` may delete. */
  predicate Obsolete(name: FileName, active: nat) {
    name.generation < active
  }

  /** Delete obsolete files; each deletion may fail on its own, so any subset may remain. */
  function RemoveOldGenerations(d: Disk, active: nat, deleted: set<FileName>): Disk {
    d.(files := map name | name in d.files && !(Obsolete(name, active) && name in deleted) :: d.files[name])
  }

  /** The disk after the first `steps` of compaction's three atomic writes. */
  function CompactionWrites<Doc>(e: Engine<Doc>, s: Store, snapshot: Bytes, steps: nat): Disk {
    var next := s.p.generation + 1;
    var d1 := if steps >= 1 then WithFile(s.disk, SnapshotFile(next), EncodeSnapshot(e, snapshot)) else s.disk;
    var d2 := if steps >= 2 then WithFile(d1, LogFile(next), LOG_MAGIC) else d1;
    if steps >= 3 then d2.(manifest := Some(NewManifest(next, s.p.totalRecords))) else d2
  }

  /** A compaction that stops anywhere has never written a segment without its snapshot, nor a manifest without both. */
  lemma WritesInOrder<Doc>(e: Engine<Doc>, s: Store, snapshot: Bytes, steps: nat)
    ensures var next := s.p.generation + 1;
            var d := CompactionWrites(e, s, snapshot, steps);
            var snapshotThere := SnapshotFile(next) in d.files
                                 && d.files[SnapshotFile(next)] == EncodeSnapshot(e, snapshot);
            var segmentThere := LogFile(next) in d.files && d.files[LogFile(next)] == LOG_MAGIC;
            && (LogFile(next) in d.files && LogFile(next) !in s.disk.files ==> snapshotThere && segmentThere)
            && (d.manifest != s.disk.manifest ==>
                  snapshotThere && segmentThere && d.manifest == Some(NewManifest(next, s.p.totalRecords)))
            && (steps >= 1 ==> snapshotThere) && (steps >= 2 ==> segmentThere)
            && (steps >= 3 ==> d.manifest.Some? && d.manifest.value.generation == next)
            && (forall name :: name in s.disk.files && name.generation != next ==>
                  name in d.files && d.files[name] == s.disk.files[name])
  {
    hide EncodeSnapshot;
  }

  /** Compaction in which `steps` of the three writes succeed. */
  function Compact<Doc>(
    e: Engine<Doc>, s: Store, snapshot: Bytes, steps: nat, deleted: set<FileName>): (Store, Result<(), StorageError>)
  {
    if |snapshot| > MAX_SNAPSHOT_BYTES then (s, Err(TooLargeSnapshot))
    else if s.p.generation >= U64_MAX then (s, Err(GenerationOverflow))
    else
      var disk := CompactionWrites(e, s, snapshot, steps);
      if steps < 3 then (s.(disk := disk), Err(Io))
      else
        var next := s.p.generation + 1;
        var p := s.p.(
          generation := next, logBytes := |LOG_MAGIC|, records := 0, recoveredTail := false, appendFailed := false);
        (Store(p, RemoveOldGenerations(disk, next, deleted)), Ok(()))
  }

  /** Asked before an append, so that the caller compacts first. */
  predicate RequiresCompaction<Doc>(e: Engine<Doc>, p: Persistence, u: Bytes) {
    p.logBytes + RECORD_HEADER_BYTES + |u| > p.maxLogBytes
  }

  /** The question predicts the append: it is refused as too large exactly when compaction is required first. */
  lemma RefusedExactlyWhenCompactionRequired<Doc>(e: Engine<Doc>, s: Store, u: Bytes, io: AppendIo)
    requires ClearPartialRecord(s, io.repair).1
    ensures AppendUpdate(e, s, u, io).1 == Err(LogTooLarge) <==> RequiresCompaction(e, s.p, u)
    ensures AppendUpdate(e, s, u, io).1 == Err(LogTooLarge) ==>
              AppendUpdate(e, s, u, io).0 == ClearPartialRecord(s, io.repair).0
    ensures |e.checksum(u)| == 32 ==>
              (RequiresCompaction(e, s.p, u) <==> s.p.logBytes + |Record(e, u)| > s.p.maxLogBytes)
  {
  }

  // ----- create and load

  function DecodeDoc<Doc>(e: Engine<Doc>, update: Bytes): Option<Doc> {
    if e.valid(update) then e.apply(e.empty, update) else None
  }

  /** A new document: its directory appears, complete, in one rename. */
  function CreateDocument<Doc>(e: Engine<Doc>, doc: Doc): Result<Store, StorageError> {
    if |e.encode(doc)| > MAX_SNAPSHOT_BYTES then Err(TooLargeSnapshot)
    else
      var files := map[SnapshotFile(0) := EncodeSnapshot(e, e.encode(doc)), LogFile(0) := LOG_MAGIC];
      Ok(Store(
        Persistence(0, |LOG_MAGIC|, 0, 0, false, false, MAX_LOG_BYTES),
        Disk(Some(NewManifest(0, 0)), files)))
  }

  /** A document can be created exactly if its snapshot is within the limit, and then loads back as it is. */
  lemma CreatedLoadsBack<Doc(!new)>(e: Engine<Doc>, doc: Doc, mode: RecoveryMode, cut: Cut, deleted: set<FileName>)
    requires Sound(e)
    ensures CreateDocument(e, doc).Ok? <==> |e.encode(doc)| <= MAX_SNAPSHOT_BYTES
    ensures CreateDocument(e, doc).Ok? ==>
              var s := CreateDocument(e, doc).value;
              var (disk, r) := LoadExisting(e, s.disk, mode, cut, deleted);
              disk == s.disk && r == Ok(Loaded(s.p, Some(doc), []))
  {
    if CreateDocument(e, doc).Ok? {
      var s := CreateDocument(e, doc).value;
      SnapshotCanonical(e, s.disk.files[SnapshotFile(0)], e.encode(doc));
      assert LOG_MAGIC[..|LOG_MAGIC|] == LOG_MAGIC;
      assert s.disk.files[LogFile(0) := LOG_MAGIC] == s.disk.files;
      assert e.valid(e.encode(doc)) && e.apply(e.empty, e.encode(doc)) == Some(doc);
      Untouched(s.disk, deleted);
    }
  }

  lemma Untouched(d: Disk, deleted: set<FileName>)
    ensures RemoveOldGenerations(d, 0, deleted) == d
  {
    assert (map name | name in d.files :: d.files[name]) == d.files;
  }

  /** `updates` are the records replayed behind the snapshot. */
  datatype Loaded<Doc> = Loaded(p: Persistence, doc: Option<Doc>, updates: seq<Bytes>)

  function SegmentError(error: ReplayError): StorageError {
    if error.TruncationFailed? then Io else BadSegment(error)
  }

  function LoadGeneration<Doc>(e: Engine<Doc>, d: Disk, m: Manifest, mode: RecoveryMode, cut: Cut)
    : (Disk, Result<Loaded<Doc>, StorageError>)
  {
    if !ManifestValid(m) then (d, Err(InvalidManifest))
    else if m.snapshot !in d.files then (d, Err(Io))
    else match DecodeSnapshot(e, d.files[m.snapshot])
      case Err(error) => (d, Err(BadSnapshot(error)))
      case Ok(snapshot) =>
        match DecodeDoc(e, snapshot)
        case None => (d, Err(BadDocument))
        case Some(doc) =>
          if m.updates !in d.files then (d, Err(Io))
          else
            var (r, file) := ReplayAndCut(e, d.files[m.updates], doc, mode, cut);
            var disk := WithFile(d, m.updates, file);
            if r.Err? then (disk, Err(SegmentError(r.error)))
            else
              var records := |r.value.updates|;
              var p := Persistence(
                m.generation, r.value.bytes, records, SaturatingAdd(m.totalRecords, records),
                r.value.repaired, false, MAX_LOG_BYTES);
              (disk, Ok(Loaded(p, r.value.doc, r.value.updates)))
  }

  /**
   Load a committed document whose files can be read; `cut` is how the truncation of a damaged tail
   ends, if one is needed.
   In `Repair` the server falls back to rebuilding the manifest when this fails; that fallback is
   not part of this model.
   */
  function LoadExisting<Doc>(e: Engine<Doc>, d: Disk, mode: RecoveryMode, cut: Cut, deleted: set<FileName>)
    : (Disk, Result<Loaded<Doc>, StorageError>)
  {
    match d.manifest
    case None => (d, Err(NoManifest))
    case Some(m) =>
      var (disk, r) := LoadGeneration(e, d, m, mode, cut);
      (if r.Ok? && mode != Inspect then RemoveOldGenerations(disk, m.generation, deleted) else disk, r)
  }

  /**
   A load that succeeds leaves none of the older generations' files whose deletion succeeded; one that
   fails deletes nothing, and an inspection changes nothing at all.
   */
  lemma LoadSweeps<Doc>(e: Engine<Doc>, d: Disk, mode: RecoveryMode, cut: Cut, deleted: set<FileName>)
    ensures var (disk, r) := LoadExisting(e, d, mode, cut, deleted);
            && (r.Ok? && mode != Inspect ==>
                  forall name :: name in d.files ==>
                    (name !in disk.files <==> name.generation < d.manifest.value.generation && name in deleted))
            && (r.Err? ==> disk.files.Keys == d.files.Keys)
            && (mode == Inspect ==> disk == d)
  {
    hide DecodeSnapshot;
    if d.manifest.Some? && d.manifest.value.updates in d.files {
      var log := d.manifest.value.updates;
      assert d.files[log][..|d.files[log]|] == d.files[log];
      assert d.files[log := d.files[log]] == d.files;
    }
  }

  /** The manifest with another version number. */
  function WithVersion(d: Disk, version: nat): Disk {
    if d.manifest.None? then d else d.(manifest := Some(d.manifest.value.(version := version)))
  }

  /** A manifest of the previous format version loads exactly like one of the current version, and keeps its version. */
  lemma ManifestVersions<Doc>(e: Engine<Doc>, d: Disk, mode: RecoveryMode, cut: Cut, deleted: set<FileName>)
    ensures var old_, new_ := LoadExisting(e, WithVersion(d, 2), mode, cut, deleted),
                              LoadExisting(e, WithVersion(d, 3), mode, cut, deleted);
            old_.1 == new_.1 && old_.0 == WithVersion(new_.0, 2)
  {
    hide ReplayAndCut, DecodeSnapshot, DecodeDoc;
  }

  /**
   A manifest of any other version, of another format or naming another generation's files is refused, and
   nothing is touched.
   */
  lemma ManifestRefused<Doc>(e: Engine<Doc>, d: Disk, mode: RecoveryMode, cut: Cut, deleted: set<FileName>)
    ensures d.manifest.Some? ==>
              var m := d.manifest.value;
              LoadExisting(e, d, mode, cut, deleted).1 == Err(InvalidManifest) <==>
              !(m.format == "realtime-crdt" && m.version in {2, 3}
                && m.snapshot == SnapshotFile(m.generation) && m.updates == LogFile(m.generation))
    ensures LoadExisting(e, d, mode, cut, deleted).1 == Err(InvalidManifest) ==>
              LoadExisting(e, d, mode, cut, deleted).0 == d
  {
    hide ReplayAndCut, DecodeSnapshot, DecodeDoc, RemoveOldGenerations;
  }

  /** How the system calls of a load end: whether its files can be read, and a truncation if it needs one. */
  datatype LoadIo = LoadIo(readOk: bool, cut: Cut)

  /** A load whose files may be unreadable. */
  function Load<Doc>(e: Engine<Doc>, d: Disk, mode: RecoveryMode, io: LoadIo, deleted: set<FileName>)
    : (Disk, Result<Loaded<Doc>, StorageError>)
  {
    if io.readOk then LoadExisting(e, d, mode, io.cut, deleted) else (d, Err(Io))
  }
}
