/**
 The store as the server runs it: an object whose methods update its counters and its directory
 in place, each proved to have exactly the effect of the function that specifies it. The system
 calls' outcomes are parameters.
 */
module StorageEngine {
  import opened Wrappers
  import opened Bytes
  import opened StorageFormat
  import opened Spec = StorageStore

  class DocumentPersistence {
    var generation: nat
    var logBytes: nat
    var records: nat
    var totalRecords: nat
    var recoveredTail: bool
    var appendFailed: bool
    var maxLogBytes: nat
    // the document's directory
    var manifest: Option<Manifest>
    var files: map<FileName, Bytes>

    function View(): Store
      reads this
    {
      Store(
        Persistence(generation, logBytes, records, totalRecords, recoveredTail, appendFailed, maxLogBytes),
        Disk(manifest, files))
    }

    /** The object for a store that was just created or loaded. */
    constructor (s: Store)
      ensures View() == s
    {
      generation, logBytes, records, totalRecords := s.p.generation, s.p.logBytes, s.p.records, s.p.totalRecords;
      recoveredTail, appendFailed, maxLogBytes := s.p.recoveredTail, s.p.appendFailed, s.p.maxLogBytes;
      manifest, files := s.disk.manifest, s.disk.files;
    }

    /** What a failed load left of the directory. */
    method SetDirectory(disk: Disk)
      modifies this`manifest, this`files
      ensures View() == Store(old(View()).p, disk)
    {
      manifest, files := disk.manifest, disk.files;
    }

    /** Truncate the segment back to `length`. */
    method TruncateLog(length: nat, cut: Cut) returns (done: bool)
      modifies this`files
      ensures (View().disk, done) == Spec.TruncateLog(old(View().disk), LogFile(generation), length, cut)
    {
      var path := LogFile(generation);
      if path !in files || cut == CutRefused {
        return false;
      }
      files := files[path := SetLen(files[path], length)];
      done := cut == CutDone;
    }

    /** A failed append changes no counter; one that succeeds adds exactly its record to the segment. */
    method AppendUpdate<Doc>(e: Engine<Doc>, update: Bytes, io: AppendIo) returns (r: Result<(), StorageError>)
      modifies this
      ensures (View(), r) == Spec.AppendUpdate(e, old(View()), update, io)
      ensures generation == old(generation) && manifest == old(manifest)
      ensures r.Err? ==>
                logBytes == old(logBytes) && records == old(records) && totalRecords == old(totalRecords)
      ensures r == Err(LogTooLarge) || r == Err(PartialRecordStuck)
              || old(logBytes) + RECORD_HEADER_BYTES + |update| <= maxLogBytes
      ensures r == Err(LogTooLarge) ==> old(logBytes) + RECORD_HEADER_BYTES + |update| > maxLogBytes
      ensures r.Ok? && !old(appendFailed) ==>
                var log := LogFile(generation);
                log in old(files) && files == old(files)[log := old(files)[log] + Record(e, update)]
    {
      if appendFailed {
        var done := TruncateLog(logBytes, io.repair);
        if !done {
          return Err(PartialRecordStuck);
        }
        appendFailed := false;
      }
      if logBytes + RECORD_HEADER_BYTES + |update| > maxLogBytes {
        return Err(LogTooLarge);
      }
      var record := ToLittleEndian(|update|, 8) + e.checksum(update) + update;
      var path := LogFile(generation);
      if path in files {
        var landed :=
          if io.write.WriteFailed? && io.write.landed < |record| then record[..io.write.landed] else record;
        files := files[path := files[path] + landed];
      }
      if path !in files || io.write.WriteFailed? {
        var done := TruncateLog(logBytes, io.undo);
        if !done {
          appendFailed := true;
        }
        return Err(Io);
      }
      logBytes := SaturatingAdd(logBytes, |record|);
      records := SaturatingAdd(records, 1);
      totalRecords := SaturatingAdd(totalRecords, 1);
      r := Ok(());
    }

    /** An append that the process does not survive: `tail` is what reaches the segment. */
    method DieInAppend<Doc>(e: Engine<Doc>, update: Bytes, repair: Cut, tail: Bytes) returns (died: bool)
      modifies this
      ensures var (s, clear) := ClearPartialRecord(old(View()), repair);
              && (died <==> clear && Fits(e, s.p, update) && Log(s) in s.disk.files)
              && View().disk == (if died then WithFile(s.disk, Log(s), s.disk.files[Log(s)] + tail) else s.disk)
    {
      if appendFailed {
        var done := TruncateLog(logBytes, repair);
        if !done {
          return false;
        }
        appendFailed := false;
      }
      var path := LogFile(generation);
      if logBytes + RECORD_HEADER_BYTES + |update| > maxLogBytes || path !in files {
        return false;
      }
      files := files[path := files[path] + tail];
      died := true;
    }

    method DiscardLastRecord(before: nat, cut: Cut) returns (r: Result<(), StorageError>)
      modifies this
      ensures (View(), r) == Spec.DiscardLastRecord(old(View()), before, cut)
      ensures r.Err? ==> logBytes == old(logBytes) && records == old(records) && totalRecords == old(totalRecords)
      ensures r.Ok? && before < old(logBytes) ==>
                logBytes == before && LogFile(generation) in files && |files[LogFile(generation)]| == before
    {
      if before >= logBytes {
        return Ok(());
      }
      var done := TruncateLog(before, cut);
      if !done {
        return Err(Io);
      }
      logBytes := before;
      records := SaturatingSub(records, 1);
      totalRecords := SaturatingSub(totalRecords, 1);
      r := Ok(());
    }

    /** Compaction's three atomic writes, of which the first `steps` succeed. */
    method WriteGeneration<Doc>(e: Engine<Doc>, next: nat, snapshot: Bytes, steps: nat) returns (done: bool)
      requires next == generation + 1
      modifies this`files, this`manifest
      ensures View() == Store(old(View()).p, CompactionWrites(e, old(View()), snapshot, steps)) && done == (steps >= 3)
      ensures manifest == if done then Some(NewManifest(next, totalRecords)) else old(manifest)
    {
      if steps < 1 { return false; }
      files := files[SnapshotFile(next) := EncodeSnapshot(e, snapshot)];
      if steps < 2 { return false; }
      files := files[LogFile(next) := LOG_MAGIC];
      if steps < 3 { return false; }
      manifest := Some(NewManifest(next, totalRecords));
      done := true;
    }

    /** Remove the files of older generations; `deleted` are those whose removal succeeds. */
    method Sweep(active: nat, deleted: set<FileName>)
      modifies this`files
      ensures View() == Store(old(View()).p, RemoveOldGenerations(old(View()).disk, active, deleted))
    {
      files := map name | name in files && !(Obsolete(name, active) && name in deleted) :: files[name];
    }

    method Compact<Doc>(e: Engine<Doc>, snapshot: Bytes, steps: nat, deleted: set<FileName>)
      returns (r: Result<(), StorageError>)
      modifies this
      ensures (View(), r) == Spec.Compact(e, old(View()), snapshot, steps, deleted)
      ensures totalRecords == old(totalRecords)
      ensures r.Err? ==> generation == old(generation) && manifest == old(manifest)
      ensures r.Ok? ==> manifest == Some(NewManifest(generation, totalRecords)) && generation == old(generation) + 1
    {
      hide CompactionWrites;
      if |snapshot| > MAX_SNAPSHOT_BYTES {
        return Err(TooLargeSnapshot);
      }
      if generation >= U64_MAX {
        return Err(GenerationOverflow);
      }
      var next := generation + 1;
      var written := WriteGeneration(e, next, snapshot, steps);
      if !written {
        return Err(Io);
      }
      generation, logBytes, records := next, |LOG_MAGIC|, 0;
      recoveredTail, appendFailed := false, false;
      Sweep(next, deleted);
      r := Ok(());
    }
  }

  /**
   Open a committed document the way the server does: snapshot, then the replay loop. `left` is the
   disk it leaves, also when it fails.
   */
  method Open<Doc>(e: Engine<Doc>, disk: Disk, mode: RecoveryMode, io: LoadIo, deleted: set<FileName>)
    returns (left: Disk, r: Result<Loaded<Doc>, StorageError>)
    ensures (left, r) == Load(e, disk, mode, io, deleted)
    ensures !io.readOk ==> left == disk && r == Err(Io)
  {
    left := disk;
    if !io.readOk {
      return left, Err(Io);
    }
    if disk.manifest.None? {
      return left, Err(NoManifest);
    }
    var m := disk.manifest.value;
    if !ManifestValid(m) {
      return left, Err(InvalidManifest);
    }
    if m.snapshot !in disk.files {
      return left, Err(Io);
    }
    var snapshot := DecodeSnapshot(e, disk.files[m.snapshot]);
    if snapshot.Err? {
      return left, Err(BadSnapshot(snapshot.error));
    }
    var doc := DecodeDoc(e, snapshot.value);
    if doc.None? {
      return left, Err(BadDocument);
    }
    if m.updates !in disk.files {
      return left, Err(Io);
    }
    var replay, file := ReplayLog(e, disk.files[m.updates], doc.value, mode, io.cut);
    left := WithFile(disk, m.updates, file);
    if replay.Err? {
      return left, Err(SegmentError(replay.error));
    }
    var p := Persistence(
      m.generation, replay.value.bytes, |replay.value.updates|,
      SaturatingAdd(m.totalRecords, |replay.value.updates|), replay.value.repaired, false, MAX_LOG_BYTES);
    if mode != Inspect {
      left := RemoveOldGenerations(left, m.generation, deleted);
    }
    r := Ok(Loaded(p, replay.value.doc, replay.value.updates));
  }
}
