/** A committed generation on disk, and what loading it brings back. */
module StorageLoad {
  import opened Wrappers
  import opened Bytes
  import opened StorageFormat
  import opened StorageRecovery
  import opened StorageStore
  import opened StorageWorld

  /** The generation's snapshot and segment hold `acked`, and `tail` stands behind the segment. */
  ghost predicate Committed<Doc>(e: Engine<Doc>, disk: Disk, gen: Gen<Doc>, acked: seq<Bytes>, tail: Bytes) {
    && gen.folded <= |acked|
    && AllAcceptable(e, acked)
    && Fold(e, gen.base, Logged(gen, acked)).Some?
    && disk.manifest == Some(NewManifest(gen.number, gen.counted))
    && HoldsSnapshot(e, disk, gen)
    && LogFile(gen.number) in disk.files
    && disk.files[LogFile(gen.number)] == Segment(e, Logged(gen, acked)) + tail
    && |disk.files[LogFile(gen.number)]| <= MAX_LOG_BYTES
  }

  ghost predicate HoldsSnapshot<Doc>(e: Engine<Doc>, disk: Disk, gen: Gen<Doc>) {
    && |e.encode(gen.base)| <= MAX_SNAPSHOT_BYTES
    && SnapshotFile(gen.number) in disk.files
    && disk.files[SnapshotFile(gen.number)] == EncodeSnapshot(e, e.encode(gen.base))
  }

  /** A persistence record that agrees with a committed generation. */
  ghost predicate Agrees<Doc>(e: Engine<Doc>, p: Persistence, gen: Gen<Doc>, acked: seq<Bytes>)
    requires gen.folded <= |acked|
  {
    && p.generation == gen.number
    && p.logBytes == |Segment(e, Logged(gen, acked))|
    && p.records == |acked| - gen.folded
    && p.totalRecords == SaturatingAdd(gen.counted, |acked| - gen.folded)
    && p.maxLogBytes == MAX_LOG_BYTES
  }

  /** A load found exactly `acked` and left nothing behind it. */
  ghost predicate Restored<Doc>(e: Engine<Doc>, disk: Disk, l: Loaded<Doc>, gen: Gen<Doc>, acked: seq<Bytes>) {
    && Committed(e, disk, gen, acked, [])
    && Agrees(e, l.p, gen, acked)
    && !l.p.appendFailed
    && l.updates == Logged(gen, acked)
  }

  // ----- the segment behind a snapshot

  lemma LoggedMore<Doc>(gen: Gen<Doc>, acked: seq<Bytes>, more: seq<Bytes>)
    requires gen.folded <= |acked|
    ensures Logged(gen, acked + more) == Logged(gen, acked) + more
    ensures (acked + more)[..gen.folded] == acked[..gen.folded]
    ensures Recovered(acked, gen.folded, Logged(gen, acked) + more) == acked + more
  {
    assert (acked + more)[gen.folded..] == acked[gen.folded..] + more;
    assert acked[..gen.folded] + (acked[gen.folded..] + more) == acked + more;
  }

  lemma SegmentMore<Doc>(e: Engine<Doc>, us: seq<Bytes>, vs: seq<Bytes>)
    ensures Segment(e, us + vs) == Segment(e, us) + Records(e, vs)
  {
    RecordsConcat(e, us, vs);
    assert LOG_MAGIC + (Records(e, us) + Records(e, vs)) == (LOG_MAGIC + Records(e, us)) + Records(e, vs);
  }

  /** Records that stand behind the acknowledged ones can be counted among them. */
  lemma AdoptTail<Doc>(e: Engine<Doc>, disk: Disk, gen: Gen<Doc>, acked: seq<Bytes>, more: seq<Bytes>)
    requires Committed(e, disk, gen, acked, Records(e, more))
    requires AllAcceptable(e, more) && Fold(e, gen.base, Logged(gen, acked) + more).Some?
    ensures Committed(e, disk, gen, acked + more, [])
  {
    hide Fold, EncodeSnapshot, Record, Records, Segment;
    LoggedMore(gen, acked, more);
    SegmentMore(e, Logged(gen, acked), more);
    assert Segment(e, Logged(gen, acked) + more) + [] == Segment(e, Logged(gen, acked)) + Records(e, more);
  }

  lemma OneRecord<Doc>(e: Engine<Doc>, u: Bytes)
    ensures Records(e, [u]) == Record(e, u)
  {
    assert Records(e, [u]) == Record(e, u) + [];
  }

  /** Replacing the bytes behind the acknowledged records. */
  lemma WithTail<Doc>(e: Engine<Doc>, disk: Disk, gen: Gen<Doc>, acked: seq<Bytes>, tail: Bytes, tail': Bytes)
    requires Committed(e, disk, gen, acked, tail)
    requires |Segment(e, Logged(gen, acked))| + |tail'| <= MAX_LOG_BYTES
    ensures Committed(e, WithFile(disk, LogFile(gen.number), Segment(e, Logged(gen, acked)) + tail'), gen, acked, tail')
  {
  }

  // ----- loading

  /** Loading reads the snapshot of the committed generation and replays its segment; nothing else matters. */
  lemma LoadCommitted<Doc(!new)>(
    e: Engine<Doc>, disk: Disk, gen: Gen<Doc>, acked: seq<Bytes>, tail: Bytes,
    mode: RecoveryMode, cut: Cut, deleted: set<FileName>)
    requires Sound(e) && Committed(e, disk, gen, acked, tail) && mode != Inspect
    ensures var (r, file) := ReplayAndCut(e, Segment(e, Logged(gen, acked)) + tail, gen.base, mode, cut);
            var kept := WithFile(disk, LogFile(gen.number), file);
            LoadExisting(e, disk, mode, cut, deleted) ==
            if r.Err? then (kept, Err(SegmentError(r.error)))
            else
              var p := Persistence(gen.number, r.value.bytes, |r.value.updates|,
                SaturatingAdd(gen.counted, |r.value.updates|), r.value.repaired, false, MAX_LOG_BYTES);
              (RemoveOldGenerations(kept, gen.number, deleted), Ok(Loaded(p, r.value.doc, r.value.updates)))
  {
    hide ReplayAndCut, EncodeSnapshot;
    SnapshotCanonical(e, disk.files[SnapshotFile(gen.number)], e.encode(gen.base));
    assert e.valid(e.encode(gen.base)) && e.apply(e.empty, e.encode(gen.base)) == Some(gen.base);
  }

  /** Sweeping older generations keeps this one committed. */
  lemma SweepKeeps<Doc>(
    e: Engine<Doc>, disk: Disk, gen: Gen<Doc>, acked: seq<Bytes>, tail: Bytes, deleted: set<FileName>)
    requires Committed(e, disk, gen, acked, tail)
    ensures Committed(e, RemoveOldGenerations(disk, gen.number, deleted), gen, acked, tail)
  {
  }

  /** What a replay reads behind an intact segment, whatever stands there. */
  lemma ReadBehind<Doc(!new)>(e: Engine<Doc>, us: seq<Bytes>, tail: Bytes, doc: Doc, mode: RecoveryMode)
    returns (found: seq<Bytes>)
    requires Sound(e) && AllAcceptable(e, us) && Fold(e, doc, us).Some?
    requires Replay(e, Segment(e, us) + tail, doc, mode).Ok?
    ensures var file := Segment(e, us) + tail;
            var r := Replay(e, file, doc, mode);
            && r.value.updates == us + found && AllAcceptable(e, found)
            && Fold(e, doc, us + found).Some?
            && FileAfter(file, r) == Segment(e, us) + Records(e, found)
            && r.value.bytes == |Segment(e, us + found)|
            && Records(e, found) <= tail
            && (!r.value.repaired ==> Records(e, found) == tail)
            && (mode == RecoverInterruptedAppend || !r.value.repaired ==> r.value.doc == Fold(e, doc, us + found))
  {
    hide Fold, Records, Replay, Acceptable;
    var file, r := Segment(e, us) + tail, Replay(e, Segment(e, us) + tail, doc, mode);
    NoModeCutsIntactRecords(e, us, tail, doc, mode);
    RepairedSegmentIsIntact(e, file, doc, mode, mode);
    found := r.value.updates[|us|..];
    assert r.value.updates == us + found;
    SegmentMore(e, us, found);
    var kept, records := FileAfter(file, r), Records(e, found);
    assert kept == file[..|kept|];
    assert records == kept[|Segment(e, us)|..] == tail[..|records|];
  }

  /**
   Loading a committed generation with anything at all behind its segment. If it succeeds it brings
   back every acknowledged update and then what else it could read; if it fails the generation is
   still committed. A repair whose truncation works always succeeds.
   */
  lemma LoadAny<Doc(!new)>(
    e: Engine<Doc>, disk: Disk, gen: Gen<Doc>, acked: seq<Bytes>, tail: Bytes,
    mode: RecoveryMode, cut: Cut, deleted: set<FileName>) returns (found: seq<Bytes>, tail': Bytes)
    requires Sound(e) && Committed(e, disk, gen, acked, tail) && mode != Inspect
    ensures var (disk', r) := LoadExisting(e, disk, mode, cut, deleted);
            if r.Ok? then
              && Restored(e, disk', r.value, gen, acked + found)
              && (mode == RecoverInterruptedAppend || !r.value.p.recoveredTail ==>
                    r.value.doc == Fold(e, gen.base, Logged(gen, acked + found)))
              && Records(e, found) <= tail
              && (!r.value.p.recoveredTail ==> Records(e, found) == tail)
            else Committed(e, disk', gen, acked, tail') && tail' <= tail
    ensures mode == Repair && cut == CutDone ==> LoadExisting(e, disk, mode, cut, deleted).1.Ok?
    ensures LoadExisting(e, disk, mode, cut, deleted).1.Ok? ==>
              Replay(e, Segment(e, Logged(gen, acked)) + tail, gen.base, mode).Ok?
  {
    hide Fold, Records, Replay, LoadExisting, EncodeSnapshot, Acceptable, RemoveOldGenerations;
    var us, file := Logged(gen, acked), Segment(e, Logged(gen, acked)) + tail;
    var r := Replay(e, file, gen.base, mode);
    LoadCommitted(e, disk, gen, acked, tail, mode, cut, deleted);
    ModesAreOrdered(e, file, gen.base);
    found, tail' := [], tail;
    if r.Ok? {
      found := ReadBehind(e, us, tail, gen.base, mode);
      var records := Records(e, found);
      if ReplayAndCut(e, file, gen.base, mode, cut).1 != file { tail' := records; }
      WithTail(e, disk, gen, acked, tail, records);
      var kept := WithFile(disk, LogFile(gen.number), Segment(e, us) + records);
      AdoptTail(e, kept, gen, acked, found);
      SweepKeeps(e, kept, gen, acked + found, [], deleted);
      LoggedMore(gen, acked, found);
    }
  }

  /** Loading a generation with nothing behind its segment. */
  lemma LoadClean<Doc(!new)>(
    e: Engine<Doc>, disk: Disk, gen: Gen<Doc>, acked: seq<Bytes>, mode: RecoveryMode, cut: Cut, deleted: set<FileName>)
    requires Sound(e) && Committed(e, disk, gen, acked, []) && mode != Inspect
    ensures var (disk', r) := LoadExisting(e, disk, mode, cut, deleted);
            r.Ok? && Restored(e, disk', r.value, gen, acked) && r.value.doc == Fold(e, gen.base, Logged(gen, acked))
            && !r.value.p.recoveredTail
  {
    hide Fold, Records, Replay, LoadExisting, EncodeSnapshot, Acceptable, RemoveOldGenerations;
    var us := Logged(gen, acked);
    LoadCommitted(e, disk, gen, acked, [], mode, cut, deleted);
    assert Segment(e, us) + [] == Segment(e, us);
    IntactSegmentReplays(e, us, gen.base, mode);
    var found, tail' := LoadAny(e, disk, gen, acked, [], mode, cut, deleted);
    NothingFound(gen, acked, found);
  }

  lemma NothingFound<Doc>(gen: Gen<Doc>, acked: seq<Bytes>, found: seq<Bytes>)
    requires gen.folded <= |acked| && Logged(gen, acked + found) == Logged(gen, acked)
    ensures found == [] && acked + found == acked
  {
    LoggedMore(gen, acked, found);
    assert |found| == 0;
  }

  /**
   Loading a generation with a damaged tail: cut exactly behind the acknowledged updates, by startup
   only if it looks like an interrupted append, and in any case only if the truncation works.
   */
  lemma LoadDamaged<Doc(!new)>(
    e: Engine<Doc>, disk: Disk, gen: Gen<Doc>, acked: seq<Bytes>, tail: Bytes,
    mode: RecoveryMode, cut: Cut, deleted: set<FileName>) returns (tail': Bytes)
    requires Sound(e) && Committed(e, disk, gen, acked, tail) && mode != Inspect
    requires tail != [] && !Verifies(e, tail)
    ensures var (disk', r) := LoadExisting(e, disk, mode, cut, deleted);
            if (mode == Repair || Interrupted(tail)) && cut == CutDone then
              && r.Ok? && Restored(e, disk', r.value, gen, acked)
              && r.value.doc == Fold(e, gen.base, Logged(gen, acked))
            else
              r.Err? && Committed(e, disk', gen, acked, tail') && (tail' == tail || tail' == [])
  {
    hide Fold, Records, Replay, LoadExisting, EncodeSnapshot, Acceptable, RemoveOldGenerations, Verifies, Interrupted;
    var us := Logged(gen, acked);
    LoadCommitted(e, disk, gen, acked, tail, mode, cut, deleted);
    DamagedTailOutcome(e, us, tail, gen.base, mode);
    var found;
    found, tail' := LoadAny(e, disk, gen, acked, tail, mode, cut, deleted);
    var (disk', r) := LoadExisting(e, disk, mode, cut, deleted);
    if r.Ok? {
      NothingFound(gen, acked, found);
    } else {
      var file := ReplayAndCut(e, Segment(e, us) + tail, gen.base, mode, cut).1;
      tail' := if file == Segment(e, us) + tail then tail else [];
      assert (Segment(e, us) + tail)[..|Segment(e, us)|] == Segment(e, us) + [];
    }
  }

  /** Loading a generation behind which a record stands that cannot be integrated, whatever follows it. */
  lemma LoadBlocked<Doc(!new)>(
    e: Engine<Doc>, disk: Disk, gen: Gen<Doc>, acked: seq<Bytes>, u: Bytes, behind: Bytes,
    mode: RecoveryMode, cut: Cut, deleted: set<FileName>) returns (tail': Bytes)
    requires Sound(e) && Committed(e, disk, gen, acked, Record(e, u) + behind) && mode != Inspect
    requires Acceptable(e, u) && Fold(e, gen.base, Logged(gen, acked) + [u]).None?
    ensures var (disk', r) := LoadExisting(e, disk, mode, cut, deleted);
            if mode == Repair && cut == CutDone then r.Ok? && Restored(e, disk', r.value, gen, acked)
            else
              && r.Err? && (mode == RecoverInterruptedAppend ==> disk' == disk)
              && Committed(e, disk', gen, acked, tail') && (tail' == Record(e, u) + behind || tail' == [])
  {
    hide Fold, Records, Record, Replay, LoadExisting, EncodeSnapshot, RemoveOldGenerations;
    var us, tail := Logged(gen, acked), Record(e, u) + behind;
    LoadCommitted(e, disk, gen, acked, tail, mode, cut, deleted);
    assert Segment(e, us) + Record(e, u) + behind == Segment(e, us) + tail;
    UnintegrableRecordBlocks(e, us, u, behind, gen.base, mode);
    var found;
    found, tail' := LoadAny(e, disk, gen, acked, tail, mode, cut, deleted);
    if LoadExisting(e, disk, mode, cut, deleted).1.Ok? {
      NothingFound(gen, acked, found);
    } else {
      var file := ReplayAndCut(e, Segment(e, us) + tail, gen.base, mode, cut).1;
      tail' := if file == Segment(e, us) + tail then tail else [];
      assert (Segment(e, us) + tail)[..|Segment(e, us)|] == Segment(e, us) + [];
      var log := LogFile(gen.number);
      assert disk.files[log := disk.files[log]] == disk.files;
    }
  }
}
