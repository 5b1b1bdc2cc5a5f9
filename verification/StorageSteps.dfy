/** Every step of a store that is in step keeps disk, process and history in agreement. */
module StorageSteps {
  import opened Wrappers
  import opened Bytes
  import opened StorageFormat
  import opened StorageRecovery
  import opened StorageStore
  import opened StorageWorld
  import opened StorageLoad

  // ----- the invariant

  /** A u64 counter that has counted to `n`. */
  function Cap(n: nat): nat {
    if n > U64_MAX then U64_MAX else n
  }

  /** The snapshot is the root with the updates between applied. */
  ghost predicate Rooted<Doc>(e: Engine<Doc>, w: World<Doc>) {
    && w.rooted <= w.gen.folded <= |w.acked|
    && Fold(e, w.root, w.acked[..w.gen.folded][w.rooted..]) == Some(w.gen.base)
  }

  /** The bytes behind the acknowledged records are at most what the update in flight left there. */
  ghost predicate TailOf<Doc>(e: Engine<Doc>, gen: Gen<Doc>, acked: seq<Bytes>, flight: Option<Bytes>, tail: Bytes) {
    match flight
    case None => tail == []
    case Some(u) =>
      && Acceptable(e, u) && Landed(e, u, tail)
      && |Segment(e, Logged(gen, acked))| + |Record(e, u)| <= MAX_LOG_BYTES
  }

  /** A process in step agrees with the disk. */
  ghost predicate ProcInStep<Doc>(e: Engine<Doc>, w: World<Doc>, tail: Bytes)
    requires w.gen.folded <= |w.acked|
  {
    var us := Logged(w.gen, w.acked);
    match w.proc
    case Down => true
    case Up(p, doc) =>
      && Fold(e, w.gen.base, us) == Some(doc)
      && Agrees(e, p, w.gen, w.acked)
      && (!p.appendFailed ==> w.flight == None)
    case Rejecting(p, before, _) =>
      && w.flight.Some?
      && Fold(e, w.gen.base, us + [w.flight.value]) == None
      && tail == Record(e, w.flight.value)
      && p.generation == w.gen.number && p.maxLogBytes == MAX_LOG_BYTES && !p.appendFailed
      && p.totalRecords <= U64_MAX
      && before == |Segment(e, us)|
      && p.logBytes == before + |Record(e, w.flight.value)|
  }

  ghost predicate SteadyInv<Doc>(e: Engine<Doc>, w: World<Doc>, tail: Bytes) {
    && w.drift.InStep?
    && Committed(e, w.disk, w.gen, w.acked, tail)
    && Rooted(e, w)
    && TailOf(e, w.gen, w.acked, w.flight, tail)
    && ProcInStep(e, w, tail)
  }

  // ----- appending

  /** Clearing a partial record cuts back to the acknowledged records or leaves the tail as it was. */
  lemma ClearOutcome<Doc(!new)>(e: Engine<Doc>, w: World<Doc>, tail: Bytes, cut: Cut) returns (tail': Bytes)
    requires Sound(e) && SteadyInv(e, w, tail) && w.proc.Up?
    ensures var (s, clear) := ClearPartialRecord(Store(w.proc.p, w.disk), cut);
            && Committed(e, s.disk, w.gen, w.acked, tail')
            && s.p == w.proc.p.(appendFailed := !clear)
            && (if clear then tail' == [] else TailOf(e, w.gen, w.acked, w.flight, tail') && w.proc.p.appendFailed)
  {
    hide Fold, EncodeSnapshot, Record, Records;
    var seg := Segment(e, Logged(w.gen, w.acked));
    if !w.proc.p.appendFailed || cut == CutRefused {
      tail' := tail;
    } else {
      tail' := [];
      assert (seg + tail)[..|seg|] == seg + [];
      if w.flight.Some? { NothingLanded(e, w.flight.value); }
    }
  }

  lemma NothingLanded<Doc>(e: Engine<Doc>, u: Bytes)
    ensures Landed(e, u, [])
  {
  }

  lemma {:induction false} RecordsAreLong<Doc(!new)>(e: Engine<Doc>, us: seq<Bytes>)
    requires Sound(e)
    ensures |Records(e, us)| >= RECORD_HEADER_BYTES * |us|
  {
    if us != [] {
      assert |e.checksum(us[0])| == 32;
      RecordsAreLong(e, us[1..]);
    }
  }

  lemma RecordLength<Doc(!new)>(e: Engine<Doc>, u: Bytes)
    requires Sound(e)
    ensures |Record(e, u)| == RECORD_HEADER_BYTES + |u|
  {
    assert |e.checksum(u)| == 32;
  }

  /** Part of a record, as far as a failed write got. */
  function Part<Doc>(e: Engine<Doc>, u: Bytes, landed: nat): Bytes {
    if landed < |Record(e, u)| then Record(e, u)[..landed] else Record(e, u)
  }

  lemma PartLanded<Doc(!new)>(e: Engine<Doc>, u: Bytes, landed: nat)
    requires Sound(e) && Acceptable(e, u)
    ensures Landed(e, u, Part(e, u, landed))
  {
    hide Record, Verifies;
    var part := Part(e, u, landed);
    if landed < |Record(e, u)| { TornIsInterrupted(e, u, part); }
  }

  /** Bytes appended to a segment with nothing behind it. */
  lemma Extended<Doc>(e: Engine<Doc>, disk: Disk, gen: Gen<Doc>, acked: seq<Bytes>, tail: Bytes)
    requires Committed(e, disk, gen, acked, [])
    requires |Segment(e, Logged(gen, acked))| + |tail| <= MAX_LOG_BYTES
    ensures disk.files[LogFile(gen.number)] == Segment(e, Logged(gen, acked))
    ensures Committed(e, WithFile(disk, LogFile(gen.number), disk.files[LogFile(gen.number)] + tail), gen, acked, tail)
  {
    hide Fold, EncodeSnapshot, Records;
    assert Segment(e, Logged(gen, acked)) + [] == Segment(e, Logged(gen, acked));
    WithTail(e, disk, gen, acked, [], tail);
  }

  /** A whole record behind the acknowledged ones is the segment of one more acknowledged update. */
  lemma Acknowledge<Doc(!new)>(e: Engine<Doc>, w: World<Doc>, u: Bytes, disk: Disk)
    requires Sound(e) && Acceptable(e, u) && w.gen.folded <= |w.acked| && Rooted(e, w)
    requires Committed(e, disk, w.gen, w.acked, Record(e, u))
    requires Fold(e, w.gen.base, Logged(w.gen, w.acked) + [u]).Some?
    ensures Committed(e, disk, w.gen, w.acked + [u], [])
    ensures Rooted(e, w.(acked := w.acked + [u]))
    ensures |Segment(e, Logged(w.gen, w.acked + [u]))| == |Segment(e, Logged(w.gen, w.acked))| + |Record(e, u)|
    ensures Logged(w.gen, w.acked + [u]) == Logged(w.gen, w.acked) + [u]
  {
    hide Fold, EncodeSnapshot, Record, Records;
    OneRecord(e, u);
    LoggedMore(w.gen, w.acked, [u]);
    AdoptTail(e, disk, w.gen, w.acked, [u]);
    SegmentMore(e, Logged(w.gen, w.acked), [u]);
  }

  /** The state in which the write of a record starts: nothing behind the acknowledged ones, and room for it. */
  ghost predicate Ready<Doc>(e: Engine<Doc>, w: World<Doc>, u: Bytes, io: AppendIo) {
    && w.drift.InStep? && w.proc.Up? && Acceptable(e, u) && w.gen.folded <= |w.acked| && Rooted(e, w)
    && Agrees(e, w.proc.p, w.gen, w.acked) && Fold(e, w.gen.base, Logged(w.gen, w.acked)) == Some(w.proc.doc)
    && var (s, clear) := ClearPartialRecord(Store(w.proc.p, w.disk), io.repair);
       clear && Fits(e, s.p, u) && s.p == w.proc.p.(appendFailed := false) && Committed(e, s.disk, w.gen, w.acked, [])
  }

  lemma WriteDoneOutcome<Doc(!new)>(e: Engine<Doc>, w: World<Doc>, u: Bytes, io: AppendIo, half: Doc)
    returns (tail': Bytes)
    requires Sound(e) && Ready(e, w, u, io) && io.write.WriteDone?
    ensures var w' := AfterAppend(e, w, u, io, half);
            SteadyInv(e, w', tail')
            && (if e.apply(w.proc.doc, u).Some?
                then w'.proc.Up? && w'.acked == w.acked + [u]
                else w'.proc.Rejecting? && w'.acked == w.acked && w'.flight == Some(u))
  {
    hide EncodeSnapshot, Records, Record;
    var (s, clear) := ClearPartialRecord(Store(w.proc.p, w.disk), io.repair);
    var us := Logged(w.gen, w.acked);
    RecordLength(e, u);
    RecordsAreLong(e, us);
    Extended(e, s.disk, w.gen, w.acked, Record(e, u));
    FoldConcat(e, w.gen.base, us, [u]);
    var disk := WithFile(s.disk, LogFile(w.gen.number), s.disk.files[LogFile(w.gen.number)] + Record(e, u));
    if e.apply(w.proc.doc, u).Some? {
      Acknowledge(e, w, u, disk);
      tail' := [];
    } else {
      tail' := Record(e, u);
    }
  }

  /** An append whose write failed after any part of the record landed. */
  lemma WriteFailedOutcome<Doc(!new)>(e: Engine<Doc>, w: World<Doc>, u: Bytes, io: AppendIo, half: Doc)
    returns (tail': Bytes)
    requires Sound(e) && Ready(e, w, u, io) && io.write.WriteFailed?
    ensures var w' := AfterAppend(e, w, u, io, half);
            SteadyInv(e, w', tail') && w'.acked == w.acked && w'.proc.Up?
  {
    hide Fold, EncodeSnapshot, Records, Record, Verifies;
    var (s, clear) := ClearPartialRecord(Store(w.proc.p, w.disk), io.repair);
    var seg, part := Segment(e, Logged(w.gen, w.acked)), Part(e, u, io.write.landed);
    RecordLength(e, u);
    PartLanded(e, u, io.write.landed);
    NothingLanded(e, u);
    Extended(e, s.disk, w.gen, w.acked, part);
    if io.undo == CutRefused {
      tail' := part;
    } else {
      tail' := [];
      assert (seg + part)[..|seg|] == seg + [];
    }
  }

  lemma AppendOutcome<Doc(!new)>(e: Engine<Doc>, w: World<Doc>, tail: Bytes, u: Bytes, io: AppendIo, half: Doc)
    returns (tail': Bytes)
    requires Sound(e) && SteadyInv(e, w, tail) && w.proc.Up? && Acceptable(e, u)
    ensures var w' := AfterAppend(e, w, u, io, half);
            SteadyInv(e, w', tail') && (w'.acked == w.acked || w'.acked == w.acked + [u])
  {
    hide Fold, EncodeSnapshot, Record, Records, WriteRecord, Landed;
    tail' := ClearOutcome(e, w, tail, io.repair);
    var (s, clear) := ClearPartialRecord(Store(w.proc.p, w.disk), io.repair);
    if clear && Fits(e, s.p, u) {
      if io.write.WriteDone? {
        tail' := WriteDoneOutcome(e, w, u, io, half);
      } else {
        tail' := WriteFailedOutcome(e, w, u, io, half);
      }
    }
  }

  lemma CrashInAppendOutcome<Doc(!new)>(
    e: Engine<Doc>, w: World<Doc>, tail: Bytes, u: Bytes, repair: Cut, landed: Bytes) returns (tail': Bytes)
    requires Sound(e) && SteadyInv(e, w, tail) && w.proc.Up? && Acceptable(e, u)
    ensures var w' := AfterCrashInAppend(e, w, u, repair, landed);
            SteadyInv(e, w', tail') && w'.acked == w.acked
  {
    hide Fold, EncodeSnapshot, Records, Record, Verifies;
    tail' := tail;
    var cleared := ClearOutcome(e, w, tail, repair);
    var (s, clear) := ClearPartialRecord(Store(w.proc.p, w.disk), repair);
    if clear && Fits(e, s.p, u) && Landed(e, u, landed) {
      tail' := landed;
      RecordLength(e, u);
      Extended(e, s.disk, w.gen, w.acked, landed);
    }
  }

  // ----- loading

  /** The update in flight reached the disk as a whole. */
  ghost predicate LandedWhole<Doc>(e: Engine<Doc>, w: World<Doc>, tail: Bytes) {
    w.flight.Some? && tail == Record(e, w.flight.value)
  }

  /** ... and can be integrated. */
  ghost predicate Adopted<Doc>(e: Engine<Doc>, w: World<Doc>, tail: Bytes) {
    LandedWhole(e, w, tail) && Fold(e, w.gen.base, Logged(w.gen, w.acked) + [w.flight.value]).Some?
  }

  /** What a load in step brings back. */
  ghost function History<Doc>(e: Engine<Doc>, w: World<Doc>, tail: Bytes): seq<Bytes> {
    if Adopted(e, w, tail) then w.acked + [w.flight.value] else w.acked
  }

  /**
   When startup refuses: its files cannot be read; a whole record cannot be integrated; damage does not
   look like an interrupted append; or an interrupted append cannot be cut away.
   */
  ghost predicate Refused<Doc>(e: Engine<Doc>, w: World<Doc>, tail: Bytes, io: LoadIo) {
    if !io.readOk then true
    else if tail == [] then false
    else if LandedWhole(e, w, tail) then !Adopted(e, w, tail)
    else !Interrupted(tail) || io.cut != CutDone
  }

  /** All system calls of a load succeed. */
  const HEALTHY := LoadIo(true, CutDone)

  /** A load that cannot read its files changes nothing. */
  lemma Unread<Doc(!new)>(e: Engine<Doc>, w: World<Doc>, io: LoadIo, deleted: set<FileName>)
    requires !io.readOk
    ensures AfterRestart(e, w, io, deleted) == w && AfterRepair(e, w, io, deleted) == w
  {
  }

  /**
   A restart from any disk in step: refused exactly as `Refused` says, and otherwise the document
   comes back as the fold of exactly the acknowledged updates, and the one in flight exactly when its
   whole record landed.
   */
  lemma RestartOutcome<Doc(!new)>(e: Engine<Doc>, w: World<Doc>, tail: Bytes, io: LoadIo, deleted: set<FileName>)
    returns (tail': Bytes)
    requires Sound(e) && SteadyInv(e, w, tail) && w.proc.Down?
    ensures var w' := AfterRestart(e, w, io, deleted);
            && SteadyInv(e, w', tail')
            && w'.gen == w.gen && w'.root == w.root && w'.rooted == w.rooted
            && (if Refused(e, w, tail, io) then w'.proc.Down? && w'.acked == w.acked && w'.flight == w.flight
                else w'.proc.Up? && w'.acked == History(e, w, tail) && w'.flight == None && tail' == [])
  {
    hide LoadExisting, Record, Records, Segment, Fold, Verifies, EncodeSnapshot, Interrupted, Acceptable;
    var mode := RecoverInterruptedAppend;
    tail' := [];
    if !io.readOk {
      tail' := tail;
      Unread(e, w, io, deleted);
    } else if tail == [] {
      if w.flight.Some? { RecordLength(e, w.flight.value); }
      LoadClean(e, w.disk, w.gen, w.acked, mode, io.cut, deleted);
      LoggedMore(w.gen, w.acked, []);
      assert Logged(w.gen, w.acked) + [] == Logged(w.gen, w.acked) && w.acked + [] == w.acked;
    } else if LandedWhole(e, w, tail) {
      tail' := RestartWhole(e, w, tail, io, deleted);
    } else {
      tail' := LoadDamaged(e, w.disk, w.gen, w.acked, tail, mode, io.cut, deleted);
      LoggedMore(w.gen, w.acked, []);
      assert Logged(w.gen, w.acked) + [] == Logged(w.gen, w.acked) && w.acked + [] == w.acked;
      NothingLanded(e, w.flight.value);
      if !Refused(e, w, tail, io) { tail' := []; }
    }
  }

  lemma RestartWhole<Doc(!new)>(e: Engine<Doc>, w: World<Doc>, tail: Bytes, io: LoadIo, deleted: set<FileName>)
    returns (tail': Bytes)
    requires Sound(e) && SteadyInv(e, w, tail) && w.proc.Down? && LandedWhole(e, w, tail) && io.readOk
    ensures var w' := AfterRestart(e, w, io, deleted);
            if Adopted(e, w, tail) then
              && tail' == [] && SteadyInv(e, w', tail')
              && w'.proc.Up? && w'.acked == w.acked + [w.flight.value] && w'.flight == None
              && w'.gen == w.gen && w'.root == w.root && w'.rooted == w.rooted
            else tail' == tail && w' == w
  {
    hide LoadExisting, Record, Records, Segment, Fold, Verifies, EncodeSnapshot, Interrupted, Acceptable;
    var u := w.flight.value;
    if Adopted(e, w, tail) {
      tail' := [];
      Acknowledge(e, w, u, w.disk);
      LoadClean(e, w.disk, w.gen, w.acked + [u], RecoverInterruptedAppend, io.cut, deleted);
      LoggedMore(w.gen, w.acked, [u]);
    } else {
      tail' := tail;
      assert Record(e, u) + [] == Record(e, u);
      var same := LoadBlocked(e, w.disk, w.gen, w.acked, u, [], RecoverInterruptedAppend, io.cut, deleted);
    }
  }

  /** A repair of any disk in step keeps exactly the stated history, if its system calls succeed. */
  lemma RepairOutcome<Doc(!new)>(e: Engine<Doc>, w: World<Doc>, tail: Bytes, io: LoadIo, deleted: set<FileName>)
    returns (tail': Bytes)
    requires Sound(e) && SteadyInv(e, w, tail) && w.proc.Down?
    ensures var w' := AfterRepair(e, w, io, deleted);
            && SteadyInv(e, w', tail')
            && w'.gen == w.gen && w'.root == w.root && w'.rooted == w.rooted
            && w'.proc.Down? && (w'.acked == w.acked || w'.acked == History(e, w, tail))
            && (io == HEALTHY ==> w'.acked == History(e, w, tail) && w'.flight == None && tail' == [])
  {
    hide LoadExisting, Record, Records, Segment, Fold, Verifies, EncodeSnapshot, Interrupted, Acceptable;
    tail' := [];
    LoggedMore(w.gen, w.acked, []);
    assert Logged(w.gen, w.acked) + [] == Logged(w.gen, w.acked) && w.acked + [] == w.acked;
    if !io.readOk {
      tail' := tail;
      Unread(e, w, io, deleted);
    } else if tail == [] {
      if w.flight.Some? { RecordLength(e, w.flight.value); }
      LoadClean(e, w.disk, w.gen, w.acked, Repair, io.cut, deleted);
    } else if LandedWhole(e, w, tail) {
      tail' := RepairWhole(e, w, tail, io, deleted);
    } else {
      tail' := LoadDamaged(e, w.disk, w.gen, w.acked, tail, Repair, io.cut, deleted);
      NothingLanded(e, w.flight.value);
      if io.cut == CutDone { tail' := []; }
    }
  }

  lemma RepairWhole<Doc(!new)>(e: Engine<Doc>, w: World<Doc>, tail: Bytes, io: LoadIo, deleted: set<FileName>)
    returns (tail': Bytes)
    requires Sound(e) && SteadyInv(e, w, tail) && w.proc.Down? && LandedWhole(e, w, tail) && io.readOk
    ensures var w' := AfterRepair(e, w, io, deleted);
            && SteadyInv(e, w', tail') && w'.proc.Down?
            && w'.gen == w.gen && w'.root == w.root && w'.rooted == w.rooted
            && (w'.acked == w.acked || w'.acked == History(e, w, tail))
            && (io.cut == CutDone ==> w'.acked == History(e, w, tail) && w'.flight == None && tail' == [])
  {
    hide LoadExisting, Record, Records, Segment, Fold, Verifies, EncodeSnapshot, Interrupted, Acceptable;
    var u := w.flight.value;
    if Adopted(e, w, tail) {
      tail' := [];
      Acknowledge(e, w, u, w.disk);
      LoadClean(e, w.disk, w.gen, w.acked + [u], Repair, io.cut, deleted);
      LoggedMore(w.gen, w.acked, [u]);
    } else {
      assert Record(e, u) + [] == Record(e, u);
      tail' := LoadBlocked(e, w.disk, w.gen, w.acked, u, [], Repair, io.cut, deleted);
      NothingLanded(e, u);
      LoggedMore(w.gen, w.acked, []);
      assert Logged(w.gen, w.acked) + [] == Logged(w.gen, w.acked) && w.acked + [] == w.acked;
      if io.cut == CutDone { tail' := []; }
    }
  }

  // ----- compacting

  /** The first writes of a compaction leave the old generation committed, whatever stands behind its segment. */
  lemma BeforeSwap<Doc(!new)>(
    e: Engine<Doc>, w: World<Doc>, tail: Bytes, p: Persistence, snapshot: Bytes, steps: nat)
    requires Committed(e, w.disk, w.gen, w.acked, tail) && p.generation == w.gen.number && steps < 3
    ensures Committed(e, CompactionWrites(e, Store(p, w.disk), snapshot, steps), w.gen, w.acked, tail)
  {
    hide Fold, EncodeSnapshot, Records;
  }

  /** After the manifest swap the document in memory is committed, with everything promised counted in. */
  lemma AfterSwap<Doc(!new)>(e: Engine<Doc>, w: World<Doc>, p: Persistence, doc: Doc, deleted: set<FileName>)
    requires Sound(e) && AllAcceptable(e, Promised(w)) && |e.encode(doc)| <= MAX_SNAPSHOT_BYTES
    ensures var disk := CompactionWrites(e, Store(p, w.disk), e.encode(doc), 3);
            var all := Promised(w);
            var gen := Gen(p.generation + 1, doc, p.totalRecords, |all|);
            Committed(e, RemoveOldGenerations(disk, gen.number, deleted), gen, all, [])
  {
    hide EncodeSnapshot;
    var all := Promised(w);
    assert all[|all|..] == [];
    assert Segment(e, []) + [] == LOG_MAGIC;
  }

  /** In step, the document in memory is the root with everything acknowledged since applied. */
  lemma DocumentIsRooted<Doc(!new)>(e: Engine<Doc>, w: World<Doc>, tail: Bytes)
    requires SteadyInv(e, w, tail) && w.proc.Up?
    ensures w.rooted <= |w.acked| && Fold(e, w.root, w.acked[w.rooted..]) == Some(w.proc.doc)
  {
    hide Committed, Agrees;
    var before, us := w.acked[..w.gen.folded][w.rooted..], Logged(w.gen, w.acked);
    FoldConcat(e, w.root, before, us);
    assert before + us == w.acked[w.rooted..];
  }

  /** A compaction cut or crashed after any of its writes leaves the same history committed. */
  lemma CompactOutcome<Doc(!new)>(
    e: Engine<Doc>, w: World<Doc>, tail: Bytes, steps: nat, deleted: set<FileName>, crash: bool)
    returns (tail': Bytes)
    requires Sound(e) && SteadyInv(e, w, tail) && w.proc.Up?
    ensures var w' := if crash then AfterCrashInCompact(e, w, steps, deleted) else AfterCompact(e, w, steps, deleted);
            SteadyInv(e, w', tail') && w'.acked == w.acked
  {
    hide Fold, EncodeSnapshot, Record, CompactionWrites, RemoveOldGenerations;
    tail' := tail;
    if |e.encode(w.proc.doc)| <= MAX_SNAPSHOT_BYTES && w.proc.p.generation < U64_MAX {
      if steps < 3 {
        BeforeSwap(e, w, tail, w.proc.p, e.encode(w.proc.doc), steps);
      } else {
        tail' := [];
        AfterSwap(e, w, w.proc.p, w.proc.doc, deleted);
        SameFromThree(e, w, steps);
        DocumentIsRooted(e, w, tail);
        assert w.acked[..|w.acked|] == w.acked && w.acked[|w.acked|..] == [];
        NothingToFold(e, w.proc.doc);
      }
    }
  }

  lemma SameFromThree<Doc(!new)>(e: Engine<Doc>, w: World<Doc>, steps: nat)
    requires w.proc.Up? && steps >= 3
    ensures var s := Store(w.proc.p, w.disk);
            CompactionWrites(e, s, e.encode(w.proc.doc), steps) == CompactionWrites(e, s, e.encode(w.proc.doc), 3)
  {
  }

  lemma NothingToFold<Doc>(e: Engine<Doc>, doc: Doc)
    ensures Fold(e, doc, []) == Some(doc) && Segment(e, []) == LOG_MAGIC
  {
  }

  // ----- crashing

  lemma CrashOutcome<Doc(!new)>(e: Engine<Doc>, w: World<Doc>, tail: Bytes, lost: Option<Bytes>)
    returns (tail': Bytes)
    requires Sound(e) && SteadyInv(e, w, tail)
    ensures var w' := AfterCrash(e, w, lost);
            SteadyInv(e, w', tail') && w'.acked == w.acked && w'.proc.Down?
  {
    hide Fold, EncodeSnapshot, Records, Record, Verifies;
    tail' := tail;
    if lost.Some? && MayBecome(e, w, lost.value) {
      tail' := lost.value;
      WithTail(e, w.disk, w.gen, w.acked, tail, lost.value);
    }
  }
}
