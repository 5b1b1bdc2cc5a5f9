/**
 A process that goes on after rejecting an update failed: its document is what a panic left, and its
 segment length may no longer match the file. Every step keeps what was acknowledged before.
 */
module StorageAdrift {
  import opened Wrappers
  import opened Bytes
  import opened StorageFormat
  import opened StorageRecovery
  import opened StorageStore
  import opened StorageWorld
  import opened StorageLoad
  import opened StorageSteps

  // ----- the invariant

  function Held<Doc>(e: Engine<Doc>, blocker: Option<Bytes>): Bytes {
    if blocker.None? then [] else Record(e, blocker.value)
  }

  /** The late updates whose records are known to have been left alone. */
  function Sure<Doc>(drift: Drift<Doc>): seq<Bytes>
    requires drift.Adrift?
  {
    if drift.cut then [] else drift.late
  }

  /**
   What stands behind the updates acknowledged in step: the record that could not be discarded, if it
   is still there, and at least as many bytes as the late records take; exactly those records if it is
   exactly as many.
   */
  ghost predicate DriftTail<Doc>(e: Engine<Doc>, gen: Gen<Doc>, acked: seq<Bytes>, drift: Drift<Doc>, tail: Bytes)
    requires drift.Adrift?
  {
    var late := Records(e, Sure(drift));
    && AllAcceptable(e, drift.late)
    && Held(e, drift.blocker) <= tail
    && |tail| >= |Held(e, drift.blocker)| + |late|
    && (|tail| == |late| ==> tail == late)
    && (drift.blocker.Some? ==>
          Acceptable(e, drift.blocker.value) && Fold(e, gen.base, Logged(gen, acked) + [drift.blocker.value]).None?)
  }

  /**
   A length to which the segment can be cut without touching those bytes. If it is exactly that of the
   records acknowledged in step and late, the segment begins with them.
   */
  ghost predicate Room<Doc>(
    e: Engine<Doc>, gen: Gen<Doc>, acked: seq<Bytes>, drift: Drift<Doc>, n: nat, tail: Bytes)
    requires drift.Adrift?
  {
    var late := Records(e, Sure(drift));
    var floor := |Segment(e, Logged(gen, acked))| + |late|;
    floor + |Held(e, drift.blocker)| <= n <= MAX_LOG_BYTES && (n == floor ==> late <= tail)
  }

  ghost predicate Persists<Doc>(
    e: Engine<Doc>, gen: Gen<Doc>, acked: seq<Bytes>, drift: Drift<Doc>, p: Persistence, tail: Bytes)
    requires drift.Adrift?
  {
    && p.generation == gen.number && p.maxLogBytes == MAX_LOG_BYTES && p.totalRecords <= U64_MAX
    && Room(e, gen, acked, drift, p.logBytes, tail)
    && (!p.appendFailed ==> |Segment(e, Logged(gen, acked))| + |tail| <= p.logBytes)
  }

  ghost predicate ProcAdrift<Doc>(e: Engine<Doc>, w: World<Doc>, tail: Bytes)
    requires w.drift.Adrift?
  {
    match w.proc
    case Down => true
    case Up(p, doc) =>
      && Fold(e, w.drift.left, w.drift.since) == Some(doc)
      && Persists(e, w.gen, w.acked, w.drift, p, tail)
    case Rejecting(p, before, _) =>
      && Persists(e, w.gen, w.acked, w.drift, p, tail)
      && !p.appendFailed && before < p.logBytes && Room(e, w.gen, w.acked, w.drift, before, tail)
  }

  ghost predicate DriftInv<Doc>(e: Engine<Doc>, w: World<Doc>, tail: Bytes) {
    && w.drift.Adrift? && w.flight == None
    && Committed(e, w.disk, w.gen, w.acked, tail)
    && Rooted(e, w)
    && DriftTail(e, w.gen, w.acked, w.drift, tail)
    && ProcAdrift(e, w, tail)
  }

  // ----- what happens to the file

  lemma TakeOfConcat(a: Bytes, b: Bytes, n: nat)
    requires |a| <= n
    ensures SetLen(a + b, n) == a + SetLen(b, n - |a|)
  {
  }

  /** The segment's length is set. */
  lemma DriftCut<Doc(!new)>(
    e: Engine<Doc>, disk: Disk, gen: Gen<Doc>, acked: seq<Bytes>, drift: Drift<Doc>, tail: Bytes, n: nat)
    returns (tail': Bytes)
    requires drift.Adrift? && Committed(e, disk, gen, acked, tail) && DriftTail(e, gen, acked, drift, tail)
    requires Room(e, gen, acked, drift, n, tail)
    ensures var log := LogFile(gen.number);
            Committed(e, WithFile(disk, log, SetLen(disk.files[log], n)), gen, acked, tail')
    ensures DriftTail(e, gen, acked, drift, tail') && Room(e, gen, acked, drift, n, tail')
    ensures |Segment(e, Logged(gen, acked))| + |tail'| == n
  {
    hide Fold, EncodeSnapshot, Records, Record, SetLen, Acceptable;
    var seg := Segment(e, Logged(gen, acked));
    tail' := SetLen(tail, n - |seg|);
    TakeOfConcat(seg, tail, n);
    WithTail(e, disk, gen, acked, tail, tail');
    PrefixKept(Held(e, drift.blocker), tail, n - |seg|);
    if Records(e, Sure(drift)) <= tail { PrefixKept(Records(e, Sure(drift)), tail, n - |seg|); }
  }

  lemma PrefixKept(a: Bytes, tail: Bytes, n: nat)
    requires a <= tail && |a| <= n
    ensures a <= SetLen(tail, n)
  {
  }

  /** Bytes are appended, and perhaps acknowledged. */
  lemma DriftExtended<Doc(!new)>(
    e: Engine<Doc>, disk: Disk, gen: Gen<Doc>, acked: seq<Bytes>, drift: Drift<Doc>, tail: Bytes, more: Bytes)
    requires drift.Adrift? && Committed(e, disk, gen, acked, tail) && DriftTail(e, gen, acked, drift, tail)
    requires |Segment(e, Logged(gen, acked))| + |tail| + |more| <= MAX_LOG_BYTES
    ensures var log := LogFile(gen.number);
            Committed(e, WithFile(disk, log, disk.files[log] + more), gen, acked, tail + more)
    ensures DriftTail(e, gen, acked, drift, tail + more)
    ensures forall v, since :: Acceptable(e, v) && more == Record(e, v) ==>
              DriftTail(e, gen, acked, drift.(late := drift.late + [v], since := since), tail + more)
  {
    hide Fold, EncodeSnapshot, Records, Record, Acceptable;
    var seg := Segment(e, Logged(gen, acked));
    assert seg + tail + more == seg + (tail + more);
    WithTail(e, disk, gen, acked, tail, tail + more);
    assert |more| == 0 ==> tail + more == tail;
    forall v, since | Acceptable(e, v) && more == Record(e, v)
      ensures DriftTail(e, gen, acked, drift.(late := drift.late + [v], since := since), tail + more)
    {
      RecordsSnoc(e, drift.late, v);
    }
  }

  /** Room is kept when bytes are appended, and when they are the record of an update acknowledged just then. */
  lemma RoomMore<Doc(!new)>(
    e: Engine<Doc>, gen: Gen<Doc>, acked: seq<Bytes>, drift: Drift<Doc>, n: nat, tail: Bytes, more: Bytes)
    requires drift.Adrift? && DriftTail(e, gen, acked, drift, tail) && Room(e, gen, acked, drift, n, tail)
    ensures Room(e, gen, acked, drift, n, tail + more)
    ensures n + |more| <= MAX_LOG_BYTES ==> Room(e, gen, acked, drift, n + |more|, tail + more)
    ensures forall v, since ::
              more == Record(e, v) && |Segment(e, Logged(gen, acked))| + |tail| <= n && n + |more| <= MAX_LOG_BYTES ==>
              Room(e, gen, acked, drift.(late := drift.late + [v], since := since), n + |more|, tail + more)
  {
    hide Fold, Records, Record, Segment, Acceptable;
    assert |more| == 0 ==> tail + more == tail;
    forall v, since
      | more == Record(e, v) && |Segment(e, Logged(gen, acked))| + |tail| <= n && n + |more| <= MAX_LOG_BYTES
      ensures Room(e, gen, acked, drift.(late := drift.late + [v], since := since), n + |more|, tail + more)
    {
      RecordsSnoc(e, drift.late, v);
    }
  }

  // ----- appending

  lemma DriftClear<Doc(!new)>(e: Engine<Doc>, w: World<Doc>, tail: Bytes, cut: Cut) returns (tail': Bytes)
    requires DriftInv(e, w, tail) && w.proc.Up?
    ensures var (s, clear) := ClearPartialRecord(Store(w.proc.p, w.disk), cut);
            && Committed(e, s.disk, w.gen, w.acked, tail')
            && DriftTail(e, w.gen, w.acked, w.drift, tail')
            && s.p == w.proc.p.(appendFailed := !clear)
            && Room(e, w.gen, w.acked, w.drift, s.p.logBytes, tail')
            && (clear ==> |Segment(e, Logged(w.gen, w.acked))| + |tail'| <= s.p.logBytes)
  {
    hide Fold, EncodeSnapshot, Records, Record, SetLen, DriftTail, Room;
    tail' := tail;
    if w.proc.p.appendFailed && cut != CutRefused {
      tail' := DriftCut(e, w.disk, w.gen, w.acked, w.drift, tail, w.proc.p.logBytes);
    }
  }

  /** The state in which the write of a record starts. */
  ghost predicate DriftReady<Doc>(e: Engine<Doc>, w: World<Doc>, tail: Bytes, u: Bytes, io: AppendIo) {
    && w.drift.Adrift? && w.proc.Up? && w.flight == None && Acceptable(e, u)
    && Fold(e, w.drift.left, w.drift.since) == Some(w.proc.doc)
    && w.gen.folded <= |w.acked| && Rooted(e, w) && DriftTail(e, w.gen, w.acked, w.drift, tail)
    && w.proc.p.generation == w.gen.number && w.proc.p.maxLogBytes == MAX_LOG_BYTES
    && w.proc.p.totalRecords <= U64_MAX
    && Room(e, w.gen, w.acked, w.drift, w.proc.p.logBytes, tail)
    && |Segment(e, Logged(w.gen, w.acked))| + |tail| <= w.proc.p.logBytes
    && var (s, clear) := ClearPartialRecord(Store(w.proc.p, w.disk), io.repair);
       clear && Fits(e, s.p, u) && s.p == w.proc.p.(appendFailed := false) && Committed(e, s.disk, w.gen, w.acked, tail)
  }

  lemma FoldSnoc<Doc(!new)>(e: Engine<Doc>, doc: Doc, us: seq<Bytes>, u: Bytes)
    requires Fold(e, doc, us).Some?
    ensures Fold(e, doc, us + [u]) == e.apply(Fold(e, doc, us).value, u)
  {
    FoldConcat(e, doc, us, [u]);
    match e.apply(Fold(e, doc, us).value, u)
    case None =>
    case Some(next) => NothingToFold(e, next);
  }

  lemma DriftWriteDone<Doc(!new)>(
    e: Engine<Doc>, w: World<Doc>, tail: Bytes, u: Bytes, io: AppendIo, half: Doc)
    requires Sound(e) && DriftReady(e, w, tail, u, io) && io.write.WriteDone?
    ensures var w' := AfterAppend(e, w, u, io, half);
            DriftInv(e, w', tail + Record(e, u)) && w'.acked == w.acked
  {
    hide Fold, EncodeSnapshot, Records, Record, DriftTail, Room;
    var (s, clear) := ClearPartialRecord(Store(w.proc.p, w.disk), io.repair);
    RecordLength(e, u);
    DriftExtended(e, s.disk, w.gen, w.acked, w.drift, tail, Record(e, u));
    RoomMore(e, w.gen, w.acked, w.drift, w.proc.p.logBytes, tail, Record(e, u));
    FoldSnoc(e, w.drift.left, w.drift.since, u);
  }

  lemma DriftWriteFailed<Doc(!new)>(
    e: Engine<Doc>, w: World<Doc>, tail: Bytes, u: Bytes, io: AppendIo, half: Doc) returns (tail': Bytes)
    requires Sound(e) && DriftReady(e, w, tail, u, io) && io.write.WriteFailed?
    ensures var w' := AfterAppend(e, w, u, io, half);
            DriftInv(e, w', tail') && w'.acked == w.acked
  {
    hide Fold, EncodeSnapshot, Records, Record, DriftTail, SetLen, Room;
    var (s, clear) := ClearPartialRecord(Store(w.proc.p, w.disk), io.repair);
    var log, part := LogFile(w.gen.number), Part(e, u, io.write.landed);
    RecordLength(e, u);
    DriftExtended(e, s.disk, w.gen, w.acked, w.drift, tail, part);
    RoomMore(e, w.gen, w.acked, w.drift, w.proc.p.logBytes, tail, part);
    tail' := tail + part;
    if io.undo != CutRefused {
      var torn := WithFile(s.disk, log, s.disk.files[log] + part);
      tail' := DriftCut(e, torn, w.gen, w.acked, w.drift, tail', w.proc.p.logBytes);
    }
  }

  lemma DriftAppend<Doc(!new)>(
    e: Engine<Doc>, w: World<Doc>, tail: Bytes, u: Bytes, io: AppendIo, half: Doc) returns (tail': Bytes)
    requires Sound(e) && DriftInv(e, w, tail) && w.proc.Up? && Acceptable(e, u)
    ensures var w' := AfterAppend(e, w, u, io, half);
            DriftInv(e, w', tail') && w'.acked == w.acked
  {
    hide Fold, EncodeSnapshot, Records, Record, DriftTail, WriteRecord, Room;
    tail' := DriftClear(e, w, tail, io.repair);
    var (s, clear) := ClearPartialRecord(Store(w.proc.p, w.disk), io.repair);
    if clear && Fits(e, s.p, u) {
      if io.write.WriteDone? {
        DriftWriteDone(e, w, tail', u, io, half);
        tail' := tail' + Record(e, u);
      } else {
        tail' := DriftWriteFailed(e, w, tail', u, io, half);
      }
    }
  }

  lemma DriftCrashInAppend<Doc(!new)>(
    e: Engine<Doc>, w: World<Doc>, tail: Bytes, u: Bytes, repair: Cut, landed: Bytes) returns (tail': Bytes)
    requires Sound(e) && DriftInv(e, w, tail) && w.proc.Up? && Acceptable(e, u)
    ensures var w' := AfterCrashInAppend(e, w, u, repair, landed);
            DriftInv(e, w', tail') && w'.acked == w.acked
  {
    hide Fold, EncodeSnapshot, Records, Record, DriftTail, Verifies, Room;
    var cleared := DriftClear(e, w, tail, repair);
    var (s, clear) := ClearPartialRecord(Store(w.proc.p, w.disk), repair);
    tail' := tail;
    if clear && Fits(e, s.p, u) && Landed(e, u, landed) {
      RecordLength(e, u);
      DriftExtended(e, s.disk, w.gen, w.acked, w.drift, cleared, landed);
      tail' := cleared + landed;
    }
  }

  // ----- loading

  /**
   A restart while adrift: it may be refused, but if it succeeds the store is in step again, with
   every update acknowledged before.
   */
  lemma DriftRestart<Doc(!new)>(e: Engine<Doc>, w: World<Doc>, tail: Bytes, io: LoadIo, deleted: set<FileName>)
    returns (tail': Bytes)
    requires Sound(e) && DriftInv(e, w, tail)
    ensures var w' := AfterRestart(e, w, io, deleted);
            && w.acked <= w'.acked
            && w'.gen == w.gen && w'.root == w.root && w'.rooted == w.rooted
            && (if w'.drift.InStep? then w'.proc.Up? && tail' == [] && w'.flight == None && SteadyInv(e, w', tail')
                else w'.proc == w.proc && w'.acked == w.acked && DriftInv(e, w', tail'))
  {
    hide LoadExisting, Record, Records, Fold, EncodeSnapshot, Acceptable, DriftTail, Room;
    tail' := tail;
    if !io.readOk {
      Unread(e, w, io, deleted);
    } else {
      var found;
      found, tail' := LoadAny(e, w.disk, w.gen, w.acked, tail, RecoverInterruptedAppend, io.cut, deleted);
      var (disk, r) := LoadExisting(e, w.disk, RecoverInterruptedAppend, io.cut, deleted);
      LoggedMore(w.gen, w.acked, found);
      if r.Ok? {
        tail' := [];
      } else if disk == w.disk {
        tail' := tail;
      } else {
        CutByLoad(e, w, tail, tail');
      }
    }
  }

  /** A failed load may cut late records away, but not those acknowledged in step. */
  lemma CutByLoad<Doc(!new)>(e: Engine<Doc>, w: World<Doc>, tail: Bytes, tail': Bytes)
    requires w.drift.Adrift? && DriftTail(e, w.gen, w.acked, w.drift, tail) && ProcAdrift(e, w, tail) && tail' <= tail
    ensures DriftTail(e, w.gen, w.acked, w.drift.(blocker := None, cut := true), tail')
    ensures ProcAdrift(e, w.(drift := w.drift.(blocker := None, cut := true)), tail')
  {
  }

  lemma DriftRepair<Doc(!new)>(e: Engine<Doc>, w: World<Doc>, tail: Bytes, io: LoadIo, deleted: set<FileName>)
    returns (tail': Bytes)
    requires Sound(e) && DriftInv(e, w, tail) && w.proc.Down?
    ensures var w' := AfterRepair(e, w, io, deleted);
            && w.acked <= w'.acked && w'.proc.Down?
            && w'.gen == w.gen && w'.root == w.root && w'.rooted == w.rooted
            && (if w'.drift.InStep? then tail' == [] && w'.flight == None && SteadyInv(e, w', tail')
                else w'.acked == w.acked && DriftInv(e, w', tail'))
            && (io == HEALTHY ==> w'.drift.InStep?)
  {
    hide LoadExisting, Record, Records, Fold, EncodeSnapshot, Acceptable, DriftTail, Room;
    tail' := tail;
    if !io.readOk {
      Unread(e, w, io, deleted);
    } else {
      var found;
      found, tail' := LoadAny(e, w.disk, w.gen, w.acked, tail, Repair, io.cut, deleted);
      var (disk, r) := LoadExisting(e, w.disk, Repair, io.cut, deleted);
      LoggedMore(w.gen, w.acked, found);
      if r.Ok? {
        tail' := [];
      } else if disk == w.disk {
        tail' := tail;
      } else {
        CutByLoad(e, w, tail, tail');
      }
    }
  }

  // ----- rejecting

  /**
   Rejecting an update in step. If the cut is confirmed and the document can be read again, the process
   is in step. Otherwise it goes on adrift with the document the panic left; nothing stands behind the
   acknowledged records unless the cut was refused, and the segment length is right exactly if the cut
   was confirmed. The history is untouched.
   */
  lemma RejectOutcome<Doc(!new)>(
    e: Engine<Doc>, w: World<Doc>, tail: Bytes, cut: Cut, reload: LoadIo, deleted: set<FileName>)
    returns (tail': Bytes)
    requires Sound(e) && SteadyInv(e, w, tail) && w.proc.Rejecting?
    ensures var w' := AfterReject(e, w, cut, reload, deleted);
            && w.flight.Some? && w'.acked == w.acked && w'.proc.Up?
            && w'.gen == w.gen && w'.root == w.root && w'.rooted == w.rooted
            && (if cut == CutDone && reload.readOk then SteadyInv(e, w', tail')
                else
                  && DriftInv(e, w', tail')
                  && w'.drift == Adrift(if cut == CutRefused then w.flight else None, [], false, w.proc.doc, [])
                  && (cut != CutRefused ==> tail' == [])
                  && w'.proc.doc == w.proc.doc
                  && (var n := |Segment(e, Logged(w.gen, w.acked))|;
                      if cut == CutDone then w'.proc.p.logBytes == n else w'.proc.p.logBytes > n))
  {
    hide Fold, EncodeSnapshot, LoadExisting, Record, Records, Verifies;
    var us, u := Logged(w.gen, w.acked), w.flight.value;
    var seg := Segment(e, us);
    RecordLength(e, u);
    NoLate(e);
    NothingToFold(e, w.proc.doc);
    assert (seg + tail)[..|seg|] == seg + [];
    WithTail(e, w.disk, w.gen, w.acked, tail, []);
    if cut == CutRefused {
      tail' := tail;
    } else {
      tail' := [];
      if cut == CutDone && reload.readOk {
        var disk := WithFile(w.disk, LogFile(w.gen.number), seg + []);
        LoadClean(e, disk, w.gen, w.acked, RecoverInterruptedAppend, reload.cut, deleted);
        LoggedMore(w.gen, w.acked, []);
        assert us + [] == us && w.acked + [] == w.acked;
      }
    }
  }

  lemma NoLate<Doc>(e: Engine<Doc>)
    ensures Records(e, []) == []
  {
  }

  /** Discarding adrift, whether it works or not, leaves the history alone. */
  lemma DriftDiscarded<Doc(!new)>(e: Engine<Doc>, w: World<Doc>, tail: Bytes, cut: Cut) returns (tail': Bytes)
    requires Sound(e) && DriftInv(e, w, tail) && w.proc.Rejecting?
    ensures var on := Discarded(w, cut);
            && DriftInv(e, on, tail') && w.drift.Adrift? && on.drift.Adrift? && Promised(on) == Promised(w)
            && on.proc.Up? && on.proc.doc == w.proc.doc
            && on.acked == w.acked && on.gen == w.gen && on.root == w.root && on.rooted == w.rooted
  {
    hide Fold, EncodeSnapshot, Record, Records, SetLen;
    NothingToFold(e, w.proc.doc);
    tail' := tail;
    if cut != CutRefused {
      tail' := DriftCut(e, w.disk, w.gen, w.acked, w.drift, tail, w.proc.before);
    }
  }

  /** Rejecting an update while adrift. */
  lemma DriftReject<Doc(!new)>(
    e: Engine<Doc>, w: World<Doc>, tail: Bytes, cut: Cut, reload: LoadIo, deleted: set<FileName>)
    returns (tail': Bytes)
    requires Sound(e) && DriftInv(e, w, tail) && w.proc.Rejecting?
    ensures var w' := AfterReject(e, w, cut, reload, deleted);
            && w.acked <= w'.acked && w'.proc.Up?
            && w'.gen == w.gen && w'.root == w.root && w'.rooted == w.rooted
            && (if w'.drift.InStep? then SteadyInv(e, w', tail')
                else w'.acked == w.acked && DriftInv(e, w', tail'))
  {
    hide AfterRestart, DriftInv, SteadyInv;
    tail' := DriftDiscarded(e, w, tail, cut);
    if DiscardLastRecord(Store(w.proc.p, w.disk), w.proc.before, cut).1.Ok? {
      tail' := DriftRestart(e, Discarded(w, cut), tail', reload, deleted);
    }
  }

  // ----- compacting and crashing

  /** Once the manifest is swapped, the document that was in memory is committed and the store is in step. */
  lemma SwapEndsDrift<Doc(!new)>(e: Engine<Doc>, w: World<Doc>, proc: Proc<Doc>, deleted: set<FileName>)
    requires Sound(e) && w.drift.Adrift? && w.proc.Up? && AllAcceptable(e, Promised(w))
    requires |e.encode(w.proc.doc)| <= MAX_SNAPSHOT_BYTES
    requires w.proc.p.totalRecords <= U64_MAX && w.proc.p.maxLogBytes == MAX_LOG_BYTES
    requires proc.Down? || proc == Up(w.proc.p.(
               generation := w.proc.p.generation + 1, logBytes := |LOG_MAGIC|, records := 0,
               recoveredTail := false, appendFailed := false), w.proc.doc)
    ensures var disk := CompactionWrites(e, Store(w.proc.p, w.disk), e.encode(w.proc.doc), 3);
            var swept := RemoveOldGenerations(disk, w.proc.p.generation + 1, deleted);
            SteadyInv(e, Compacted(w, swept, proc, w.proc.p, w.proc.doc), [])
  {
    hide Fold, EncodeSnapshot, Record, Records, CompactionWrites, RemoveOldGenerations, Acceptable, Committed;
    var all := Promised(w);
    AfterSwap(e, w, w.proc.p, w.proc.doc, deleted);
    assert all[|all|..] == [] && all[..|all|] == all;
    NothingToFold(e, w.proc.doc);
  }

  /** A compaction that gets through makes the document in memory the durable one: the process is in step again. */
  lemma DriftCompact<Doc(!new)>(
    e: Engine<Doc>, w: World<Doc>, tail: Bytes, steps: nat, deleted: set<FileName>, crash: bool)
    returns (tail': Bytes)
    requires Sound(e) && DriftInv(e, w, tail) && w.proc.Up?
    ensures var w' := if crash then AfterCrashInCompact(e, w, steps, deleted) else AfterCompact(e, w, steps, deleted);
            && w.acked <= w'.acked
            && (if w'.drift.InStep?
                then
                  && SteadyInv(e, w', tail') && w'.acked == Promised(w)
                  && w'.gen.base == w'.root == w.proc.doc && w'.rooted == |Promised(w)|
                else DriftInv(e, w', tail'))
  {
    hide Fold, EncodeSnapshot, Record, Records, CompactionWrites, RemoveOldGenerations, Acceptable, SteadyInv;
    tail' := tail;
    if |e.encode(w.proc.doc)| <= MAX_SNAPSHOT_BYTES && w.proc.p.generation < U64_MAX {
      if steps < 3 {
        BeforeSwap(e, w, tail, w.proc.p, e.encode(w.proc.doc), steps);
      } else {
        tail' := [];
        SameFromThree(e, w, steps);
        var w' := if crash then AfterCrashInCompact(e, w, steps, deleted) else AfterCompact(e, w, steps, deleted);
        SwapEndsDrift(e, w, w'.proc, deleted);
      }
    }
  }

  lemma DriftCrash<Doc(!new)>(e: Engine<Doc>, w: World<Doc>, tail: Bytes, lost: Option<Bytes>)
    returns (tail': Bytes)
    requires Sound(e) && DriftInv(e, w, tail)
    ensures var w' := AfterCrash(e, w, lost);
            DriftInv(e, w', tail') && w'.acked == w.acked && w'.drift == w.drift && w'.proc.Down?
  {
    hide Fold, EncodeSnapshot, Record;
    tail' := tail;
    if lost.Some? && MayBecome(e, w, lost.value) {
      tail' := lost.value;
      WithTail(e, w.disk, w.gen, w.acked, tail, lost.value);
    }
  }
}
