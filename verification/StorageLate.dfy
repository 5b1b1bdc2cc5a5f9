/**
 Updates acknowledged after rejecting an update failed: exactly when they survive, and how they and
 the document are lost.
 */
module StorageLate {
  import opened Wrappers
  import opened Bytes
  import opened StorageFormat
  import opened StorageRecovery
  import opened StorageStore
  import opened StorageWorld
  import opened StorageLoad
  import opened StorageSteps
  import opened StorageAdrift
  import opened StorageRun

  /**
   What becomes of the updates acknowledged adrift, exactly. If the panicking record
   was left in the segment, startup refuses the document and a repair returns what was acknowledged
   before, without any of them. In general a load that succeeds brings them all back if and only if
   the segment begins with their records and they integrate without the half-applied document; and
   startup brings back exactly them, cutting nothing, if and only if the segment is exactly those
   records and they integrate, for which, unless a failed load has cut it, its length tells.
   */
  lemma LateUpdates<Doc(!new)>(
    e: Engine<Doc>, d0: Doc, actions: seq<Action<Doc>>, lost: Option<Bytes>, io: LoadIo, deleted: set<FileName>)
    requires Sound(e) && CreateDocument(e, d0).Ok?
    ensures var w := Run(e, Created(e, d0), actions);
            var down := Next(e, w, Crash(lost));
            var back := Next(e, down, Restart(io, deleted));
            var repaired := Next(e, down, RepairOffline(HEALTHY, deleted));
            var promised := Segment(e, Logged(w.gen, Promised(w)));
            var integrate := Fold(e, w.gen.base, Logged(w.gen, Promised(w))).Some?;
            var survive := promised <= SegmentFile(down) && integrate;
            w.drift.Adrift? ==>
              && (w.drift.blocker.Some? ==> back.proc.Down? && repaired.acked == w.acked)
              && (Promised(w) <= repaired.acked <==> survive)
              && (back.proc.Up? ==> (Promised(w) <= back.acked <==> survive))
              && (back.proc.Up? && back.acked == Promised(w) && !back.proc.p.recoveredTail <==>
                  io.readOk && SegmentFile(down) == promised && integrate)
              && (!w.drift.cut ==> (SegmentFile(down) == promised <==> |SegmentFile(down)| == |promised|))
  {
    hide Run, AfterCrash, AfterRestart, AfterRepair, DriftInv, SteadyInv, Segment, Fold, Created, SegmentFile;
    var tail := Reached(e, d0, actions);
    var w := Run(e, Created(e, d0), actions);
    if w.drift.Adrift? {
      tail := DriftCrash(e, w, tail, lost);
      var down := Next(e, w, Crash(lost));
      SameGeneration(e, w, lost);
      if w.drift.blocker.Some? { BlockedLate(e, down, tail, io, deleted); }
      LateRestart(e, down, tail, io, deleted);
      LateRepair(e, down, tail, deleted);
    }
  }

  lemma SameGeneration<Doc(!new)>(e: Engine<Doc>, w: World<Doc>, lost: Option<Bytes>)
    ensures var down := AfterCrash(e, w, lost); down.gen == w.gen && down.acked == w.acked && down.drift == w.drift
  {
  }

  /** Behind a record that cannot be integrated nothing is ever read. */
  lemma BlockedLate<Doc(!new)>(
    e: Engine<Doc>, down: World<Doc>, tail: Bytes, io: LoadIo, deleted: set<FileName>)
    requires Sound(e) && DriftInv(e, down, tail) && down.proc.Down? && down.drift.blocker.Some?
    ensures AfterRestart(e, down, io, deleted).proc.Down?
    ensures AfterRepair(e, down, HEALTHY, deleted).acked == down.acked
  {
    hide LoadExisting, Fold, Record, Records, EncodeSnapshot, Segment;
    var u := down.drift.blocker.value;
    var behind := tail[|Record(e, u)|..];
    assert tail == Record(e, u) + behind;
    var t := LoadBlocked(e, down.disk, down.gen, down.acked, u, behind, RecoverInterruptedAppend, io.cut, deleted);
    t := LoadBlocked(e, down.disk, down.gen, down.acked, u, behind, Repair, CutDone, deleted);
    LoggedMore(down.gen, down.acked, []);
    assert Logged(down.gen, down.acked) + [] == Logged(down.gen, down.acked) && down.acked + [] == down.acked;
  }

  /** Records at the head of a segment that integrate are recovered by every load that succeeds, and no others are. */
  lemma RecoveredExactly<Doc(!new)>(
    e: Engine<Doc>, gen: Gen<Doc>, acked: seq<Bytes>, late: seq<Bytes>, tail: Bytes, found: seq<Bytes>,
    mode: RecoveryMode)
    requires Sound(e) && gen.folded <= |acked| && AllAcceptable(e, acked) && AllAcceptable(e, late)
    requires var file := Segment(e, Logged(gen, acked)) + tail;
             var r := Replay(e, file, gen.base, mode);
             r.Ok? && r.value.updates == Logged(gen, acked + found)
    requires Fold(e, gen.base, Logged(gen, acked + found)).Some? && Records(e, found) <= tail
    ensures acked + late <= acked + found <==>
            Segment(e, Logged(gen, acked + late)) <= Segment(e, Logged(gen, acked)) + tail
            && Fold(e, gen.base, Logged(gen, acked + late)).Some?
  {
    hide Fold, Records, Replay, Acceptable;
    var us := Logged(gen, acked);
    var file := Segment(e, us) + tail;
    LoggedMore(gen, acked, late);
    LoggedMore(gen, acked, found);
    if acked + late <= acked + found {
      assert found == (acked + found)[|acked|..];
      assert late == (acked + late)[|acked|..];
      var rest := found[|late|..];
      assert found == late + rest;
      RecordsConcat(e, late, rest);
      SegmentMore(e, us, late);
      FoldConcat(e, gen.base, us + late, rest);
      assert us + found == us + late + rest;
    }
    var promised := Segment(e, us + late);
    if promised <= file && Fold(e, gen.base, us + late).Some? {
      var behind := file[|promised|..];
      assert file == promised + behind;
      NoModeCutsIntactRecords(e, us + late, behind, gen.base, mode);
      assert us + late <= us + found;
      assert found[..|late|] == (us + found)[..|us + late|][|us|..] == (us + late)[|us|..] == late;
    }
  }

  lemma LateRepair<Doc(!new)>(e: Engine<Doc>, down: World<Doc>, tail: Bytes, deleted: set<FileName>)
    requires Sound(e) && DriftInv(e, down, tail) && down.proc.Down?
    ensures var repaired := AfterRepair(e, down, HEALTHY, deleted);
            var all := Promised(down);
            all <= repaired.acked <==>
            && Segment(e, Logged(down.gen, all)) <= SegmentFile(down)
            && Fold(e, down.gen.base, Logged(down.gen, all)).Some?
  {
    hide LoadExisting, Fold, Record, Records, EncodeSnapshot, Segment, Replay;
    TailIs(e, down, tail);
    LoadCommitted(e, down.disk, down.gen, down.acked, tail, Repair, CutDone, deleted);
    var found, tail' := LoadAny(e, down.disk, down.gen, down.acked, tail, Repair, CutDone, deleted);
    LoggedMore(down.gen, down.acked, found);
    RecoveredExactly(e, down.gen, down.acked, down.drift.late, tail, found, Repair);
  }

  lemma LateRestart<Doc(!new)>(
    e: Engine<Doc>, down: World<Doc>, tail: Bytes, io: LoadIo, deleted: set<FileName>)
    requires Sound(e) && DriftInv(e, down, tail) && down.proc.Down?
    ensures var back := AfterRestart(e, down, io, deleted);
            var all := Promised(down);
            var promised := Segment(e, Logged(down.gen, all));
            var integrate := Fold(e, down.gen.base, Logged(down.gen, all)).Some?;
            && (back.proc.Up? ==> (all <= back.acked <==> promised <= SegmentFile(down) && integrate))
            && (back.proc.Up? && back.acked == all && !back.proc.p.recoveredTail <==>
                io.readOk && SegmentFile(down) == promised && integrate)
            && (!down.drift.cut ==> (SegmentFile(down) == promised <==> |SegmentFile(down)| == |promised|))
  {
    hide LoadExisting, Fold, Record, Records, EncodeSnapshot, Segment, Replay;
    var mode, gen, acked, late := RecoverInterruptedAppend, down.gen, down.acked, down.drift.late;
    TailIs(e, down, tail);
    LoadCommitted(e, down.disk, gen, acked, tail, mode, io.cut, deleted);
    var found, tail' := LoadAny(e, down.disk, gen, acked, tail, mode, io.cut, deleted);
    var (disk, r) := LoadExisting(e, down.disk, mode, io.cut, deleted);
    if !io.readOk { Unread(e, down, io, deleted); }
    LoggedMore(gen, acked, found);
    LoggedMore(gen, acked, late);
    SegmentMore(e, Logged(gen, acked), late);
    if r.Ok? {
      RecoveredExactly(e, gen, acked, late, tail, found, mode);
      if acked + found == acked + late { assert found == (acked + found)[|acked|..] == late; }
    }
    assert tail == (Segment(e, Logged(gen, acked)) + tail)[|Segment(e, Logged(gen, acked))|..];
    assert Records(e, late) == Segment(e, Logged(gen, acked + late))[|Segment(e, Logged(gen, acked))|..];
    if tail == Records(e, late) && Fold(e, gen.base, Logged(gen, acked + late)).Some? {
      AdoptTail(e, down.disk, gen, acked, late);
      LoadClean(e, down.disk, gen, acked + late, mode, io.cut, deleted);
    }
  }

  // ----- which appends keep late updates recoverable

  /** The segment is exactly as long as the records of everything promised. */
  ghost predicate Flush<Doc>(e: Engine<Doc>, w: World<Doc>) {
    |SegmentFile(w)| == |Segment(e, Logged(w.gen, Promised(w)))|
  }

  /**
   An append that leaves nothing in the segment but acknowledged records: it is refused before
   anything is written, or its record is written whole and integrates, or nothing of it lands and the
   segment's length is not set.
   */
  predicate Undisturbed<Doc>(e: Engine<Doc>, w: World<Doc>, u: Bytes, io: AppendIo)
    requires w.proc.Up?
  {
    if w.proc.p.appendFailed then io.repair == CutRefused
    else if !Fits(e, w.proc.p, u) then true
    else if io.write.WriteDone? then e.apply(w.proc.doc, u).Some?
    else io.write.landed == 0 && io.undo == CutRefused
  }

  /** The segment length the process keeps is beyond everything promised. */
  ghost predicate Gapped<Doc>(e: Engine<Doc>, w: World<Doc>) {
    (w.proc.Up? || w.proc.Rejecting?) && w.proc.p.logBytes > |Segment(e, Logged(w.gen, Promised(w)))|
  }

  predicate AllAppends<Doc(!new)>(actions: seq<Action<Doc>>) {
    forall i :: 0 <= i < |actions| ==> actions[i].Append?
  }

  predicate AllUndisturbed<Doc(!new)>(e: Engine<Doc>, w: World<Doc>, appends: seq<Action<Doc>>)
    requires AllAppends(appends)
    decreases |appends|
  {
    if appends == [] then true
    else
      var a := appends[0];
      && (w.proc.Up? && Acceptable(e, a.u) ==> Undisturbed(e, w, a.u, a.io))
      && AllUndisturbed(e, Next(e, w, a), appends[1..])
  }

  /** How long an append leaves the segment file, and whether it succeeds. */
  lemma AppendLength<Doc(!new)>(e: Engine<Doc>, s: Store, u: Bytes, io: AppendIo)
    requires Log(s) in s.disk.files
    ensures var (s', r) := AppendUpdate(e, s, u, io);
            var clear := !s.p.appendFailed || io.repair == CutDone;
            var start := if s.p.appendFailed && io.repair != CutRefused then s.p.logBytes else |s.disk.files[Log(s)]|;
            && Log(s') == Log(s) && Log(s) in s'.disk.files
            && (r.Ok? <==> clear && Fits(e, s.p, u) && io.write.WriteDone?)
            && s'.p.logBytes == (if r.Ok? then SaturatingAdd(s.p.logBytes, |Record(e, u)|) else s.p.logBytes)
            && |s'.disk.files[Log(s)]| ==
               if !clear || !Fits(e, s.p, u) then start
               else if io.write.WriteDone? then start + |Record(e, u)|
               else if io.undo == CutRefused then start + |Part(e, u, io.write.landed)|
               else s.p.logBytes
  {
    hide Record, SetLen;
  }

  /** With such a gap the segment stays flush through exactly the undisturbed appends, and never becomes flush again. */
  lemma FlushAppend<Doc(!new)>(
    e: Engine<Doc>, w: World<Doc>, tail: Bytes, u: Bytes, io: AppendIo, half: Doc)
    requires Sound(e) && DriftInv(e, w, tail) && !w.drift.cut && w.proc.Up? && Acceptable(e, u) && Gapped(e, w)
    ensures var w' := AfterAppend(e, w, u, io, half);
            w'.drift.Adrift? && !w'.drift.cut && (Flush(e, w') <==> Flush(e, w) && Undisturbed(e, w, u, io))
  {
    hide Fold, EncodeSnapshot, Records, Record, Acceptable, Segment, AppendUpdate, Rooted, HoldsSnapshot;
    var us, late := Logged(w.gen, w.acked), w.drift.late;
    TailIs(e, w, tail);
    RecordLength(e, u);
    AppendLength(e, Store(w.proc.p, w.disk), u, io);
    LoggedMore(w.gen, w.acked, late);
    SegmentMore(e, us, late);
    LoggedMore(w.gen, w.acked, late + [u]);
    SegmentMore(e, us, late + [u]);
    RecordsSnoc(e, late, u);
  }

  lemma GapKept<Doc(!new)>(e: Engine<Doc>, w: World<Doc>, tail: Bytes, u: Bytes, io: AppendIo, half: Doc)
    requires Sound(e) && DriftInv(e, w, tail) && w.proc.Up? && Gapped(e, w)
    ensures Gapped(e, AfterAppend(e, w, u, io, half))
  {
    hide Fold, EncodeSnapshot, Records, Record, Acceptable, Segment, AppendUpdate;
    var us, late := Logged(w.gen, w.acked), w.drift.late;
    RecordLength(e, u);
    AppendLength(e, Store(w.proc.p, w.disk), u, io);
    LoggedMore(w.gen, w.acked, late);
    SegmentMore(e, us, late);
    LoggedMore(w.gen, w.acked, late + [u]);
    SegmentMore(e, us, late + [u]);
    RecordsSnoc(e, late, u);
  }

  /**
   The exact condition over a run. A discard is not confirmed, the process goes on, and any appends follow. A
   crash and a restart then bring back everything acknowledged, before and since, without cutting
   anything, if and only if the discard had in fact cut the record, every append since was
   undisturbed, and the updates integrate one after the other.
   */
  lemma LateRunExactly<Doc(!new)>(
    e: Engine<Doc>, d0: Doc, actions: seq<Action<Doc>>, cut: Cut, reload: LoadIo, appends: seq<Action<Doc>>,
    io: LoadIo, deleted: set<FileName>)
    requires Sound(e) && CreateDocument(e, d0).Ok? && AllAppends(appends) && cut != CutDone
    ensures var rejecting := Run(e, Created(e, d0), actions);
            var on := Next(e, rejecting, Reject(cut, reload, deleted));
            var w := Run(e, on, appends);
            var back := Next(e, Next(e, w, Crash(None)), Restart(io, deleted));
            rejecting.proc.Rejecting? && rejecting.drift.InStep? ==>
              && w.acked == rejecting.acked
              && (Serves(e, d0, back, Promised(w)) && !back.proc.p.recoveredTail <==>
                    && io.readOk && cut == CutUnconfirmed
                    && AllUndisturbed(e, on, appends)
                    && Fold(e, w.gen.base, Logged(w.gen, Promised(w))).Some?)
  {
    hide Run, Created, AfterReject, SteadyInv, DriftInv, AfterCrash, AfterRestart, Fold, Serves, Flush, Segment;
    hide AllUndisturbed;
    var tail := Reached(e, d0, actions);
    var rejecting := Run(e, Created(e, d0), actions);
    if rejecting.proc.Rejecting? && rejecting.drift.InStep? {
      tail := RejectOutcome(e, rejecting, tail, cut, reload, deleted);
      var on := Next(e, rejecting, Reject(cut, reload, deleted));
      FlushAtFirst(e, on, tail);
      GappedAtFirst(e, on);
      tail := FlushRun(e, on, tail, appends);
      var w := Run(e, on, appends);
      tail := DriftCrash(e, w, tail, None);
      var down := Next(e, w, Crash(None));
      NothingLost(e, w);
      LateRestart(e, down, tail, io, deleted);
      FlushSame(e, w, down);
      var tail' := DriftRestart(e, down, tail, io, deleted);
      var back := Next(e, down, Restart(io, deleted));
      if back.drift.InStep? { UpServes(e, d0, back, tail'); }
      ServesMeans(e, d0, back, Promised(w));
    }
  }

  lemma ServesMeans<Doc(!new)>(e: Engine<Doc>, d0: Doc, w: World<Doc>, history: seq<Bytes>)
    ensures Serves(e, d0, w, history) ==> w.proc.Up? && w.acked == history
  {
  }

  lemma NothingLost<Doc(!new)>(e: Engine<Doc>, w: World<Doc>)
    ensures AfterCrash(e, w, None) == w.(proc := Down)
  {
  }

  lemma FlushSame<Doc(!new)>(e: Engine<Doc>, w: World<Doc>, down: World<Doc>)
    requires down == w.(proc := Down)
    ensures Flush(e, w) <==> |SegmentFile(down)| == |Segment(e, Logged(down.gen, Promised(down)))|
    ensures Promised(down) == Promised(w)
  {
  }

  lemma FlushAtFirst<Doc(!new)>(e: Engine<Doc>, on: World<Doc>, tail: Bytes)
    requires Sound(e) && DriftInv(e, on, tail) && on.drift.late == [] && !on.drift.cut
    requires on.drift.blocker.None? ==> tail == []
    ensures Flush(e, on) <==> on.drift.blocker.None?
  {
    hide Fold, EncodeSnapshot;
    TailIs(e, on, tail);
    LoggedMore(on.gen, on.acked, []);
    assert on.acked + [] == on.acked;
    if on.drift.blocker.Some? { RecordLength(e, on.drift.blocker.value); }
  }

  lemma GappedAtFirst<Doc(!new)>(e: Engine<Doc>, on: World<Doc>)
    requires on.proc.Up? && on.drift.Adrift? && on.drift.late == []
    requires on.proc.p.logBytes > |Segment(e, Logged(on.gen, on.acked))|
    ensures Gapped(e, on)
  {
    assert on.acked + [] == on.acked;
  }

  lemma {:induction false} FlushRun<Doc(!new)>(
    e: Engine<Doc>, w: World<Doc>, tail: Bytes, appends: seq<Action<Doc>>) returns (tail': Bytes)
    requires Sound(e) && DriftInv(e, w, tail) && !w.drift.cut && AllAppends(appends) && Gapped(e, w)
    ensures var w' := Run(e, w, appends);
            && DriftInv(e, w', tail') && w'.drift.Adrift? && !w'.drift.cut && w'.acked == w.acked
            && (Flush(e, w') <==> Flush(e, w) && AllUndisturbed(e, w, appends))
    decreases |appends|
  {
    hide DriftInv, Flush, AfterAppend, Undisturbed, Acceptable, Gapped;
    tail' := tail;
    DriftIsAdrift(e, w, tail);
    if appends != [] {
      var a := appends[0];
      if w.proc.Up? && Acceptable(e, a.u) {
        FlushAppend(e, w, tail, a.u, a.io, a.half);
        GapKept(e, w, tail, a.u, a.io, a.half);
        tail' := DriftAppend(e, w, tail, a.u, a.io, a.half);
      }
      assert appends[0].Append?;
      tail' := FlushRun(e, Next(e, w, a), tail', appends[1..]);
    }
  }

  // ----- a document that could not be read again

  /**
   After a confirmed cut the segment length is right, whatever the reload says; appends keep it so. The
   segment then begins with everything promised.
   */
  lemma {:induction false} ExactRun<Doc(!new)>(
    e: Engine<Doc>, w: World<Doc>, tail: Bytes, appends: seq<Action<Doc>>) returns (tail': Bytes)
    requires Sound(e) && DriftInv(e, w, tail) && !w.drift.cut && AllAppends(appends) && Exact(e, w)
    ensures var w' := Run(e, w, appends);
            && DriftInv(e, w', tail') && w'.drift.Adrift? && !w'.drift.cut && w'.acked == w.acked && w'.gen == w.gen
            && Exact(e, w')
    decreases |appends|
  {
    hide DriftInv, AfterAppend, Acceptable, Exact;
    tail' := tail;
    DriftIsAdrift(e, w, tail);
    if appends != [] {
      var a := appends[0];
      if w.proc.Up? && Acceptable(e, a.u) {
        ExactAppend(e, w, tail, a.u, a.io, a.half);
        tail' := DriftAppend(e, w, tail, a.u, a.io, a.half);
      }
      assert appends[0].Append?;
      tail' := ExactRun(e, Next(e, w, a), tail', appends[1..]);
    }
  }

  /** The process keeps the length of exactly the promised records, and of one it is about to discard. */
  ghost predicate Exact<Doc>(e: Engine<Doc>, w: World<Doc>) {
    var n := |Segment(e, Logged(w.gen, Promised(w)))|;
    (w.proc.Up? && w.proc.p.logBytes == n) || (w.proc.Rejecting? && w.proc.before == n)
  }

  lemma ExactAppend<Doc(!new)>(e: Engine<Doc>, w: World<Doc>, tail: Bytes, u: Bytes, io: AppendIo, half: Doc)
    requires Sound(e) && DriftInv(e, w, tail) && !w.drift.cut && w.proc.Up? && Acceptable(e, u) && Exact(e, w)
    ensures var w' := AfterAppend(e, w, u, io, half);
            w'.drift.Adrift? && !w'.drift.cut && w'.gen == w.gen && Exact(e, w')
  {
    hide Fold, EncodeSnapshot, Records, Record, Acceptable, Segment, AppendUpdate;
    var us, late := Logged(w.gen, w.acked), w.drift.late;
    RecordLength(e, u);
    AppendLength(e, Store(w.proc.p, w.disk), u, io);
    LoggedMore(w.gen, w.acked, late);
    SegmentMore(e, us, late);
    LoggedMore(w.gen, w.acked, late + [u]);
    SegmentMore(e, us, late + [u]);
    RecordsSnoc(e, late, u);
  }

  /** Then the segment begins with everything promised, and is exactly that while no append failed. */
  lemma ExactSegment<Doc(!new)>(e: Engine<Doc>, w: World<Doc>, tail: Bytes)
    requires Sound(e) && DriftInv(e, w, tail) && !w.drift.cut && Exact(e, w)
    ensures Segment(e, Logged(w.gen, Promised(w))) <= SegmentFile(w)
    ensures w.proc.Up? && !w.proc.p.appendFailed ==> SegmentFile(w) == Segment(e, Logged(w.gen, Promised(w)))
  {
    hide Fold, EncodeSnapshot, Records, Record, Acceptable;
    var us, late := Logged(w.gen, w.acked), w.drift.late;
    TailIs(e, w, tail);
    LoggedMore(w.gen, w.acked, late);
    SegmentMore(e, us, late);
    assert Segment(e, us) + Records(e, late) <= Segment(e, us) + tail;
  }

  /**
   The exact condition when the cut was confirmed but the document could not be read again. The server
   goes on with what the panic left, and any appends follow. What was acknowledged before is kept. What
   is acknowledged since comes back, by a repair and, unless the last append failed, by startup, if and
   only if it integrates into the document without the half-applied update.
   */
  lemma UnreadRunExactly<Doc(!new)>(
    e: Engine<Doc>, d0: Doc, actions: seq<Action<Doc>>, cut: Cut, appends: seq<Action<Doc>>, deleted: set<FileName>)
    requires Sound(e) && CreateDocument(e, d0).Ok? && AllAppends(appends)
    ensures var rejecting := Run(e, Created(e, d0), actions);
            var on := Next(e, rejecting, Reject(CutDone, LoadIo(false, cut), deleted));
            var w := Run(e, on, appends);
            var down := Next(e, w, Crash(None));
            var back := Next(e, down, Restart(HEALTHY, deleted));
            var repaired := Next(e, down, RepairOffline(HEALTHY, deleted));
            var integrate := Fold(e, w.gen.base, Logged(w.gen, Promised(w))).Some?;
            rejecting.proc.Rejecting? && rejecting.drift.InStep? ==>
              && w.acked == rejecting.acked && w.drift.Adrift?
              && w.acked <= repaired.acked
              && (Promised(w) <= repaired.acked <==> integrate)
              && (back.proc.Up? ==> (Promised(w) <= back.acked <==> integrate))
              && (w.proc.Up? && !w.proc.p.appendFailed ==> (Serves(e, d0, back, Promised(w)) <==> integrate))
  {
    hide Run, Created, AfterReject, SteadyInv, DriftInv, AfterCrash, AfterRestart, AfterRepair, Fold, Serves, Segment;
    hide Exact;
    var tail := Reached(e, d0, actions);
    var rejecting := Run(e, Created(e, d0), actions);
    if rejecting.proc.Rejecting? && rejecting.drift.InStep? {
      tail := RejectOutcome(e, rejecting, tail, CutDone, LoadIo(false, cut), deleted);
      var on := Next(e, rejecting, Reject(CutDone, LoadIo(false, cut), deleted));
      ExactAtFirst(e, on);
      tail := ExactRun(e, on, tail, appends);
      var w := Run(e, on, appends);
      ExactSegment(e, w, tail);
      tail := DriftCrash(e, w, tail, None);
      var down := Next(e, w, Crash(None));
      NothingLost(e, w);
      SameFile(e, w, down);
      LateRestart(e, down, tail, HEALTHY, deleted);
      LateRepair(e, down, tail, deleted);
      var t := DriftRepair(e, down, tail, HEALTHY, deleted);
      var tail' := DriftRestart(e, down, tail, HEALTHY, deleted);
      var back := Next(e, down, Restart(HEALTHY, deleted));
      if back.drift.InStep? { UpServes(e, d0, back, tail'); }
      ServesMeans(e, d0, back, Promised(w));
    }
  }

  lemma ExactAtFirst<Doc(!new)>(e: Engine<Doc>, on: World<Doc>)
    requires on.proc.Up? && on.drift.Adrift? && on.drift.late == []
    requires on.proc.p.logBytes == |Segment(e, Logged(on.gen, on.acked))|
    ensures Exact(e, on)
  {
    assert on.acked + [] == on.acked;
  }

  lemma SameFile<Doc(!new)>(e: Engine<Doc>, w: World<Doc>, down: World<Doc>)
    requires down == w.(proc := Down)
    ensures SegmentFile(down) == SegmentFile(w) && Promised(down) == Promised(w)
  {
  }

  /**
   A failing input: an update that integrates only into the half-applied document is acknowledged, and
   the next startup refuses the document; a repair cuts it away.
   */
  lemma AcknowledgedOnHalfIsLost<Doc(!new)>(
    e: Engine<Doc>, d0: Doc, actions: seq<Action<Doc>>, cut: Cut, v: Bytes, half: Doc, deleted: set<FileName>)
    requires Sound(e) && CreateDocument(e, d0).Ok? && Acceptable(e, v)
    ensures var rejecting := Run(e, Created(e, d0), actions);
            var on := Next(e, rejecting, Reject(CutDone, LoadIo(false, cut), deleted));
            var late := Next(e, on, Append(v, AppendIo(CutDone, WriteDone, CutDone), half));
            var down := Next(e, late, Crash(None));
            rejecting.proc.Rejecting? && rejecting.drift.InStep? && Fits(e, on.proc.p, v)
            && e.apply(rejecting.proc.doc, v).Some?
            && Fold(e, rejecting.gen.base, Logged(rejecting.gen, rejecting.acked) + [v]).None? ==>
              && Promised(late) == rejecting.acked + [v]
              && Next(e, down, Restart(HEALTHY, deleted)).proc.Down?
              && Next(e, down, RepairOffline(HEALTHY, deleted)).acked == rejecting.acked
  {
    hide Run, Created, AfterReject, AfterAppend, AfterRestart, AfterRepair, SteadyInv, DriftInv, AfterCrash;
    hide Fold, Segment, Acceptable, Record, Records, Committed;
    var tail := Reached(e, d0, actions);
    var rejecting := Run(e, Created(e, d0), actions);
    if rejecting.proc.Rejecting? && rejecting.drift.InStep? {
      tail := RejectOutcome(e, rejecting, tail, CutDone, LoadIo(false, cut), deleted);
      var on := Next(e, rejecting, Reject(CutDone, LoadIo(false, cut), deleted));
      if Fits(e, on.proc.p, v) && e.apply(on.proc.doc, v).Some? {
        LateOnHalf(e, on, v, half);
        var late := Next(e, on, Append(v, AppendIo(CutDone, WriteDone, CutDone), half));
        NothingLost(e, late);
        if Fold(e, on.gen.base, Logged(on.gen, on.acked) + [v]).None? {
          BlockedByLate(e, Next(e, late, Crash(None)), v, deleted);
        }
      }
    }
  }

  /** The first append after a reload that could not read lands right behind the acknowledged records. */
  lemma LateOnHalf<Doc(!new)>(e: Engine<Doc>, on: World<Doc>, v: Bytes, half: Doc)
    requires Sound(e) && DriftInv(e, on, []) && on.proc.Up? && on.drift.late == [] && Acceptable(e, v)
    requires on.proc.p.logBytes == |Segment(e, Logged(on.gen, on.acked))|
    requires Fits(e, on.proc.p, v) && e.apply(on.proc.doc, v).Some?
    ensures var late := AfterAppend(e, on, v, AppendIo(CutDone, WriteDone, CutDone), half);
            && Promised(late) == on.acked + [v] && late.acked == on.acked && late.gen == on.gen
            && Committed(e, late.disk, on.gen, on.acked, Record(e, v))
  {
    hide Fold, EncodeSnapshot, Records, Record, DriftTail, Acceptable, Room;
    var (s, clear) := ClearPartialRecord(Store(on.proc.p, on.disk), CutDone);
    var tail := DriftClear(e, on, [], CutDone);
    RecordLength(e, v);
    Extended(e, s.disk, on.gen, on.acked, Record(e, v));
  }

  lemma BlockedByLate<Doc(!new)>(e: Engine<Doc>, down: World<Doc>, v: Bytes, deleted: set<FileName>)
    requires Sound(e) && Committed(e, down.disk, down.gen, down.acked, Record(e, v)) && down.proc.Down?
    requires Acceptable(e, v) && Fold(e, down.gen.base, Logged(down.gen, down.acked) + [v]).None?
    ensures AfterRestart(e, down, HEALTHY, deleted).proc.Down?
    ensures AfterRepair(e, down, HEALTHY, deleted).acked == down.acked
  {
    hide LoadExisting, Fold, Record, Records, EncodeSnapshot, Segment;
    assert Record(e, v) + [] == Record(e, v);
    var t := LoadBlocked(e, down.disk, down.gen, down.acked, v, [], RecoverInterruptedAppend, CutDone, deleted);
    t := LoadBlocked(e, down.disk, down.gen, down.acked, v, [], Repair, CutDone, deleted);
    LoggedMore(down.gen, down.acked, []);
    assert Logged(down.gen, down.acked) + [] == Logged(down.gen, down.acked) && down.acked + [] == down.acked;
  }

  // ----- how the document is lost

  /**
   A failing family at the level of the document. An update panics in a process in step and leaves `x`,
   any document at all, in memory; rejecting it fails; a compaction follows. Then a restart serves `x`,
   though every update acknowledged before counts as part of it. Nothing is missing exactly if `x` is the
   document they lead to.
   */
  lemma DriftedCompactionServesHalf<Doc(!new)>(
    e: Engine<Doc>, d0: Doc, actions: seq<Action<Doc>>, u: Bytes, x: Doc, cut: Cut, reload: LoadIo,
    deleted: set<FileName>)
    requires Sound(e) && CreateDocument(e, d0).Ok? && Acceptable(e, u)
    requires |e.encode(x)| <= MAX_SNAPSHOT_BYTES && !(cut == CutDone && reload.readOk)
    ensures var w := Run(e, Created(e, d0), actions);
            var rejecting := Next(e, w, Append(u, AppendIo(CutDone, WriteDone, CutDone), x));
            var on := Next(e, rejecting, Reject(cut, reload, deleted));
            var compacted := Next(e, on, CompactNow(3, deleted));
            var back := Next(e, Next(e, compacted, Crash(None)), Restart(HEALTHY, deleted));
            w.proc.Up? && w.drift.InStep? && Fits(e, w.proc.p, u) && w.proc.p.generation < U64_MAX
            && Fold(e, w.gen.base, Logged(w.gen, w.acked) + [u]).None? ==>
              && Serves(e, d0, back, w.acked) && back.proc.doc == x
              && (Whole(e, d0, back) <==> Fold(e, d0, w.acked) == Some(x))
  {
    hide Run, Created, AfterAppend, AfterReject, AfterCompact, AfterCrash, AfterRestart, SteadyInv, DriftInv;
    hide Fold, Serves, Acceptable, Segment, Record, Records;
    HealthyAppendIsAcknowledged(e, d0, actions, u, CutDone, x);
    var w := Run(e, Created(e, d0), actions);
    if w.proc.Up? && w.drift.InStep? && Fits(e, w.proc.p, u) && w.proc.p.generation < U64_MAX
       && Fold(e, w.gen.base, Logged(w.gen, w.acked) + [u]).None?
    {
      var tail := Reached(e, d0, actions);
      FitsExactly(e, w, tail, u);
      AppendGeneration(e, w, tail, u, AppendIo(CutDone, WriteDone, CutDone), x);
      tail := AppendOutcome(e, w, tail, u, AppendIo(CutDone, WriteDone, CutDone), x);
      var rejecting := Next(e, w, Append(u, AppendIo(CutDone, WriteDone, CutDone), x));
      ServesHalf(e, d0, rejecting, tail, cut, reload, deleted);
    }
  }

  lemma AppendGeneration<Doc(!new)>(e: Engine<Doc>, w: World<Doc>, tail: Bytes, u: Bytes, io: AppendIo, half: Doc)
    requires SteadyInv(e, w, tail) && w.proc.Up?
    ensures AfterAppend(e, w, u, io, half).gen == w.gen && w.proc.p.generation == w.gen.number
    ensures AfterAppend(e, w, u, io, half).drift.InStep?
  {
    hide AppendUpdate;
  }

  lemma ServesHalf<Doc(!new)>(
    e: Engine<Doc>, d0: Doc, rejecting: World<Doc>, tail: Bytes, cut: Cut, reload: LoadIo, deleted: set<FileName>)
    requires Sound(e) && SteadyInv(e, rejecting, tail) && rejecting.proc.Rejecting? && rejecting.drift.InStep?
    requires |e.encode(rejecting.proc.doc)| <= MAX_SNAPSHOT_BYTES && !(cut == CutDone && reload.readOk)
    requires rejecting.gen.number < U64_MAX
    ensures var on := AfterReject(e, rejecting, cut, reload, deleted);
            var compacted := AfterCompact(e, on, 3, deleted);
            var back := AfterRestart(e, AfterCrash(e, compacted, None), HEALTHY, deleted);
            && on.proc.Up? && compacted.proc.Up? && AfterCrash(e, compacted, None).proc.Down?
            && Serves(e, d0, back, rejecting.acked) && back.proc.doc == rejecting.proc.doc
            && (Whole(e, d0, back) <==> Fold(e, d0, rejecting.acked) == Some(rejecting.proc.doc))
  {
    hide AfterReject, AfterCrash, AfterRestart, SteadyInv, DriftInv, Fold, Segment, Record, Records, Compact;
    var tail' := RejectOutcome(e, rejecting, tail, cut, reload, deleted);
    var on := AfterReject(e, rejecting, cut, reload, deleted);
    DriftGeneration(e, on, tail');
    DriftDocument(e, on, tail');
    NothingToFold(e, rejecting.proc.doc);
    Swapped(e, on, deleted);
    tail' := DriftCompact(e, on, tail', 3, deleted, false);
    var compacted := AfterCompact(e, on, 3, deleted);
    assert Promised(on) == rejecting.acked + [] == rejecting.acked;
    NothingLost(e, compacted);
    tail' := CrashOutcome(e, compacted, tail', None);
    var down := AfterCrash(e, compacted, None);
    SteadyNothingBehind(e, down, tail');
    var tail'' := RestartOutcome(e, down, tail', HEALTHY, deleted);
    var back := AfterRestart(e, down, HEALTHY, deleted);
    UpServes(e, d0, back, tail'');
    assert back.acked[back.rooted..] == [] && back.acked[..back.rooted] == rejecting.acked;
  }

  // ----- how late updates are lost

  /** What a failed append that landed only its header leaves in a gap of `n` bytes, and an update behind it. */
  function Padded<Doc>(e: Engine<Doc>, v: Bytes, n: nat, x: Bytes): Bytes {
    SetLen(Part(e, v, RECORD_HEADER_BYTES), n) + Record(e, x)
  }

  /**
   A failing family after an unconfirmed cut. The segment is shorter than `logBytes`; an append of `v`
   lands its header and fails, and undoing it extends the segment with zeros up to `logBytes`. An
   update `x` appended next is acknowledged and lies behind that padding. A repair returns the history
   without `x`; so does startup, silently, if the header of `v` claims more bytes than follow, and
   otherwise it refuses the document.
   */
  lemma AcknowledgedBehindPaddingIsLost<Doc(!new)>(
    e: Engine<Doc>, d0: Doc, actions: seq<Action<Doc>>, v: Bytes, x: Bytes, half: Doc, deleted: set<FileName>)
    requires Sound(e) && CreateDocument(e, d0).Ok? && Acceptable(e, v) && Acceptable(e, x) && v != []
    ensures var w := Run(e, Created(e, d0), actions);
            var failed := Next(e, w, Append(v, AppendIo(CutDone, WriteFailed(RECORD_HEADER_BYTES), CutDone), half));
            var late := Next(e, failed, Append(x, AppendIo(CutDone, WriteDone, CutDone), half));
            var down := Next(e, late, Crash(None));
            var back := Next(e, down, Restart(HEALTHY, deleted));
            var repaired := Next(e, down, RepairOffline(HEALTHY, deleted));
            var padding := if Gap(w) >= 0 then Padded(e, v, Gap(w), x) else [];
            w.proc.Up? && w.drift.Adrift? && !w.proc.p.appendFailed && !w.drift.cut && Flush(e, w)
            && Fits(e, w.proc.p, v) && Fits(e, w.proc.p, x) && e.apply(w.proc.doc, x).Some?
            && Fold(e, w.gen.base, Logged(w.gen, Promised(w))).Some?
            && Gap(w) >= RECORD_HEADER_BYTES && !Verifies(e, padding) ==>
              && Promised(late) == Promised(w) + [x]
              && repaired.acked == Promised(w)
              && (if RECORD_HEADER_BYTES + |v| > |padding| then back.proc.Up? && back.acked == Promised(w)
                  else back.proc.Down?)
  {
    hide Run, Created, DriftInv, SteadyInv, AfterAppend, AfterCrash, AfterRestart, AfterRepair, Flush, Fold, Segment;
    hide Padded, Verifies, Gap, Acceptable, Record;
    var tail := Reached(e, d0, actions);
    var w := Run(e, Created(e, d0), actions);
    if w.proc.Up? && w.drift.Adrift? && !w.proc.p.appendFailed && !w.drift.cut && Flush(e, w)
       && Fits(e, w.proc.p, v) && Fits(e, w.proc.p, x) && e.apply(w.proc.doc, x).Some?
       && Fold(e, w.gen.base, Logged(w.gen, Promised(w))).Some?
       && Gap(w) >= RECORD_HEADER_BYTES && !Verifies(e, Padded(e, v, Gap(w), x))
    {
      PaddedAppend(e, w, tail, v, half);
      DriftGeneration(e, w, tail);
      var failed := Next(e, w, Append(v, AppendIo(CutDone, WriteFailed(RECORD_HEADER_BYTES), CutDone), half));
      LateAppend(e, failed, SetLen(Part(e, v, RECORD_HEADER_BYTES), Gap(w)), x, half);
      var late := Next(e, failed, Append(x, AppendIo(CutDone, WriteDone, CutDone), half));
      PaddedIs(e, v, Gap(w), x);
      NothingLost(e, late);
      PaddingHides(e, w, late, v, x, deleted);
    }
  }

  lemma PaddedIs<Doc(!new)>(e: Engine<Doc>, v: Bytes, n: nat, x: Bytes)
    ensures Padded(e, v, n, x) == SetLen(Part(e, v, RECORD_HEADER_BYTES), n) + Record(e, x)
  {
  }

  lemma DriftGeneration<Doc(!new)>(e: Engine<Doc>, w: World<Doc>, tail: Bytes)
    requires DriftInv(e, w, tail) && w.proc.Up?
    ensures w.proc.p.generation == w.gen.number && w.proc.p.maxLogBytes == MAX_LOG_BYTES
  {
  }

  /** Adrift, the document is what the panic left with everything acknowledged after it applied. */
  lemma DriftDocument<Doc(!new)>(e: Engine<Doc>, w: World<Doc>, tail: Bytes)
    requires DriftInv(e, w, tail) && w.proc.Up?
    ensures Fold(e, w.drift.left, w.drift.since) == Some(w.proc.doc)
  {
  }

  lemma Swapped<Doc(!new)>(e: Engine<Doc>, w: World<Doc>, deleted: set<FileName>)
    requires w.proc.Up? && |e.encode(w.proc.doc)| <= MAX_SNAPSHOT_BYTES && w.proc.p.generation < U64_MAX
    ensures AfterCompact(e, w, 3, deleted).drift.InStep? && AfterCompact(e, w, 3, deleted).proc.Up?
    ensures AfterCompact(e, w, 3, deleted).flight == None
  {
  }

  lemma SteadyNothingBehind<Doc(!new)>(e: Engine<Doc>, w: World<Doc>, tail: Bytes)
    requires SteadyInv(e, w, tail) && w.flight == None
    ensures tail == [] && History(e, w, tail) == w.acked && !Refused(e, w, tail, HEALTHY)
  {
  }

  /** How far `logBytes` is beyond the end of the segment. */
  function Gap<Doc>(w: World<Doc>): int {
    if w.proc.Up? then w.proc.p.logBytes - |SegmentFile(w)| else 0
  }

  /** The failed append: everything promised stands in the segment, and then the header and zeros up to `logBytes`. */
  lemma PaddedAppend<Doc(!new)>(e: Engine<Doc>, w: World<Doc>, tail: Bytes, v: Bytes, half: Doc)
    requires Sound(e) && DriftInv(e, w, tail) && w.proc.Up? && !w.proc.p.appendFailed
    requires !w.drift.cut && Flush(e, w)
    requires Fits(e, w.proc.p, v) && Fold(e, w.gen.base, Logged(w.gen, Promised(w))).Some?
    requires Gap(w) >= RECORD_HEADER_BYTES
    ensures var failed := AfterAppend(e, w, v, AppendIo(CutDone, WriteFailed(RECORD_HEADER_BYTES), CutDone), half);
            && failed == w.(disk := failed.disk) && w.gen.folded <= |w.acked|
            && Committed(e, failed.disk, w.gen, Promised(w), SetLen(Part(e, v, RECORD_HEADER_BYTES), Gap(w)))
            && |SegmentFile(failed)| == w.proc.p.logBytes
  {
    hide Fold, EncodeSnapshot, Records, Record, SetLen, Acceptable;
    var log, all, n := LogFile(w.gen.number), Promised(w), w.proc.p.logBytes;
    TailIs(e, w, tail);
    LoggedMore(w.gen, w.acked, w.drift.late);
    SegmentMore(e, Logged(w.gen, w.acked), w.drift.late);
    AdoptTail(e, w.disk, w.gen, w.acked, w.drift.late);
    var seg, header := Segment(e, Logged(w.gen, all)), Part(e, v, RECORD_HEADER_BYTES);
    assert SegmentFile(w) == seg + [] == seg;
    TakeOfConcat(seg, header, n);
    WithTail(e, w.disk, w.gen, all, [], SetLen(header, n - |seg|));
    var torn := w.disk.files[log := seg + header];
    assert torn[log := seg + SetLen(header, n - |seg|)] == w.disk.files[log := seg + SetLen(header, n - |seg|)];
  }

  /** The next append lands behind the padding and is acknowledged. */
  lemma LateAppend<Doc(!new)>(e: Engine<Doc>, w: World<Doc>, padding: Bytes, x: Bytes, half: Doc)
    requires Sound(e) && w.drift.Adrift? && w.proc.Up? && !w.proc.p.appendFailed
    requires w.proc.p.generation == w.gen.number && w.proc.p.maxLogBytes == MAX_LOG_BYTES
    requires Committed(e, w.disk, w.gen, Promised(w), padding) && |SegmentFile(w)| == w.proc.p.logBytes
    requires Fits(e, w.proc.p, x) && e.apply(w.proc.doc, x).Some?
    ensures var late := AfterAppend(e, w, x, AppendIo(CutDone, WriteDone, CutDone), half);
            && late.gen == w.gen && late.acked == w.acked
            && late.drift.Adrift? && late.drift.late == w.drift.late + [x]
            && Committed(e, late.disk, w.gen, Promised(w), padding + Record(e, x))
  {
    hide Fold, EncodeSnapshot, Records, Record, Acceptable;
    var seg := Segment(e, Logged(w.gen, Promised(w)));
    RecordLength(e, x);
    assert seg + padding + Record(e, x) == seg + (padding + Record(e, x));
    WithTail(e, w.disk, w.gen, Promised(w), padding, padding + Record(e, x));
  }

  lemma PaddingHides<Doc(!new)>(
    e: Engine<Doc>, w: World<Doc>, late: World<Doc>, v: Bytes, x: Bytes, deleted: set<FileName>)
    requires Sound(e) && Acceptable(e, v) && v != [] && Gap(w) >= RECORD_HEADER_BYTES && w.drift.Adrift?
    requires late.gen == w.gen && late.acked == w.acked
    requires Committed(e, late.disk, w.gen, Promised(w), Padded(e, v, Gap(w), x))
    requires !Verifies(e, Padded(e, v, Gap(w), x)) && late.gen.folded <= |late.acked|
    ensures var padding := Padded(e, v, Gap(w), x);
            var down := late.(proc := Down);
            var back := AfterRestart(e, down, HEALTHY, deleted);
            && AfterRepair(e, down, HEALTHY, deleted).acked == Promised(w)
            && (if RECORD_HEADER_BYTES + |v| > |padding| then back.proc.Up? && back.acked == Promised(w)
                else back.proc.Down?)
  {
    hide Fold, EncodeSnapshot, Records, Record, LoadExisting, Verifies, Padded, Acceptable, Segment, Interrupted;
    var padding, gen, all := Padded(e, v, Gap(w), x), w.gen, Promised(w);
    PaddingLooks(e, v, Gap(w), x);
    var t := LoadDamaged(e, late.disk, gen, all, padding, Repair, CutDone, deleted);
    t := LoadDamaged(e, late.disk, gen, all, padding, RecoverInterruptedAppend, CutDone, deleted);
    LoggedMore(gen, w.acked, w.drift.late);
  }

  /** The padding is taken for an interrupted append exactly when the header claims more than follows. */
  lemma PaddingLooks<Doc(!new)>(e: Engine<Doc>, v: Bytes, n: nat, x: Bytes)
    requires Sound(e) && Acceptable(e, v) && v != [] && n >= RECORD_HEADER_BYTES
    ensures var padding := Padded(e, v, n, x);
            padding != [] && (Interrupted(padding) <==> RECORD_HEADER_BYTES + |v| > |padding|)
  {
    var padding := Padded(e, v, n, x);
    EightBytesHoldU64();
    DecodeEncode(|v|, 8);
    RecordFields(e, v);
    assert padding[..8] == Record(e, v)[0..8];
    if AllZero(padding) { ZerosDecodeToZero(padding[..8]); }
  }

  /**
   `discard_last_record` reports an error both when nothing was cut and when the cut happened but
   could not be confirmed. In the second case the file is shorter than `logBytes` although no append
   failed, so the length agreement is lost: it survives a discard exactly when the cut is confirmed
   or refused.
   */
  lemma DiscardKeepsLength<Doc(!new)>(e: Engine<Doc>, s: Store, before: nat, cut: Cut)
    requires Log(s) in s.disk.files && |s.disk.files[Log(s)]| == s.p.logBytes && before < s.p.logBytes
    ensures var (s', r) := DiscardLastRecord(s, before, cut);
            |s'.disk.files[Log(s')]| == s'.p.logBytes <==> cut != CutUnconfirmed
  {
  }
}
