/**
 Crash safety of the document store over whole runs, of the history that the books keep. Which updates
 acknowledged adrift are in that history after a load is the subject of `StorageLate` and `StorageKept`.
 */
module StorageRun {
  import opened Wrappers
  import opened Bytes
  import opened StorageFormat
  import opened StorageRecovery
  import opened StorageStore
  import opened StorageWorld
  import opened StorageLoad
  import opened StorageSteps
  import opened StorageAdrift

  /** Disk, process and history agree; `tail` stands behind what was acknowledged in step. */
  ghost predicate Inv<Doc>(e: Engine<Doc>, w: World<Doc>, tail: Bytes) {
    if w.drift.InStep? then SteadyInv(e, w, tail) else DriftInv(e, w, tail)
  }

  /**
   `w'` keeps what is acknowledged in step in `w`; in step that grows by at most the update at hand or,
   on a load, the one in flight.
   */
  ghost predicate Grows<Doc>(w: World<Doc>, w': World<Doc>, a: Action<Doc>) {
    && w.acked <= w'.acked
    && (w.drift.InStep? ==>
          || w'.acked == w.acked
          || (a.Append? && w'.acked == w.acked + [a.u])
          || ((a.Restart? || a.RepairOffline?) && w.flight.Some? && w'.acked == w.acked + [w.flight.value]))
  }

  /** Every step of a store in step. */
  lemma SteadyStep<Doc(!new)>(e: Engine<Doc>, w: World<Doc>, tail: Bytes, a: Action<Doc>)
    returns (tail': Bytes)
    requires Sound(e) && SteadyInv(e, w, tail)
    ensures var w' := Next(e, w, a);
            Inv(e, w', tail') && Grows(w, w', a)
  {
    hide SteadyInv, DriftInv, AfterAppend, AfterCrashInAppend, AfterReject, AfterCompact, AfterCrashInCompact;
    hide AfterCrash, AfterRestart, AfterRepair, Acceptable, History;
    tail' := tail;
    SteadyIsInStep(e, w, tail);
    match a
    case Append(u, io, half) =>
      if w.proc.Up? && Acceptable(e, u) {
        tail' := AppendOutcome(e, w, tail, u, io, half);
        SteadyIsInStep(e, Next(e, w, a), tail');
      }
    case CrashInAppend(u, repair, landed) =>
      if w.proc.Up? && Acceptable(e, u) {
        tail' := CrashInAppendOutcome(e, w, tail, u, repair, landed);
        SteadyIsInStep(e, Next(e, w, a), tail');
      }
    case Reject(cut, reload, deleted) =>
      if w.proc.Rejecting? {
        tail' := RejectOutcome(e, w, tail, cut, reload, deleted);
        if cut == CutDone && reload.readOk { SteadyIsInStep(e, Next(e, w, a), tail'); }
      }
    case CompactNow(steps, deleted) =>
      if w.proc.Up? {
        tail' := CompactOutcome(e, w, tail, steps, deleted, false);
        SteadyIsInStep(e, Next(e, w, a), tail');
      }
    case CrashInCompact(steps, deleted) =>
      if w.proc.Up? {
        tail' := CompactOutcome(e, w, tail, steps, deleted, true);
        SteadyIsInStep(e, Next(e, w, a), tail');
      }
    case Crash(lost) =>
      tail' := CrashOutcome(e, w, tail, lost);
      SteadyIsInStep(e, Next(e, w, a), tail');
    case Restart(io, deleted) =>
      if w.proc.Down? {
        tail' := RestartOutcome(e, w, tail, io, deleted);
        SteadyIsInStep(e, Next(e, w, a), tail');
        HistoryGrows(e, w, tail);
      }
    case RepairOffline(io, deleted) =>
      if w.proc.Down? {
        tail' := RepairOutcome(e, w, tail, io, deleted);
        SteadyIsInStep(e, Next(e, w, a), tail');
        HistoryGrows(e, w, tail);
      }
  }

  lemma SteadyIsInStep<Doc(!new)>(e: Engine<Doc>, w: World<Doc>, tail: Bytes)
    requires SteadyInv(e, w, tail)
    ensures w.drift.InStep?
  {
  }

  lemma HistoryGrows<Doc(!new)>(e: Engine<Doc>, w: World<Doc>, tail: Bytes)
    ensures History(e, w, tail) == w.acked
            || (w.flight.Some? && History(e, w, tail) == w.acked + [w.flight.value])
  {
  }

  /** Every step of a store adrift. */
  lemma DriftStep<Doc(!new)>(e: Engine<Doc>, w: World<Doc>, tail: Bytes, a: Action<Doc>)
    returns (tail': Bytes)
    requires Sound(e) && w.drift.Adrift? && DriftInv(e, w, tail)
    ensures var w' := Next(e, w, a);
            Inv(e, w', tail') && Grows(w, w', a)
  {
    hide SteadyInv, DriftInv, AfterAppend, AfterCrashInAppend, AfterReject, AfterCompact, AfterCrashInCompact;
    hide AfterCrash, AfterRestart, AfterRepair, Acceptable;
    tail' := tail;
    match a
    case Append(u, io, half) =>
      if w.proc.Up? && Acceptable(e, u) {
        tail' := DriftAppend(e, w, tail, u, io, half);
        DriftIsAdrift(e, Next(e, w, a), tail');
      }
    case CrashInAppend(u, repair, landed) =>
      if w.proc.Up? && Acceptable(e, u) {
        tail' := DriftCrashInAppend(e, w, tail, u, repair, landed);
        DriftIsAdrift(e, Next(e, w, a), tail');
      }
    case Reject(cut, reload, deleted) =>
      if w.proc.Rejecting? { tail' := DriftReject(e, w, tail, cut, reload, deleted); }
    case CompactNow(steps, deleted) =>
      if w.proc.Up? { tail' := DriftCompact(e, w, tail, steps, deleted, false); }
    case CrashInCompact(steps, deleted) =>
      if w.proc.Up? { tail' := DriftCompact(e, w, tail, steps, deleted, true); }
    case Crash(lost) => tail' := DriftCrash(e, w, tail, lost);
    case Restart(io, deleted) =>
      if w.proc.Down? { tail' := DriftRestart(e, w, tail, io, deleted); }
    case RepairOffline(io, deleted) =>
      if w.proc.Down? { tail' := DriftRepair(e, w, tail, io, deleted); }
  }

  lemma DriftIsAdrift<Doc(!new)>(e: Engine<Doc>, w: World<Doc>, tail: Bytes)
    requires DriftInv(e, w, tail)
    ensures w.drift.Adrift?
  {
  }

  /** Every step keeps the invariant and what is acknowledged in step. */
  lemma StepOutcome<Doc(!new)>(e: Engine<Doc>, w: World<Doc>, tail: Bytes, a: Action<Doc>)
    returns (tail': Bytes)
    requires Sound(e) && Inv(e, w, tail)
    ensures var w' := Next(e, w, a);
            Inv(e, w', tail') && Grows(w, w', a)
  {
    hide Next, SteadyInv, DriftInv;
    if w.drift.InStep? {
      tail' := SteadyStep(e, w, tail, a);
    } else {
      tail' := DriftStep(e, w, tail, a);
    }
  }

  // ----- whole runs

  /** A created document satisfies the invariant. */
  lemma CreatedInv<Doc(!new)>(e: Engine<Doc>, d0: Doc)
    requires Sound(e) && CreateDocument(e, d0).Ok?
    ensures Inv(e, Created(e, d0), [])
  {
    hide EncodeSnapshot;
    assert Segment(e, []) + [] == LOG_MAGIC;
  }

  lemma {:induction false} RunKeeps<Doc(!new)>(
    e: Engine<Doc>, w: World<Doc>, tail: Bytes, actions: seq<Action<Doc>>) returns (tail': Bytes)
    requires Sound(e) && Inv(e, w, tail)
    ensures Inv(e, Run(e, w, actions), tail')
    ensures w.acked <= Run(e, w, actions).acked
    decreases |actions|
  {
    hide Inv, Next;
    tail' := tail;
    if actions != [] {
      tail' := StepOutcome(e, w, tail, actions[0]);
      tail' := RunKeeps(e, Next(e, w, actions[0]), tail', actions[1..]);
    }
  }

  /** Where a run of a new document leads. */
  lemma Reached<Doc(!new)>(e: Engine<Doc>, d0: Doc, actions: seq<Action<Doc>>) returns (tail: Bytes)
    requires Sound(e) && CreateDocument(e, d0).Ok?
    ensures Inv(e, Run(e, Created(e, d0), actions), tail)
  {
    hide Inv, Next, Created;
    CreatedInv(e, d0);
    tail := RunKeeps(e, Created(e, d0), [], actions);
  }

  lemma {:induction false} RunConcat<Doc(!new)>(
    e: Engine<Doc>, w: World<Doc>, actions: seq<Action<Doc>>, more: seq<Action<Doc>>)
    ensures Run(e, w, actions + more) == Run(e, Run(e, w, actions), more)
    decreases |actions|
  {
    hide Next;
    if actions == [] {
      assert actions + more == more;
    } else {
      assert (actions + more)[1..] == actions[1..] + more;
      RunConcat(e, Next(e, w, actions[0]), actions[1..], more);
    }
  }

  // ----- what the document holds

  /** The root is the new document with the whole history before it applied. */
  ghost predicate Whole<Doc>(e: Engine<Doc>, d0: Doc, w: World<Doc>) {
    w.rooted <= |w.acked| && Fold(e, d0, w.acked[..w.rooted]) == Some(w.root)
  }

  /** In a whole store in step, the document in memory is the new document with the whole history applied. */
  lemma WholeDocument<Doc(!new)>(e: Engine<Doc>, d0: Doc, w: World<Doc>, tail: Bytes)
    requires SteadyInv(e, w, tail) && w.proc.Up? && Whole(e, d0, w)
    ensures Fold(e, d0, w.acked) == Some(w.proc.doc)
  {
    hide SteadyInv;
    DocumentIsRooted(e, w, tail);
    FoldConcat(e, d0, w.acked[..w.rooted], w.acked[w.rooted..]);
    assert w.acked[..w.rooted] + w.acked[w.rooted..] == w.acked;
  }

  /** The action is a compaction that gets as far as making the document of a process adrift the durable one. */
  predicate SwapsAdrift<Doc>(e: Engine<Doc>, w: World<Doc>, a: Action<Doc>) {
    && w.proc.Up? && w.drift.Adrift?
    && (a.CompactNow? || a.CrashInCompact?) && a.steps >= 3
    && |e.encode(w.proc.doc)| <= MAX_SNAPSHOT_BYTES && w.proc.p.generation < U64_MAX
  }

  /** Such a compaction replaces the root by the document in memory; no other action touches the root. */
  lemma RootAfter<Doc(!new)>(e: Engine<Doc>, w: World<Doc>, tail: Bytes, a: Action<Doc>)
    requires Sound(e) && Inv(e, w, tail)
    ensures var w' := Next(e, w, a);
            && w.acked <= w'.acked
            && (if SwapsAdrift(e, w, a) then
                  && w'.acked == Promised(w) && w'.rooted == |Promised(w)|
                  && Some(w'.root) == Fold(e, w.drift.left, w.drift.since)
                else w'.root == w.root && w'.rooted == w.rooted)
  {
    hide Committed, DriftTail, Persists, Agrees, TailOf, Load, Fold, AppendUpdate, ClearPartialRecord;
    hide DiscardLastRecord, CompactionWrites, RemoveOldGenerations, MayBecome, Landed, Acceptable, Record, Records;
    var tail' := StepOutcome(e, w, tail, a);
  }

  /** A compaction adrift that is true to the history: what is in memory is what the clients were promised. */
  ghost predicate TrueStep<Doc>(e: Engine<Doc>, d0: Doc, w: World<Doc>, a: Action<Doc>) {
    SwapsAdrift(e, w, a) ==> Fold(e, w.drift.left, w.drift.since) == Fold(e, d0, Promised(w))
  }

  ghost predicate AllTrue<Doc>(e: Engine<Doc>, d0: Doc, w: World<Doc>, actions: seq<Action<Doc>>)
    decreases |actions|
  {
    actions == [] || (TrueStep(e, d0, w, actions[0]) && AllTrue(e, d0, Next(e, w, actions[0]), actions[1..]))
  }

  /** A step keeps the store whole exactly if it is true. */
  lemma WholeStep<Doc(!new)>(e: Engine<Doc>, d0: Doc, w: World<Doc>, tail: Bytes, a: Action<Doc>)
    requires Sound(e) && Inv(e, w, tail) && Whole(e, d0, w)
    ensures Whole(e, d0, Next(e, w, a)) <==> TrueStep(e, d0, w, a)
  {
    hide Inv, Next, Fold, SwapsAdrift;
    RootAfter(e, w, tail, a);
    var w' := Next(e, w, a);
    if SwapsAdrift(e, w, a) {
      assert w'.acked[..w'.rooted] == Promised(w);
    } else {
      assert w'.acked[..w.rooted] == w.acked[..w.rooted];
    }
  }

  lemma {:induction false} WholeRun<Doc(!new)>(
    e: Engine<Doc>, d0: Doc, w: World<Doc>, tail: Bytes, actions: seq<Action<Doc>>)
    requires Sound(e) && Inv(e, w, tail) && Whole(e, d0, w)
    ensures AllTrue(e, d0, w, actions) <==> forall k :: 0 <= k <= |actions| ==> Whole(e, d0, Run(e, w, actions[..k]))
    decreases |actions|
  {
    hide Inv, Next, TrueStep, Whole;
    if actions == [] {
      assert actions[..0] == [];
    } else {
      var a, rest := actions[0], actions[1..];
      var next := Next(e, w, a);
      WholeStep(e, d0, w, tail, a);
      var tail' := StepOutcome(e, w, tail, a);
      assert Run(e, w, actions[..0]) == w;
      forall k | 0 <= k <= |rest| ensures Run(e, w, actions[..k + 1]) == Run(e, next, rest[..k]) {
        assert actions[..k + 1][1..] == rest[..k];
      }
      if TrueStep(e, d0, w, a) {
        WholeRun(e, d0, next, tail', rest);
        if AllTrue(e, d0, w, actions) {
          forall k | 0 <= k <= |actions| ensures Whole(e, d0, Run(e, w, actions[..k])) {
            if k > 0 { assert Run(e, w, actions[..(k - 1) + 1]) == Run(e, next, rest[..k - 1]); }
          }
        }
        if forall k :: 0 <= k <= |actions| ==> Whole(e, d0, Run(e, w, actions[..k])) {
          forall k | 0 <= k <= |rest| ensures Whole(e, d0, Run(e, next, rest[..k])) {
            assert Whole(e, d0, Run(e, w, actions[..k + 1]));
          }
        }
      } else {
        assert Run(e, w, actions[..0 + 1]) == Run(e, next, rest[..0]) == next;
      }
    }
  }

  /**
   The exact condition over whole runs for the root. It is the new document with the history before it
   applied, at every point of a run, if and only if every compaction of a process adrift made a document
   durable that equals the new document with everything promised applied. (A load that ends an episode
   adrift may drop updates from the history; `StorageKept.NothingIsMissing` takes that in.)
   */
  lemma WholeExactlyWhenTrue<Doc(!new)>(e: Engine<Doc>, d0: Doc, actions: seq<Action<Doc>>)
    requires Sound(e) && CreateDocument(e, d0).Ok?
    ensures AllTrue(e, d0, Created(e, d0), actions) <==>
            forall k :: 0 <= k <= |actions| ==> Whole(e, d0, Run(e, Created(e, d0), actions[..k]))
  {
    hide Inv, AllTrue, Run;
    CreatedInv(e, d0);
    NewIsWhole(e, d0);
    WholeRun(e, d0, Created(e, d0), [], actions);
  }

  lemma NewIsWhole<Doc(!new)>(e: Engine<Doc>, d0: Doc)
    requires CreateDocument(e, d0).Ok?
    ensures Whole(e, d0, Created(e, d0))
  {
  }

  // ----- how many records were ever written

  /** The snapshot's record count is the number of updates in it. */
  predicate CountsRight<Doc>(w: World<Doc>) {
    w.gen.counted == Cap(w.gen.folded)
  }

  /** A compaction adrift whose counter is the number of updates promised. */
  predicate CountsStep<Doc>(e: Engine<Doc>, w: World<Doc>, a: Action<Doc>) {
    SwapsAdrift(e, w, a) ==> w.proc.p.totalRecords == Cap(|Promised(w)|)
  }

  predicate AllCounted<Doc>(e: Engine<Doc>, w: World<Doc>, actions: seq<Action<Doc>>)
    decreases |actions|
  {
    actions == [] || (CountsStep(e, w, actions[0]) && AllCounted(e, Next(e, w, actions[0]), actions[1..]))
  }

  /** A step keeps the count right exactly if it is not a compaction adrift with a wrong one. */
  lemma CountAfter<Doc(!new)>(e: Engine<Doc>, w: World<Doc>, tail: Bytes, a: Action<Doc>)
    requires Sound(e) && Inv(e, w, tail) && CountsRight(w)
    ensures CountsRight(Next(e, w, a)) <==> CountsStep(e, w, a)
  {
    hide Committed, DriftTail, Persists, TailOf, Load, Fold, AppendUpdate, ClearPartialRecord, Segment;
    hide DiscardLastRecord, CompactionWrites, RemoveOldGenerations, MayBecome, Landed, Acceptable, Record, Records;
    hide Rooted;
    RootInHistory(e, w, tail);
  }

  /**
   In every reachable process in step the total is the number of updates ever in the history, up to the
   bound of a u64, if every compaction adrift before had counted right; and at the first that did not, it
   goes wrong.
   */
  lemma {:induction false} TotalIsExact<Doc(!new)>(
    e: Engine<Doc>, w: World<Doc>, tail: Bytes, actions: seq<Action<Doc>>)
    requires Sound(e) && Inv(e, w, tail) && CountsRight(w)
    ensures AllCounted(e, w, actions) <==> forall k :: 0 <= k <= |actions| ==> CountsRight(Run(e, w, actions[..k]))
    ensures var w' := Run(e, w, actions);
            AllCounted(e, w, actions) && w'.proc.Up? && w'.drift.InStep? ==> w'.proc.p.totalRecords == Cap(|w'.acked|)
    decreases |actions|
  {
    hide Inv, Next, CountsStep, CountsRight;
    if actions == [] {
      assert actions[..0] == [];
      TotalOf(e, w, tail);
    } else {
      var next, rest := Next(e, w, actions[0]), actions[1..];
      CountAfter(e, w, tail, actions[0]);
      var tail' := StepOutcome(e, w, tail, actions[0]);
      assert Run(e, w, actions[..0]) == w;
      forall k | 0 <= k <= |rest| ensures Run(e, w, actions[..k + 1]) == Run(e, next, rest[..k]) {
        assert actions[..k + 1][1..] == rest[..k];
      }
      if CountsStep(e, w, actions[0]) {
        TotalIsExact(e, next, tail', rest);
        forall k | 0 <= k <= |actions|
          ensures CountsRight(Run(e, w, actions[..k])) <==> k == 0 || CountsRight(Run(e, next, rest[..k - 1]))
        {
          if k > 0 { assert Run(e, w, actions[..(k - 1) + 1]) == Run(e, next, rest[..k - 1]); }
        }
        if forall k :: 0 <= k <= |actions| ==> CountsRight(Run(e, w, actions[..k])) {
          forall k | 0 <= k <= |rest| ensures CountsRight(Run(e, next, rest[..k])) {
            assert CountsRight(Run(e, w, actions[..k + 1]));
          }
        }
      } else {
        assert Run(e, w, actions[..0 + 1]) == Run(e, next, rest[..0]) == next;
      }
    }
  }

  lemma TotalOf<Doc(!new)>(e: Engine<Doc>, w: World<Doc>, tail: Bytes)
    requires Inv(e, w, tail) && CountsRight(w)
    ensures w.proc.Up? && w.drift.InStep? ==> w.proc.p.totalRecords == Cap(|w.acked|)
  {
    hide Committed, Rooted, TailOf;
    RootInHistory(e, w, tail);
  }

  /** The same from a new document. */
  lemma RecordsAreCounted<Doc(!new)>(e: Engine<Doc>, d0: Doc, actions: seq<Action<Doc>>)
    requires Sound(e) && CreateDocument(e, d0).Ok?
    ensures var w := Created(e, d0);
            && (AllCounted(e, w, actions) <==>
                  forall k :: 0 <= k <= |actions| ==> CountsRight(Run(e, w, actions[..k])))
            && (var w' := Run(e, w, actions);
                AllCounted(e, w, actions) && w'.proc.Up? && w'.drift.InStep? ==>
                  w'.proc.p.totalRecords == Cap(|w'.acked|))
  {
    hide Inv, AllCounted, Run;
    CreatedInv(e, d0);
    TotalIsExact(e, Created(e, d0), [], actions);
  }

  // ----- crashes

  /** The bytes of the committed segment, and those behind what was acknowledged in step. */
  function SegmentFile<Doc>(w: World<Doc>): Bytes {
    if LogFile(w.gen.number) in w.disk.files then w.disk.files[LogFile(w.gen.number)] else []
  }

  function Tail<Doc>(e: Engine<Doc>, w: World<Doc>): Bytes {
    var n := |Segment(e, Logged(w.gen, w.acked))|;
    if n <= |SegmentFile(w)| then SegmentFile(w)[n..] else []
  }

  lemma TailIs<Doc(!new)>(e: Engine<Doc>, w: World<Doc>, tail: Bytes)
    requires Committed(e, w.disk, w.gen, w.acked, tail)
    ensures Tail(e, w) == tail && SegmentFile(w) == Segment(e, Logged(w.gen, w.acked)) + tail
  {
    hide Fold, EncodeSnapshot, Records, Segment;
  }

  /**
   The process is up and in step with exactly `history` acknowledged, and its document is the root with
   everything since applied; if the store is whole, that is the new document with all of `history`
   applied. The record count is right if the snapshot's is.
   */
  ghost predicate Serves<Doc>(e: Engine<Doc>, d0: Doc, w: World<Doc>, history: seq<Bytes>) {
    && w.proc.Up? && w.drift.InStep? && w.flight == None
    && w.acked == history && w.rooted <= w.gen.folded <= |history|
    && Fold(e, w.root, history[w.rooted..]) == Some(w.proc.doc)
    && (Whole(e, d0, w) ==> Fold(e, d0, history) == Some(w.proc.doc))
    && w.proc.p.totalRecords == SaturatingAdd(w.gen.counted, |history| - w.gen.folded)
    && (w.gen.counted == Cap(w.gen.folded) ==> w.proc.p.totalRecords == Cap(|history|))
  }

  lemma UpServes<Doc(!new)>(e: Engine<Doc>, d0: Doc, w: World<Doc>, tail: Bytes)
    requires SteadyInv(e, w, tail) && w.proc.Up? && w.flight == None
    ensures Serves(e, d0, w, w.acked)
  {
    hide Fold, Committed;
    DocumentIsRooted(e, w, tail);
    if Whole(e, d0, w) { WholeDocument(e, d0, w, tail); }
  }

  /** A crash and a load leave the root alone, so what was whole stays whole. */
  lemma LoadsKeepWhole<Doc(!new)>(e: Engine<Doc>, d0: Doc, w: World<Doc>, w': World<Doc>)
    requires w'.root == w.root && w'.rooted == w.rooted <= |w.acked| && w.acked <= w'.acked
    ensures Whole(e, d0, w') <==> Whole(e, d0, w)
  {
    assert w'.acked[..w.rooted] == w.acked[..w.rooted];
  }

  /**
   What crashes the theorems allow for. In every reachable process in step, a crash can leave behind the
   history anything that the update in flight may have left there, and a crash inside an append that is
   neither stuck nor too large can leave anything of the new record.
   */
  lemma CrashesLeaveAnything<Doc(!new)>(
    e: Engine<Doc>, d0: Doc, actions: seq<Action<Doc>>, u: Bytes, tail: Bytes)
    requires Sound(e) && CreateDocument(e, d0).Ok? && Acceptable(e, u)
    requires |tail| <= |Record(e, u)| && (tail == Record(e, u) || !Verifies(e, tail))
    ensures var w := Run(e, Created(e, d0), actions);
            var crashed := Next(e, w, Crash(Some(tail)));
            w.drift.InStep? && w.flight == Some(u) && !w.proc.Rejecting? ==>
              crashed.proc.Down? && Tail(e, crashed) == tail && crashed.acked == w.acked && crashed.flight == Some(u)
    ensures var w := Run(e, Created(e, d0), actions);
            var died := Next(e, w, CrashInAppend(u, CutDone, tail));
            w.drift.InStep? && w.proc.Up? && !Overfull(e, w, u) ==>
              died.proc.Down? && Tail(e, died) == tail && died.acked == w.acked && died.flight == Some(u)
  {
    hide Run, Created, EncodeSnapshot, Records, Record, Verifies, Fold, Rooted, Acceptable;
    var tail0 := Reached(e, d0, actions);
    var w := Run(e, Created(e, d0), actions);
    if w.drift.InStep? && w.flight == Some(u) && !w.proc.Rejecting? {
      WithTail(e, w.disk, w.gen, w.acked, tail0, tail);
      TailIs(e, Next(e, w, Crash(Some(tail))), tail);
    }
    if w.drift.InStep? && w.proc.Up? && !Overfull(e, w, u) {
      FitsExactly(e, w, tail0, u);
      DiesInAppend(e, w, tail0, u, tail);
    }
  }

  lemma DiesInAppend<Doc(!new)>(e: Engine<Doc>, w: World<Doc>, tail: Bytes, u: Bytes, landed: Bytes)
    requires Sound(e) && SteadyInv(e, w, tail) && w.proc.Up? && Fits(e, w.proc.p, u) && Landed(e, u, landed)
    ensures var died := AfterCrashInAppend(e, w, u, CutDone, landed);
            died.proc.Down? && Tail(e, died) == landed && died.acked == w.acked && died.flight == Some(u)
  {
    hide Fold, EncodeSnapshot, Records, Record, Verifies, Segment;
    var cleared := ClearOutcome(e, w, tail, CutDone);
    var (s, clear) := ClearPartialRecord(Store(w.proc.p, w.disk), CutDone);
    RecordLength(e, u);
    Extended(e, s.disk, w.gen, w.acked, landed);
    TailIs(e, AfterCrashInAppend(e, w, u, CutDone, landed), landed);
  }

  /**
   Crash safety of a store in step. Take any run of a new document, crash it, and restart it. The
   restart is refused exactly when its files cannot be read, when the update in flight landed whole and
   cannot be integrated, when damage behind the acknowledged records does not look like an interrupted
   append, or when it does and cannot be cut away. In every other case exactly the history `acked` is
   back, in order, followed by the update in flight exactly when that one landed whole; the document is
   the root with those since applied, and if the store was whole, as it is unless a document adrift was
   compacted falsely, the new document with all of them applied. An offline repair brings that history
   back in all of these cases. The history is every update acknowledged, unless a load that ended an
   earlier episode adrift dropped some; `StorageKept.EverythingToldIsServed` says that part.
   */
  lemma CrashSafety<Doc(!new)>(
    e: Engine<Doc>, d0: Doc, actions: seq<Action<Doc>>, lost: Option<Bytes>, io: LoadIo, deleted: set<FileName>)
    requires Sound(e) && CreateDocument(e, d0).Ok?
    ensures var w := Run(e, Created(e, d0), actions);
            var down := Next(e, w, Crash(lost));
            var back := Next(e, down, Restart(io, deleted));
            var repaired := Next(e, Next(e, down, RepairOffline(HEALTHY, deleted)), Restart(HEALTHY, deleted));
            w.drift.InStep? ==>
              var tail := Tail(e, down);
              var history := History(e, down, tail);
              && down.acked == w.acked
              && (if Refused(e, down, tail, io) then back.proc.Down? && back.acked == w.acked
                  else Serves(e, d0, back, history))
              && Serves(e, d0, repaired, history)
              && (Whole(e, d0, w) ==> Whole(e, d0, back) && Whole(e, d0, repaired))
  {
    hide Run, AfterCrash, AfterRestart, AfterRepair, SteadyInv, DriftInv, Refused, History, Tail, Serves;
    hide Created, Whole;
    var tail := Reached(e, d0, actions);
    var w := Run(e, Created(e, d0), actions);
    if w.drift.InStep? {
      RootInHistory(e, w, tail);
      CrashKeepsRoot(e, w, lost);
      tail := CrashOutcome(e, w, tail, lost);
      var down := Next(e, w, Crash(lost));
      SteadyTail(e, down, tail);
      HistoryGrows(e, down, tail);
      var tail' := RestartOutcome(e, down, tail, io, deleted);
      var back := Next(e, down, Restart(io, deleted));
      if !Refused(e, down, tail, io) { UpServes(e, d0, back, tail'); }
      LoadsKeepWhole(e, d0, w, back);
      RepairedServes(e, d0, down, tail, deleted);
      LoadsKeepWhole(e, d0, w, Next(e, Next(e, down, RepairOffline(HEALTHY, deleted)), Restart(HEALTHY, deleted)));
    }
  }

  lemma RootInHistory<Doc(!new)>(e: Engine<Doc>, w: World<Doc>, tail: Bytes)
    requires Inv(e, w, tail)
    ensures w.rooted <= |w.acked|
  {
    hide Committed, DriftTail, ProcAdrift, ProcInStep;
  }

  lemma CrashKeepsRoot<Doc(!new)>(e: Engine<Doc>, w: World<Doc>, lost: Option<Bytes>)
    ensures var down := AfterCrash(e, w, lost); down.root == w.root && down.rooted == w.rooted && down.acked == w.acked
  {
  }

  lemma SteadyTail<Doc(!new)>(e: Engine<Doc>, w: World<Doc>, tail: Bytes)
    requires SteadyInv(e, w, tail)
    ensures Tail(e, w) == tail
  {
    TailIs(e, w, tail);
  }

  lemma RepairedServes<Doc(!new)>(e: Engine<Doc>, d0: Doc, down: World<Doc>, tail: Bytes, deleted: set<FileName>)
    requires Sound(e) && SteadyInv(e, down, tail) && down.proc.Down?
    ensures AfterRepair(e, down, HEALTHY, deleted).proc.Down?
    ensures var back := AfterRestart(e, AfterRepair(e, down, HEALTHY, deleted), HEALTHY, deleted);
            && Serves(e, d0, back, History(e, down, tail)) && back.acked == History(e, down, tail)
            && back.root == down.root && back.rooted == down.rooted
  {
    hide AfterRestart, AfterRepair, SteadyInv, Serves;
    var tail' := RepairOutcome(e, down, tail, HEALTHY, deleted);
    var repaired := AfterRepair(e, down, HEALTHY, deleted);
    var tail'' := RestartOutcome(e, repaired, tail', HEALTHY, deleted);
    UpServes(e, d0, AfterRestart(e, repaired, HEALTHY, deleted), tail'');
  }

  /**
   Crash safety of a store adrift: every update acknowledged before the failed rejection is back after
   every restart that is not refused and after every repair, and applied in the document that then
   serves. A repair whose system calls succeed always brings the document back.
   */
  lemma CrashSafetyAdrift<Doc(!new)>(
    e: Engine<Doc>, d0: Doc, actions: seq<Action<Doc>>, lost: Option<Bytes>, io: LoadIo, deleted: set<FileName>)
    requires Sound(e) && CreateDocument(e, d0).Ok?
    ensures var w := Run(e, Created(e, d0), actions);
            var down := Next(e, w, Crash(lost));
            var back := Next(e, down, Restart(io, deleted));
            var repaired := Next(e, Next(e, down, RepairOffline(HEALTHY, deleted)), Restart(HEALTHY, deleted));
            w.drift.Adrift? ==>
              && (back.proc.Down? || (w.acked <= back.acked && Serves(e, d0, back, back.acked)))
              && w.acked <= repaired.acked && Serves(e, d0, repaired, repaired.acked)
              && (Whole(e, d0, w) ==> Whole(e, d0, back) && Whole(e, d0, repaired))
  {
    hide Run, AfterCrash, AfterRestart, AfterRepair, SteadyInv, DriftInv, Serves, Created, Whole;
    var tail := Reached(e, d0, actions);
    var w := Run(e, Created(e, d0), actions);
    if w.drift.Adrift? {
      RootInHistory(e, w, tail);
      CrashKeepsRoot(e, w, lost);
      tail := DriftCrash(e, w, tail, lost);
      var down := Next(e, w, Crash(lost));
      var tail' := DriftRestart(e, down, tail, io, deleted);
      var back := Next(e, down, Restart(io, deleted));
      if back.drift.InStep? { UpServes(e, d0, back, tail'); }
      LoadsKeepWhole(e, d0, w, back);
      tail' := DriftRepair(e, down, tail, HEALTHY, deleted);
      var repaired := Next(e, down, RepairOffline(HEALTHY, deleted));
      NothingInFlight(e, repaired, tail');
      tail' := RestartOutcome(e, repaired, tail', HEALTHY, deleted);
      UpServes(e, d0, Next(e, repaired, Restart(HEALTHY, deleted)), tail');
      LoadsKeepWhole(e, d0, w, Next(e, repaired, Restart(HEALTHY, deleted)));
    }
  }

  lemma NothingInFlight<Doc(!new)>(e: Engine<Doc>, w: World<Doc>, tail: Bytes)
    requires w.flight == None && tail == []
    ensures History(e, w, tail) == w.acked && !Refused(e, w, tail, HEALTHY)
  {
  }

  // ----- running processes

  /**
   Lengths, counts and documents in a running process. In step, the segment file is exactly `logBytes`
   long unless an append failed; that length is always the record boundary behind the acknowledged
   updates; the document is the root with everything since applied. Adrift, the file still begins with
   those records, the document is what the latest panic left with everything acknowledged after it
   applied, and, unless a failed load has cut the file, `logBytes` is not short of what was promised and
   right only if the file begins with that. The file never exceeds the replay limit.
   */
  lemma RunningStoreAgrees<Doc(!new)>(e: Engine<Doc>, d0: Doc, actions: seq<Action<Doc>>)
    requires Sound(e) && CreateDocument(e, d0).Ok?
    ensures var w := Run(e, Created(e, d0), actions);
            w.proc.Up? ==>
              var p := w.proc.p;
              var acked, promised := Segment(e, Logged(w.gen, w.acked)), Segment(e, Logged(w.gen, Promised(w)));
              && p.generation == w.gen.number && w.rooted <= w.gen.folded <= |w.acked|
              && acked <= SegmentFile(w) && |SegmentFile(w)| <= MAX_LOG_BYTES
              && (w.drift.InStep? ==>
                    && Fold(e, w.root, w.acked[w.rooted..]) == Some(w.proc.doc)
                    && (Whole(e, d0, w) ==> Fold(e, d0, w.acked) == Some(w.proc.doc))
                    && p.logBytes == |acked|
                    && p.records == |w.acked| - w.gen.folded
                    && p.totalRecords == SaturatingAdd(w.gen.counted, p.records)
                    && (!p.appendFailed ==> |SegmentFile(w)| == p.logBytes))
              && (w.drift.Adrift? ==> Fold(e, w.drift.left, w.drift.since) == Some(w.proc.doc))
              && (w.drift.Adrift? && !w.drift.cut ==>
                    p.logBytes >= |promised| && (p.logBytes == |promised| ==> promised <= SegmentFile(w)))
  {
    hide Run, Created, EncodeSnapshot, Records, Fold, Acceptable, Whole;
    var tail := Reached(e, d0, actions);
    var w := Run(e, Created(e, d0), actions);
    if w.proc.Up? {
      TailIs(e, w, tail);
      if w.drift.InStep? {
        DocumentIsRooted(e, w, tail);
        if Whole(e, d0, w) { WholeDocument(e, d0, w, tail); }
      } else {
        LoggedMore(w.gen, w.acked, w.drift.late);
        SegmentMore(e, Logged(w.gen, w.acked), w.drift.late);
      }
    }
  }

  /** The segment would grow beyond the replay limit. */
  predicate Overfull<Doc>(e: Engine<Doc>, w: World<Doc>, u: Bytes) {
    |Segment(e, Logged(w.gen, w.acked) + [u])| > MAX_LOG_BYTES
  }

  /**
   How every append is answered in every reachable process in step, for each outcome of its system
   calls: stuck exactly if a partial record stands there and cannot be cut; too large exactly if the
   records with this one would exceed the replay limit, which `requires_compaction` foretells; an I/O
   error exactly if the write fails; and durable exactly otherwise. The latch is set afterwards exactly
   if a partial record may stand in the segment.
   */
  lemma AppendAnswered<Doc(!new)>(
    e: Engine<Doc>, d0: Doc, actions: seq<Action<Doc>>, u: Bytes, io: AppendIo)
    requires Sound(e) && CreateDocument(e, d0).Ok?
    ensures var w := Run(e, Created(e, d0), actions);
            w.proc.Up? && w.drift.InStep? ==>
              var (s, r) := AppendUpdate(e, Store(w.proc.p, w.disk), u, io);
              var stuck := w.proc.p.appendFailed && io.repair != CutDone;
              var full := Overfull(e, w, u);
              && (r == Err(PartialRecordStuck) <==> stuck)
              && (r == Err(LogTooLarge) <==> !stuck && full)
              && (r == Err(Io) <==> !stuck && !full && io.write.WriteFailed?)
              && (r.Ok? <==> !stuck && !full && io.write.WriteDone?)
              && (s.p.appendFailed <==> stuck || (r == Err(Io) && io.undo != CutDone))
              && (RequiresCompaction(e, w.proc.p, u) <==> full)
  {
    hide Run, Created, EncodeSnapshot, Records, Fold, SetLen, Record, Rooted;
    var tail := Reached(e, d0, actions);
    var w := Run(e, Created(e, d0), actions);
    if w.proc.Up? && w.drift.InStep? {
      var us := Logged(w.gen, w.acked);
      RecordLength(e, u);
      OneRecord(e, u);
      SegmentMore(e, us, [u]);
    }
  }

  /**
   In every reachable process in step an append whose system calls succeed, and which leaves the segment
   within the replay limit, is acknowledged if it can be integrated and otherwise sent to rejection.
   */
  lemma HealthyAppendIsAcknowledged<Doc(!new)>(
    e: Engine<Doc>, d0: Doc, actions: seq<Action<Doc>>, u: Bytes, undo: Cut, half: Doc)
    requires Sound(e) && CreateDocument(e, d0).Ok? && Acceptable(e, u)
    ensures var w := Run(e, Created(e, d0), actions);
            var w' := Next(e, w, Append(u, AppendIo(CutDone, WriteDone, undo), half));
            w.proc.Up? && w.drift.InStep? && !Overfull(e, w, u) ==>
              if Fold(e, w.gen.base, Logged(w.gen, w.acked) + [u]).Some?
              then w'.acked == w.acked + [u] && Serves(e, d0, w', w'.acked)
              else w'.acked == w.acked && w'.proc.Rejecting? && w'.proc.doc == half && w'.flight == Some(u)
  {
    hide Run, Created, EncodeSnapshot, Records, Record, Verifies, Serves, WriteRecord, Segment;
    var tail := Reached(e, d0, actions);
    var w := Run(e, Created(e, d0), actions);
    if w.proc.Up? && w.drift.InStep? && !Overfull(e, w, u) {
      FitsExactly(e, w, tail, u);
      var io := AppendIo(CutDone, WriteDone, undo);
      var cleared := ClearOutcome(e, w, tail, CutDone);
      FoldConcat(e, w.gen.base, Logged(w.gen, w.acked), [u]);
      var tail' := WriteDoneOutcome(e, w, u, io, half);
      var w' := AfterAppend(e, w, u, io, half);
      if w'.proc.Up? { UpServes(e, d0, w', tail'); }
    }
  }

  lemma FitsExactly<Doc(!new)>(e: Engine<Doc>, w: World<Doc>, tail: Bytes, u: Bytes)
    requires Sound(e) && SteadyInv(e, w, tail) && w.proc.Up?
    ensures Fits(e, w.proc.p, u) <==> !Overfull(e, w, u)
  {
    hide EncodeSnapshot, Records, Fold, Record, Rooted, TailOf;
    RecordLength(e, u);
    OneRecord(e, u);
    SegmentMore(e, Logged(w.gen, w.acked), [u]);
  }

  /**
   A compaction that gets through, in step or adrift, makes exactly the document in memory the durable
   one and starts an empty segment, with room for any update a caller may append; the process is in
   step afterwards. Adrift, that document is what the latest panic left with everything acknowledged
   after it applied, and it becomes the root.
   */
  lemma CompactionEmptiesTheSegment<Doc(!new)>(
    e: Engine<Doc>, d0: Doc, actions: seq<Action<Doc>>, deleted: set<FileName>)
    requires Sound(e) && CreateDocument(e, d0).Ok?
    ensures var w := Run(e, Created(e, d0), actions);
            var w' := Next(e, w, CompactNow(3, deleted));
            w.proc.Up? && |e.encode(w.proc.doc)| <= MAX_SNAPSHOT_BYTES && w.proc.p.generation < U64_MAX ==>
              && Serves(e, d0, w', Promised(w)) && w'.proc.doc == w.proc.doc == w'.gen.base
              && w'.gen.folded == |Promised(w)| && w'.proc.p.generation == w.proc.p.generation + 1
              && (w.drift.Adrift? ==> Some(w'.root) == Fold(e, w.drift.left, w.drift.since))
              && SegmentFile(w') == LOG_MAGIC
              && (forall u :: Acceptable(e, u) ==> !RequiresCompaction(e, w'.proc.p, u))
  {
    hide EncodeSnapshot, Fold, Run, Created, Serves, Records;
    var tail := Reached(e, d0, actions);
    var w := Run(e, Created(e, d0), actions);
    if w.proc.Up? && |e.encode(w.proc.doc)| <= MAX_SNAPSHOT_BYTES && w.proc.p.generation < U64_MAX {
      var w' := Next(e, w, CompactNow(3, deleted));
      if w.drift.InStep? {
        var tail' := CompactOutcome(e, w, tail, 3, deleted, false);
        UpServes(e, d0, w', tail');
      } else {
        var tail' := DriftCompact(e, w, tail, 3, deleted, false);
        UpServes(e, d0, w', tail');
      }
    }
  }

  /** Of the older generations' files, a compaction that gets through leaves exactly those whose deletion failed. */
  lemma CompactionSweeps<Doc(!new)>(
    e: Engine<Doc>, w: World<Doc>, deleted: set<FileName>, name: FileName)
    requires w.proc.Up? && |e.encode(w.proc.doc)| <= MAX_SNAPSHOT_BYTES && w.proc.p.generation < U64_MAX
    requires name.generation <= w.proc.p.generation && name in w.disk.files
    ensures var w' := Next(e, w, CompactNow(3, deleted));
            && (name in w'.disk.files <==> name !in deleted)
            && (name in w'.disk.files ==> w'.disk.files[name] == w.disk.files[name])
  {
    hide EncodeSnapshot;
  }
}
