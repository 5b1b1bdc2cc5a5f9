/**
 The live document as the server runs it (server/src/crdt.rs:1640-1758): an object that appends,
 integrates, rejects and compacts through its persistence object. `RunDocument` puts any run of it
 through the objects, crashes it and opens the directory again.
 */
module StorageServer {
  import opened Wrappers
  import opened Bytes
  import opened StorageFormat
  import opened StorageRecovery
  import opened StorageStore
  import opened StorageWorld
  import opened StorageLoad
  import opened StorageSteps
  import opened StorageRun
  import opened StorageEngine

  class PersistentDocument<Doc(!new)> {
    var persistence: DocumentPersistence
    var doc: Doc
    // the segment length before a record whose update panicked
    var rejecting: Option<nat>

    function State(): Proc<Doc>
      reads this, persistence
    {
      var p := persistence.View().p;
      if rejecting.None? then Up(p, doc) else Rejecting(p, rejecting.value, doc)
    }

    /** This object is the running process of the world `w`, and its directory the disk. */
    ghost predicate Is(w: World<Doc>)
      reads this, persistence
    {
      persistence.View().disk == w.disk && State() == w.proc
    }

    constructor (s: Store, doc: Doc)
      ensures State() == Up(s.p, doc) && persistence.View() == s && fresh(persistence)
    {
      this.persistence := new DocumentPersistence(s);
      this.doc := doc;
      this.rejecting := None;
    }

    /** Append, then integrate; a panic leaves `half` in memory and the record to be rejected. */
    method ApplyUpdate(e: Engine<Doc>, ghost w: World<Doc>, update: Bytes, io: AppendIo, half: Doc)
      returns (acknowledged: bool)
      requires Is(w) && w.proc.Up?
      modifies this, persistence
      ensures persistence == old(persistence)
      ensures Is(AfterAppend(e, w, update, io, half))
      ensures acknowledged ==> Promised(AfterAppend(e, w, update, io, half)) == Promised(w) + [update]
      ensures !acknowledged ==> Promised(AfterAppend(e, w, update, io, half)) == Promised(w)
    {
      hide Spec.AppendUpdate;
      var before := persistence.logBytes;
      var appended := persistence.AppendUpdate(e, update, io);
      if appended.Err? {
        return false;
      }
      var integrated := e.apply(doc, update);
      if integrated.None? {
        doc, rejecting := half, Some(before);
        return false;
      }
      doc := integrated.value;
      acknowledged := true;
      assert w.drift.Adrift? ==> w.acked + (w.drift.late + [update]) == w.acked + w.drift.late + [update];
    }

    /** Load the document again from its committed generation; if that fails, go on with the one in memory. */
    method Reload(e: Engine<Doc>, ghost w: World<Doc>, io: LoadIo, deleted: set<FileName>)
      requires Is(w) && w.proc.Up?
      modifies this, persistence
      ensures persistence == old(persistence) || fresh(persistence)
      ensures Is(AfterRestart(e, w, io, deleted))
    {
      hide Load;
      var left, loaded := Open(e, persistence.View().disk, RecoverInterruptedAppend, io, deleted);
      if loaded.Ok? && loaded.value.doc.Some? {
        persistence := new DocumentPersistence(Store(loaded.value.p, left));
        doc := loaded.value.doc.value;
      } else {
        persistence.SetDirectory(left);
      }
    }

    /** Drop the record of a panicking update and load the document again; on an error the process goes on. */
    method RejectAppendedUpdate(e: Engine<Doc>, ghost w: World<Doc>, cut: Cut, reload: LoadIo, deleted: set<FileName>)
      requires Is(w) && w.proc.Rejecting?
      modifies this, persistence
      ensures persistence == old(persistence) || fresh(persistence)
      ensures Is(AfterReject(e, w, cut, reload, deleted))
    {
      hide AfterRestart, Spec.DiscardLastRecord;
      var before := rejecting.value;
      rejecting := None;
      var discarded := persistence.DiscardLastRecord(before, cut);
      if discarded.Ok? {
        ghost var on := w.(
          disk := persistence.View().disk, proc := State(), flight := None, drift := Drifted(w, cut));
        Reload(e, on, reload, deleted);
      }
    }

    method CompactLocked(e: Engine<Doc>, ghost w: World<Doc>, steps: nat, deleted: set<FileName>)
      requires Is(w) && w.proc.Up?
      modifies persistence
      ensures persistence == old(persistence)
      ensures Is(AfterCompact(e, w, steps, deleted))
    {
      hide CompactionWrites, RemoveOldGenerations;
      var r := persistence.Compact(e, e.encode(doc), steps, deleted);
    }

    /** The process dies inside an append, if the append gets as far as writing. */
    method DieInAppend(e: Engine<Doc>, ghost w: World<Doc>, update: Bytes, repair: Cut, tail: Bytes)
      returns (died: bool)
      requires Is(w) && w.proc.Up?
      modifies persistence
      ensures persistence == old(persistence)
      ensures var after := AfterCrashInAppend(e, w, update, repair, tail);
              if died then after.proc.Down? && persistence.View().disk == after.disk else Is(after)
    {
      hide Landed, Spec.ClearPartialRecord, Record;
      var (s, clear) := ClearPartialRecord(persistence.View(), repair);
      if !clear || !Fits(e, s.p, update) || Log(s) !in s.disk.files || !Landed(e, update, tail) {
        return false;
      }
      died := persistence.DieInAppend(e, update, repair, tail);
    }

    /** The process dies inside a compaction, after `steps` of its writes. */
    method DieInCompact(e: Engine<Doc>, ghost w: World<Doc>, steps: nat, deleted: set<FileName>) returns (died: bool)
      requires Is(w) && w.proc.Up?
      modifies persistence
      ensures persistence == old(persistence)
      ensures var after := AfterCrashInCompact(e, w, steps, deleted);
              if died then after.proc.Down? && persistence.View().disk == after.disk else Is(after)
    {
      hide CompactionWrites, RemoveOldGenerations;
      var snapshot := e.encode(doc);
      if |snapshot| > MAX_SNAPSHOT_BYTES || persistence.generation >= U64_MAX {
        return false;
      }
      var next := persistence.generation + 1;
      var written := persistence.WriteGeneration(e, next, snapshot, steps);
      if written {
        persistence.Sweep(next, deleted);
      }
      died := true;
    }
  }

  /**
   One action on the objects: `live` while the process is up, the directory `disk` while it is down.
   Only what a crash makes of bytes that were never confirmed is taken from the books.
   */
  method Perform<Doc(!new)>(
    e: Engine<Doc>, books: World<Doc>, live: PersistentDocument<Doc>, up: bool, disk: Disk, a: Action<Doc>)
    returns (live': PersistentDocument<Doc>, up': bool, disk': Disk)
    requires if up then live.Is(books) else books.proc.Down? && disk == books.disk
    modifies live, live.persistence
    ensures live' == live || fresh(live')
    ensures live'.persistence == old(live.persistence) || fresh(live'.persistence)
    ensures var after := Next(e, books, a);
            if up' then live'.Is(after) else after.proc.Down? && disk' == after.disk
  {
    hide Load, AfterAppend, AfterReject, AfterCompact, AfterCrashInAppend, AfterCrashInCompact, MayBecome;
    hide Acceptable;
    live', up', disk' := live, up, disk;
    match a
    case Append(u, io, half) =>
      if up && live.rejecting.None? && Acceptable(e, u) {
        var acknowledged := live.ApplyUpdate(e, books, u, io, half);
      }
    case Reject(cut, reload, deleted) =>
      if up && live.rejecting.Some? { live.RejectAppendedUpdate(e, books, cut, reload, deleted); }
    case CompactNow(steps, deleted) =>
      if up && live.rejecting.None? { live.CompactLocked(e, books, steps, deleted); }
    case CrashInAppend(u, repair, tail) =>
      if up && live.rejecting.None? && Acceptable(e, u) {
        var died := live.DieInAppend(e, books, u, repair, tail);
        up', disk' := !died, live.persistence.View().disk;
      }
    case CrashInCompact(steps, deleted) =>
      if up && live.rejecting.None? {
        var died := live.DieInCompact(e, books, steps, deleted);
        up', disk' := !died, live.persistence.View().disk;
      }
    case Crash(lost) => up', disk' := false, AfterCrash(e, books, lost).disk;
    case Restart(io, deleted) =>
      if !up {
        var left, loaded := Open(e, disk, RecoverInterruptedAppend, io, deleted);
        disk' := left;
        if loaded.Ok? && loaded.value.doc.Some? {
          live' := new PersistentDocument(Store(loaded.value.p, left), loaded.value.doc.value);
          up' := true;
        }
      }
    case RepairOffline(io, deleted) =>
      if !up {
        var left, loaded := Open(e, disk, Repair, io, deleted);
        disk' := left;
      }
  }

  lemma RunStep<Doc(!new)>(e: Engine<Doc>, w: World<Doc>, actions: seq<Action<Doc>>, i: nat)
    requires i < |actions|
    ensures Run(e, w, actions[i..]) == Run(e, Next(e, w, actions[i]), actions[i + 1..])
  {
    hide Next;
    assert actions[i..][1..] == actions[i + 1..];
  }

  lemma RunNothing<Doc(!new)>(e: Engine<Doc>, w: World<Doc>)
    ensures Run(e, w, []) == w
  {
  }

  /** What the crash theorems say about opening the directory. */
  lemma OpenedAfterRun<Doc(!new)>(
    e: Engine<Doc>, d0: Doc, actions: seq<Action<Doc>>, io: LoadIo, deleted: set<FileName>)
    requires Sound(e) && CreateDocument(e, d0).Ok?
    ensures var books := Next(e, Run(e, Created(e, d0), actions), Crash(None));
            var result := Load(e, books.disk, RecoverInterruptedAppend, io, deleted).1;
            Opens(e, d0, books, result, io)
  {
    hide Run, Load, History, Refused, Fold, Tail, Created, Whole;
    CrashSafety(e, d0, actions, None, io, deleted);
    CrashSafetyAdrift(e, d0, actions, None, io, deleted);
    var w := Run(e, Created(e, d0), actions);
    var books := Next(e, w, Crash(None));
    OpensWhole(e, books.disk, io, deleted);
    var tail := Reached(e, d0, actions);
    RootInHistory(e, w, tail);
    LoadsKeepWhole(e, d0, w, books);
  }

  /** Startup never returns a document without having integrated every record it kept. */
  lemma OpensWhole<Doc(!new)>(e: Engine<Doc>, disk: Disk, io: LoadIo, deleted: set<FileName>)
    ensures var result := Load(e, disk, RecoverInterruptedAppend, io, deleted).1;
            result.Ok? ==> result.value.doc.Some?
  {
  }

  /**
   The directory of a crashed run opens as the crash theorems say: in step, exactly the stated history
   or not at all; adrift, a history that begins with what was acknowledged before; and the document is
   the root with that history since applied, which is the new document with all of it if the run was whole.
   */
  ghost predicate Opens<Doc(!new)>(
    e: Engine<Doc>, d0: Doc, books: World<Doc>, result: Result<Loaded<Doc>, StorageError>, io: LoadIo)
  {
    && (books.drift.InStep? ==> (result.Err? <==> Refused(e, books, Tail(e, books), io)))
    && (result.Ok? ==>
          var history := Recovered(books.acked, books.gen.folded, result.value.updates);
          && (if books.drift.InStep? then history == History(e, books, Tail(e, books)) else books.acked <= history)
          && books.rooted <= |history|
          && result.value.doc == Fold(e, books.root, history[books.rooted..])
          && (Whole(e, d0, books) ==> result.value.doc == Fold(e, d0, history))
          && (books.gen.counted == Cap(books.gen.folded) ==> result.value.p.totalRecords == Cap(|history|)))
  }

  /**
   Run a new document through any actions, crash it and open its directory again: what opens is
   what the crash theorems promise about that run.
   */
  method RunDocument<Doc(!new)>(
    e: Engine<Doc>, d0: Doc, actions: seq<Action<Doc>>, io: LoadIo, deleted: set<FileName>)
    returns (books: World<Doc>, result: Result<Loaded<Doc>, StorageError>)
    requires Sound(e) && CreateDocument(e, d0).Ok?
    ensures books == Next(e, Run(e, Created(e, d0), actions), Crash(None))
    ensures Opens(e, d0, books, result, io)
  {
    hide Run, Next, Load, Opens;
    var store := CreateDocument(e, d0).value;
    var live := new PersistentDocument(store, d0);
    var up, disk := true, store.disk;
    books := Created(e, d0);
    ghost var start := books;
    for i := 0 to |actions|
      invariant Run(e, books, actions[i..]) == Run(e, start, actions)
      invariant fresh(live) && fresh(live.persistence)
      invariant if up then live.Is(books) else books.proc.Down? && disk == books.disk
    {
      RunStep(e, books, actions, i);
      live, up, disk := Perform(e, books, live, up, disk, actions[i]);
      books := Next(e, books, actions[i]);
    }
    assert actions[|actions|..] == [];
    RunNothing(e, books);
    if up {
      disk := live.persistence.View().disk;
    }
    CrashKeepsDisk(e, books);
    books := Next(e, books, Crash(None));
    var left;
    left, result := Open(e, disk, RecoverInterruptedAppend, io, deleted);
    OpenedAfterRun(e, d0, actions, io, deleted);
  }

  lemma CrashKeepsDisk<Doc(!new)>(e: Engine<Doc>, w: World<Doc>)
    ensures Next(e, w, Crash(None)).disk == w.disk
  {
  }
}
