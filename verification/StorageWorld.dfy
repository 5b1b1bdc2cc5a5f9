/**
 The document store at work: the server process, its disk, and the history the clients rely on.
 A run is any sequence of appends (with every system call allowed to fail), rejections,
 compactions, crashes inside any of them, restarts and offline repairs
 (server/src/crdt_storage.rs, driven by server/src/crdt.rs:1640-1758).
 */
module StorageWorld {
  import opened Wrappers
  import opened Bytes
  import opened StorageFormat
  import opened StorageRecovery
  import opened StorageStore

  /**
   `Rejecting`: a durable update panicked while being integrated. The process still holds the
   document's lock; all it can do is discard the record that starts at `before` and reload.
   */
  datatype Proc<Doc> =
    | Down
    | Up(p: Persistence, doc: Doc)
    | Rejecting(p: Persistence, before: nat, doc: Doc)

  /** The committed generation: its snapshot holds `base`, the document after the first `folded` updates. */
  datatype Gen<Doc> = Gen(number: nat, base: Doc, counted: nat, folded: nat)

  /**
   `Adrift`: rejecting a panicking update failed and the process went on with the document the panic
   left. `blocker` is that update if its record is still in the segment; `late` are the updates
   acknowledged since; `cut` says that a failed load has cut the segment since. `left` is what the
   latest panic left of the document, and `since` are the updates acknowledged after that one.
   */
  datatype Drift<Doc> =
    | InStep
    | Adrift(blocker: Option<Bytes>, late: seq<Bytes>, cut: bool, left: Doc, since: seq<Bytes>)

  /**
   `acked` are the updates acknowledged in step, `flight` the one whose fate was never reported.
   `root` is the document that the updates from position `rooted` on were applied to: the new document
   at first, and later whatever a process adrift had in memory when it was compacted.
   */
  datatype World<Doc> = World(
    disk: Disk, proc: Proc<Doc>, gen: Gen<Doc>, root: Doc, rooted: nat,
    acked: seq<Bytes>, flight: Option<Bytes>, drift: Drift<Doc>)

  /** `half` is what a panic leaves of the document in memory; `lost` what a crash makes of unconfirmed bytes. */
  datatype Action<Doc> =
    | Append(u: Bytes, io: AppendIo, half: Doc)
    | CrashInAppend(u: Bytes, repair: Cut, tail: Bytes)
    | Reject(cut: Cut, reload: LoadIo, deleted: set<FileName>)
    | CompactNow(steps: nat, deleted: set<FileName>)
    | CrashInCompact(steps: nat, deleted: set<FileName>)
    | Crash(lost: Option<Bytes>)
    | Restart(reload: LoadIo, deleted: set<FileName>)
    | RepairOffline(reload: LoadIo, deleted: set<FileName>)

  /**
   What an append may leave on disk if the process dies inside it: any bytes within the record's
   extent that are not another frame with a matching checksum.
   */
  predicate Landed<Doc>(e: Engine<Doc>, u: Bytes, tail: Bytes) {
    |tail| <= |Record(e, u)| && (tail == Record(e, u) || !Verifies(e, tail))
  }

  /** The updates behind the snapshot. */
  function Logged<Doc>(gen: Gen<Doc>, acked: seq<Bytes>): seq<Bytes> {
    if gen.folded <= |acked| then acked[gen.folded..] else []
  }

  /** The history as the disk tells it: the updates in the snapshot, then the replayed ones. */
  function Recovered(acked: seq<Bytes>, folded: nat, updates: seq<Bytes>): seq<Bytes> {
    if folded <= |acked| then acked[..folded] + updates else updates
  }

  // ----- appending

  /** The clients are told that `u` is durable. */
  function Acknowledged<Doc>(w: World<Doc>, u: Bytes): World<Doc> {
    match w.drift
    case InStep => w.(acked := w.acked + [u], flight := None)
    case Adrift(blocker, late, cut, left, since) =>
      w.(drift := Adrift(blocker, late + [u], cut, left, since + [u]))
  }

  function AfterAppend<Doc>(e: Engine<Doc>, w: World<Doc>, u: Bytes, io: AppendIo, half: Doc): World<Doc>
    requires w.proc.Up?
  {
    var (s, r) := AppendUpdate(e, Store(w.proc.p, w.disk), u, io);
    if r.Ok? then
      match e.apply(w.proc.doc, u)
      case Some(doc) => Acknowledged(w, u).(disk := s.disk, proc := Up(s.p, doc))
      case None =>
        w.(disk := s.disk, proc := Rejecting(s.p, w.proc.p.logBytes, half),
           flight := if w.drift.InStep? then Some(u) else None)
    else
      var torn := if !s.p.appendFailed then None else if r.error.Io? then Some(u) else w.flight;
      w.(disk := s.disk, proc := Up(s.p, w.proc.doc), flight := if w.drift.InStep? then torn else None)
  }

  function AfterCrashInAppend<Doc>(e: Engine<Doc>, w: World<Doc>, u: Bytes, repair: Cut, tail: Bytes): World<Doc>
    requires w.proc.Up?
  {
    var (s, clear) := ClearPartialRecord(Store(w.proc.p, w.disk), repair);
    if !(clear && Fits(e, s.p, u) && Log(s) in s.disk.files && Landed(e, u, tail)) then w
    else
      w.(disk := WithFile(s.disk, Log(s), s.disk.files[Log(s)] + tail), proc := Down,
         flight := if w.drift.InStep? then Some(u) else None)
  }

  // ----- loading

  function Reopened<Doc>(w: World<Doc>, disk: Disk, l: Loaded<Doc>): World<Doc>
    requires l.doc.Some?
  {
    w.(disk := disk, proc := Up(l.p, l.doc.value), acked := Recovered(w.acked, w.gen.folded, l.updates),
       flight := None, drift := InStep)
  }

  /** A load that fails leaves the disk alone, or cut where the replay stopped. */
  function NotReopened<Doc>(w: World<Doc>, disk: Disk): World<Doc> {
    if disk == w.disk then w
    else w.(disk := disk, drift := if w.drift.InStep? then InStep else w.drift.(blocker := None, cut := true))
  }

  function AfterRestart<Doc>(e: Engine<Doc>, w: World<Doc>, io: LoadIo, deleted: set<FileName>): World<Doc> {
    var (disk, r) := Load(e, w.disk, RecoverInterruptedAppend, io, deleted);
    if r.Ok? && r.value.doc.Some? then Reopened(w, disk, r.value) else NotReopened(w, disk)
  }

  function AfterRepair<Doc>(e: Engine<Doc>, w: World<Doc>, io: LoadIo, deleted: set<FileName>): World<Doc> {
    var (disk, r) := Load(e, w.disk, Repair, io, deleted);
    if r.Err? then NotReopened(w, disk)
    else
      w.(disk := disk, proc := Down, acked := Recovered(w.acked, w.gen.folded, r.value.updates),
         flight := None, drift := InStep)
  }

  // ----- rejecting

  /** The process goes on with the document the panic left in memory. */
  function Drifted<Doc>(w: World<Doc>, cut: Cut): Drift<Doc>
    requires w.proc.Rejecting?
  {
    if w.drift.InStep? then Adrift(if cut == CutRefused then w.flight else None, [], false, w.proc.doc, [])
    else w.drift.(left := w.proc.doc, since := [])
  }

  /** The panicking record is discarded, or not. */
  function Discarded<Doc>(w: World<Doc>, cut: Cut): World<Doc>
    requires w.proc.Rejecting?
  {
    var s := DiscardLastRecord(Store(w.proc.p, w.disk), w.proc.before, cut).0;
    w.(disk := s.disk, proc := Up(s.p, w.proc.doc), flight := None, drift := Drifted(w, cut))
  }

  /** Discard the panicking record, then load the document again; if either fails the process goes on adrift. */
  function AfterReject<Doc>(
    e: Engine<Doc>, w: World<Doc>, cut: Cut, reload: LoadIo, deleted: set<FileName>): World<Doc>
    requires w.proc.Rejecting?
  {
    var r := DiscardLastRecord(Store(w.proc.p, w.disk), w.proc.before, cut).1;
    if r.Err? then Discarded(w, cut) else AfterRestart(e, Discarded(w, cut), reload, deleted)
  }

  // ----- compacting

  /** Everything acknowledged, in step or late. */
  function Promised<Doc>(w: World<Doc>): seq<Bytes> {
    if w.drift.InStep? then w.acked else w.acked + w.drift.late
  }

  /** The manifest swap is the commit point: from then on the document in memory is the durable one. */
  function Compacted<Doc>(w: World<Doc>, disk: Disk, proc: Proc<Doc>, p: Persistence, doc: Doc): World<Doc> {
    var all := Promised(w);
    var gen := Gen(p.generation + 1, doc, p.totalRecords, |all|);
    if w.drift.InStep? then World(disk, proc, gen, w.root, w.rooted, all, None, InStep)
    else World(disk, proc, gen, doc, |all|, all, None, InStep)
  }

  function AfterCompact<Doc>(e: Engine<Doc>, w: World<Doc>, steps: nat, deleted: set<FileName>): World<Doc>
    requires w.proc.Up?
  {
    var (s, r) := Compact(e, Store(w.proc.p, w.disk), e.encode(w.proc.doc), steps, deleted);
    if r.Ok? then Compacted(w, s.disk, Up(s.p, w.proc.doc), w.proc.p, w.proc.doc)
    else w.(disk := s.disk)
  }

  function AfterCrashInCompact<Doc>(e: Engine<Doc>, w: World<Doc>, steps: nat, deleted: set<FileName>): World<Doc>
    requires w.proc.Up?
  {
    if |e.encode(w.proc.doc)| > MAX_SNAPSHOT_BYTES || w.proc.p.generation >= U64_MAX then w
    else
      var disk := CompactionWrites(e, Store(w.proc.p, w.disk), e.encode(w.proc.doc), steps);
      if steps < 3 then w.(disk := disk, proc := Down)
      else
        var swept := RemoveOldGenerations(disk, w.proc.p.generation + 1, deleted);
        Compacted(w, swept, Down, w.proc.p, w.proc.doc)
  }

  // ----- crashing

  /** A crash may turn bytes that were never confirmed into anything an interrupted append could have left. */
  predicate MayBecome<Doc>(e: Engine<Doc>, w: World<Doc>, tail: Bytes) {
    && !w.proc.Rejecting?
    && |Segment(e, Logged(w.gen, w.acked))| + |tail| <= MAX_LOG_BYTES
    && match w.drift
       case InStep => w.flight.Some? && Landed(e, w.flight.value, tail)
       case Adrift(blocker, late, _, _, _) => blocker.None? && late == []
  }

  function AfterCrash<Doc>(e: Engine<Doc>, w: World<Doc>, lost: Option<Bytes>): World<Doc> {
    if lost.None? || !MayBecome(e, w, lost.value) then w.(proc := Down)
    else
      var file := Segment(e, Logged(w.gen, w.acked)) + lost.value;
      w.(proc := Down, disk := WithFile(w.disk, LogFile(w.gen.number), file))
  }

  // ----- runs

  /** One step. An action that is not enabled in `w` changes nothing. */
  function Next<Doc>(e: Engine<Doc>, w: World<Doc>, a: Action<Doc>): World<Doc> {
    match a
    case Append(u, io, half) => if w.proc.Up? && Acceptable(e, u) then AfterAppend(e, w, u, io, half) else w
    case CrashInAppend(u, repair, tail) =>
      if w.proc.Up? && Acceptable(e, u) then AfterCrashInAppend(e, w, u, repair, tail) else w
    case Reject(cut, reload, deleted) => if w.proc.Rejecting? then AfterReject(e, w, cut, reload, deleted) else w
    case CompactNow(steps, deleted) => if w.proc.Up? then AfterCompact(e, w, steps, deleted) else w
    case CrashInCompact(steps, deleted) => if w.proc.Up? then AfterCrashInCompact(e, w, steps, deleted) else w
    case Crash(lost) => AfterCrash(e, w, lost)
    case Restart(io, deleted) => if w.proc.Down? then AfterRestart(e, w, io, deleted) else w
    case RepairOffline(io, deleted) => if w.proc.Down? then AfterRepair(e, w, io, deleted) else w
  }

  function Run<Doc>(e: Engine<Doc>, w: World<Doc>, actions: seq<Action<Doc>>): World<Doc>
    decreases |actions|
  {
    if actions == [] then w else Run(e, Next(e, w, actions[0]), actions[1..])
  }

  /** A freshly created document. */
  function Created<Doc>(e: Engine<Doc>, d0: Doc): World<Doc>
    requires CreateDocument(e, d0).Ok?
  {
    var s := CreateDocument(e, d0).value;
    World(s.disk, Up(s.p, d0), Gen(0, d0, 0, 0), d0, 0, [], None, InStep)
  }
}
