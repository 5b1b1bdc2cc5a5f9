/** The device-local record of what was reconciled with the server (src/localSyncState.ts). */
module LocalState {
  import opened Wrappers

  type Path = string

  datatype Kind = TextKind | CanvasKind | BaseKind | BinaryKind | ConfigKind

  /** `Unknown` is a legacy record; `NoIdentity` a local file that predates any accepted identity. */
  datatype Identity = Unknown | NoIdentity | Known(id: string)

  datatype PathState = PathState(
    kind: Kind,
    identity: Identity,
    fingerprint: Option<string>,
    candidate: Option<bool>,
    candidateFingerprint: Option<string>,
    diskFingerprint: Option<string>,
    replacedIdentity: Option<Option<string>>,
    publishedFrom: Option<Option<string>>)

  function ToIdentity(id: Option<string>): Identity {
    if id.None? then NoIdentity else Known(id.value)
  }

  function Bare(kind: Kind): PathState {
    PathState(kind, Unknown, None, None, None, None, None, None)
  }

  type Current = Option<PathState>

  /** A value that JavaScript's truthiness tests let through. */
  function Truthy(s: Option<string>): Option<string> {
    if s == Some("") then None else s
  }

  function CarriedDisk(current: Current, identity: Identity): Option<string> {
    if current.Some? && current.value.identity == identity then Truthy(current.value.diskFingerprint) else None
  }

  function CarriedPublished(current: Current, identity: Identity): Option<Option<string>> {
    if current.Some? && current.value.identity == identity then current.value.publishedFrom else None
  }

  // ----- the record transitions

  function Marked(current: Current, kind: Kind): PathState {
    if current.None? then Bare(kind) else current.value.(kind := kind)
  }

  function Candidate(current: Current, kind: Kind, identity: Identity, fingerprint: Option<string>): PathState {
    var pending :=
      if fingerprint.Some? then fingerprint else if current.Some? then current.value.candidateFingerprint else None;
    if current.Some? && current.value.kind == kind && current.value.identity == identity
       && current.value.candidate == Some(true) && current.value.candidateFingerprint == pending
    then current.value
    else PathState(
      kind, identity,
      if current.None? then None else Truthy(current.value.fingerprint),
      Some(true), Truthy(pending), CarriedDisk(current, identity), None, None)
  }

  function Migrated(current: PathState, kind: Kind, identity: string): PathState {
    if current.identity != Unknown then current
    else current.(kind := kind, identity := Known(identity), candidate := Some(false))
  }

  function Committed(current: Current, kind: Kind, identity: string): PathState {
    PathState(
      kind, Known(identity),
      if current.Some? && current.value.identity == Known(identity) then Truthy(current.value.fingerprint) else None,
      Some(current.Some? && current.value.candidate == Some(true)),
      if current.None? then None else Truthy(current.value.candidateFingerprint),
      CarriedDisk(current, Known(identity)), None, None)
  }

  function Synced(current: Current, kind: Kind, identity: string, fingerprint: string, reconciled: bool): PathState {
    var candidate :=
      current.Some? && current.value.candidate == Some(true) && !reconciled
      && current.value.candidateFingerprint != Some(fingerprint);
    PathState(
      kind, Known(identity), Some(fingerprint), Some(candidate),
      if candidate then Truthy(current.value.candidateFingerprint) else None,
      CarriedDisk(current, Known(identity)), None, CarriedPublished(current, Known(identity)))
  }

  function Published(current: Current, kind: Kind, identity: string, replaced: Option<string>): PathState {
    PathState(
      kind, Known(identity), Some(identity), Some(false), None,
      CarriedDisk(current, Known(identity)), Some(replaced), Some(replaced))
  }

  function OnDisk(current: PathState, kind: Kind, identity: string, fingerprint: string): PathState {
    if current.identity != Known(identity) || current.diskFingerprint == Some(fingerprint) then current
    else current.(kind := kind, diskFingerprint := Some(fingerprint))
  }

  function MovedHere(current: Current, kind: Kind): PathState {
    if current.Some? then current.value.(kind := kind)
    else PathState(kind, NoIdentity, None, Some(true), None, None, None, None)
  }

  // ----- the state

  datatype State = State(paths: map<Path, PathState>, indexEpoch: Option<int>)

  function Get(s: State, path: Path): Current {
    if path in s.paths then Some(s.paths[path]) else None
  }

  datatype Op =
    | AdoptIndexEpoch(epoch: int)
    | Mark(path: Path, kind: Kind)
    | BeginCandidate(path: Path, kind: Kind, identity: Option<string>, fingerprint: Option<string>)
    | MigrateLegacyIdentity(path: Path, kind: Kind, id: string)
    | Commit(path: Path, kind: Kind, id: string)
    | MarkSynced(path: Path, kind: Kind, id: string, content: string, reconciled: bool)
    | MarkPublished(path: Path, kind: Kind, id: string, replaced: Option<string>)
    | MarkDisk(path: Path, kind: Kind, id: string, content: string)
    | Remove(path: Path)
    | Move(from: Path, to: Path, kind: Kind)

  function Put(s: State, path: Path, r: PathState): State {
    s.(paths := s.paths[path := r])
  }

  function Next(s: State, op: Op): State {
    match op
    case AdoptIndexEpoch(epoch) =>
      var rewound := s.indexEpoch.Some? && s.indexEpoch.value > epoch;
      State(if rewound then map[] else s.paths, Some(epoch))
    case Mark(path, kind) => Put(s, path, Marked(Get(s, path), kind))
    case BeginCandidate(path, kind, identity, fingerprint) =>
      Put(s, path, Candidate(Get(s, path), kind, ToIdentity(identity), fingerprint))
    case MigrateLegacyIdentity(path, kind, id) =>
      if path in s.paths then Put(s, path, Migrated(s.paths[path], kind, id)) else s
    case Commit(path, kind, id) => Put(s, path, Committed(Get(s, path), kind, id))
    case MarkSynced(path, kind, id, content, reconciled) =>
      Put(s, path, Synced(Get(s, path), kind, id, content, reconciled))
    case MarkPublished(path, kind, id, replaced) => Put(s, path, Published(Get(s, path), kind, id, replaced))
    case MarkDisk(path, kind, id, content) =>
      if path in s.paths then Put(s, path, OnDisk(s.paths[path], kind, id, content)) else s
    case Remove(path) => s.(paths := s.paths - {path})
    case Move(from, to, kind) => Put(s.(paths := s.paths - {from}), to, MovedHere(Get(s, from), kind))
  }

  function AcknowledgedFingerprint(s: State, path: Path, id: string): Option<string> {
    var r := Get(s, path);
    if r.None? || r.value.identity != Known(id) || r.value.candidate == Some(true) then None else r.value.fingerprint
  }

  function DiskFingerprint(s: State, path: Path, id: string): Option<string> {
    var r := Get(s, path);
    if r.Some? && r.value.identity == Known(id) then r.value.diskFingerprint else None
  }

  // ----- provenance

  /** What the device was told: contents acknowledged, found on disk, and published, each for an identity. */
  datatype History = History(
    acknowledged: set<(string, string)>, onDisk: set<(string, string)>, published: set<(string, Option<string>)>)

  function Record(h: History, op: Op): History {
    match op
    case MarkSynced(_, _, id, content, _) => h.(acknowledged := h.acknowledged + {(id, content)})
    case MarkPublished(_, _, id, replaced) =>
      h.(acknowledged := h.acknowledged + {(id, id)}, published := h.published + {(id, replaced)})
    case MarkDisk(_, _, id, content) => h.(onDisk := h.onDisk + {(id, content)})
    case _ => h
  }

  /** The history grows by nothing but what the operation says, and by all of that. */
  lemma HistoryIsHonest(h: History, op: Op, id: string, content: string, replaced: Option<string>)
    ensures var h' := Record(h, op);
            && ((id, content) in h'.acknowledged <==>
                  || (id, content) in h.acknowledged
                  || (op.MarkSynced? && op.id == id && op.content == content)
                  || (op.MarkPublished? && op.id == id == content))
            && ((id, content) in h'.onDisk <==>
                  (id, content) in h.onDisk || (op.MarkDisk? && op.id == id && op.content == content))
            && ((id, replaced) in h'.published <==>
                  (id, replaced) in h.published || (op.MarkPublished? && op.id == id && op.replaced == replaced))
  {
  }

  /** Everything a record claims about its identity was recorded for that very identity. */
  predicate Justified(r: PathState, h: History) {
    && (r.identity == Unknown ==> r.fingerprint == None && r.diskFingerprint == None && r.publishedFrom == None)
    && (r.fingerprint.Some? && r.candidate != Some(true) ==>
          r.identity.Known? && (r.identity.id, r.fingerprint.value) in h.acknowledged)
    && (r.diskFingerprint.Some? ==> r.identity.Known? && (r.identity.id, r.diskFingerprint.value) in h.onDisk)
    && (r.publishedFrom.Some? ==> r.identity.Known? && (r.identity.id, r.publishedFrom.value) in h.published)
  }

  predicate AllJustified(s: State, h: History) {
    forall p :: p in s.paths ==> Justified(s.paths[p], h)
  }

  /** Every transition keeps every record justified. */
  lemma NextJustified(s: State, h: History, op: Op)
    requires AllJustified(s, h)
    ensures AllJustified(Next(s, op), Record(h, op))
  {
    var s', h' := Next(s, op), Record(h, op);
    forall p | p in s'.paths ensures Justified(s'.paths[p], h') {
      if op.Move? {
        assert p == op.to || s'.paths[p] == s.paths[p];
        if op.from in s.paths { assert Justified(s.paths[op.from], h); }
      } else if p in s.paths {
        assert Justified(s.paths[p], h);
      }
    }
  }

  /** Whether `op`, in `s`, may rewrite the record at `path`. */
  predicate Touches(s: State, op: Op, path: Path) {
    match op
    case AdoptIndexEpoch(epoch) => s.indexEpoch.Some? && s.indexEpoch.value > epoch
    case Move(from, to, _) => path == from || path == to
    case _ => path == op.path
  }

  predicate NeverTouched(s: State, ops: seq<Op>, path: Path)
    decreases |ops|
  {
    ops == [] || (!Touches(s, ops[0], path) && NeverTouched(Next(s, ops[0]), ops[1..], path))
  }

  /**
   A reconciled `markSynced`, and a `markPublished`, is reported for its identity, and for no other,
   until an operation touches the path or the index epoch is rewound.
   */
  lemma {:induction false} AcknowledgementLasts(s: State, op: Op, ops: seq<Op>, id: string)
    requires (op.MarkSynced? && op.reconciled) || op.MarkPublished?
    requires NeverTouched(Next(s, op), ops, op.path)
    ensures AcknowledgedFingerprint(RunOps(Next(s, op), ops), op.path, id) ==
            if id != op.id then None else if op.MarkSynced? then Some(op.content) else Some(op.id)
  {
    UntouchedStays(Next(s, op), ops, op.path);
  }

  lemma {:induction false} UntouchedStays(s: State, ops: seq<Op>, path: Path)
    requires NeverTouched(s, ops, path)
    ensures Get(RunOps(s, ops), path) == Get(s, path)
    decreases |ops|
  {
    if ops != [] {
      UntouchedStays(Next(s, ops[0]), ops[1..], path);
    }
  }

  // ----- what single operations are for

  /** A removed path is forgotten: nothing is reported for it, and nothing else changes. */
  lemma RemovedIsForgotten(s: State, path: Path, id: string, other: Path)
    ensures var s' := Next(s, Remove(path));
            && AcknowledgedFingerprint(s', path, id) == None && DiskFingerprint(s', path, id) == None
            && path !in s'.paths && s'.indexEpoch == s.indexEpoch
            && (other != path ==> Get(s', other) == Get(s, other))
  {
  }

  /**
   A candidate is acknowledged exactly by a reconciled sync or by one of the very content it was begun
   with, whether or not it was committed in between.
   */
  lemma CandidatePromotedExactly(
    s: State, path: Path, kind: Kind, identity: Option<string>, content: string,
    committed: bool, id: string, synced: string, reconciled: bool)
    requires content != ""
    ensures var begun := Next(s, BeginCandidate(path, kind, identity, Some(content)));
            var held := if committed then Next(begun, Commit(path, kind, id)) else begun;
            var after := Next(held, MarkSynced(path, kind, id, synced, reconciled));
            && AcknowledgedFingerprint(begun, path, id) == None && AcknowledgedFingerprint(held, path, id) == None
            && AcknowledgedFingerprint(after, path, id) ==
               if reconciled || synced == content then Some(synced) else None
  {
  }

  /** A candidate that is synced with other content stays one, and is acknowledged once its own content is. */
  lemma CandidateWaits(
    s: State, path: Path, kind: Kind, identity: Option<string>, content: string,
    id: string, other: string, next: string)
    requires content != "" && other != content
    ensures var begun := Next(s, BeginCandidate(path, kind, identity, Some(content)));
            var held := Next(begun, MarkSynced(path, kind, id, other, false));
            var after := Next(held, MarkSynced(path, kind, id, next, false));
            && AcknowledgedFingerprint(held, path, id) == None
            && AcknowledgedFingerprint(after, path, id) == if next == content then Some(next) else None
  {
  }

  /** Every operation that is told a kind records it, and none but the epoch's own touches the epoch. */
  lemma KindIsRecorded(s: State, op: Op)
    ensures op.BeginCandidate? || op.Commit? || op.MarkSynced? || op.MarkPublished? ==>
              op.path in Next(s, op).paths && Next(s, op).paths[op.path].kind == op.kind
    ensures op.MarkDisk? && op.path in s.paths && Next(s, op) != s ==> Next(s, op).paths[op.path].kind == op.kind
    ensures op.AdoptIndexEpoch? || Next(s, op).indexEpoch == s.indexEpoch
  {
    if op.MarkDisk? && op.path in s.paths { assert s.paths[op.path := s.paths[op.path]] == s.paths; }
  }

  /** An index whose epoch went down makes the device forget every path, and only then. */
  lemma RewoundExactly(s: State, recorded: int, epoch: int)
    ensures var before := Next(s, AdoptIndexEpoch(recorded));
            var after := Next(before, AdoptIndexEpoch(epoch));
            after.paths == if recorded > epoch then map[] else before.paths
    ensures s.indexEpoch.None? ==> Next(s, AdoptIndexEpoch(epoch)).paths == s.paths
  {
  }

  /** A record of an old version takes an identity once; nothing is acknowledged by that. */
  lemma MigratedOnce(s: State, path: Path, kind: Kind, id: string, other: string)
    ensures var s' := Next(s, MigrateLegacyIdentity(path, kind, id));
            if path in s.paths && s.paths[path].identity == Unknown then
              s'.paths == s.paths[path := s.paths[path].(kind := kind, identity := Known(id), candidate := Some(false))]
            else s'.paths == s.paths
    ensures path in s.paths && s.paths[path] == Bare(s.paths[path].kind) ==>
              AcknowledgedFingerprint(Next(s, MigrateLegacyIdentity(path, kind, id)), path, other) == None
  {
  }

  /** What a publish replaced is remembered; a later sync keeps who published only for the same identity. */
  lemma PublishRemembered(
    s: State, path: Path, kind: Kind, id: string, replaced: Option<string>,
    next: string, content: string, reconciled: bool)
    ensures var s' := Next(s, MarkPublished(path, kind, id, replaced));
            var after := Next(s', MarkSynced(path, kind, next, content, reconciled));
            && s'.paths[path].replacedIdentity == s'.paths[path].publishedFrom == Some(replaced)
            && s'.paths[path].candidate == Some(false) && s'.paths[path].candidateFingerprint == None
            && after.paths[path].replacedIdentity == None
            && after.paths[path].publishedFrom == if next == id then Some(replaced) else None
  {
  }

  /** What was found on disk for an identity stays reported across commits and syncs of it, and is dropped by others. */
  lemma DiskFingerprintCarried(s: State, path: Path, kind: Kind, id: string, content: string, op: Op, asked: string)
    requires path in s.paths && s.paths[path].identity == Known(id) && content != ""
    requires (op.Commit? || op.MarkSynced? || op.MarkPublished?) && op.path == path
    ensures var s' := Next(s, MarkDisk(path, kind, id, content));
            && DiskFingerprint(s', path, asked) == (if asked == id then Some(content) else None)
            && DiskFingerprint(Next(s', op), path, asked) == (if asked == id == op.id then Some(content) else None)
  {
  }

  /** Marking sets the kind and starts a record if there is none; nothing else changes. */
  lemma MarkedKind(s: State, path: Path, kind: Kind, other: Path)
    ensures var s' := Next(s, Mark(path, kind));
            && path in s'.paths && s'.paths[path].kind == kind
            && (path in s.paths ==> s'.paths[path].(kind := s.paths[path].kind) == s.paths[path])
            && (path !in s.paths ==> s'.paths[path] == Bare(kind))
            && (other != path ==> Get(s', other) == Get(s, other))
  {
  }

  /** A record moves with its path; a path without one becomes a candidate that predates any identity. */
  lemma MovedExactly(s: State, from: Path, to: Path, kind: Kind)
    ensures var s' := Next(s, Move(from, to, kind));
            && to in s'.paths && s'.paths[to].kind == kind
            && (from in s.paths ==> s'.paths[to].(kind := s.paths[from].kind) == s.paths[from])
            && (from !in s.paths ==>
                  s'.paths[to].identity == NoIdentity && s'.paths[to].candidate == Some(true)
                  && s'.paths[to].fingerprint == None && s'.paths[to].diskFingerprint == None)
            && (from in s'.paths ==> from == to)
  {
  }

  /** A candidate keeps what was known of the path, unless it is one already under the same identity and content. */
  lemma CandidateKeepsKnown(s: State, path: Path, kind: Kind, identity: Option<string>, content: Option<string>)
    requires path in s.paths
    ensures var r, r' := s.paths[path], Next(s, BeginCandidate(path, kind, identity, content)).paths[path];
            && Truthy(r'.fingerprint) == Truthy(r.fingerprint) && r'.kind == kind && r'.candidate == Some(true)
            && r'.identity == ToIdentity(identity)
            && Truthy(r'.candidateFingerprint) == Truthy(if content.Some? then content else r.candidateFingerprint)
            && Truthy(r'.diskFingerprint) == (if r.identity == r'.identity then Truthy(r.diskFingerprint) else None)
  {
  }

  function RunOps(s: State, ops: seq<Op>): State
    decreases |ops|
  {
    if ops == [] then s else RunOps(Next(s, ops[0]), ops[1..])
  }

  function RecordAll(h: History, ops: seq<Op>): History
    decreases |ops|
  {
    if ops == [] then h else RecordAll(Record(h, ops[0]), ops[1..])
  }

  lemma {:induction false} RunJustified(s: State, h: History, ops: seq<Op>)
    requires AllJustified(s, h)
    ensures AllJustified(RunOps(s, ops), RecordAll(h, ops))
    decreases |ops|
  {
    hide Next, Record, AllJustified;
    if ops != [] {
      NextJustified(s, h, ops[0]);
      RunJustified(Next(s, ops[0]), Record(h, ops[0]), ops[1..]);
    }
  }

  /** The records of a first start: none, or those of versions that kept only a kind. */
  predicate Fresh(s: State) {
    forall p :: p in s.paths ==> s.paths[p] == Bare(s.paths[p].kind)
  }

  /**
   After any sequence of operations: a fingerprint reported as acknowledged for an identity was
   recorded by `markSynced` or `markPublished` for that identity; a disk fingerprint was recorded by
   `markDisk` for it; and a recorded publish belongs to the identity the record now has.
   */
  lemma ProvenanceIsTrue(s: State, ops: seq<Op>, path: Path, id: string)
    requires Fresh(s)
    ensures var s', h := RunOps(s, ops), RecordAll(History({}, {}, {}), ops);
            && (AcknowledgedFingerprint(s', path, id).Some? ==>
                  (id, AcknowledgedFingerprint(s', path, id).value) in h.acknowledged)
            && (DiskFingerprint(s', path, id).Some? ==> (id, DiskFingerprint(s', path, id).value) in h.onDisk)
            && (path in s'.paths && s'.paths[path].publishedFrom.Some? ==>
                  s'.paths[path].identity.Known?
                  && (s'.paths[path].identity.id, s'.paths[path].publishedFrom.value) in h.published)
  {
    RunJustified(s, History({}, {}, {}), ops);
    var s', h := RunOps(s, ops), RecordAll(History({}, {}, {}), ops);
    if path in s'.paths { assert Justified(s'.paths[path], h); }
  }
}

/** The record store as an object, its map rewritten in place. */
module LocalSyncState {
  import opened Wrappers
  import opened LocalState

  class LocalSyncState {
    var paths: map<Path, PathState>
    var indexEpoch: Option<int>

    function View(): State
      reads this
    {
      State(paths, indexEpoch)
    }

    constructor ()
      ensures View() == State(map[], None)
    {
      paths, indexEpoch := map[], None;
    }

    method AdoptIndexEpoch(epoch: int) returns (rewound: bool)
      modifies this
      ensures View() == Next(old(View()), Op.AdoptIndexEpoch(epoch))
      ensures rewound <==> old(indexEpoch).Some? && old(indexEpoch).value > epoch
      ensures rewound ==> forall path, id :: AcknowledgedFingerprint(View(), path, id) == None
    {
      rewound := indexEpoch.Some? && indexEpoch.value > epoch;
      if rewound { paths := map[]; }
      indexEpoch := Some(epoch);
    }

    method Mark(path: Path, kind: Kind)
      modifies this
      ensures View() == Next(old(View()), Op.Mark(path, kind))
    {
      if path in paths && paths[path].kind == kind { return; }
      if path in paths {
        paths := paths[path := paths[path].(kind := kind)];
      } else {
        paths := paths[path := Bare(kind)];
      }
    }

    method BeginCandidate(path: Path, kind: Kind, identity: Option<string>, fingerprint: Option<string>)
      modifies this
      ensures View() == Next(old(View()), Op.BeginCandidate(path, kind, identity, fingerprint))
      ensures forall id :: AcknowledgedFingerprint(View(), path, id) == None
    {
      var id := ToIdentity(identity);
      var known, pending, carried: Option<string> := None, fingerprint, None;
      if path in paths {
        var current := paths[path];
        if pending.None? { pending := current.candidateFingerprint; }
        if current.kind == kind && current.identity == id && current.candidate == Some(true)
           && current.candidateFingerprint == pending
        {
          return;
        }
        known := Truthy(current.fingerprint);
        if current.identity == id { carried := Truthy(current.diskFingerprint); }
      }
      paths := paths[path := PathState(kind, id, known, Some(true), Truthy(pending), carried, None, None)];
    }

    method MigrateLegacyIdentity(path: Path, kind: Kind, id: string)
      modifies this
      ensures View() == Next(old(View()), Op.MigrateLegacyIdentity(path, kind, id))
    {
      if path !in paths || paths[path].identity != Unknown { return; }
      paths := paths[path := paths[path].(kind := kind, identity := Known(id), candidate := Some(false))];
    }

    /** An acknowledgement is retained for the identity it was made for, and for no other. */
    method Commit(path: Path, kind: Kind, id: string)
      modifies this
      ensures View() == Next(old(View()), Op.Commit(path, kind, id))
      ensures AcknowledgedFingerprint(View(), path, id) == Truthy(AcknowledgedFingerprint(old(View()), path, id))
    {
      var known, pending, carried: Option<string> := None, None, None;
      var candidate := false;
      if path in paths {
        var current := paths[path];
        candidate := current.candidate == Some(true);
        pending := Truthy(current.candidateFingerprint);
        if current.identity == Known(id) {
          known, carried := Truthy(current.fingerprint), Truthy(current.diskFingerprint);
        }
      }
      paths := paths[path := PathState(kind, Known(id), known, Some(candidate), pending, carried, None, None)];
    }

    /** A reconciled content is acknowledged from here on; a candidate stays one unless its own content was synced. */
    method MarkSynced(path: Path, kind: Kind, id: string, content: string, reconciled: bool)
      modifies this
      ensures View() == Next(old(View()), Op.MarkSynced(path, kind, id, content, reconciled))
      ensures reconciled ==> AcknowledgedFingerprint(View(), path, id) == Some(content)
    {
      var candidate := false;
      var pending, carried: Option<string> := None, None;
      var published: Option<Option<string>> := None;
      if path in paths {
        var current := paths[path];
        candidate := current.candidate == Some(true) && !reconciled && current.candidateFingerprint != Some(content);
        if candidate { pending := Truthy(current.candidateFingerprint); }
        if current.identity == Known(id) {
          carried, published := Truthy(current.diskFingerprint), current.publishedFrom;
        }
      }
      var next := PathState(kind, Known(id), Some(content), Some(candidate), pending, carried, None, published);
      if path in paths && paths[path] == next { return; }
      paths := paths[path := next];
    }

    method MarkPublished(path: Path, kind: Kind, id: string, replaced: Option<string>)
      modifies this
      ensures View() == Next(old(View()), Op.MarkPublished(path, kind, id, replaced))
      ensures AcknowledgedFingerprint(View(), path, id) == Some(id)
    {
      var carried: Option<string> := None;
      if path in paths && paths[path].identity == Known(id) {
        carried := Truthy(paths[path].diskFingerprint);
      }
      paths := paths[path :=
        PathState(kind, Known(id), Some(id), Some(false), None, carried, Some(replaced), Some(replaced))];
    }

    method MarkDisk(path: Path, kind: Kind, id: string, content: string)
      modifies this
      ensures View() == Next(old(View()), Op.MarkDisk(path, kind, id, content))
      ensures old(path in paths && paths[path].identity == Known(id)) ==>
                DiskFingerprint(View(), path, id) == Some(content)
    {
      if path !in paths || paths[path].identity != Known(id) || paths[path].diskFingerprint == Some(content) { return; }
      paths := paths[path := paths[path].(kind := kind, diskFingerprint := Some(content))];
    }

    method Remove(path: Path)
      modifies this
      ensures View() == Next(old(View()), Op.Remove(path))
    {
      paths := paths - {path};
    }

    /** What was acknowledged at the old path is acknowledged at the new one, and nowhere else. */
    method Move(from: Path, to: Path, kind: Kind)
      modifies this
      ensures View() == Next(old(View()), Op.Move(from, to, kind))
      ensures forall id :: AcknowledgedFingerprint(View(), to, id) == AcknowledgedFingerprint(old(View()), from, id)
      ensures from in paths ==> from == to
    {
      var record := PathState(kind, NoIdentity, None, Some(true), None, None, None, None);
      if from in paths { record := paths[from].(kind := kind); }
      paths := paths - {from};
      paths := paths[to := record];
    }

    /** One operation of the log of a session. */
    method Perform(op: Op)
      modifies this
      ensures View() == Next(old(View()), op)
    {
      hide Next;
      match op
      case AdoptIndexEpoch(epoch) => var rewound := AdoptIndexEpoch(epoch);
      case Mark(path, kind) => Mark(path, kind);
      case BeginCandidate(path, kind, identity, fingerprint) => BeginCandidate(path, kind, identity, fingerprint);
      case MigrateLegacyIdentity(path, kind, id) => MigrateLegacyIdentity(path, kind, id);
      case Commit(path, kind, id) => Commit(path, kind, id);
      case MarkSynced(path, kind, id, content, reconciled) => MarkSynced(path, kind, id, content, reconciled);
      case MarkPublished(path, kind, id, replaced) => MarkPublished(path, kind, id, replaced);
      case MarkDisk(path, kind, id, content) => MarkDisk(path, kind, id, content);
      case Remove(path) => Remove(path);
      case Move(from, to, kind) => Move(from, to, kind);
    }
  }

  /**
   Put any sequence of operations through a new object: whatever it then reports for an identity was
   recorded for that identity by one of them.
   */
  method RunRecords(ops: seq<Op>) returns (s: LocalSyncState)
    ensures fresh(s) && s.View() == RunOps(State(map[], None), ops)
    ensures var h := RecordAll(History({}, {}, {}), ops);
            && (forall path, id :: var f := AcknowledgedFingerprint(s.View(), path, id);
                  f.Some? ==> (id, f.value) in h.acknowledged)
            && (forall path, id :: var f := DiskFingerprint(s.View(), path, id); f.Some? ==> (id, f.value) in h.onDisk)
            && (forall path :: path in s.paths && s.paths[path].publishedFrom.Some? ==>
                  && s.paths[path].identity.Known?
                  && (s.paths[path].identity.id, s.paths[path].publishedFrom.value) in h.published)
  {
    hide Next, RecordAll;
    s := new LocalSyncState();
    ghost var start := s.View();
    for i := 0 to |ops|
      invariant fresh(s) && RunOps(s.View(), ops[i..]) == RunOps(start, ops)
    {
      assert ops[i..][1..] == ops[i + 1..];
      s.Perform(ops[i]);
    }
    assert ops[|ops|..] == [];
    forall path, id { ProvenanceIsTrue(start, ops, path, id); }
    forall path | path in s.paths && s.paths[path].publishedFrom.Some?
      ensures s.paths[path].identity.Known?
      ensures var published := RecordAll(History({}, {}, {}), ops).published;
              (s.paths[path].identity.id, s.paths[path].publishedFrom.value) in published
    {
      ProvenanceIsTrue(start, ops, path, "");
    }
  }
}
