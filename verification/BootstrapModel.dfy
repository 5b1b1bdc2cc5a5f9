/**
 The events captured before the initial sync, as values: the log that folds them into one net
 effect per path (src/bootstrapEvents.ts), beside the vault they really happened to.

 A vault file is known by its origin, the path it had when the window opened, and by whether it
 was edited since. A file created where the original was deleted replaces it in place, so it
 takes over that origin.
 */
module BootstrapModel {
  import opened Wrappers

  type Path = string

  /** The vault's handle of a file; only its path matters here. */
  datatype File = File(path: Path, handle: nat)

  datatype CapturedPath = CapturedPath(origin: Option<Path>, file: File, modified: bool)

  datatype Log = Log(current: map<Path, CapturedPath>, movedFrom: map<Path, Path>, deleted: set<Path>)

  const EMPTY := Log(map[], map[], {})

  datatype Event =
    | Create(path: Path, file: File)
    | Modify(path: Path, file: File)
    | Delete(path: Path)
    | Rename(oldPath: Path, newPath: Path, file: File)

  // ----- the log

  function OriginOf(l: Log, path: Path): Option<Path> {
    if path in l.current then l.current[path].origin else Some(path)
  }

  function Capture(l: Log, ev: Event): Log {
    match ev
    case Create(path, file) =>
      var inPlace := path in l.deleted;
      Log(
        l.current[path := CapturedPath(if inPlace then Some(path) else None, file, inPlace)],
        l.movedFrom,
        l.deleted - {path})
    case Modify(path, file) =>
      l.(current := l.current[path := CapturedPath(OriginOf(l, path), file, true)])
    case Delete(path) =>
      var origin := OriginOf(l, path);
      if origin.None? then l.(current := l.current - {path})
      else Log(l.current - {path}, l.movedFrom - {origin.value}, l.deleted + {origin.value})
    case Rename(oldPath, newPath, file) =>
      var origin := OriginOf(l, oldPath);
      var modified := oldPath in l.current && l.current[oldPath].modified;
      var current := (l.current - {oldPath})[newPath := CapturedPath(origin, file, modified)];
      var movedFrom :=
        if origin.None? then l.movedFrom
        else if origin.value == newPath then l.movedFrom - {newPath}
        else l.movedFrom[origin.value := newPath];
      Log(current, movedFrom, l.deleted)
  }

  predicate Removed(l: Log, path: Path) {
    path !in l.current && (path in l.deleted || path in l.movedFrom)
  }

  /** An empty origin is falsy in the source, so it is never reported. */
  function RenamedFrom(l: Log, path: Path): Option<Path> {
    if path in l.current && l.current[path].origin.Some? && l.current[path].origin.value !in {"", path}
    then l.current[path].origin
    else None
  }

  function CaptureAll(l: Log, evs: seq<Event>): Log
    decreases |evs|
  {
    if evs == [] then l else CaptureAll(Capture(l, evs[0]), evs[1..])
  }

  // ----- the vault

  datatype VaultFile = VaultFile(origin: Option<Path>, edited: bool)

  type Vault = map<Path, VaultFile>

  function Opened(opening: set<Path>): Vault {
    map p | p in opening :: VaultFile(Some(p), false)
  }

  /** The file that was at `o` when the window opened is still somewhere in the vault. */
  ghost predicate Survives(v: Vault, o: Path) {
    exists p :: p in v && v[p].origin == Some(o)
  }

  /** Events a file system can report: files appear at vacant paths, and only existing files change. */
  predicate Possible(v: Vault, ev: Event) {
    match ev
    case Create(path, file) => path !in v && file.path == path
    case Modify(path, file) => path in v && file.path == path
    case Delete(path) => path in v
    case Rename(oldPath, newPath, file) => oldPath in v && newPath !in v && file.path == newPath
  }

  ghost function Happen(opening: set<Path>, v: Vault, ev: Event): Vault
    requires Possible(v, ev)
  {
    match ev
    case Create(path, file) =>
      var inPlace := path in opening && !Survives(v, path);
      v[path := VaultFile(if inPlace then Some(path) else None, inPlace)]
    case Modify(path, file) => v[path := v[path].(edited := true)]
    case Delete(path) => v - {path}
    case Rename(oldPath, newPath, file) => (v - {oldPath})[newPath := v[oldPath]]
  }

  ghost predicate AllPossible(opening: set<Path>, v: Vault, evs: seq<Event>)
    decreases |evs|
  {
    evs == [] || (Possible(v, evs[0]) && AllPossible(opening, Happen(opening, v, evs[0]), evs[1..]))
  }

  ghost function HappenAll(opening: set<Path>, v: Vault, evs: seq<Event>): Vault
    requires AllPossible(opening, v, evs)
    decreases |evs|
  {
    if evs == [] then v else HappenAll(opening, Happen(opening, v, evs[0]), evs[1..])
  }

  // ----- the log abstracts the vault

  ghost predicate OriginsDistinct(v: Vault) {
    forall p, q :: p in v && q in v && p != q && v[p].origin.Some? ==> v[p].origin != v[q].origin
  }

  /** Captured paths are where the vault has them; every other file is as it was. */
  ghost predicate EntriesMatch(opening: set<Path>, v: Vault, current: map<Path, CapturedPath>) {
    && (forall p :: p in current ==>
          p in v && v[p] == VaultFile(current[p].origin, current[p].modified) && current[p].file.path == p)
    && (forall p :: p in v && p !in current ==> p in opening && v[p] == VaultFile(Some(p), false))
    && (forall p :: p in v && v[p].origin.Some? ==> v[p].origin.value in opening)
  }

  predicate Moved(v: Vault, p: Path) {
    p in v && v[p].origin.Some? && v[p].origin != Some(p)
  }

  /** `movedFrom` is the inverse of the moved files' origins. */
  ghost predicate MovesMatch(v: Vault, movedFrom: map<Path, Path>) {
    && (forall o :: o in movedFrom ==> Moved(v, movedFrom[o]) && v[movedFrom[o]].origin == Some(o))
    && (forall p :: Moved(v, p) ==> v[p].origin.value in movedFrom && movedFrom[v[p].origin.value] == p)
  }

  ghost predicate DeletedMatch(opening: set<Path>, v: Vault, deleted: set<Path>) {
    forall o :: o in deleted <==> o in opening && !Survives(v, o)
  }

  ghost predicate Abstracts(opening: set<Path>, v: Vault, l: Log) {
    && EntriesMatch(opening, v, l.current)
    && OriginsDistinct(v)
    && MovesMatch(v, l.movedFrom)
    && DeletedMatch(opening, v, l.deleted)
  }

  /** The log's idea of a file's origin is the vault's. */
  lemma OriginIsTrue(opening: set<Path>, v: Vault, l: Log, p: Path)
    requires EntriesMatch(opening, v, l.current) && p in v
    ensures OriginOf(l, p) == v[p].origin
  {
  }

  /** Which originals survive an event. */
  lemma SurvivorsAfter(opening: set<Path>, v: Vault, ev: Event, o: Path)
    requires Possible(v, ev) && OriginsDistinct(v)
    ensures Survives(Happen(opening, v, ev), o) <==>
            if ev.Create? then Survives(v, o) || (o == ev.path && o in opening)
            else if ev.Delete? then Survives(v, o) && v[ev.path].origin != Some(o)
            else Survives(v, o)
  {
    var v' := Happen(opening, v, ev);
    if Survives(v, o) {
      var p :| p in v && v[p].origin == Some(o);
      var q := if ev.Rename? && p == ev.oldPath then ev.newPath else p;
      if !(ev.Delete? && p == ev.path) { assert q in v' && v'[q].origin == Some(o); }
    } else if ev.Create? && o == ev.path && o in opening {
      assert ev.path in v' && v'[ev.path].origin == Some(o);
    }
    if Survives(v', o) {
      var p :| p in v' && v'[p].origin == Some(o);
      var q := if ev.Rename? && p == ev.newPath then ev.oldPath else p;
      if !(ev.Create? && p == ev.path) { assert q in v && v[q].origin == Some(o); }
    }
  }

  lemma DeletedKept(opening: set<Path>, v: Vault, l: Log, ev: Event)
    requires Abstracts(opening, v, l) && Possible(v, ev)
    ensures DeletedMatch(opening, Happen(opening, v, ev), Capture(l, ev).deleted)
  {
    hide MovesMatch, Happen, Survives;
    forall o ensures o in Capture(l, ev).deleted <==> o in opening && !Survives(Happen(opening, v, ev), o) {
      SurvivorsAfter(opening, v, ev, o);
    }
    if ev.Delete? { OriginIsTrue(opening, v, l, ev.path); }
  }

  lemma DeletedIsTrue(opening: set<Path>, v: Vault, l: Log, o: Path)
    requires DeletedMatch(opening, v, l.deleted)
    ensures o in l.deleted <==> o in opening && !Survives(v, o)
  {
  }

  lemma EntriesAfterRename(
    opening: set<Path>, v: Vault, current: map<Path, CapturedPath>, p: Path, to: Path, file: File)
    requires EntriesMatch(opening, v, current) && p in v && to !in v && file.path == to
    ensures var entry := CapturedPath(v[p].origin, file, v[p].edited);
            EntriesMatch(opening, (v - {p})[to := v[p]], (current - {p})[to := entry])
  {
  }

  lemma EntriesKept(opening: set<Path>, v: Vault, l: Log, ev: Event)
    requires Abstracts(opening, v, l) && Possible(v, ev)
    ensures EntriesMatch(opening, Happen(opening, v, ev), Capture(l, ev).current)
  {
    hide MovesMatch, OriginsDistinct, Survives, DeletedMatch;
    if ev.Rename? {
      OriginIsTrue(opening, v, l, ev.oldPath);
      EntriesAfterRename(opening, v, l.current, ev.oldPath, ev.newPath, ev.file);
    } else {
      EntriesKeptInPlace(opening, v, l, ev);
    }
  }

  lemma EntriesKeptInPlace(opening: set<Path>, v: Vault, l: Log, ev: Event)
    requires Abstracts(opening, v, l) && Possible(v, ev) && !ev.Rename?
    ensures EntriesMatch(opening, Happen(opening, v, ev), Capture(l, ev).current)
  {
    hide MovesMatch, OriginsDistinct, Survives, DeletedMatch;
    if ev.Modify? { OriginIsTrue(opening, v, l, ev.path); }
    if ev.Create? { DeletedIsTrue(opening, v, l, ev.path); }
  }

  lemma OriginsStayDistinct(opening: set<Path>, v: Vault, ev: Event)
    requires OriginsDistinct(v) && Possible(v, ev)
    ensures OriginsDistinct(Happen(opening, v, ev))
  {
    var v' := Happen(opening, v, ev);
    if ev.Create? && ev.path in opening && !Survives(v, ev.path) {
      forall p | p in v && v[p].origin == Some(ev.path) ensures false { assert Survives(v, ev.path); }
    }
  }

  lemma MovesAfterDelete(v: Vault, movedFrom: map<Path, Path>, p: Path)
    requires MovesMatch(v, movedFrom) && OriginsDistinct(v) && p in v
    ensures MovesMatch(v - {p}, if v[p].origin.None? then movedFrom else movedFrom - {v[p].origin.value})
  {
    var v', o := v - {p}, v[p].origin;
    var moved' := if o.None? then movedFrom else movedFrom - {o.value};
    forall x | x in moved' ensures Moved(v', moved'[x]) && v'[moved'[x]].origin == Some(x) {
      assert Moved(v, movedFrom[x]) && movedFrom[x] != p;
    }
    forall q | Moved(v', q) ensures v'[q].origin.value in moved' && moved'[v'[q].origin.value] == q {
      assert Moved(v, q) && v[q].origin != o;
    }
  }

  lemma MovesAfterRename(v: Vault, movedFrom: map<Path, Path>, p: Path, q: Path)
    requires MovesMatch(v, movedFrom) && OriginsDistinct(v) && p in v && q !in v
    ensures var o := v[p].origin;
            MovesMatch(
              (v - {p})[q := v[p]],
              if o.None? then movedFrom else if o.value == q then movedFrom - {q} else movedFrom[o.value := q])
  {
    var v', o := (v - {p})[q := v[p]], v[p].origin;
    var moved' := if o.None? then movedFrom else if o.value == q then movedFrom - {q} else movedFrom[o.value := q];
    forall x | x in moved' ensures Moved(v', moved'[x]) && v'[moved'[x]].origin == Some(x) {
      if o == Some(x) {
      } else {
        assert Moved(v, movedFrom[x]) && movedFrom[x] != p && movedFrom[x] != q;
      }
    }
    forall r | Moved(v', r) ensures v'[r].origin.value in moved' && moved'[v'[r].origin.value] == r {
      if r != q {
        assert Moved(v, r) && v[r].origin != o;
      }
    }
  }

  lemma MovesKept(opening: set<Path>, v: Vault, l: Log, ev: Event)
    requires Abstracts(opening, v, l) && Possible(v, ev)
    ensures MovesMatch(Happen(opening, v, ev), Capture(l, ev).movedFrom)
  {
    hide DeletedMatch, EntriesMatch, Survives;
    match ev
    case Create(path, _) =>
      forall p ensures Moved(Happen(opening, v, ev), p) <==> Moved(v, p) {}
    case Modify(path, _) =>
      forall p ensures Moved(Happen(opening, v, ev), p) <==> Moved(v, p) {}
    case Delete(path) =>
      OriginIsTrue(opening, v, l, path);
      MovesAfterDelete(v, l.movedFrom, path);
    case Rename(oldPath, newPath, _) =>
      OriginIsTrue(opening, v, l, oldPath);
      MovesAfterRename(v, l.movedFrom, oldPath, newPath);
  }

  /** Every possible event keeps the log an abstraction of the vault. */
  lemma CaptureKeeps(opening: set<Path>, v: Vault, l: Log, ev: Event)
    requires Abstracts(opening, v, l) && Possible(v, ev)
    ensures Abstracts(opening, Happen(opening, v, ev), Capture(l, ev))
  {
    hide EntriesMatch, OriginsDistinct, MovesMatch, DeletedMatch, Happen, Capture;
    DeletedKept(opening, v, l, ev);
    EntriesKept(opening, v, l, ev);
    OriginsStayDistinct(opening, v, ev);
    MovesKept(opening, v, l, ev);
  }

  lemma OpenedAbstracts(opening: set<Path>)
    ensures Abstracts(opening, Opened(opening), EMPTY)
  {
    forall o | o in opening ensures Survives(Opened(opening), o) {
      assert o in Opened(opening) && Opened(opening)[o].origin == Some(o);
    }
  }

  /** After every possible sequence of events, the log abstracts the vault they led to. */
  lemma {:induction false} LogAbstractsVault(opening: set<Path>, v: Vault, l: Log, evs: seq<Event>)
    requires Abstracts(opening, v, l) && AllPossible(opening, v, evs)
    ensures Abstracts(opening, HappenAll(opening, v, evs), CaptureAll(l, evs))
    decreases |evs|
  {
    hide Abstracts, Happen, Capture;
    if evs != [] {
      CaptureKeeps(opening, v, l, evs[0]);
      LogAbstractsVault(opening, Happen(opening, v, evs[0]), Capture(l, evs[0]), evs[1..]);
    }
  }

  /** `removed` answered about the vault that the log abstracts. */
  lemma RemovedIsExact(opening: set<Path>, v: Vault, l: Log, path: Path)
    requires Abstracts(opening, v, l)
    ensures Removed(l, path) <==> path in opening && path !in v
  {
    if path in l.movedFrom {
      assert Moved(v, l.movedFrom[path]) && v[l.movedFrom[path]].origin.value == path;
    }
    if path in opening && path !in v && Survives(v, path) {
      var p :| p in v && v[p].origin == Some(path);
      assert Moved(v, p);
    }
    if path in v && path !in l.current {
      assert v[path].origin == Some(path);
      assert Survives(v, path);
    }
  }

  /** `renamedFrom` answered about the vault that the log abstracts. */
  lemma RenamedFromIsExact(opening: set<Path>, v: Vault, l: Log, path: Path)
    requires Abstracts(opening, v, l)
    ensures RenamedFrom(l, path).Some? ==> path in v && RenamedFrom(l, path) == v[path].origin
    ensures RenamedFrom(l, path).Some? <==> Moved(v, path) && v[path].origin != Some("")
  {
    hide OriginsDistinct, MovesMatch, DeletedMatch;
  }

  /**
   What the startup pass asks the log, answered about the vault: a path is withheld from restoring
   exactly when a file was there at the start and nothing is there now, and a file is reported as
   renamed exactly from its true original path.
   */
  lemma QueriesAreExact(opening: set<Path>, evs: seq<Event>, path: Path)
    requires AllPossible(opening, Opened(opening), evs)
    ensures var v := HappenAll(opening, Opened(opening), evs);
            var l := CaptureAll(EMPTY, evs);
            && (Removed(l, path) <==> path in opening && path !in v)
            && (RenamedFrom(l, path).Some? ==> path in v && RenamedFrom(l, path) == v[path].origin)
            && (RenamedFrom(l, path).Some? <==> Moved(v, path) && v[path].origin != Some(""))
  {
    hide Abstracts, CaptureAll, HappenAll, Removed, RenamedFrom, Opened, AllPossible;
    OpenedAbstracts(opening);
    LogAbstractsVault(opening, Opened(opening), EMPTY, evs);
    var v, l := HappenAll(opening, Opened(opening), evs), CaptureAll(EMPTY, evs);
    RemovedIsExact(opening, v, l, path);
    RenamedFromIsExact(opening, v, l, path);
  }
}
