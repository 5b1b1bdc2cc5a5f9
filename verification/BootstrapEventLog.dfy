/** The bootstrap event log as the plugin runs it (src/bootstrapEvents.ts:32-136). */
module BootstrapEventLog {
  import opened Wrappers
  import opened BootstrapModel
  import opened BootstrapPlan

  datatype Move = Move(from: Path, to: Path, file: File)

  function Sources(pending: seq<Move>): set<Path> {
    set m | m in pending :: m.from
  }

  function Targets(pending: seq<Move>): set<Path> {
    set m | m in pending :: m.to
  }

  /** The pending moves whose target is (or, with `ready` false, is not) free of pending sources, in order. */
  function Select(pending: seq<Move>, vacating: set<Path>, ready: bool): (r: seq<Move>)
    ensures |r| <= |pending|
    ensures forall m :: m in r <==> m in pending && (m.to !in vacating) == ready
  {
    if pending == [] then []
    else
      var rest := Select(pending[1..], vacating, ready);
      if (pending[0].to !in vacating) == ready then [pending[0]] + rest else rest
  }

  /** No two moves share a target. */
  ghost predicate Distinct(pending: seq<Move>) {
    forall i, j :: 0 <= i < j < |pending| ==> pending[i].to != pending[j].to
  }

  lemma {:induction false} SelectDistinct(pending: seq<Move>, vacating: set<Path>, ready: bool)
    requires Distinct(pending)
    ensures Distinct(Select(pending, vacating, ready))
    ensures (exists m :: m in pending && (m.to !in vacating) != ready) ==>
              |Select(pending, vacating, ready)| < |pending|
  {
    if pending != [] {
      SelectDistinct(pending[1..], vacating, ready);
      assert forall m :: m in pending[1..] ==> m.to != pending[0].to;
      assert forall m :: m in pending <==> m == pending[0] || m in pending[1..];
    }
  }

  /** `pending` lists exactly the moves to `r` that the vault made. */
  ghost predicate Lists(v: Vault, pending: seq<Move>, r: set<Path>) {
    && Distinct(pending)
    && (forall m :: m in pending ==>
          m.to in r && Moved(v, m.to) && v[m.to].origin == Some(m.from) && m.file.path == m.to)
    && Targets(pending) == r
  }

  lemma NothingListed(v: Vault)
    ensures Lists(v, [], {})
  {
  }

  lemma ListsSnoc(v: Vault, pending: seq<Move>, r: set<Path>, m: Move)
    requires Lists(v, pending, r) && m.to !in r
    requires Moved(v, m.to) && v[m.to].origin == Some(m.from) && m.file.path == m.to
    ensures Lists(v, pending + [m], r + {m.to})
  {
    forall i | 0 <= i < |pending| ensures pending[i].to != m.to {
      assert pending[i] in pending;
    }
    assert forall x :: x in pending + [m] <==> x in pending || x == m;
    assert m in pending + [m];
    assert Targets(pending + [m]) == Targets(pending) + {m.to};
  }

  /** What stays listed after the ready moves are taken out. */
  lemma ListsWaiting(v: Vault, pending: seq<Move>, r: set<Path>, vacating: set<Path>)
    requires Lists(v, pending, r)
    ensures var waiting := Select(pending, vacating, false);
            Lists(v, waiting, r - Targets(Select(pending, vacating, true)))
  {
    var ready, waiting := Select(pending, vacating, true), Select(pending, vacating, false);
    SelectDistinct(pending, vacating, false);
    forall p | p in Targets(waiting) ensures p in r - Targets(ready) {
      var m :| m in waiting && m.to == p;
    }
    forall p | p in r - Targets(ready) ensures p in Targets(waiting) {
      var m :| m in pending && m.to == p;
      assert m in waiting;
    }
  }

  lemma ListsSources(v: Vault, pending: seq<Move>, r: set<Path>)
    requires Lists(v, pending, r)
    ensures Sources(pending) == Froms(v, r)
  {
    forall o | o in Froms(v, r) ensures o in Sources(pending) {
      var p :| p in r && p in v && v[p].origin == Some(o);
      var m :| m in pending && m.to == p;
    }
    forall o | o in Sources(pending) ensures o in Froms(v, r) {
      var m :| m in pending && m.from == o;
    }
  }

  /** Some order of a set's elements; the plan is right for every order. */
  method Enumerate(s: set<Path>) returns (xs: seq<Path>)
    ensures forall x :: x in xs <==> x in s
    ensures forall i, j :: 0 <= i < j < |xs| ==> xs[i] != xs[j]
  {
    xs := [];
    var rest := s;
    while rest != {}
      invariant rest <= s
      invariant forall x :: x in xs <==> x in s - rest
      invariant forall i, j :: 0 <= i < j < |xs| ==> xs[i] != xs[j]
      decreases |rest|
    {
      var x :| x in rest;
      xs, rest := xs + [x], rest - {x};
    }
  }

  class BootstrapEventLog {
    var current: map<Path, CapturedPath>
    var movedFrom: map<Path, Path>
    var deleted: set<Path>

    function View(): Log
      reads this
    {
      Log(current, movedFrom, deleted)
    }

    constructor ()
      ensures View() == EMPTY
    {
      current, movedFrom, deleted := map[], map[], {};
    }

    method Create(path: Path, file: File)
      modifies this
      ensures View() == Capture(old(View()), Event.Create(path, file))
    {
      var inPlace := path in deleted;
      deleted := deleted - {path};
      current := current[path := CapturedPath(if inPlace then Some(path) else None, file, inPlace)];
    }

    method Modify(path: Path, file: File)
      modifies this
      ensures View() == Capture(old(View()), Event.Modify(path, file))
    {
      if path in current {
        current := current[path := current[path].(modified := true, file := file)];
      } else {
        current := current[path := CapturedPath(Some(path), file, true)];
      }
    }

    method Delete(path: Path)
      modifies this
      ensures View() == Capture(old(View()), Event.Delete(path))
    {
      var origin := OriginOf(View(), path);
      current := current - {path};
      if origin.None? {
        return;
      }
      movedFrom := movedFrom - {origin.value};
      deleted := deleted + {origin.value};
    }

    method Rename(oldPath: Path, newPath: Path, file: File)
      modifies this
      ensures View() == Capture(old(View()), Event.Rename(oldPath, newPath, file))
    {
      var origin := OriginOf(View(), oldPath);
      var modified := oldPath in current && current[oldPath].modified;
      current := current - {oldPath};
      current := current[newPath := CapturedPath(origin, file, modified)];
      if origin.None? {
        return;
      }
      if origin.value == newPath {
        movedFrom := movedFrom - {origin.value};
      } else {
        movedFrom := movedFrom[origin.value := newPath];
      }
    }

    /** The delete steps, applied first. */
    method PlanDeletes(ghost opening: set<Path>, ghost v: Vault) returns (steps: seq<Step>)
      requires Abstracts(opening, v, View())
      ensures PublishAll(OpeningIndex(opening), steps) == Some(IndexDuring(v, set p | p in v && Moved(v, p)))
      ensures forall s :: s in steps ==> s.DeleteStep?
    {
      steps := [];
      var paths := Enumerate(deleted);
      ghost var gone := {};
      assert Without(opening, {}) == OpeningIndex(opening);
      for i := 0 to |paths|
        invariant gone == set x | x in paths[..i]
        invariant PublishAll(OpeningIndex(opening), steps) == Some(Without(opening, gone))
        invariant forall s :: s in steps ==> s.DeleteStep?
      {
        PublishSnoc(OpeningIndex(opening), steps, DeleteStep(paths[i]));
        DeleteOne(opening, gone, paths[i]);
        steps := steps + [DeleteStep(paths[i])];
        gone := gone + {paths[i]};
      }
      assert gone == deleted;
      AfterDeletes(opening, v, View());
    }

    /** The moves to plan, in some order. */
    method PendingMoves(ghost opening: set<Path>, ghost v: Vault) returns (pending: seq<Move>)
      requires Abstracts(opening, v, View())
      ensures Lists(v, pending, set p | p in v && Moved(v, p))
    {
      hide MovesMatch, DeletedMatch, OriginsDistinct, Lists;
      assert Lists(v, [], {}) by { NothingListed(v); }
      pending := [];
      var paths := Enumerate(current.Keys);
      ghost var r := {};
      for i := 0 to |paths|
        invariant Lists(v, pending, r) && r == set p | p in paths[..i] && Moved(v, p)
      {
        assert paths[..i + 1] == paths[..i] + [paths[i]];
        var path := paths[i];
        var entry := current[path];
        if entry.origin.Some? && entry.origin.value != path {
          ListsSnoc(v, pending, r, Move(entry.origin.value, path, entry.file));
          pending, r := pending + [Move(entry.origin.value, path, entry.file)], r + {path};
        }
      }
      assert paths[..|paths|] == paths;
      assert r == set p | p in v && Moved(v, p);
    }

    /**
     The renames, each onto a vacant path. `r` are the paths left when no order frees a target
     first; their files are edited in place instead.
     */
    method PlanRenames(ghost opening: set<Path>, ghost v: Vault, deletes: seq<Step>)
      returns (steps: seq<Step>, inPlace: seq<Step>, ghost r: set<Path>)
      requires Abstracts(opening, v, View())
      requires PublishAll(OpeningIndex(opening), deletes) == Some(IndexDuring(v, set p | p in v && Moved(v, p)))
      requires Touched(deletes) == {}
      ensures Vacated(v, r) && Permuted(v, r)
      ensures PublishAll(OpeningIndex(opening), steps) == Some(IndexDuring(v, r))
      ensures Touched(steps) == (set p | p in v && Moved(v, p)) - r
      ensures Touched(inPlace) == r && forall s :: s in inPlace ==> s.ModifyStep?
    {
      hide EntriesMatch, MovesMatch, DeletedMatch, Vacated, IndexDuring, Touched, PublishAll;
      steps, inPlace := deletes, [];
      ghost var all := set p | p in v && Moved(v, p);
      r := all;
      var pending := PendingMoves(opening, v);
      AllPendingVacated(v);
      assert Touched([]) == {} by { NoneTouched([]); }
      while pending != []
        invariant r <= all && Lists(v, pending, r) && Vacated(v, r)
        invariant PublishAll(OpeningIndex(opening), steps) == Some(IndexDuring(v, r))
        invariant Touched(steps) == all - r
        invariant inPlace == []
        decreases |pending|
      {
        var vacating := Sources(pending);
        ListsSources(v, pending, r);
        var ready := Select(pending, vacating, true);
        if ready == [] {
          NothingReady(pending, vacating);
          inPlace := EditInPlace(pending);
          break;
        }
        ghost var start := r;
        SelectDistinct(pending, vacating, true);
        steps, r := PlanReady(opening, v, steps, ready, r);
        SelectDistinct(pending, vacating, false);
        ListsWaiting(v, pending, start, vacating);
        assert ready[0] in pending;
        pending := Select(pending, vacating, false);
      }
      StuckIsPermuted(v, r);
    }

    /** New files, then files edited where they were. */
    method PlanEdits(ghost opening: set<Path>, ghost v: Vault, before: seq<Step>, ghost r: set<Path>)
      returns (steps: seq<Step>)
      requires Abstracts(opening, v, View()) && Vacated(v, r) && Permuted(v, r)
      requires PublishAll(OpeningIndex(opening), before) == Some(IndexDuring(v, r))
      requires Touched(before) == (set p | p in v && Moved(v, p)) - r
      ensures PublishAll(OpeningIndex(opening), steps) == Some(FinalIndex(v))
      ensures Touched(steps) == (set p | p in v && v[p] != VaultFile(Some(p), false)) - r
    {
      hide MovesMatch, DeletedMatch, Vacated, Touched, PublishAll, Publish, OriginsDistinct;
      hide IndexDuring, FinalIndex, Permuted, NewAt;
      steps := before;
      var paths := Enumerate(current.Keys);
      ghost var seen: set<Path> := {};
      ghost var index := IndexDuring(v, r);
      NothingMade(index, v);
      for i := 0 to |paths|
        invariant seen == set p | p in paths[..i]
        invariant PublishAll(OpeningIndex(opening), steps) == Some(index + NewAt(Made(v, seen)))
        invariant Touched(steps) == Touched(before) + Made(v, seen) + Edited(v, seen)
      {
        var path := paths[i];
        var entry := current[path];
        assert path !in seen && path in v;
        if entry.origin.None? {
          CreateApplies(v, r, Made(v, seen), entry.file);
          PublishSnoc(OpeningIndex(opening), steps, CreateStep(entry.file));
          TouchedSnoc(steps, CreateStep(entry.file));
          steps := steps + [CreateStep(entry.file)];
        } else if entry.origin.value == path && entry.modified {
          ModifyApplies(v, r, Made(v, seen), entry.file);
          PublishSnoc(OpeningIndex(opening), steps, ModifyStep(entry.file));
          TouchedSnoc(steps, ModifyStep(entry.file));
          steps := steps + [ModifyStep(entry.file)];
        }
        SeeOne(v, seen, path);
        seen := seen + {path};
        assert paths[..i + 1] == paths[..i] + [path];
      }
      assert seen == current.Keys;
      EverySeen(opening, v, View(), seen);
      FinalIndexReached(v, r, Made(v, seen));
      TouchedPaths(v, r, seen);
    }

    /**
     The plan. Published on the opening index, step by step and without ever hitting a missing
     source or a taken target, it yields the final index, and it publishes a file at exactly the
     paths whose file is not the untouched original.
     */
    method Plan(ghost opening: set<Path>, ghost v: Vault) returns (steps: seq<Step>)
      requires Abstracts(opening, v, View())
      ensures PublishAll(OpeningIndex(opening), steps) == Some(FinalIndex(v))
      ensures Touched(steps) == set p | p in v && v[p] != VaultFile(Some(p), false)
    {
      hide Abstracts, Vacated, Permuted, IndexDuring, PublishAll, Touched;
      var deletes := PlanDeletes(opening, v);
      assert Touched(deletes) == {} by { NoneTouched(deletes); }
      var renames, inPlace, r := PlanRenames(opening, v, deletes);
      steps := PlanEdits(opening, v, renames, r);
      assert forall p :: p in r ==> p in v && v[p] != VaultFile(Some(p), false) by { CyclesMoved(v, r); }
      ModifiesApply(OpeningIndex(opening), steps, inPlace, FinalIndex(v));
      steps := steps + inPlace;
    }
  }

  lemma NoneTouched(steps: seq<Step>)
    requires forall s :: s in steps ==> s.DeleteStep?
    ensures Touched(steps) == {}
  {
  }

  /** Of the captured paths `seen`: those of new files, and those of files edited where they were. */
  function Made(v: Vault, seen: set<Path>): set<Path> {
    set p | p in seen && p in v && v[p].origin.None?
  }

  function Edited(v: Vault, seen: set<Path>): set<Path> {
    set p | p in seen && p in v && v[p] == VaultFile(Some(p), true)
  }

  lemma NothingMade(index: Index, v: Vault)
    ensures Made(v, {}) == {} && Edited(v, {}) == {} && index + NewAt({}) == index
  {
  }

  lemma SeeOne(v: Vault, seen: set<Path>, p: Path)
    requires p in v
    ensures Made(v, seen + {p}) == if v[p].origin.None? then Made(v, seen) + {p} else Made(v, seen)
    ensures Edited(v, seen + {p}) == if v[p] == VaultFile(Some(p), true) then Edited(v, seen) + {p} else Edited(v, seen)
  {
  }

  /** Files the log does not mention are untouched originals, so nothing is missed. */
  lemma EverySeen(opening: set<Path>, v: Vault, l: Log, seen: set<Path>)
    requires Abstracts(opening, v, l) && seen == l.current.Keys
    ensures Made(v, seen) == set p | p in v && v[p].origin.None?
    ensures Edited(v, seen) == set p | p in v && v[p] == VaultFile(Some(p), true)
  {
    hide MovesMatch, DeletedMatch, OriginsDistinct;
  }

  lemma TouchedPaths(v: Vault, r: set<Path>, seen: set<Path>)
    requires Permuted(v, r)
    requires Made(v, seen) == set p | p in v && v[p].origin.None?
    requires Edited(v, seen) == set p | p in v && v[p] == VaultFile(Some(p), true)
    ensures ((set p | p in v && Moved(v, p)) - r) + Made(v, seen) + Edited(v, seen)
         == (set p | p in v && v[p] != VaultFile(Some(p), false)) - r
  {
    forall p | p in r ensures Moved(v, p) {}
  }

  lemma ModifyApplies(v: Vault, r: set<Path>, made: set<Path>, file: File)
    requires Permuted(v, r) && file.path in v && v[file.path].origin == Some(file.path)
    ensures Publish(IndexDuring(v, r) + NewAt(made), ModifyStep(file)) == Some(IndexDuring(v, r) + NewAt(made))
  {
    assert !Moved(v, file.path);
  }

  lemma CyclesMoved(v: Vault, r: set<Path>)
    requires Permuted(v, r)
    ensures forall p :: p in r ==> p in v && v[p] != VaultFile(Some(p), false)
  {
    forall p | p in r ensures Moved(v, p) {}
  }

  /** Edits in place at indexed paths always apply and leave the identities alone. */
  lemma {:induction false} ModifiesApply(opening: Index, steps: seq<Step>, edits: seq<Step>, index: Index)
    requires PublishAll(opening, steps) == Some(index)
    requires (forall s :: s in edits ==> s.ModifyStep?) && Touched(edits) <= index.Keys
    ensures PublishAll(opening, steps + edits) == Some(index)
    ensures Touched(steps + edits) == Touched(steps) + Touched(edits)
    decreases |edits|
  {
    if edits == [] {
      assert steps + edits == steps;
    } else {
      var n := |edits| - 1;
      var init, last := edits[..n], edits[n];
      assert edits == init + [last] && last in edits;
      TouchedSnoc(init, last);
      ModifiesApply(opening, steps, init, index);
      assert steps + edits == (steps + init) + [last];
      PublishSnoc(opening, steps + init, last);
      TouchedSnoc(steps + init, last);
    }
  }

  lemma NothingReady(pending: seq<Move>, vacating: set<Path>)
    requires Select(pending, vacating, true) == []
    ensures Targets(pending) <= vacating
  {
    forall m | m in pending ensures m.to in vacating {
      assert m !in Select(pending, vacating, true);
    }
  }

  /** The in-place edits of the moves that no order can free. */
  method EditInPlace(pending: seq<Move>) returns (steps: seq<Step>)
    requires forall m :: m in pending ==> m.file.path == m.to
    ensures Touched(steps) == Targets(pending) && forall s :: s in steps ==> s.ModifyStep?
  {
    steps := [];
    for i := 0 to |pending|
      invariant Touched(steps) == Targets(pending[..i]) && forall s :: s in steps ==> s.ModifyStep?
    {
      TouchedSnoc(steps, ModifyStep(pending[i].file));
      steps := steps + [ModifyStep(pending[i].file)];
      TargetsSnoc(pending, i);
    }
    assert pending[..|pending|] == pending;
  }

  lemma TargetsSnoc(pending: seq<Move>, i: nat)
    requires i < |pending|
    ensures Targets(pending[..i + 1]) == Targets(pending[..i]) + {pending[i].to}
  {
    assert pending[..i + 1] == pending[..i] + [pending[i]];
    assert forall m :: m in pending[..i + 1] <==> m in pending[..i] || m == pending[i];
  }

  /** Publish one batch of ready renames. */
  method PlanReady(ghost opening: set<Path>, ghost v: Vault, before: seq<Step>, ready: seq<Move>, ghost r: set<Path>)
    returns (steps: seq<Step>, ghost r': set<Path>)
    requires OriginsDistinct(v) && Vacated(v, r) && Distinct(ready)
    requires PublishAll(OpeningIndex(opening), before) == Some(IndexDuring(v, r))
    requires forall m :: m in ready ==>
               m.to in r && m.to !in Froms(v, r) && v[m.to].origin == Some(m.from) && m.file.path == m.to
    ensures r' == r - Targets(ready) && Vacated(v, r')
    ensures PublishAll(OpeningIndex(opening), steps) == Some(IndexDuring(v, r'))
    ensures Touched(steps) == Touched(before) + Targets(ready)
  {
    hide Vacated, IndexDuring, Touched, PublishAll, Publish, OriginsDistinct;
    steps, r' := before, r;
    for i := 0 to |ready|
      invariant r' == r - Targets(ready[..i]) && Vacated(v, r')
      invariant PublishAll(OpeningIndex(opening), steps) == Some(IndexDuring(v, r'))
      invariant Touched(steps) == Touched(before) + Targets(ready[..i])
    {
      var m := ready[i];
      assert m in ready;
      forall j | 0 <= j < i ensures ready[j].to != m.to {}
      assert m.to in r';
      assert Froms(v, r') <= Froms(v, r);
      RenameReady(v, r', m.to, m.file);
      PublishSnoc(OpeningIndex(opening), steps, RenameStep(m.from, m.file));
      TouchedSnoc(steps, RenameStep(m.from, m.file));
      TargetsSnoc(ready, i);
      steps, r' := steps + [RenameStep(m.from, m.file)], r' - {m.to};
    }
    assert ready[..|ready|] == ready;
  }

  /**
   The whole window: feed any possible sequence of events to a fresh log, then plan. Publishing
   the plan on the opening index yields exactly the index of the vault the events led to.
   */
  method PlanWindow(ghost opening: set<Path>, evs: seq<Event>) returns (steps: seq<Step>)
    requires AllPossible(opening, Opened(opening), evs)
    ensures var v := HappenAll(opening, Opened(opening), evs);
            && PublishAll(OpeningIndex(opening), steps) == Some(FinalIndex(v))
            && Touched(steps) == set p | p in v && v[p] != VaultFile(Some(p), false)
  {
    hide Capture, Happen, PublishAll, FinalIndex;
    var log := new BootstrapEventLog();
    var i := 0;
    while i < |evs|
      invariant i <= |evs|
      invariant CaptureAll(log.View(), evs[i..]) == CaptureAll(EMPTY, evs)
      invariant fresh(log)
    {
      assert evs[i..][1..] == evs[i + 1..];
      match evs[i] {
        case Create(path, file) => log.Create(path, file);
        case Modify(path, file) => log.Modify(path, file);
        case Delete(path) => log.Delete(path);
        case Rename(oldPath, newPath, file) => log.Rename(oldPath, newPath, file);
      }
      i := i + 1;
    }
    OpenedAbstracts(opening);
    LogAbstractsVault(opening, Opened(opening), EMPTY, evs);
    steps := log.Plan(opening, HappenAll(opening, Opened(opening), evs));
  }
}
