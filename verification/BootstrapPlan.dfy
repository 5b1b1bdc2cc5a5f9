/**
 The replay plan of the bootstrap log: deletes, then renames ordered so that each target is
 vacated first, then new files, then in-place edits. Replayed on the opening index it must
 reproduce the final vault.
 */
module BootstrapPlan {
  import opened Wrappers
  import opened BootstrapModel

  datatype Step =
    | DeleteStep(path: Path)
    | RenameStep(from: Path, file: File)
    | CreateStep(file: File)
    | ModifyStep(file: File)

  /** The identity a path carries in the shared index. */
  datatype Identity = Original(path: Path) | New

  type Index = map<Path, Identity>

  /** Publish one step, or `None` if it does not apply: a source is missing or a target is taken. */
  function Publish(index: Index, step: Step): Option<Index> {
    match step
    case DeleteStep(path) => if path in index then Some(index - {path}) else None
    case RenameStep(from, file) =>
      if from in index && file.path !in index then Some((index - {from})[file.path := index[from]]) else None
    case CreateStep(file) => if file.path !in index then Some(index[file.path := New]) else None
    case ModifyStep(file) => if file.path in index then Some(index) else None
  }

  function PublishAll(index: Index, steps: seq<Step>): Option<Index>
    decreases |steps|
  {
    if steps == [] then Some(index)
    else
      var before := PublishAll(index, steps[..|steps| - 1]);
      if before.None? then None else Publish(before.value, steps[|steps| - 1])
  }

  lemma PublishSnoc(index: Index, steps: seq<Step>, step: Step)
    ensures PublishAll(index, steps + [step]) ==
            if PublishAll(index, steps).None? then None else Publish(PublishAll(index, steps).value, step)
  {
    assert (steps + [step])[..|steps|] == steps;
  }

  /** The paths at which some step publishes a file. */
  function Touched(steps: seq<Step>): set<Path> {
    set s | s in steps && !s.DeleteStep? :: s.file.path
  }

  lemma TouchedSnoc(steps: seq<Step>, step: Step)
    ensures Touched(steps + [step]) == Touched(steps) + (if step.DeleteStep? then {} else {step.file.path})
  {
    assert forall s :: s in steps + [step] <==> s in steps || s == step;
  }

  function OpeningIndex(opening: set<Path>): Index {
    map p | p in opening :: Original(p)
  }

  /** The opening index once the files at `gone` are deleted. */
  function Without(opening: set<Path>, gone: set<Path>): Index {
    map p | p in opening - gone :: Original(p)
  }

  lemma DeleteOne(opening: set<Path>, gone: set<Path>, p: Path)
    requires p in opening - gone
    ensures Publish(Without(opening, gone), DeleteStep(p)) == Some(Without(opening, gone + {p}))
  {
    assert Without(opening, gone) - {p} == Without(opening, gone + {p});
  }

  // ----- rename cycles

  function Froms(v: Vault, r: set<Path>): set<Path> {
    set p | p in r && p in v && v[p].origin.Some? :: v[p].origin.value
  }

  /** The files at the paths `r` all moved, and among themselves. */
  ghost predicate Permuted(v: Vault, r: set<Path>) {
    (forall p :: p in r ==> Moved(v, p)) && Froms(v, r) == r
  }

  ghost predicate InCycle(v: Vault, p: Path) {
    exists r :: p in r && Permuted(v, r)
  }

  /**
   The index the vault should end up with. A file keeps the identity it had when the window
   opened, wherever it moved; only files that swapped paths in a cycle keep their path's instead.
   */
  ghost function FinalIndex(v: Vault): Index {
    map p | p in v ::
      if InCycle(v, p) then Original(p)
      else if v[p].origin.Some? then Original(v[p].origin.value)
      else New
  }

  lemma {:induction false} FromsSize(v: Vault, r: set<Path>)
    ensures |Froms(v, r)| <= |r|
    decreases |r|
  {
    if r != {} {
      var p :| p in r;
      FromsSize(v, r - {p});
      var rest := Froms(v, r - {p});
      if p in v && v[p].origin.Some? {
        assert Froms(v, r) == rest + {v[p].origin.value};
      } else {
        assert Froms(v, r) == rest;
      }
    }
  }

  /** When every remaining target is still a source, the remaining renames permute their own paths. */
  lemma StuckIsPermuted(v: Vault, r: set<Path>)
    requires forall p :: p in r ==> Moved(v, p)
    requires r <= Froms(v, r)
    ensures Permuted(v, r)
  {
    FromsSize(v, r);
    var f := Froms(v, r);
    assert |f - r| == |f| - |r|;
    assert f == r + (f - r);
  }

  // ----- the index while renames are pending

  /** No finished rename landed on a path that a pending one still has to vacate. */
  ghost predicate Vacated(v: Vault, r: set<Path>) {
    && (forall p :: p in r ==> Moved(v, p))
    && (forall p :: Moved(v, p) && p !in r ==> p !in Froms(v, r))
    && (forall s :: Permuted(v, s) ==> s <= r)
  }

  /** The index after the deletes and every rename except those to `r`. */
  ghost function IndexDuring(v: Vault, r: set<Path>): Index {
    map p | p in Froms(v, r) + (set q | q in v && v[q].origin.Some? && q !in r) ::
      if p in Froms(v, r) then Original(p) else Original(v[p].origin.value)
  }

  lemma AllPendingVacated(v: Vault)
    requires OriginsDistinct(v)
    ensures Vacated(v, set p | p in v && Moved(v, p))
  {
    var all := set p | p in v && Moved(v, p);
    forall s | Permuted(v, s) ensures s <= all {}
  }

  /** A pending rename whose target is no longer a source applies, and leaves the next stage. */
  lemma RenameReady(v: Vault, r: set<Path>, to: Path, file: File)
    requires OriginsDistinct(v) && Vacated(v, r) && to in r && to !in Froms(v, r) && file.path == to
    ensures Vacated(v, r - {to})
    ensures Publish(IndexDuring(v, r), RenameStep(v[to].origin.value, file)) == Some(IndexDuring(v, r - {to}))
  {
    var from, r' := v[to].origin.value, r - {to};
    assert Moved(v, to);
    assert Froms(v, r') == Froms(v, r) - {from} by {
      forall p | p in r' ensures v[p].origin.value != from {
        assert Moved(v, p);
      }
      assert from in Froms(v, r);
    }
    forall s | Permuted(v, s) ensures s <= r' {
      assert Froms(v, s) <= Froms(v, r);
    }
    assert from in Froms(v, r);
    assert from !in r ==> !Moved(v, from);
    var index := (IndexDuring(v, r) - {from})[to := Original(from)];
    assert from in v && v[from].origin == Some(from) ==> from == to;
    assert index == IndexDuring(v, r');
  }

  /** With nothing ready, the pending paths are exactly the rename cycles. */
  lemma StuckIsCycles(v: Vault, r: set<Path>, p: Path)
    requires Vacated(v, r) && r <= Froms(v, r)
    ensures p in r <==> InCycle(v, p)
  {
    StuckIsPermuted(v, r);
  }

  /** Before any rename, the index holds exactly the surviving originals, each at its opening path. */
  lemma SurvivorsAreIndexed(v: Vault, all: set<Path>, o: Path)
    requires all == set p | p in v && Moved(v, p)
    ensures Survives(v, o) <==> o in IndexDuring(v, all)
    ensures o in IndexDuring(v, all) ==> IndexDuring(v, all)[o] == Original(o)
  {
    if Survives(v, o) {
      var p :| p in v && v[p].origin == Some(o);
      if p != o { assert Moved(v, p) && p in all; }
    }
    if o in Froms(v, all) {
      var p :| p in all && p in v && v[p].origin == Some(o);
      assert Survives(v, o);
    } else if o in IndexDuring(v, all) {
      assert !Moved(v, o) && Survives(v, o);
    }
  }

  /** The opening index without the deleted files is the index with every rename still pending. */
  lemma AfterDeletes(opening: set<Path>, v: Vault, l: Log)
    requires Abstracts(opening, v, l)
    ensures Without(opening, l.deleted) == IndexDuring(v, set p | p in v && Moved(v, p))
  {
    hide MovesMatch, IndexDuring, Survives;
    var all := set p | p in v && Moved(v, p);
    forall o ensures o in Without(opening, l.deleted) <==> o in IndexDuring(v, all) {
      SurvivorsAreIndexed(v, all, o);
      if Survives(v, o) { SurvivorsExisted(opening, v, l, o); }
    }
    forall o | o in Without(opening, l.deleted) ensures IndexDuring(v, all)[o] == Original(o) {
      SurvivorsAreIndexed(v, all, o);
    }
  }

  lemma SurvivorsExisted(opening: set<Path>, v: Vault, l: Log, o: Path)
    requires Abstracts(opening, v, l) && Survives(v, o)
    ensures o in opening
  {
  }

  // ----- new files

  function NewAt(paths: set<Path>): Index {
    map p | p in paths :: New
  }

  /** Once only cycles are pending, a new file's path is vacant. */
  lemma CreateApplies(v: Vault, r: set<Path>, made: set<Path>, file: File)
    requires Permuted(v, r) && file.path in v && v[file.path].origin.None? && file.path !in made
    ensures Publish(IndexDuring(v, r) + NewAt(made), CreateStep(file)) ==
            Some(IndexDuring(v, r) + NewAt(made + {file.path}))
  {
    var p := file.path;
    assert !Moved(v, p);
    assert (IndexDuring(v, r) + NewAt(made))[p := New] == IndexDuring(v, r) + NewAt(made + {p});
  }

  /** With the renames down to their cycles and every new file created, the index is the final one. */
  lemma FinalIndexReached(v: Vault, r: set<Path>, made: set<Path>)
    requires Vacated(v, r) && Permuted(v, r) && made == set p | p in v && v[p].origin.None?
    ensures IndexDuring(v, r) + NewAt(made) == FinalIndex(v)
  {
    hide InCycle, Vacated;
    var index, final := IndexDuring(v, r) + NewAt(made), FinalIndex(v);
    forall p ensures p in index <==> p in v {
      if p in r { assert Moved(v, p); }
    }
    forall p | p in v ensures index[p] == final[p] {
      StuckIsCycles(v, r, p);
      if p in r { assert Moved(v, p); }
    }
  }
}
