/**
 What becomes of acknowledged writes when a document changes epochs (server/src/crdt.rs:665-700,
 1134-1215; server/src/crdt_storage.rs:341-368). A write goes to the current epoch's document in
 memory. A replacement is built from that document, unless its directory is there already: then it is
 loaded as it is. A restart loads the document of the saved epoch, and makes an empty one if a clean-up
 has removed it.
 */
module EpochWrites {
  import opened Wrappers
  import opened Bytes
  import opened Epochs
  import opened EpochRun

  /**
   `log` says to which epoch each acknowledged write went. `docs` are the writes, by their position in
   the log, that each epoch's document holds, and `made` how many had been acknowledged when it was made.
   */
  datatype Books = Books(s: Store, log: seq<nat>, docs: map<nat, set<nat>>, made: map<nat, nat>)

  datatype Step = Epoch(a: Action) | Write

  function Fresh(logical: string, now: nat): Books {
    Books(EpochRun.Created(logical, now), [], map[0 := {}], map[0 := 0])
  }

  function Held(x: Books, e: nat): set<nat> {
    if e in x.docs then x.docs[e] else {}
  }

  /** The replacement is about to be built, not loaded. */
  predicate Builds(x: Books, a: Action) {
    a.CreateReplacement? && x.s.mem.pending.Some? && x.s.mem.pending.value.physical !in x.s.dirs
  }

  /** A restart finds no document for the saved epoch. */
  predicate Misses(x: Books, a: Action) {
    a.Restart? && x.s.saved.current.physical !in x.s.dirs
  }

  function Then(digest: Digest, x: Books, step: Step): Books {
    match step
    case Write =>
      var e := x.s.mem.current.epoch;
      x.(log := x.log + [e], docs := x.docs[e := Held(x, e) + {|x.log|}])
    case Epoch(a) =>
      var s := Next(digest, x.s, a);
      if Builds(x, a) then
        var e := x.s.mem.pending.value.epoch;
        Books(s, x.log, x.docs[e := Held(x, x.s.mem.current.epoch)], x.made[e := |x.log|])
      else if Misses(x, a) then
        var saved := x.s.saved.current;
        Books(s.(dirs := s.dirs + {saved.physical}), x.log, x.docs[saved.epoch := {}], x.made[saved.epoch := |x.log|])
      else x.(s := s)
  }

  function After(digest: Digest, x: Books, steps: seq<Step>): Books
    decreases |steps|
  {
    if steps == [] then x else After(digest, Then(digest, x, steps[0]), steps[1..])
  }

  /** Every acknowledged write is in the document that serves. */
  predicate Complete(x: Books) {
    forall i :: 0 <= i < |x.log| ==> i in Held(x, x.s.mem.current.epoch)
  }

  /** A write is logged under the serving epoch and is in its document; no other step changes the log. */
  lemma WriteIsLogged(digest: Digest, x: Books, a: Action)
    ensures var x', c := Then(digest, x, Write), x.s.mem.current.epoch;
            x'.log == x.log + [c] && Held(x', c) == Held(x, c) + {|x.log|} && x'.s == x.s
    ensures Then(digest, x, Epoch(a)).log == x.log
  {
  }

  // ----- the exact condition

  /** Since the document of epoch `e` was made, every acknowledged write went to it. */
  predicate OnlyTo(x: Books, e: nat) {
    e in x.made && forall i :: x.made[e] <= i < |x.log| ==> x.log[i] == e
  }

  /** An activation that takes effect. */
  predicate Switches(x: Books, a: Action) {
    Activates(x.s, a)
  }

  /**
   A change of the serving document is up to date if that document got every write since it was made;
   an empty one made in place of a missing one, if nothing was ever written.
   */
  predicate UpToDate(x: Books, step: Step) {
    match step
    case Write => true
    case Epoch(a) =>
      && (Switches(x, a) ==> OnlyTo(x, x.s.mem.pending.value.epoch))
      && (a.Restart? ==> if Misses(x, a) then x.log == [] else OnlyTo(x, x.s.saved.current.epoch))
  }

  predicate AllUpToDate(digest: Digest, x: Books, steps: seq<Step>)
    decreases |steps|
  {
    steps == [] || (UpToDate(x, steps[0]) && AllUpToDate(digest, Then(digest, x, steps[0]), steps[1..]))
  }

  /** What the document of epoch `e` holds: everything acknowledged before it was made, and what went to it. */
  function Expected(x: Books, e: nat): set<nat>
    requires e in x.made
  {
    set i | 0 <= i < |x.log| && (i < x.made[e] || x.log[i] == e)
  }

  ghost predicate DocsTrue(digest: Digest, x: Books) {
    forall e: nat :: e <= U64_MAX && HasDir(digest, x.s.mem.logical, e, x.s.dirs) ==>
      e in x.docs && e in x.made && x.made[e] <= |x.log| && x.docs[e] == Expected(x, e)
  }

  /** The document of the saved epoch may be gone; the one that serves is there. */
  ghost predicate Good(digest: Digest, x: Books) {
    Kept(digest, x.s) && x.s.mem.current.physical in x.s.dirs && DocsTrue(digest, x) && Complete(x)
  }

  lemma FreshGood(digest: Digest, logical: string, now: nat)
    requires NotSelfNamed(digest, logical)
    ensures Good(digest, Fresh(logical, now))
  {
    CreatedInv(digest, logical, now);
    forall e: nat | e <= U64_MAX && HasDir(digest, logical, e, {logical}) ensures e == 0 {}
  }

  /** A document holds everything exactly if only it was written to since it was made. */
  lemma HoldsAll(digest: Digest, x: Books, e: nat)
    requires DocsTrue(digest, x) && e <= U64_MAX && HasDir(digest, x.s.mem.logical, e, x.s.dirs)
    ensures (forall i :: 0 <= i < |x.log| ==> i in Held(x, e)) <==> OnlyTo(x, e)
  {
    hide HasDir;
    assert x.docs[e] == Expected(x, e);
    if forall i :: 0 <= i < |x.log| ==> i in Held(x, e) {
      forall i | x.made[e] <= i < |x.log| ensures x.log[i] == e {
        assert i in Held(x, e);
      }
    }
    if OnlyTo(x, e) {
      forall i | 0 <= i < |x.log| ensures i in Held(x, e) {
        assert x.log[i] == e || i < x.made[e];
      }
    }
  }

  lemma WriteGood(digest: Digest, x: Books)
    requires Good(digest, x)
    ensures Good(digest, Then(digest, x, Write))
  {
    hide HasDir, Kept;
    var x', c, n := Then(digest, x, Write), x.s.mem.current.epoch, |x.log|;
    ServingExists(digest, x.s);
    forall e: nat | e <= U64_MAX && HasDir(digest, x.s.mem.logical, e, x.s.dirs)
      ensures e in x'.docs && e in x'.made && x'.made[e] <= |x'.log| && x'.docs[e] == Expected(x', e)
    {
      assert x.docs[e] == Expected(x, e);
      if e == c {
        assert Expected(x', e) == Expected(x, e) + {n};
      } else {
        assert Expected(x', e) == Expected(x, e);
      }
    }
  }

  lemma ServingExists(digest: Digest, s: Store)
    requires Kept(digest, s)
    ensures s.mem.current.epoch <= U64_MAX && s.saved.current.epoch <= U64_MAX
    ensures s.mem.current.physical in s.dirs ==> HasDir(digest, s.mem.logical, s.mem.current.epoch, s.dirs)
    ensures s.saved.current.physical in s.dirs ==> HasDir(digest, s.mem.logical, s.saved.current.epoch, s.dirs)
  {
    CurrentNamed(digest, s.mem);
    CurrentNamed(digest, s.saved);
  }

  /** Building a replacement copies the serving document, which is complete. */
  lemma BuildGood(digest: Digest, x: Books, a: Action)
    requires Good(digest, x) && Builds(x, a)
    ensures Good(digest, Then(digest, x, Epoch(a)))
  {
    hide HasDir, Kept, PhysicalOf;
    var x', e' := Then(digest, x, Epoch(a)), x.s.mem.pending.value.epoch;
    NextAccounts(digest, x.s, a);
    ServingExists(digest, x.s);
    BuiltAlone(digest, x.s);
    forall e: nat | e <= U64_MAX && HasDir(digest, x'.s.mem.logical, e, x'.s.dirs)
      ensures e in x'.docs && e in x'.made && x'.made[e] <= |x'.log| && x'.docs[e] == Expected(x', e)
    {
      if e == e' {
        assert x.docs[x.s.mem.current.epoch] == Expected(x, x.s.mem.current.epoch);
        assert Expected(x', e) == Expected(x, x.s.mem.current.epoch);
      } else {
        assert x.docs[e] == Expected(x, e);
        assert Expected(x', e) == Expected(x, e);
      }
    }
  }

  /** A new replacement directory belongs to the pending epoch and to no other. */
  lemma BuiltAlone(digest: Digest, s: Store)
    requires Kept(digest, s) && s.mem.pending.Some?
    ensures var dirs := s.dirs + {s.mem.pending.value.physical};
            && s.mem.pending.value.epoch == s.mem.current.epoch + 1 <= U64_MAX
            && forall e: nat :: e <= U64_MAX && HasDir(digest, s.mem.logical, e, dirs) ==>
                 e == s.mem.pending.value.epoch || HasDir(digest, s.mem.logical, e, s.dirs)
  {
    hide PhysicalOf;
    PendingNamed(digest, s.mem);
    forall e: nat | e <= U64_MAX && PhysicalOf(digest, s.mem.logical, e) == s.mem.pending.value.physical
      ensures e == s.mem.pending.value.epoch
    {
      PhysicalInjective(digest, s.mem.logical, e, s.mem.pending.value.epoch);
    }
  }

  /** Any other step of the epochs makes no document and may remove some. */
  lemma OtherDirs(digest: Digest, x: Books, a: Action)
    requires Kept(digest, x.s) && !Builds(x, a)
    ensures Next(digest, x.s, a).dirs <= x.s.dirs && Next(digest, x.s, a).mem.logical == x.s.mem.logical
  {
    hide PhysicalId, PhysicalOf;
    if a.Cleanup? { SweepOutcome(x.s.mem.retired, a.now, x.s.dirs, a.stuck); }
  }

  lemma PendingExists(digest: Digest, x: Books, a: Action)
    requires Kept(digest, x.s) && Switches(x, a)
    ensures var e := x.s.mem.pending.value.epoch;
            && e <= U64_MAX && HasDir(digest, x.s.mem.logical, e, x.s.dirs)
            && Next(digest, x.s, a).mem.current.epoch == e
  {
    PendingNamed(digest, x.s.mem);
  }

  /** Which document serves after a step of the epochs. */
  lemma ServingAfter(digest: Digest, x: Books, a: Action)
    ensures var s := Next(digest, x.s, a);
            s.mem.current.epoch ==
            if Switches(x, a) then x.s.mem.pending.value.epoch
            else if a.Restart? then x.s.saved.current.epoch
            else x.s.mem.current.epoch
  {
    hide Sweep, PhysicalId;
  }

  /** A clean-up spares the document that serves. */
  lemma ServingSpared(digest: Digest, x: Books, a: Action)
    requires Kept(digest, x.s) && x.s.mem.current.physical in x.s.dirs && !Misses(x, a)
    ensures var s := Next(digest, x.s, a); s.mem.current.physical in s.dirs
  {
    hide Sweep, PhysicalOf;
    CurrentNamed(digest, x.s.mem);
    if a.Cleanup? { SweepSpares(digest, x.s.mem, a.now, x.s.dirs, a.stuck, x.s.mem.current.epoch); }
  }

  /** An empty document in place of a missing one. */
  lemma EmptyMade(digest: Digest, x: Books, a: Action)
    requires Good(digest, x) && Misses(x, a)
    ensures var x' := Then(digest, x, Epoch(a));
            (Complete(x') <==> x.log == []) && (x.log == [] ==> Good(digest, x'))
  {
    hide PhysicalOf;
    var x', saved := Then(digest, x, Epoch(a)), x.s.saved;
    assert |x.log| > 0 ==> 0 !in Held(x', x'.s.mem.current.epoch);
    if x.log == [] {
      CurrentNamed(digest, saved);
      MadeAgain(digest, saved, x.s.dirs);
      forall e: nat | e <= U64_MAX && HasDir(digest, saved.logical, e, x'.s.dirs)
        ensures e in x'.docs && e in x'.made && x'.made[e] <= |x'.log| && x'.docs[e] == Expected(x', e)
      {
        if e != saved.current.epoch { assert HasDir(digest, x.s.mem.logical, e, x.s.dirs); }
      }
    }
  }

  /** The directory of a manifest's current epoch can come back, and is that of no other epoch. */
  lemma MadeAgain(digest: Digest, m: Manifest, dirs: set<string>)
    requires NotSelfNamed(digest, m.logical) && Accounts(digest, m, dirs)
    ensures Accounts(digest, m, dirs + {m.current.physical})
    ensures forall e: nat :: e <= U64_MAX && HasDir(digest, m.logical, e, dirs + {m.current.physical}) ==>
              e == m.current.epoch || HasDir(digest, m.logical, e, dirs)
  {
    hide PhysicalOf;
    CurrentNamed(digest, m);
    forall e: nat | e <= U64_MAX && PhysicalOf(digest, m.logical, e) == m.current.physical
      ensures e == m.current.epoch
    {
      PhysicalInjective(digest, m.logical, e, m.current.epoch);
    }
  }

  /** One step keeps every acknowledged write served exactly if it is up to date. */
  lemma StepExactly(digest: Digest, x: Books, step: Step)
    requires Good(digest, x)
    ensures Complete(Then(digest, x, step)) <==> UpToDate(x, step)
    ensures UpToDate(x, step) ==> Good(digest, Then(digest, x, step))
  {
    hide HasDir, Kept, Next, Expected;
    match step
    case Write => WriteGood(digest, x);
    case Epoch(a) =>
      var x' := Then(digest, x, step);
      if Builds(x, a) {
        BuildGood(digest, x, a);
      } else if Misses(x, a) {
        EmptyMade(digest, x, a);
      } else {
        NextAccounts(digest, x.s, a);
        ServingSpared(digest, x, a);
        OtherDirs(digest, x, a);
        ServingAfter(digest, x, a);
        FewerDocs(digest, x, x');
        assert Held(x', x'.s.mem.current.epoch) == Held(x, x'.s.mem.current.epoch);
        if Switches(x, a) {
          PendingExists(digest, x, a);
          HoldsAll(digest, x, x.s.mem.pending.value.epoch);
        } else if a.Restart? {
          ServingExists(digest, x.s);
          HoldsAll(digest, x, x.s.saved.current.epoch);
        }
      }
  }

  lemma FewerDocs(digest: Digest, x: Books, x': Books)
    requires DocsTrue(digest, x) && x'.s.dirs <= x.s.dirs && x'.s.mem.logical == x.s.mem.logical
    requires x'.log == x.log && x'.docs == x.docs && x'.made == x.made
    ensures DocsTrue(digest, x')
  {
    hide PhysicalOf;
    forall e: nat | e <= U64_MAX && HasDir(digest, x'.s.mem.logical, e, x'.s.dirs)
      ensures e in x'.docs && e in x'.made && x'.made[e] <= |x'.log| && x'.docs[e] == Expected(x', e)
    {
      assert HasDir(digest, x.s.mem.logical, e, x.s.dirs);
    }
  }

  lemma {:induction false} ServedThroughout(digest: Digest, x: Books, steps: seq<Step>)
    requires Good(digest, x)
    ensures AllUpToDate(digest, x, steps) <==>
            forall k :: 0 <= k <= |steps| ==> Complete(After(digest, x, steps[..k]))
    decreases |steps|
  {
    hide Then, UpToDate, Complete, DocsTrue, Kept;
    if steps == [] {
      assert steps[..0] == [];
    } else {
      var next, rest := Then(digest, x, steps[0]), steps[1..];
      StepExactly(digest, x, steps[0]);
      assert After(digest, x, steps[..0]) == x;
      forall k | 0 <= k <= |rest| ensures After(digest, x, steps[..k + 1]) == After(digest, next, rest[..k]) {
        assert steps[..k + 1][1..] == rest[..k];
      }
      if UpToDate(x, steps[0]) {
        ServedThroughout(digest, next, rest);
        if AllUpToDate(digest, x, steps) {
          forall k | 0 <= k <= |steps| ensures Complete(After(digest, x, steps[..k])) {
            if k > 0 { assert After(digest, x, steps[..(k - 1) + 1]) == After(digest, next, rest[..k - 1]); }
          }
        }
        if forall k :: 0 <= k <= |steps| ==> Complete(After(digest, x, steps[..k])) {
          forall k | 0 <= k <= |rest| ensures Complete(After(digest, next, rest[..k])) {
            assert Complete(After(digest, x, steps[..k + 1]));
          }
        }
      } else {
        assert After(digest, x, steps[..0 + 1]) == After(digest, next, rest[..0]) == next;
      }
    }
  }

  /**
   Over every run of writes, proposals, replacements, activations, clean-ups, failed saves and restarts:
   every acknowledged write is served at every point if and only if no activation and no restart ever
   switches to a document that was made before writes went elsewhere, and no restart finds the document
   of the saved epoch gone after anything was written.
   */
  lemma WritesServedExactly(digest: Digest, logical: string, now: nat, steps: seq<Step>)
    requires NotSelfNamed(digest, logical)
    ensures AllUpToDate(digest, Fresh(logical, now), steps) <==>
            forall k :: 0 <= k <= |steps| ==> Complete(After(digest, Fresh(logical, now), steps[..k]))
  {
    FreshGood(digest, logical, now);
    ServedThroughout(digest, Fresh(logical, now), steps);
  }

  // ----- how writes are lost

  lemma {:induction false} UpToDateRun(digest: Digest, x: Books, steps: seq<Step>)
    requires Good(digest, x) && AllUpToDate(digest, x, steps)
    ensures Good(digest, After(digest, x, steps))
    decreases |steps|
  {
    hide Then, UpToDate, Good;
    if steps != [] {
      StepExactly(digest, x, steps[0]);
      UpToDateRun(digest, Then(digest, x, steps[0]), steps[1..]);
    }
  }

  /**
   A harmful clean-up at any point of a run that lost nothing so far: every write is still served, and
   after a restart none is.
   */
  lemma HarmfulCleanupLosesWrites(
    digest: Digest, logical: string, now: nat, steps: seq<Step>, at: nat, stuck: set<string>, saveOk: bool)
    requires NotSelfNamed(digest, logical) && AllUpToDate(digest, Fresh(logical, now), steps)
    ensures var x := After(digest, Fresh(logical, now), steps);
            var swept := Then(digest, x, Epoch(Cleanup(at, stuck, saveOk)));
            var back := Then(digest, swept, Epoch(Restart));
            x.s.saved.current.physical in x.s.dirs && !Harmless(x.s, at, stuck, saveOk) ==>
              Complete(swept) && back.log == x.log && Held(back, back.s.mem.current.epoch) == {}
  {
    hide AllUpToDate, Kept, Sweep, Harmless, Complete, DocsTrue, AfterCleanup;
    FreshGood(digest, logical, now);
    UpToDateRun(digest, Fresh(logical, now), steps);
    var x := After(digest, Fresh(logical, now), steps);
    StepExactly(digest, x, Epoch(Cleanup(at, stuck, saveOk)));
    if x.s.saved.current.physical in x.s.dirs { CleanupExact(digest, x.s, at, stuck, saveOk); }
  }

  /**
   A replacement left over from an interrupted rollover. It is built, the server restarts before
   activating it, a write is acknowledged, and the rollover is taken up again: the stale replacement is
   loaded and activated, and the write is gone from the serving document.
   */
  lemma StaleReplacementLosesWrites(digest: Digest, logical: string, now: nat, at: nat, window: nat, x: nat, y: nat)
    requires NotSelfNamed(digest, logical) && at <= U64_MAX
    ensures var steps := [
              Epoch(BeginEpoch(at, true)), Epoch(CreateReplacement), Epoch(Restart), Write,
              Epoch(CreateReplacement), Epoch(ActivateEpoch(at, window, x, y, true))];
            var b := After(digest, Fresh(logical, now), steps);
            b.log == [0] && b.s.saved.current.epoch == b.s.mem.current.epoch == 1 && 0 !in Held(b, 1)
  {
    var x0 := Fresh(logical, now);
    var x1 := Then(digest, x0, Epoch(BeginEpoch(at, true)));
    var x2 := Then(digest, x1, Epoch(CreateReplacement));
    var x3 := Then(digest, x2, Epoch(Restart));
    var x4 := Then(digest, x3, Write);
    var x5 := Then(digest, x4, Epoch(CreateReplacement));
    var x6 := Then(digest, x5, Epoch(ActivateEpoch(at, window, x, y, true)));
    AfterSix(digest, x0, Epoch(BeginEpoch(at, true)), Epoch(CreateReplacement), Epoch(Restart), Write,
      Epoch(CreateReplacement), Epoch(ActivateEpoch(at, window, x, y, true)));
    assert x2.docs[1] == {} && x5.docs == x4.docs && x6.docs == x5.docs;
  }

  lemma AfterSix(digest: Digest, x: Books, a: Step, b: Step, c: Step, d: Step, e: Step, f: Step)
    ensures After(digest, x, [a, b, c, d, e, f]) ==
            Then(digest, Then(digest, Then(digest, Then(digest, Then(digest, Then(digest, x, a), b), c), d), e), f)
  {
    hide Then;
    assert [a, b, c, d, e, f][1..] == [b, c, d, e, f] && [b, c, d, e, f][1..] == [c, d, e, f];
    assert [c, d, e, f][1..] == [d, e, f] && [d, e, f][1..] == [e, f] && [e, f][1..] == [f] && [f][1..] == [];
    var x3 := Then(digest, Then(digest, Then(digest, x, a), b), c);
    var x5 := Then(digest, Then(digest, x3, d), e);
    assert After(digest, Then(digest, x5, f), []) == Then(digest, x5, f);
    assert After(digest, x5, [f]) == Then(digest, x5, f);
    assert After(digest, x3, [d, e, f]) == After(digest, x5, [f]);
    assert After(digest, Then(digest, x, a), [b, c, d, e, f]) == After(digest, x3, [d, e, f]);
  }
}
