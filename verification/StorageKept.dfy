/**
 Every update ever acknowledged, over whole runs: exactly when none is missing, neither from the
 history nor from the document, and how one is lost.
 */
module StorageKept {
  import opened Wrappers
  import opened Bytes
  import opened StorageFormat
  import opened StorageRecovery
  import opened StorageStore
  import opened StorageWorld
  import opened StorageLoad
  import opened StorageSteps
  import opened StorageAdrift
  import opened StorageRun
  import opened StorageLate

  // ----- histories

  /** The elements of `a` occur in `b`, in this order. */
  predicate Within<T(==)>(a: seq<T>, b: seq<T>) {
    a == [] || (b != [] && ((a[0] == b[0] && Within(a[1..], b[1..])) || Within(a, b[1..])))
  }

  /**
   Nothing of `before` is missing from `after`; `strictly`, what is new comes behind it. The two differ
   where a record that could not be discarded adrift integrates when the document is loaded.
   */
  predicate Retains<T(==)>(strictly: bool, before: seq<T>, after: seq<T>) {
    if strictly then before <= after else Within(before, after)
  }

  lemma {:induction false} PrefixWithin<T>(a: seq<T>, b: seq<T>)
    requires a <= b
    ensures Within(a, b)
  {
    if a != [] { PrefixWithin(a[1..], b[1..]); }
  }

  lemma {:induction false} WithinTransitive<T>(a: seq<T>, b: seq<T>, c: seq<T>)
    requires Within(a, b) && Within(b, c)
    ensures Within(a, c)
    decreases |b| + |c|
  {
    if a != [] {
      if b[0] == c[0] && Within(b[1..], c[1..]) {
        if a[0] == b[0] && Within(a[1..], b[1..]) {
          WithinTransitive(a[1..], b[1..], c[1..]);
        } else {
          WithinTransitive(a, b[1..], c[1..]);
        }
      } else {
        WithinTransitive(a, b, c[1..]);
      }
    }
  }

  lemma {:induction false} WithinMore<T>(a: seq<T>, b: seq<T>, c: seq<T>)
    requires Within(a, b)
    ensures Within(a + c, b + c)
    decreases |b|
  {
    if b == [] {
      assert a + c == b + c;
      PrefixWithin(a + c, b + c);
    } else {
      assert (b + c)[0] == b[0] && (b + c)[1..] == b[1..] + c;
      if a != [] && a[0] == b[0] && Within(a[1..], b[1..]) {
        assert (a + c)[0] == a[0] && (a + c)[1..] == a[1..] + c;
        WithinMore(a[1..], b[1..], c);
      } else {
        WithinMore(a, b[1..], c);
      }
    }
  }

  lemma Retained<T>(strictly: bool, a: seq<T>, b: seq<T>, c: seq<T>)
    requires (a <= b && Retains(strictly, b, c)) || (Retains(strictly, a, b) && (b <= c || Retains(strictly, b, c)))
    ensures Retains(strictly, a, c)
  {
    hide Within;
    if a <= b { PrefixWithin(a, b); }
    if b <= c { PrefixWithin(b, c); }
    if !strictly { WithinTransitive(a, b, c); }
  }

  // ----- one step

  /** The segment begins with records that integrate one after the other, and everything promised is among them. */
  ghost predicate Recoverable<Doc>(strictly: bool, e: Engine<Doc>, w: World<Doc>) {
    exists more :: AllAcceptable(e, more) && Retains(strictly, Promised(w), w.acked + more)
      && Segment(e, Logged(w.gen, w.acked + more)) <= SegmentFile(w)
      && Fold(e, w.gen.base, Logged(w.gen, w.acked + more)).Some?
  }

  /** The state an action loads from: for a rejection, the one after its discard. */
  function LoadsFrom<Doc>(w: World<Doc>, a: Action<Doc>): World<Doc> {
    if a.Reject? && w.proc.Rejecting? then Discarded(w, a.cut) else w
  }

  /** The action loads the document of a process adrift, and succeeds. */
  predicate EndsDrift<Doc>(e: Engine<Doc>, w: World<Doc>, a: Action<Doc>) {
    w.drift.Adrift? && (a.Reject? || a.Restart? || a.RepairOffline?) && Next(e, w, a).drift.InStep?
  }

  /** A load that ends an episode adrift finds everything promised. */
  ghost predicate KeepsLate<Doc>(strictly: bool, e: Engine<Doc>, w: World<Doc>, a: Action<Doc>) {
    EndsDrift(e, w, a) ==> Recoverable(strictly, e, LoadsFrom(w, a))
  }

  /** Loading adrift, by startup or repair, keeps everything promised exactly if it was recoverable. */
  lemma LoadKeeps<Doc(!new)>(
    strictly: bool, e: Engine<Doc>, w: World<Doc>, tail: Bytes, repair: bool, io: LoadIo, deleted: set<FileName>)
    requires Sound(e) && DriftInv(e, w, tail)
    ensures var w' := if repair then AfterRepair(e, w, io, deleted) else AfterRestart(e, w, io, deleted);
            if w'.drift.InStep? then Retains(strictly, Promised(w), Promised(w')) <==> Recoverable(strictly, e, w)
            else Promised(w') == Promised(w)
  {
    hide LoadExisting, Fold, Record, Records, EncodeSnapshot, Segment, Replay, Retains, Acceptable, DriftTail;
    hide ProcAdrift, Rooted;
    var mode := if repair then Repair else RecoverInterruptedAppend;
    if !io.readOk {
      Unread(e, w, io, deleted);
    } else {
      TailIs(e, w, tail);
      LoadCommitted(e, w.disk, w.gen, w.acked, tail, mode, io.cut, deleted);
      var found, tail' := LoadAny(e, w.disk, w.gen, w.acked, tail, mode, io.cut, deleted);
      var (disk, r) := LoadExisting(e, w.disk, mode, io.cut, deleted);
      LoggedMore(w.gen, w.acked, found);
      if r.Ok? { FoundExactly(strictly, e, w, tail, found, mode); }
    }
  }

  lemma FoundExactly<Doc(!new)>(
    strictly: bool, e: Engine<Doc>, w: World<Doc>, tail: Bytes, found: seq<Bytes>, mode: RecoveryMode)
    requires Sound(e) && w.gen.folded <= |w.acked| && AllAcceptable(e, w.acked + found)
    requires SegmentFile(w) == Segment(e, Logged(w.gen, w.acked)) + tail
    requires var r := Replay(e, SegmentFile(w), w.gen.base, mode);
             r.Ok? && r.value.updates == Logged(w.gen, w.acked + found)
    requires Fold(e, w.gen.base, Logged(w.gen, w.acked + found)).Some? && Records(e, found) <= tail
    ensures Retains(strictly, Promised(w), w.acked + found) <==> Recoverable(strictly, e, w)
  {
    hide Fold, Records, Segment, Replay, Retains, Acceptable, SegmentFile;
    var gen, acked := w.gen, w.acked;
    BothAcceptable(e, acked, found);
    RecoveredExactly(e, gen, acked, found, tail, found, mode);
    forall more | AllAcceptable(e, more) && Retains(strictly, Promised(w), acked + more)
                  && Segment(e, Logged(gen, acked + more)) <= SegmentFile(w)
                  && Fold(e, gen.base, Logged(gen, acked + more)).Some?
      ensures Retains(strictly, Promised(w), acked + found)
    {
      RecoveredExactly(e, gen, acked, more, tail, found, mode);
      Retained(strictly, Promised(w), acked + more, acked + found);
    }
  }

  lemma BothAcceptable<Doc(!new)>(e: Engine<Doc>, us: seq<Bytes>, vs: seq<Bytes>)
    requires AllAcceptable(e, us + vs)
    ensures AllAcceptable(e, us) && AllAcceptable(e, vs)
  {
    hide Acceptable;
    forall i | 0 <= i < |us| ensures Acceptable(e, us[i]) { assert us[i] == (us + vs)[i]; }
    forall i | 0 <= i < |vs| ensures Acceptable(e, vs[i]) { assert vs[i] == (us + vs)[|us| + i]; }
  }

  /** In the strict sense: the segment begins with the records of exactly what was promised, and they integrate. */
  lemma RecoverableStrictly<Doc(!new)>(e: Engine<Doc>, w: World<Doc>, tail: Bytes)
    requires DriftInv(e, w, tail)
    ensures Recoverable(true, e, w) <==>
            && Segment(e, Logged(w.gen, Promised(w))) <= SegmentFile(w)
            && Fold(e, w.gen.base, Logged(w.gen, Promised(w))).Some?
  {
    hide Fold, Record, Records, EncodeSnapshot, Segment, Acceptable, ProcAdrift, Rooted, Logged, Committed;
    var gen, late := w.gen, w.drift.late;
    forall more | Promised(w) <= w.acked + more && Segment(e, Logged(gen, w.acked + more)) <= SegmentFile(w)
                  && Fold(e, gen.base, Logged(gen, w.acked + more)).Some?
      ensures Segment(e, Logged(gen, Promised(w))) <= SegmentFile(w)
      ensures Fold(e, gen.base, Logged(gen, Promised(w))).Some?
    {
      var rest := (w.acked + more)[|Promised(w)|..];
      assert w.acked + more == Promised(w) + rest;
      InHistory(e, w, tail);
      LoggedMore(gen, Promised(w), rest);
      SegmentMore(e, Logged(gen, Promised(w)), rest);
      FoldConcat(e, gen.base, Logged(gen, Promised(w)), rest);
    }
  }

  lemma InHistory<Doc(!new)>(e: Engine<Doc>, w: World<Doc>, tail: Bytes)
    requires DriftInv(e, w, tail)
    ensures w.gen.folded <= |w.acked| <= |Promised(w)|
  {
  }

  /** An append that is reported durable to the clients. */
  predicate Acknowledges<Doc>(e: Engine<Doc>, w: World<Doc>, a: Action<Doc>) {
    && a.Append? && w.proc.Up? && Acceptable(e, a.u)
    && AppendUpdate(e, Store(w.proc.p, w.disk), a.u, a.io).1.Ok? && e.apply(w.proc.doc, a.u).Some?
  }

  function ToldBy<Doc>(e: Engine<Doc>, w: World<Doc>, a: Action<Doc>): seq<Bytes> {
    if Acknowledges(e, w, a) then [a.u] else []
  }

  /** Actions other than loads, adrift: what is promised changes by what is acknowledged. */
  lemma DriftPromises<Doc(!new)>(e: Engine<Doc>, w: World<Doc>, a: Action<Doc>)
    requires w.drift.Adrift? && !a.Restart? && !a.RepairOffline? && !(a.Reject? && w.proc.Rejecting?)
    ensures Promised(Next(e, w, a)) == Promised(w) + ToldBy(e, w, a)
  {
    hide Load, Fold, AppendUpdate, ClearPartialRecord, CompactionWrites, RemoveOldGenerations, MayBecome, Landed;
    hide Acceptable, Record, Records;
    assert Promised(w) + [] == Promised(w);
    if a.Append? { assert w.acked + (w.drift.late + [a.u]) == w.acked + w.drift.late + [a.u]; }
  }

  /** An acknowledged update is put behind everything promised. */
  lemma TellsNext<Doc(!new)>(e: Engine<Doc>, w: World<Doc>, a: Action<Doc>)
    requires Acknowledges(e, w, a)
    ensures Promised(Next(e, w, a)) == Promised(w) + [a.u]
  {
    hide AppendUpdate;
    if w.drift.Adrift? { DriftPromises(e, w, a); }
  }

  /** A step keeps everything promised, in the strict sense or the wider one, exactly if it keeps late updates. */
  lemma PromisedStep<Doc(!new)>(strictly: bool, e: Engine<Doc>, w: World<Doc>, tail: Bytes, a: Action<Doc>)
    requires Sound(e) && Inv(e, w, tail)
    ensures Retains(strictly, Promised(w), Promised(Next(e, w, a))) <==> KeepsLate(strictly, e, w, a)
  {
    hide SteadyInv, DriftInv, AfterRestart, AfterRepair, Recoverable, Within, AfterAppend, AfterCrashInAppend;
    hide AfterCompact, AfterCrashInCompact, AfterCrash, Acceptable, ToldBy, Discarded;
    var w' := Next(e, w, a);
    if Promised(w) <= Promised(w') { PrefixWithin(Promised(w), Promised(w')); }
    if w.drift.InStep? {
      var tail' := StepOutcome(e, w, tail, a);
    } else if a.Reject? && w.proc.Rejecting? {
      RejectKeeps(strictly, e, w, tail, a);
    } else if a.Restart? && w.proc.Down? {
      LoadKeeps(strictly, e, w, tail, false, a.reload, a.deleted);
    } else if a.RepairOffline? && w.proc.Down? {
      LoadKeeps(strictly, e, w, tail, true, a.reload, a.deleted);
    } else if !a.Restart? && !a.RepairOffline? {
      DriftPromises(e, w, a);
    }
  }

  lemma RejectKeeps<Doc(!new)>(strictly: bool, e: Engine<Doc>, w: World<Doc>, tail: Bytes, a: Action<Doc>)
    requires Sound(e) && DriftInv(e, w, tail) && w.drift.Adrift? && w.proc.Rejecting? && a.Reject?
    ensures var w' := Next(e, w, a);
            if w'.drift.InStep? then
              Retains(strictly, Promised(w), Promised(w')) <==> Recoverable(strictly, e, LoadsFrom(w, a))
            else Promised(w') == Promised(w)
  {
    hide DriftInv, AfterRestart, Recoverable, Retains, Discarded;
    var tail' := DriftDiscarded(e, w, tail, a.cut);
    LoadKeeps(strictly, e, Discarded(w, a.cut), tail', false, a.reload, a.deleted);
  }

  // ----- whole runs

  ghost predicate AllKept<Doc>(strictly: bool, e: Engine<Doc>, w: World<Doc>, actions: seq<Action<Doc>>)
    decreases |actions|
  {
    actions == []
    || (KeepsLate(strictly, e, w, actions[0]) && AllKept(strictly, e, Next(e, w, actions[0]), actions[1..]))
  }

  /** Everything the clients were told is durable. */
  function Told<Doc>(e: Engine<Doc>, w: World<Doc>, actions: seq<Action<Doc>>): seq<Bytes>
    decreases |actions|
  {
    if actions == [] then [] else ToldBy(e, w, actions[0]) + Told(e, Next(e, w, actions[0]), actions[1..])
  }

  /** The state after the first `k` actions. */
  function Point<Doc>(e: Engine<Doc>, w: World<Doc>, actions: seq<Action<Doc>>, k: nat): World<Doc>
    requires k <= |actions|
  {
    Run(e, w, actions[..k])
  }

  /** What is promised at any point of the run is promised at every later one. */
  ghost predicate NeverForgets<Doc>(strictly: bool, e: Engine<Doc>, w: World<Doc>, actions: seq<Action<Doc>>) {
    forall j, k :: 0 <= j <= k <= |actions| ==>
      Retains(strictly, Promised(Point(e, w, actions, j)), Promised(Point(e, w, actions, k)))
  }

  lemma PointLater<Doc(!new)>(e: Engine<Doc>, w: World<Doc>, actions: seq<Action<Doc>>, k: nat)
    requires k <= |actions|
    ensures Point(e, w, actions, 0) == w && Point(e, w, actions, |actions|) == Run(e, w, actions)
    ensures k > 0 ==> Point(e, w, actions, k) == Point(e, Next(e, w, actions[0]), actions[1..], k - 1)
  {
    hide Next;
    assert actions[..|actions|] == actions && actions[..0] == [];
    if k > 0 { assert actions[..k][1..] == actions[1..][..k - 1]; }
  }

  lemma SelfRetained<T>(strictly: bool, a: seq<T>)
    ensures Retains(strictly, a, a)
  {
    PrefixWithin(a, a);
  }

  /** The history never forgets exactly if every load adrift keeps what is late. */
  lemma {:induction false} KeptRun<Doc(!new)>(
    strictly: bool, e: Engine<Doc>, w: World<Doc>, tail: Bytes, actions: seq<Action<Doc>>)
    requires Sound(e) && Inv(e, w, tail)
    ensures AllKept(strictly, e, w, actions) <==> NeverForgets(strictly, e, w, actions)
    decreases |actions|
  {
    hide Inv, Next, Run, KeepsLate, Retains, Point, Promised;
    SelfRetained(strictly, Promised(w));
    PointLater(e, w, actions, 0);
    if actions != [] {
      var next, rest := Next(e, w, actions[0]), actions[1..];
      var tail' := StepOutcome(e, w, tail, actions[0]);
      PromisedStep(strictly, e, w, tail, actions[0]);
      KeptRun(strictly, e, next, tail', rest);
      PointLater(e, next, rest, 0);
      forall k | 0 < k <= |actions| ensures Point(e, w, actions, k) == Point(e, next, rest, k - 1) {
        PointLater(e, w, actions, k);
      }
      if AllKept(strictly, e, w, actions) { ForgetsNothingMore(strictly, e, w, actions); }
      if NeverForgets(strictly, e, w, actions) {
        assert Retains(strictly, Promised(Point(e, w, actions, 0)), Promised(Point(e, w, actions, 1)));
        forall j, k | 0 <= j <= k <= |rest|
          ensures Retains(strictly, Promised(Point(e, next, rest, j)), Promised(Point(e, next, rest, k)))
        {
          assert Point(e, w, actions, j + 1) == Point(e, next, rest, j);
          assert Point(e, w, actions, k + 1) == Point(e, next, rest, k);
        }
      }
    }
  }

  lemma ForgetsNothingMore<Doc(!new)>(strictly: bool, e: Engine<Doc>, w: World<Doc>, actions: seq<Action<Doc>>)
    requires actions != []
    requires Retains(strictly, Promised(w), Promised(Next(e, w, actions[0])))
    requires NeverForgets(strictly, e, Next(e, w, actions[0]), actions[1..])
    ensures NeverForgets(strictly, e, w, actions)
  {
    hide Next, Run, Retains, Point, Promised;
    var next, rest := Next(e, w, actions[0]), actions[1..];
    PointLater(e, next, rest, 0);
    forall j, k | 0 <= j <= k <= |actions|
      ensures Retains(strictly, Promised(Point(e, w, actions, j)), Promised(Point(e, w, actions, k)))
    {
      PointLater(e, w, actions, j);
      PointLater(e, w, actions, k);
      if k == 0 {
        SelfRetained(strictly, Promised(w));
      } else if j == 0 {
        assert Retains(strictly, Promised(Point(e, next, rest, 0)), Promised(Point(e, next, rest, k - 1)));
        Retained(strictly, Promised(w), Promised(next), Promised(Point(e, w, actions, k)));
      } else {
        assert Retains(strictly, Promised(Point(e, next, rest, j - 1)), Promised(Point(e, next, rest, k - 1)));
      }
    }
  }

  /** Then everything the clients were told is in the history, in order. */
  lemma {:induction false} ToldRun<Doc(!new)>(
    strictly: bool, e: Engine<Doc>, w: World<Doc>, tail: Bytes, actions: seq<Action<Doc>>)
    requires Sound(e) && Inv(e, w, tail) && AllKept(strictly, e, w, actions)
    ensures Within(Promised(w) + Told(e, w, actions), Promised(Run(e, w, actions)))
    decreases |actions|
  {
    hide Inv, Next, KeepsLate, Within, Promised, Acknowledges;
    if actions == [] {
      assert Promised(w) + [] == Promised(w);
      PrefixWithin(Promised(w), Promised(w));
    } else {
      var a, next, rest := actions[0], Next(e, w, actions[0]), actions[1..];
      var tail' := StepOutcome(e, w, tail, a);
      ToldRun(strictly, e, next, tail', rest);
      var told, later := ToldBy(e, w, a), Told(e, next, rest);
      PromisedStep(strictly, e, w, tail, a);
      if Acknowledges(e, w, a) { TellsNext(e, w, a); }
      assert Promised(w) + [] == Promised(w);
      if Promised(w) + told <= Promised(next) { PrefixWithin(Promised(w) + told, Promised(next)); }
      WithinMore(Promised(w) + told, Promised(next), later);
      WithinTransitive(Promised(w) + told + later, Promised(next) + later, Promised(Run(e, w, actions)));
      assert Promised(w) + (told + later) == Promised(w) + told + later;
    }
  }

  /**
   The exact condition over whole runs, for every update ever acknowledged. The history never forgets one
   and the durable document is the new one with all that came before it applied, at every point of the
   run, if and only if every load that ended an episode adrift found everything promised and every
   compaction adrift made a document durable that equals the new one with everything promised applied.
   Then everything the clients were told is in the history, in order.
   */
  lemma NothingIsMissing<Doc(!new)>(strictly: bool, e: Engine<Doc>, d0: Doc, actions: seq<Action<Doc>>)
    requires Sound(e) && CreateDocument(e, d0).Ok?
    ensures var w := Created(e, d0);
            && (AllKept(strictly, e, w, actions) && AllTrue(e, d0, w, actions) <==>
                  && NeverForgets(strictly, e, w, actions)
                  && forall k :: 0 <= k <= |actions| ==> Whole(e, d0, Run(e, w, actions[..k])))
            && (AllKept(strictly, e, w, actions) ==> Within(Told(e, w, actions), Promised(Run(e, w, actions))))
  {
    hide Inv, AllTrue, AllKept, NeverForgets, Run, Whole, Told, Within;
    var w := Created(e, d0);
    CreatedInv(e, d0);
    WholeExactlyWhenTrue(e, d0, actions);
    KeptRun(strictly, e, w, [], actions);
    if AllKept(strictly, e, w, actions) {
      ToldRun(strictly, e, w, [], actions);
      assert Promised(w) + Told(e, w, actions) == Told(e, w, actions);
    }
  }

  /**
   Between any two points of a run what was acknowledged in step is only extended; so is everything
   promised, if every load adrift in between keeps it. As long as every compaction adrift in between is
   true, a store that was whole is whole: a document in memory and in step is the new one with the
   whole history applied, and that holds everything the clients were ever told, if every load adrift
   kept it.
   */
  lemma RunOutcome<Doc(!new)>(
    strictly: bool, e: Engine<Doc>, d0: Doc, actions: seq<Action<Doc>>, more: seq<Action<Doc>>)
    returns (tail: Bytes)
    requires Sound(e) && CreateDocument(e, d0).Ok?
    ensures var start := Created(e, d0);
            var w, w' := Run(e, start, actions), Run(e, start, actions + more);
            && Inv(e, w', tail)
            && w.acked <= w'.acked
            && (AllKept(strictly, e, w, more) ==> Retains(strictly, Promised(w), Promised(w')))
            && (AllKept(strictly, e, start, actions + more) ==> Within(Told(e, start, actions + more), Promised(w')))
            && (Whole(e, d0, w) && AllTrue(e, d0, w, more) ==>
                  && Whole(e, d0, w')
                  && (w'.proc.Up? && w'.drift.InStep? ==> Fold(e, d0, Promised(w')) == Some(w'.proc.doc)))
  {
    hide Run, Created, AllTrue, AllKept, Whole, SteadyInv, DriftInv, Told, Within, Point;
    var start := Reached(e, d0, actions);
    RunConcat(e, Created(e, d0), actions, more);
    var w := Run(e, Created(e, d0), actions);
    var w' := Run(e, w, more);
    tail := RunKeeps(e, w, start, more);
    NothingIsMissing(strictly, e, d0, actions + more);
    if AllKept(strictly, e, w, more) {
      KeptRun(strictly, e, w, start, more);
      PointLater(e, w, more, 0);
      assert Retains(strictly, Promised(Point(e, w, more, 0)), Promised(Point(e, w, more, |more|)));
    }
    if Whole(e, d0, w) && AllTrue(e, d0, w, more) {
      WholeRun(e, d0, w, start, more);
      assert more[..|more|] == more;
      if w'.proc.Up? && w'.drift.InStep? { WholeDocument(e, d0, w', tail); }
    }
  }

  /**
   Crash safety, of everything the clients were ever told. Take any run that ends in step and whose loads
   adrift kept what was late; crash it and restart it. Unless the restart is refused, and in any case
   after a repair, the process serves a history that holds everything told, in order, and if every
   compaction adrift was true its document is the new one with that history applied.
   */
  lemma EverythingToldIsServed<Doc(!new)>(
    strictly: bool, e: Engine<Doc>, d0: Doc, actions: seq<Action<Doc>>, lost: Option<Bytes>, io: LoadIo,
    deleted: set<FileName>)
    requires Sound(e) && CreateDocument(e, d0).Ok? && AllKept(strictly, e, Created(e, d0), actions)
    ensures var w := Run(e, Created(e, d0), actions);
            var down := Next(e, w, Crash(lost));
            var back := Next(e, down, Restart(io, deleted));
            var repaired := Next(e, Next(e, down, RepairOffline(HEALTHY, deleted)), Restart(HEALTHY, deleted));
            w.drift.InStep? ==>
              var history := History(e, down, Tail(e, down));
              && Within(Told(e, Created(e, d0), actions), history)
              && (!Refused(e, down, Tail(e, down), io) ==> Serves(e, d0, back, history))
              && Serves(e, d0, repaired, history)
              && (AllTrue(e, d0, Created(e, d0), actions) && !Refused(e, down, Tail(e, down), io) ==>
                    Fold(e, d0, history) == Some(back.proc.doc))
              && (AllTrue(e, d0, Created(e, d0), actions) ==> Fold(e, d0, history) == Some(repaired.proc.doc))
  {
    hide Run, Next, Created, Whole, Told, Within, AllKept, AllTrue, Refused, History, Tail, Fold, SteadyInv, DriftInv;
    var start := Created(e, d0);
    var w := Run(e, start, actions);
    if w.drift.InStep? {
      var down := Next(e, w, Crash(lost));
      CrashSafety(e, d0, actions, lost, io, deleted);
      NothingIsMissing(strictly, e, d0, actions);
      HistoryGrows(e, down, Tail(e, down));
      PrefixWithin(w.acked, History(e, down, Tail(e, down)));
      WithinTransitive(Told(e, start, actions), w.acked, History(e, down, Tail(e, down)));
      if AllTrue(e, d0, start, actions) {
        WholeExactlyWhenTrue(e, d0, actions);
        assert actions[..|actions|] == actions;
      }
    }
  }

  // ----- the document that serves

  /** A running document is the new one with everything promised applied, in step or adrift. */
  ghost predicate Complete<Doc>(e: Engine<Doc>, d0: Doc, w: World<Doc>) {
    w.proc.Up? ==> Fold(e, d0, Promised(w)) == Some(w.proc.doc)
  }

  /** A rejection that fails goes on with a document from which nothing promised is missing. */
  ghost predicate HonestStep<Doc>(e: Engine<Doc>, d0: Doc, w: World<Doc>, a: Action<Doc>) {
    a.Reject? && w.proc.Rejecting? && Next(e, w, a).drift.Adrift? ==> Fold(e, d0, Promised(w)) == Some(w.proc.doc)
  }

  ghost predicate AllHonest<Doc>(e: Engine<Doc>, d0: Doc, w: World<Doc>, actions: seq<Action<Doc>>)
    decreases |actions|
  {
    actions == [] || (HonestStep(e, d0, w, actions[0]) && AllHonest(e, d0, Next(e, w, actions[0]), actions[1..]))
  }

  /** How a process comes to be adrift after a step, and what it then holds. */
  lemma RunningAdrift<Doc(!new)>(e: Engine<Doc>, w: World<Doc>, a: Action<Doc>)
    ensures a.Reject? && w.proc.Rejecting? ==> Next(e, w, a).proc.Up?
    ensures var w' := Next(e, w, a);
            w'.proc.Up? && w'.drift.Adrift? ==>
              if a.Reject? && w.proc.Rejecting? then
                w'.proc.doc == w.proc.doc && Promised(w') == Promised(w)
              else
                && w.proc.Up? && w.drift.Adrift? && Promised(w') == Promised(w) + ToldBy(e, w, a)
                && Some(w'.proc.doc) == (if Acknowledges(e, w, a) then e.apply(w.proc.doc, a.u) else Some(w.proc.doc))
  {
    hide Load, Fold, AppendUpdate, ClearPartialRecord, CompactionWrites, RemoveOldGenerations, MayBecome, Landed;
    hide Acceptable, Record, Records, DiscardLastRecord;
    assert Promised(w) + [] == Promised(w);
    if w.drift.Adrift? && a.Append? { DriftPromises(e, w, a); }
    if w.drift.InStep? { assert w.acked + [] == w.acked; }
  }

  /** A step keeps the running document complete exactly if it is honest; the store stays whole in any case. */
  lemma CompleteStep<Doc(!new)>(e: Engine<Doc>, d0: Doc, w: World<Doc>, tail: Bytes, a: Action<Doc>)
    requires Sound(e) && Inv(e, w, tail) && Whole(e, d0, w) && Complete(e, d0, w)
    ensures Complete(e, d0, Next(e, w, a)) <==> HonestStep(e, d0, w, a)
    ensures TrueStep(e, d0, w, a) && Whole(e, d0, Next(e, w, a))
  {
    hide SteadyInv, DriftInv, Next, Fold, Whole, Promised, AppendUpdate, Acceptable;
    var w' := Next(e, w, a);
    if w.proc.Up? && w.drift.Adrift? { DriftDocument(e, w, tail); }
    WholeStep(e, d0, w, tail, a);
    RunningAdrift(e, w, a);
    var tail' := StepOutcome(e, w, tail, a);
    if w'.proc.Up? && w'.drift.InStep? {
      WholeDocument(e, d0, w', tail');
      InStepPromised(w');
    } else if w'.proc.Up? && w.proc.Up? {
      if Acknowledges(e, w, a) { FoldSnoc(e, d0, Promised(w), a.u); }
      assert Promised(w) + [] == Promised(w);
    }
  }

  lemma InStepPromised<Doc(!new)>(w: World<Doc>)
    requires w.drift.InStep?
    ensures Promised(w) == w.acked
  {
  }

  lemma {:induction false} CompleteRun<Doc(!new)>(
    e: Engine<Doc>, d0: Doc, w: World<Doc>, tail: Bytes, actions: seq<Action<Doc>>)
    requires Sound(e) && Inv(e, w, tail) && Whole(e, d0, w) && Complete(e, d0, w)
    ensures AllHonest(e, d0, w, actions) <==>
            forall k :: 0 <= k <= |actions| ==> Complete(e, d0, Point(e, w, actions, k))
    ensures AllHonest(e, d0, w, actions) ==> AllTrue(e, d0, w, actions)
    decreases |actions|
  {
    hide Inv, Next, Run, HonestStep, TrueStep, Whole, Complete, Point;
    PointLater(e, w, actions, 0);
    if actions != [] {
      var next, rest := Next(e, w, actions[0]), actions[1..];
      CompleteStep(e, d0, w, tail, actions[0]);
      var tail' := StepOutcome(e, w, tail, actions[0]);
      forall k | 0 < k <= |actions| ensures Point(e, w, actions, k) == Point(e, next, rest, k - 1) {
        PointLater(e, w, actions, k);
      }
      PointLater(e, next, rest, 0);
      if HonestStep(e, d0, w, actions[0]) {
        CompleteRun(e, d0, next, tail', rest);
        if forall k :: 0 <= k <= |actions| ==> Complete(e, d0, Point(e, w, actions, k)) {
          forall k | 0 <= k <= |rest| ensures Complete(e, d0, Point(e, next, rest, k)) {
            assert Complete(e, d0, Point(e, w, actions, k + 1));
          }
        }
      } else {
        assert Point(e, w, actions, 1) == next;
      }
    }
  }

  /**
   The same for the documents that serve. At every point of a run the running document is the new one
   with everything promised applied if and only if no failed rejection goes on with a document from
   which something is missing; every compaction adrift is true then.
   */
  lemma CompleteExactlyWhenHonest<Doc(!new)>(e: Engine<Doc>, d0: Doc, actions: seq<Action<Doc>>)
    requires Sound(e) && CreateDocument(e, d0).Ok?
    ensures var w := Created(e, d0);
            && (AllHonest(e, d0, w, actions) <==>
                  forall k :: 0 <= k <= |actions| ==> Complete(e, d0, Point(e, w, actions, k)))
            && (AllHonest(e, d0, w, actions) ==> AllTrue(e, d0, w, actions))
  {
    hide Inv, AllTrue, AllHonest, Run, Whole, Point;
    CreatedInv(e, d0);
    NewIsWhole(e, d0);
    CompleteRun(e, d0, Created(e, d0), [], actions);
  }

  // ----- panics that leave the document as it was

  /** An update that cannot be integrated leaves the document in memory untouched. */
  predicate GentleStep<Doc(==)>(e: Engine<Doc>, w: World<Doc>, a: Action<Doc>) {
    a.Append? && w.proc.Up? && e.apply(w.proc.doc, a.u).None? ==> a.half == w.proc.doc
  }

  predicate AllGentle<Doc(==)>(e: Engine<Doc>, w: World<Doc>, actions: seq<Action<Doc>>)
    decreases |actions|
  {
    actions == [] || (GentleStep(e, w, actions[0]) && AllGentle(e, Next(e, w, actions[0]), actions[1..]))
  }

  /** What is in memory is what the clients were promised, also between a panic and the end of its rejection. */
  ghost predicate Unharmed<Doc>(e: Engine<Doc>, d0: Doc, w: World<Doc>) {
    w.proc.Up? || w.proc.Rejecting? ==> Fold(e, d0, Promised(w)) == Some(w.proc.doc)
  }

  /** How a process comes to be rejecting. */
  lemma RejectingAfter<Doc(!new)>(e: Engine<Doc>, w: World<Doc>, a: Action<Doc>)
    ensures var w' := Next(e, w, a);
            w'.proc.Rejecting? && w' != w ==>
              && a.Append? && w.proc.Up? && e.apply(w.proc.doc, a.u).None?
              && w'.proc.doc == a.half && Promised(w') == Promised(w)
  {
    hide Load, Fold, AppendUpdate, ClearPartialRecord, CompactionWrites, RemoveOldGenerations, MayBecome, Landed;
    hide Acceptable, Record, Records, DiscardLastRecord;
  }

  lemma UnharmedStep<Doc(!new)>(e: Engine<Doc>, d0: Doc, w: World<Doc>, tail: Bytes, a: Action<Doc>)
    requires Sound(e) && Inv(e, w, tail) && Whole(e, d0, w) && Unharmed(e, d0, w) && GentleStep(e, w, a)
    ensures HonestStep(e, d0, w, a) && Unharmed(e, d0, Next(e, w, a)) && Whole(e, d0, Next(e, w, a))
  {
    hide Inv, Next, Fold, Promised, Whole;
    CompleteStep(e, d0, w, tail, a);
    RejectingAfter(e, w, a);
  }

  lemma {:induction false} GentleRun<Doc(!new)>(
    e: Engine<Doc>, d0: Doc, w: World<Doc>, tail: Bytes, actions: seq<Action<Doc>>)
    requires Sound(e) && Inv(e, w, tail) && Whole(e, d0, w) && Unharmed(e, d0, w) && AllGentle(e, w, actions)
    ensures AllHonest(e, d0, w, actions)
    decreases |actions|
  {
    hide Inv, Next, Unharmed, Whole, HonestStep, GentleStep;
    if actions != [] {
      UnharmedStep(e, d0, w, tail, actions[0]);
      var tail' := StepOutcome(e, w, tail, actions[0]);
      GentleRun(e, d0, Next(e, w, actions[0]), tail', actions[1..]);
    }
  }

  lemma NewIsUnharmed<Doc(!new)>(e: Engine<Doc>, d0: Doc)
    requires CreateDocument(e, d0).Ok?
    ensures Unharmed(e, d0, Created(e, d0))
  {
  }

  /**
   If every panic leaves the document as it was, the running document is the new one with everything
   promised applied, at every point, in step or adrift. What a later load drops is another matter:
   `UncutRecordLosesLate` is such a run.
   */
  lemma GentlePanicsServeEverything<Doc(!new)>(e: Engine<Doc>, d0: Doc, actions: seq<Action<Doc>>)
    requires Sound(e) && CreateDocument(e, d0).Ok? && AllGentle(e, Created(e, d0), actions)
    ensures var w := Created(e, d0);
            && AllHonest(e, d0, w, actions) && AllTrue(e, d0, w, actions)
            && forall k :: 0 <= k <= |actions| ==> Complete(e, d0, Point(e, w, actions, k))
  {
    hide Inv, AllTrue, AllGentle, AllHonest, Run, Whole, Unharmed, Complete;
    CreatedInv(e, d0);
    NewIsWhole(e, d0);
    NewIsUnharmed(e, d0);
    GentleRun(e, d0, Created(e, d0), [], actions);
    CompleteExactlyWhenHonest(e, d0, actions);
  }

  // ----- discards that are confirmed

  /** Every cut of a rejected record is confirmed; reading the document again may still fail. */
  predicate Confirmed<Doc>(a: Action<Doc>) {
    a.Reject? ==> a.cut == CutDone
  }

  ghost predicate Integrates<Doc>(e: Engine<Doc>, w: World<Doc>) {
    Fold(e, w.gen.base, Logged(w.gen, Promised(w))).Some?
  }

  /** Adrift, the segment begins with everything promised, and a running process knows how long that is. */
  ghost predicate Firm<Doc>(e: Engine<Doc>, w: World<Doc>) {
    w.drift.Adrift? ==>
      && Segment(e, Logged(w.gen, Promised(w))) <= SegmentFile(w)
      && Integrates(e, w)
      && (w.proc.Up? || w.proc.Rejecting? ==> !w.drift.cut && Exact(e, w))
  }

  /** A document from which nothing promised is missing integrates all of it behind the snapshot. */
  lemma UnharmedIntegrates<Doc(!new)>(e: Engine<Doc>, d0: Doc, w: World<Doc>, tail: Bytes)
    requires Inv(e, w, tail) && Whole(e, d0, w) && Fold(e, d0, Promised(w)).Some?
    ensures Integrates(e, w)
  {
    hide Committed, DriftTail, ProcAdrift, ProcInStep, TailOf, Fold;
    var before, us := w.acked[..w.gen.folded][w.rooted..], Logged(w.gen, Promised(w));
    FoldConcat(e, d0, w.acked[..w.rooted], before);
    FoldConcat(e, d0, w.acked[..w.rooted] + before, us);
    assert w.acked[..w.rooted] + before + us == Promised(w);
  }

  /** Then everything promised counts as committed. */
  lemma FirmCommitted<Doc(!new)>(e: Engine<Doc>, w: World<Doc>, tail: Bytes) returns (behind: Bytes)
    requires DriftInv(e, w, tail) && Integrates(e, w)
    requires Segment(e, Logged(w.gen, Promised(w))) <= SegmentFile(w)
    ensures Committed(e, w.disk, w.gen, Promised(w), behind)
    ensures SegmentFile(w) == Segment(e, Logged(w.gen, Promised(w))) + behind
    ensures w.gen.folded <= |w.acked|
  {
    hide Fold, Record, Records, EncodeSnapshot, Segment, Acceptable, ProcAdrift, Rooted;
    var promised := Segment(e, Logged(w.gen, Promised(w)));
    behind := SegmentFile(w)[|promised|..];
    TailIs(e, w, tail);
  }

  /** A load that fails leaves everything promised where it is. */
  lemma FirmLoad<Doc(!new)>(
    e: Engine<Doc>, w: World<Doc>, tail: Bytes, repair: bool, io: LoadIo, deleted: set<FileName>)
    requires Sound(e) && DriftInv(e, w, tail) && Firm(e, w) && w.proc.Down?
    ensures var w' := if repair then AfterRepair(e, w, io, deleted) else AfterRestart(e, w, io, deleted);
            Firm(e, w')
  {
    hide LoadExisting, Fold, Record, Records, EncodeSnapshot, Segment, Acceptable, ProcAdrift, Rooted, DriftTail;
    var mode := if repair then Repair else RecoverInterruptedAppend;
    var behind := FirmCommitted(e, w, tail);
    if !io.readOk {
      Unread(e, w, io, deleted);
    } else {
      var found, behind' := LoadAny(e, w.disk, w.gen, Promised(w), behind, mode, io.cut, deleted);
      var (disk, r) := LoadExisting(e, w.disk, mode, io.cut, deleted);
      if r.Err? { TailIs(e, w.(disk := disk, acked := Promised(w)), behind'); }
    }
  }

  lemma FirmAppend<Doc(!new)>(e: Engine<Doc>, w: World<Doc>, tail: Bytes, a: Action<Doc>)
    requires Sound(e) && DriftInv(e, w, tail) && w.drift.Adrift? && Firm(e, w) && a.Append?
    requires w.proc.Up? && Acceptable(e, a.u) && Integrates(e, Next(e, w, a))
    ensures Firm(e, Next(e, w, a))
  {
    hide DriftInv, AfterAppend, Acceptable, Integrates, Segment, Exact;
    ExactAppend(e, w, tail, a.u, a.io, a.half);
    var tail' := DriftAppend(e, w, tail, a.u, a.io, a.half);
    ExactSegment(e, Next(e, w, a), tail');
  }

  /** Bytes set to a length that is not short of what was promised, and bytes written behind. */
  lemma FirmFile(promised: Bytes, file: Bytes, n: nat, more: Bytes)
    requires promised <= file && |promised| <= n
    ensures promised <= file + more && promised <= SetLen(file, n) + more
    ensures |promised| == n ==> SetLen(file, n) == promised
  {
    assert SetLen(file, n)[..|promised|] == file[..|promised|];
  }

  lemma FirmCrashInAppend<Doc(!new)>(e: Engine<Doc>, w: World<Doc>, tail: Bytes, a: Action<Doc>)
    requires DriftInv(e, w, tail) && w.drift.Adrift? && Firm(e, w) && a.CrashInAppend? && w.proc.Up?
    ensures Firm(e, AfterCrashInAppend(e, w, a.u, a.repair, a.tail))
  {
    hide Fold, Record, Records, EncodeSnapshot, Segment, Acceptable, SetLen, Landed, DriftTail, Rooted, Room;
    FirmFile(Segment(e, Logged(w.gen, Promised(w))), SegmentFile(w), w.proc.p.logBytes, a.tail);
  }

  lemma FirmCompact<Doc(!new)>(
    e: Engine<Doc>, w: World<Doc>, tail: Bytes, steps: nat, deleted: set<FileName>, crash: bool)
    requires DriftInv(e, w, tail) && w.drift.Adrift? && Firm(e, w) && w.proc.Up?
    ensures var w' := if crash then AfterCrashInCompact(e, w, steps, deleted) else AfterCompact(e, w, steps, deleted);
            Firm(e, w')
  {
    hide Fold, Record, Records, EncodeSnapshot, Segment, CompactionWrites, RemoveOldGenerations, DriftTail, Rooted;
    hide Room;
    if steps < 3 {
      var snapshot := e.encode(w.proc.doc);
      TailIs(e, w, tail);
      BeforeSwap(e, w, tail, w.proc.p, snapshot, steps);
      TailIs(e, w.(disk := CompactionWrites(e, Store(w.proc.p, w.disk), snapshot, steps)), tail);
    }
  }

  lemma FirmCrash<Doc(!new)>(e: Engine<Doc>, w: World<Doc>, tail: Bytes, lost: Option<Bytes>)
    requires DriftInv(e, w, tail) && w.drift.Adrift? && Firm(e, w)
    ensures Firm(e, AfterCrash(e, w, lost))
  {
    hide Fold, Record, Records, EncodeSnapshot, Segment, DriftTail, Rooted, ProcAdrift, Committed, Exact;
    assert w.acked + [] == w.acked;
  }

  /** A confirmed discard adrift leaves exactly what was promised in the segment. */
  lemma FirmDiscard<Doc(!new)>(e: Engine<Doc>, w: World<Doc>, tail: Bytes)
    requires DriftInv(e, w, tail) && w.drift.Adrift? && Firm(e, w) && w.proc.Rejecting?
    ensures var on := Discarded(w, CutDone);
            Firm(e, on) && SegmentFile(on) == Segment(e, Logged(w.gen, Promised(w)))
  {
    hide Fold, Record, Records, EncodeSnapshot, Segment, SetLen, DriftTail, Rooted, Room;
    FirmFile(Segment(e, Logged(w.gen, Promised(w))), SegmentFile(w), w.proc.before, []);
    var file := SetLen(SegmentFile(w), w.proc.before);
    assert file + [] == file;
  }

  /** ... so the document can be loaded again if it can be read. */
  lemma FirmReject<Doc(!new)>(e: Engine<Doc>, w: World<Doc>, tail: Bytes, reload: LoadIo, deleted: set<FileName>)
    requires Sound(e) && DriftInv(e, w, tail) && w.drift.Adrift? && Firm(e, w) && w.proc.Rejecting?
    ensures Firm(e, AfterReject(e, w, CutDone, reload, deleted))
  {
    hide LoadExisting, Fold, Record, Records, EncodeSnapshot, Segment, Acceptable, DriftInv, Discarded, Exact;
    var tail' := DriftDiscarded(e, w, tail, CutDone);
    FirmDiscard(e, w, tail);
    var on := Discarded(w, CutDone);
    if !reload.readOk {
      Unread(e, on, reload, deleted);
    } else {
      var behind := FirmCommitted(e, on, tail');
      assert behind == [];
      LoadClean(e, on.disk, on.gen, Promised(on), RecoverInterruptedAppend, reload.cut, deleted);
    }
  }

  lemma FirmFirstReject<Doc(!new)>(e: Engine<Doc>, w: World<Doc>, tail: Bytes, reload: LoadIo, deleted: set<FileName>)
    requires Sound(e) && SteadyInv(e, w, tail) && w.proc.Rejecting?
    ensures Firm(e, AfterReject(e, w, CutDone, reload, deleted))
  {
    hide AfterReject, SteadyInv, DriftTail, Fold, Records, EncodeSnapshot, Rooted, ProcAdrift, Segment, Exact;
    var tail' := RejectOutcome(e, w, tail, CutDone, reload, deleted);
    var w' := AfterReject(e, w, CutDone, reload, deleted);
    if w'.drift.Adrift? {
      SteadyIsInStep(e, w, tail);
      if reload.readOk { SteadyIsInStep(e, w', tail'); }
      ExactAtFirst(e, w');
      TailIs(e, w', tail');
      assert Promised(w') == w'.acked;
    }
  }

  /** Firmness is kept by every step whose discard is confirmed, as long as what is in memory integrates. */
  lemma FirmStep<Doc(!new)>(e: Engine<Doc>, w: World<Doc>, tail: Bytes, a: Action<Doc>)
    requires Sound(e) && Inv(e, w, tail) && Firm(e, w) && Confirmed(a)
    requires var w' := Next(e, w, a); w'.proc.Up? || w'.proc.Rejecting? ==> Integrates(e, w')
    ensures Firm(e, Next(e, w, a))
  {
    hide SteadyInv, DriftInv, AfterAppend, AfterCrashInAppend, AfterReject, AfterCompact, AfterCrashInCompact;
    hide AfterCrash, AfterRestart, AfterRepair, Acceptable, Firm;
    var w' := Next(e, w, a);
    if w.drift.InStep? {
      if a.Reject? && w.proc.Rejecting? {
        FirmFirstReject(e, w, tail, a.reload, a.deleted);
      } else {
        StaysInStep(e, w, a);
      }
    } else {
      match a
      case Append(u, io, half) =>
        if w.proc.Up? && Acceptable(e, u) {
          AppendRuns(e, w, u, io, half);
          FirmAppend(e, w, tail, a);
        }
      case CrashInAppend(u, repair, landed) =>
        if w.proc.Up? && Acceptable(e, u) { FirmCrashInAppend(e, w, tail, a); }
      case Reject(cut, reload, deleted) =>
        if w.proc.Rejecting? { FirmReject(e, w, tail, reload, deleted); }
      case CompactNow(steps, deleted) =>
        if w.proc.Up? { FirmCompact(e, w, tail, steps, deleted, false); }
      case CrashInCompact(steps, deleted) =>
        if w.proc.Up? { FirmCompact(e, w, tail, steps, deleted, true); }
      case Crash(lost) => FirmCrash(e, w, tail, lost);
      case Restart(io, deleted) =>
        if w.proc.Down? { FirmLoad(e, w, tail, false, io, deleted); }
      case RepairOffline(io, deleted) =>
        if w.proc.Down? { FirmLoad(e, w, tail, true, io, deleted); }
    }
  }

  lemma AppendRuns<Doc(!new)>(e: Engine<Doc>, w: World<Doc>, u: Bytes, io: AppendIo, half: Doc)
    requires w.proc.Up?
    ensures var w' := AfterAppend(e, w, u, io, half); w'.proc.Up? || w'.proc.Rejecting?
  {
    hide AppendUpdate;
  }

  /** Only a rejection leads a store in step adrift. */
  lemma StaysInStep<Doc(!new)>(e: Engine<Doc>, w: World<Doc>, a: Action<Doc>)
    requires w.drift.InStep? && !(a.Reject? && w.proc.Rejecting?)
    ensures Next(e, w, a).drift.InStep? && Firm(e, Next(e, w, a))
  {
    hide Load, Fold, AppendUpdate, ClearPartialRecord, CompactionWrites, RemoveOldGenerations, MayBecome, Landed;
    hide Acceptable, Record, Records;
  }

  /** Every load from a firm store keeps everything promised. */
  lemma FirmKeeps<Doc(!new)>(e: Engine<Doc>, w: World<Doc>, tail: Bytes, a: Action<Doc>)
    requires Sound(e) && Inv(e, w, tail) && Firm(e, w) && Confirmed(a)
    ensures KeepsLate(true, e, w, a)
  {
    hide SteadyInv, DriftInv, Next, Recoverable, Discarded, Exact, Segment;
    if EndsDrift(e, w, a) {
      var tail' := tail;
      if a.Reject? && w.proc.Rejecting? {
        tail' := DriftDiscarded(e, w, tail, CutDone);
        FirmDiscard(e, w, tail);
      }
      RecoverableStrictly(e, LoadsFrom(w, a), tail');
    }
  }

  ghost predicate AllConfirmed<Doc(!new)>(actions: seq<Action<Doc>>) {
    forall i :: 0 <= i < |actions| ==> Confirmed(actions[i])
  }

  lemma {:induction false} FirmRun<Doc(!new)>(
    e: Engine<Doc>, d0: Doc, w: World<Doc>, tail: Bytes, actions: seq<Action<Doc>>)
    requires Sound(e) && Inv(e, w, tail) && Whole(e, d0, w) && Unharmed(e, d0, w) && Firm(e, w)
    requires AllGentle(e, w, actions) && AllConfirmed(actions)
    ensures AllKept(true, e, w, actions)
    decreases |actions|
  {
    hide Inv, Next, Whole, HonestStep, GentleStep, Firm, KeepsLate, Confirmed, Integrates, Fold;
    if actions != [] {
      var a, next := actions[0], Next(e, w, actions[0]);
      UnharmedStep(e, d0, w, tail, a);
      var tail' := StepOutcome(e, w, tail, a);
      if next.proc.Up? || next.proc.Rejecting? { UnharmedIntegrates(e, d0, next, tail'); }
      FirmStep(e, w, tail, a);
      FirmKeeps(e, w, tail, a);
      FirmRun(e, d0, next, tail', actions[1..]);
    }
  }

  /**
   Nothing is ever lost if every panic leaves the document as it was and every discard is confirmed,
   whatever else fails: appends, reloads, compactions, truncations, crashes anywhere.
   */
  lemma GentleAndConfirmedLoseNothing<Doc(!new)>(e: Engine<Doc>, d0: Doc, actions: seq<Action<Doc>>)
    requires Sound(e) && CreateDocument(e, d0).Ok?
    requires AllGentle(e, Created(e, d0), actions) && AllConfirmed(actions)
    ensures var w := Created(e, d0);
            && AllKept(true, e, w, actions) && NeverForgets(true, e, w, actions)
            && Within(Told(e, w, actions), Promised(Run(e, w, actions)))
            && forall k :: 0 <= k <= |actions| ==>
                 Complete(e, d0, Point(e, w, actions, k)) && Whole(e, d0, Run(e, w, actions[..k]))
  {
    hide Inv, AllTrue, AllGentle, AllHonest, AllKept, NeverForgets, Run, Whole, Unharmed, Complete, Within, Told;
    CreatedInv(e, d0);
    NewIsWhole(e, d0);
    NewIsUnharmed(e, d0);
    FirmRun(e, d0, Created(e, d0), [], actions);
    GentlePanicsServeEverything(e, d0, actions);
    NothingIsMissing(true, e, d0, actions);
  }

  // ----- how an acknowledged update is lost

  /** An update panics and is not discarded, another is acknowledged behind it; a crash, a repair and a restart. */
  function UncutSteps<Doc>(u: Bytes, v: Bytes, doc: Doc, deleted: set<FileName>): seq<Action<Doc>> {
    var io := AppendIo(CutDone, WriteDone, CutDone);
    [Append(u, io, doc), Reject(CutRefused, HEALTHY, deleted), Append(v, io, doc),
     Crash(None), RepairOffline(HEALTHY, deleted), Restart(HEALTHY, deleted)]
  }

  /**
   A failing family with gentle panics and no compaction, so that every document served is complete and
   the store is whole throughout. From any reachable process in step: an update panics and cannot be
   discarded, another one is acknowledged behind it, and a repair after a crash drops that one.
   */
  lemma UncutRecordLosesLate<Doc(!new)>(
    e: Engine<Doc>, d0: Doc, actions: seq<Action<Doc>>, u: Bytes, v: Bytes, deleted: set<FileName>)
    requires Sound(e) && CreateDocument(e, d0).Ok? && Acceptable(e, u) && Acceptable(e, v)
    ensures var w := Run(e, Created(e, d0), actions);
            w.proc.Up? && w.drift.InStep? && Fits(e, w.proc.p, u) && e.apply(w.proc.doc, u).None? ==>
              var steps := UncutSteps(u, v, w.proc.doc, deleted);
              var on, told := Run(e, w, steps[..2]), Run(e, w, steps[..3]);
              on.proc.Up? && (Fits(e, on.proc.p, v) && e.apply(w.proc.doc, v).Some? ==>
                var end := Run(e, w, steps);
                && Told(e, w, steps) == [v] && Promised(told) == w.acked + [v]
                && AllGentle(e, w, steps) && AllTrue(e, d0, w, steps)
                && Serves(e, d0, end, w.acked) && end.proc.doc == w.proc.doc
                && !AllKept(false, e, w, steps))
  {
    hide Created, Next, SteadyInv, DriftInv, Fold, Acceptable, Run, AllKept, AllGentle, AllTrue, Told, KeepsLate;
    hide AppendUpdate, Whole;
    var w := Run(e, Created(e, d0), actions);
    if w.proc.Up? && w.drift.InStep? && Fits(e, w.proc.p, u) && e.apply(w.proc.doc, u).None? {
      var s := UncutSteps(u, v, w.proc.doc, deleted);
      var tail := Reached(e, d0, actions);
      var tail' := UncutStays(e, w, tail, u, v, deleted);
      SixSteps(e, d0, w, s);
      var on := Next(e, Next(e, w, s[0]), s[1]);
      if Fits(e, on.proc.p, v) && e.apply(w.proc.doc, v).Some? {
        UncutLoses(e, d0, on, tail', v, w.proc.doc, deleted);
        DocumentIsRooted(e, w, tail);
      }
    }
  }

  /** Six steps, and what is said about them. */
  lemma SixSteps<Doc(!new)>(e: Engine<Doc>, d0: Doc, w: World<Doc>, s: seq<Action<Doc>>)
    requires |s| == 6
    ensures var w1 := Next(e, w, s[0]);
            var w2 := Next(e, w1, s[1]);
            var w3 := Next(e, w2, s[2]);
            var w4 := Next(e, w3, s[3]);
            var w5 := Next(e, w4, s[4]);
            && Run(e, w, s[..2]) == w2 && Run(e, w, s[..3]) == w3 && Run(e, w, s) == Next(e, w5, s[5])
            && Told(e, w, s) ==
               ToldBy(e, w, s[0]) + (ToldBy(e, w1, s[1]) + (ToldBy(e, w2, s[2])
               + (ToldBy(e, w3, s[3]) + (ToldBy(e, w4, s[4]) + ToldBy(e, w5, s[5])))))
            && (AllGentle(e, w, s) <==>
                && GentleStep(e, w, s[0]) && GentleStep(e, w1, s[1]) && GentleStep(e, w2, s[2])
                && GentleStep(e, w3, s[3]) && GentleStep(e, w4, s[4]) && GentleStep(e, w5, s[5]))
            && (AllTrue(e, d0, w, s) <==>
                && TrueStep(e, d0, w, s[0]) && TrueStep(e, d0, w1, s[1]) && TrueStep(e, d0, w2, s[2])
                && TrueStep(e, d0, w3, s[3]) && TrueStep(e, d0, w4, s[4]) && TrueStep(e, d0, w5, s[5]))
            && (AllKept(false, e, w, s) ==> KeepsLate(false, e, w4, s[4]))
  {
    hide Next, ToldBy, KeepsLate, TrueStep, GentleStep, Told, AllGentle, AllTrue, AllKept, Run;
    var w1 := Next(e, w, s[0]);
    var w2 := Next(e, w1, s[1]);
    var w3 := Next(e, w2, s[2]);
    var w4 := Next(e, w3, s[3]);
    TwoSteps(e, d0, w, s);
    TwoSteps(e, d0, w2, s[2..]);
    TwoSteps(e, d0, w4, s[4..]);
    assert s[2..][..1] == [s[2]] && s[..2] + s[2..][..1] == s[..3] && s[..2][2..] == [];
    RunConcat(e, w, s[..2], s[2..][..1]);
  }

  lemma TwoSteps<Doc(!new)>(e: Engine<Doc>, d0: Doc, w: World<Doc>, s: seq<Action<Doc>>)
    requires |s| >= 2
    ensures var w1 := Next(e, w, s[0]);
            var w2 := Next(e, w1, s[1]);
            && Run(e, w, s[..1]) == w1 && Run(e, w, s[..2]) == w2 && Run(e, w, s) == Run(e, w2, s[2..])
            && Told(e, w, s) == ToldBy(e, w, s[0]) + (ToldBy(e, w1, s[1]) + Told(e, w2, s[2..]))
            && (AllGentle(e, w, s) <==> GentleStep(e, w, s[0]) && GentleStep(e, w1, s[1]) && AllGentle(e, w2, s[2..]))
            && (AllTrue(e, d0, w, s) <==>
                TrueStep(e, d0, w, s[0]) && TrueStep(e, d0, w1, s[1]) && AllTrue(e, d0, w2, s[2..]))
            && (AllKept(false, e, w, s) ==> KeepsLate(false, e, w, s[0]) && AllKept(false, e, w2, s[2..]))
            && (s[2..] == [] ==>
                  Run(e, w2, s[2..]) == w2 && Told(e, w2, s[2..]) == []
                  && AllGentle(e, w2, s[2..]) && AllTrue(e, d0, w2, s[2..]))
  {
    hide Next, ToldBy, KeepsLate, TrueStep, GentleStep, Run, Told, AllGentle, AllTrue, AllKept;
    OneStep(e, d0, w, s);
    OneStep(e, d0, Next(e, w, s[0]), s[1..]);
    OneStep(e, d0, Next(e, w, s[0]), [s[1]]);
    OneStep(e, d0, w, s[..1]);
    OneStep(e, d0, w, s[..2]);
    assert s[1..][1..] == s[2..] && s[..1][1..] == [] && s[..2][1..] == [s[1]] && [s[1]][1..] == [];
  }

  lemma OneStep<Doc(!new)>(e: Engine<Doc>, d0: Doc, w: World<Doc>, s: seq<Action<Doc>>)
    requires s != []
    ensures var next, rest := Next(e, w, s[0]), s[1..];
            && Run(e, w, s) == Run(e, next, rest) && Told(e, w, s) == ToldBy(e, w, s[0]) + Told(e, next, rest)
            && (AllGentle(e, w, s) <==> GentleStep(e, w, s[0]) && AllGentle(e, next, rest))
            && (AllTrue(e, d0, w, s) <==> TrueStep(e, d0, w, s[0]) && AllTrue(e, d0, next, rest))
            && (AllKept(false, e, w, s) <==> KeepsLate(false, e, w, s[0]) && AllKept(false, e, next, rest))
            && (rest == [] ==>
                  Run(e, next, rest) == next && Told(e, next, rest) == []
                  && AllGentle(e, next, rest) && AllTrue(e, d0, next, rest))
  {
    hide Next, ToldBy, KeepsLate, TrueStep, GentleStep;
  }

  /** The update panics, and discarding it is refused: the process goes on, with the record in the segment. */
  lemma UncutStays<Doc(!new)>(
    e: Engine<Doc>, w: World<Doc>, tail: Bytes, u: Bytes, v: Bytes, deleted: set<FileName>) returns (tail': Bytes)
    requires Sound(e) && SteadyInv(e, w, tail) && w.proc.Up? && Acceptable(e, u)
    requires Fits(e, w.proc.p, u) && e.apply(w.proc.doc, u).None?
    ensures var s := UncutSteps(u, v, w.proc.doc, deleted);
            var w1 := Next(e, w, s[0]);
            var w2 := Next(e, w1, s[1]);
            && !Acknowledges(e, w, s[0])
            && DriftInv(e, w2, tail') && w2.proc.Up? && w2.proc.doc == w.proc.doc
            && w2.drift == Adrift(Some(u), [], false, w.proc.doc, [])
            && w2.acked == w.acked && w2.gen == w.gen && w2.root == w.root && w2.rooted == w.rooted
  {
    hide DriftInv, AfterReject, Record, Records, EncodeSnapshot, Segment, Fold, WriteRecord, Rooted;
    var io := AppendIo(CutDone, WriteDone, CutDone);
    var cleared := ClearOutcome(e, w, tail, CutDone);
    tail' := WriteDoneOutcome(e, w, u, io, w.proc.doc);
    tail' := RejectOutcome(e, AfterAppend(e, w, u, io, w.proc.doc), tail', CutRefused, HEALTHY, deleted);
  }

  /** Behind that record another update is acknowledged; a repair after a crash does not see it. */
  lemma UncutLoses<Doc(!new)>(
    e: Engine<Doc>, d0: Doc, on: World<Doc>, tail: Bytes, v: Bytes, half: Doc, deleted: set<FileName>)
    requires Sound(e) && DriftInv(e, on, tail) && on.proc.Up? && Acceptable(e, v)
    requires on.drift.Adrift? && on.drift.blocker.Some? && on.drift.late == []
    requires Fits(e, on.proc.p, v) && e.apply(on.proc.doc, v).Some?
    ensures var a := Append(v, AppendIo(CutDone, WriteDone, CutDone), half);
            var told := Next(e, on, a);
            var down := Next(e, told, Crash(None));
            var repaired := Next(e, down, RepairOffline(HEALTHY, deleted));
            var end := Next(e, repaired, Restart(HEALTHY, deleted));
            && Acknowledges(e, on, a) && Promised(told) == on.acked + [v]
            && !KeepsLate(false, e, down, RepairOffline(HEALTHY, deleted))
            && Serves(e, d0, end, on.acked) && end.root == on.root && end.rooted == on.rooted
  {
    hide DriftInv, SteadyInv, AfterAppend, AfterCrash, AfterRestart, AfterRepair, Serves, Acceptable, AppendUpdate;
    hide KeepsLate, Within;
    var io := AppendIo(CutDone, WriteDone, CutDone);
    var a := Append(v, io, half);
    UncutAcknowledges(e, on, tail, v, half);
    TellsNext(e, on, a);
    assert on.acked + [] == on.acked;
    var tail' := DriftAppend(e, on, tail, v, io, half);
    var told := Next(e, on, a);
    NothingLost(e, told);
    tail' := DriftCrash(e, told, tail', None);
    var down := Next(e, told, Crash(None));
    BlockedLate(e, down, tail', HEALTHY, deleted);
    PromisedStep(false, e, down, tail', RepairOffline(HEALTHY, deleted));
    tail' := DriftRepair(e, down, tail', HEALTHY, deleted);
    var repaired := Next(e, down, RepairOffline(HEALTHY, deleted));
    if Within(on.acked + [v], on.acked) { WithinLength(on.acked + [v], on.acked); }
    NothingInFlight(e, repaired, tail');
    tail' := RestartOutcome(e, repaired, tail', HEALTHY, deleted);
    UpServes(e, d0, Next(e, repaired, Restart(HEALTHY, deleted)), tail');
  }

  lemma UncutAcknowledges<Doc(!new)>(e: Engine<Doc>, on: World<Doc>, tail: Bytes, v: Bytes, half: Doc)
    requires Sound(e) && DriftInv(e, on, tail) && on.proc.Up? && Acceptable(e, v)
    requires Fits(e, on.proc.p, v) && e.apply(on.proc.doc, v).Some?
    ensures var a := Append(v, AppendIo(CutDone, WriteDone, CutDone), half);
            var told := Next(e, on, a);
            && Acknowledges(e, on, a)
            && told.acked == on.acked && told.gen == on.gen && told.root == on.root && told.rooted == on.rooted
            && on.drift.Adrift? && told.drift.Adrift? && told.drift.blocker == on.drift.blocker
  {
    hide Fold, EncodeSnapshot, Records, Record, DriftTail, Rooted, Room, Segment, AppendUpdate, Acceptable;
    AppendLength(e, Store(on.proc.p, on.disk), v, AppendIo(CutDone, WriteDone, CutDone));
  }

  lemma {:induction false} WithinLength<T>(a: seq<T>, b: seq<T>)
    requires Within(a, b)
    ensures |a| <= |b|
    decreases |b|
  {
    if a != [] {
      if a[0] == b[0] && Within(a[1..], b[1..]) { WithinLength(a[1..], b[1..]); } else { WithinLength(a, b[1..]); }
    }
  }
}
