/** Durable document epochs (server/src/crdt_epoch.rs): the manifest and its transitions. */
module Epochs {
  import opened Wrappers
  import opened Bytes

  const FORMAT: string := "realtime-crdt-epochs"
  const FORMAT_VERSION: nat := 1

  /** The hexadecimal SHA-256 of a document id. */
  type Digest = string -> string

  datatype EpochRecord = EpochRecord(
    epoch: nat, physical: string, startedAt: nat, baselineState: nat, baselineDeletes: nat)

  datatype PendingEpoch = PendingEpoch(epoch: nat, physical: string, proposedAt: nat)

  datatype RetiredEpoch = RetiredEpoch(epoch: nat, physical: string, retiredAt: nat, deleteAfter: nat)

  datatype Manifest = Manifest(
    format: string, version: nat, logical: string,
    current: EpochRecord, pending: Option<PendingEpoch>, retired: seq<RetiredEpoch>)

  datatype EpochError = EpochOverflow | NoPendingEpoch | Io

  // ----- physical document ids

  function Digit(n: nat): char
    requires n < 10
  {
    "0123456789"[n]
  }

  function Decimal(n: nat): string {
    if n < 10 then [Digit(n)] else Decimal(n / 10) + [Digit(n % 10)]
  }

  function PhysicalId(digest: Digest, logical: string, epoch: nat): string {
    "epoch-" + digest(logical) + "-" + Decimal(epoch)
  }

  /** Epoch zero keeps the legacy id. */
  function PhysicalOf(digest: Digest, logical: string, epoch: nat): string {
    if epoch == 0 then logical else PhysicalId(digest, logical, epoch)
  }

  lemma DigitInjective(m: nat, n: nat)
    requires m < 10 && n < 10 && Digit(m) == Digit(n)
    ensures m == n
  {
  }

  lemma {:induction false} DecimalInjective(m: nat, n: nat)
    requires Decimal(m) == Decimal(n)
    ensures m == n
  {
    var dm, dn := Decimal(m), Decimal(n);
    assert dm[|dm| - 1] == Digit(m % 10) && dn[|dn| - 1] == Digit(n % 10);
    DigitInjective(m % 10, n % 10);
    if m >= 10 && n >= 10 {
      assert dm[..|dm| - 1] == Decimal(m / 10) && dn[..|dn| - 1] == Decimal(n / 10);
      DecimalInjective(m / 10, n / 10);
    }
  }

  /** The document's own id is not the id of one of its later epochs. */
  ghost predicate NotSelfNamed(digest: Digest, logical: string) {
    forall e: nat :: 0 < e <= U64_MAX ==> PhysicalId(digest, logical, e) != logical
  }

  /** Then different epochs live in different directories. */
  lemma PhysicalInjective(digest: Digest, logical: string, m: nat, n: nat)
    requires NotSelfNamed(digest, logical) && m <= U64_MAX && n <= U64_MAX
    requires PhysicalOf(digest, logical, m) == PhysicalOf(digest, logical, n)
    ensures m == n
  {
    if m != 0 && n != 0 {
      var prefix := "epoch-" + digest(logical) + "-";
      assert PhysicalId(digest, logical, m)[|prefix|..] == Decimal(m);
      assert PhysicalId(digest, logical, n)[|prefix|..] == Decimal(n);
      DecimalInjective(m, n);
    }
  }

  // ----- validity

  predicate RetiredValid(digest: Digest, m: Manifest, r: RetiredEpoch) {
    && r.epoch < m.current.epoch
    && r.physical == PhysicalOf(digest, m.logical, r.epoch)
    && r.retiredAt <= r.deleteAfter
  }

  predicate DistinctEpochs(rs: seq<RetiredEpoch>) {
    forall i, j :: 0 <= i < j < |rs| ==> rs[i].epoch != rs[j].epoch
  }

  predicate HeaderValid(digest: Digest, m: Manifest, expected: string) {
    && m.format == FORMAT && m.version == FORMAT_VERSION && m.logical == expected
    && m.current.physical == PhysicalOf(digest, m.logical, m.current.epoch)
    && (m.pending.Some? ==>
          && m.pending.value.epoch == SaturatingAdd(m.current.epoch, 1)
          && m.pending.value.physical == PhysicalId(digest, m.logical, m.pending.value.epoch))
  }

  predicate Valid(digest: Digest, m: Manifest, expected: string) {
    && HeaderValid(digest, m, expected)
    && (forall i :: 0 <= i < |m.retired| ==> RetiredValid(digest, m, m.retired[i]))
    && DistinctEpochs(m.retired)
  }

  /** The check as the server runs it, remembering the epochs it has seen. */
  method Validate(digest: Digest, m: Manifest, expected: string) returns (ok: bool)
    ensures ok == Valid(digest, m, expected)
  {
    if m.format != FORMAT || m.version != FORMAT_VERSION || m.logical != expected { return false; }
    if m.current.epoch == 0 && m.current.physical != m.logical { return false; }
    if m.current.epoch > 0 && m.current.physical != PhysicalId(digest, m.logical, m.current.epoch) { return false; }
    if m.pending.Some? {
      var pending := m.pending.value;
      if pending.epoch != SaturatingAdd(m.current.epoch, 1)
         || pending.physical != PhysicalId(digest, m.logical, pending.epoch)
      {
        return false;
      }
    }
    var seen: set<nat> := {};
    for i := 0 to |m.retired|
      invariant seen == set r | r in m.retired[..i] :: r.epoch
      invariant forall k :: 0 <= k < i ==> RetiredValid(digest, m, m.retired[k])
      invariant DistinctEpochs(m.retired[..i])
    {
      var retired := m.retired[i];
      if retired.epoch in seen {
        var r :| r in m.retired[..i] && r.epoch == retired.epoch;
        return false;
      }
      if !RetiredValid(digest, m, retired) { return false; }
      assert m.retired[..i + 1] == m.retired[..i] + [retired];
      forall k | 0 <= k < i ensures m.retired[k].epoch != retired.epoch {
        assert m.retired[k] in m.retired[..i];
      }
      seen := seen + {retired.epoch};
    }
    assert m.retired[..|m.retired|] == m.retired;
    ok := true;
  }

  /**
   What the check refuses: another format, version or document; a current, pending or retired directory
   that is not the one of its epoch; a pending epoch that is not the next; a retired epoch that is not an
   earlier one, is due before it was retired, or is listed twice; and nothing else.
   */
  lemma RefusedExactly(digest: Digest, m: Manifest, expected: string)
    ensures !Valid(digest, m, expected) <==>
            || m.format != "realtime-crdt-epochs" || m.version != 1 || m.logical != expected
            || m.current.physical != PhysicalOf(digest, expected, m.current.epoch)
            || (m.pending.Some? &&
                (m.pending.value.physical != PhysicalId(digest, expected, m.pending.value.epoch)
                 || m.pending.value.epoch != SaturatingAdd(m.current.epoch, 1)))
            || (exists r :: r in m.retired
                            && (r.epoch >= m.current.epoch || r.deleteAfter < r.retiredAt
                                || r.physical != PhysicalOf(digest, expected, r.epoch)))
            || (exists i, j :: 0 <= i < j < |m.retired| && m.retired[i].epoch == m.retired[j].epoch)
  {
    hide PhysicalOf, PhysicalId;
    forall i | 0 <= i < |m.retired| && !RetiredValid(digest, m, m.retired[i]) ensures m.retired[i] in m.retired {}
  }

  // ----- transitions

  function Initial(logical: string, now: nat): Manifest {
    Manifest(FORMAT, FORMAT_VERSION, logical, EpochRecord(0, logical, now, 0, 0), None, [])
  }

  function Begin(digest: Digest, m: Manifest, now: nat): Result<Manifest, EpochError> {
    if m.pending.Some? then Ok(m)
    else if m.current.epoch >= U64_MAX then Err(EpochOverflow)
    else
      var epoch := m.current.epoch + 1;
      Ok(m.(pending := Some(PendingEpoch(epoch, PhysicalId(digest, m.logical, epoch), now))))
  }

  function Activate(m: Manifest, now: nat, window: nat, stateBytes: nat, deleteBytes: nat)
    : Result<Manifest, EpochError>
  {
    if m.pending.None? then Err(NoPendingEpoch)
    else
      var p := m.pending.value;
      Ok(m.(
        current := EpochRecord(p.epoch, p.physical, now, stateBytes, deleteBytes),
        pending := None,
        retired := m.retired + [RetiredEpoch(m.current.epoch, m.current.physical, now, SaturatingAdd(now, window))]))
  }

  /** What a sweep of the retired epochs leaves: the records kept, the directories left, whether it got through. */
  datatype Swept = Swept(retained: seq<RetiredEpoch>, dirs: set<string>, ok: bool)

  /** Remove the directories that are past their date; stop at the first that exists and cannot be removed. */
  function Sweep(rs: seq<RetiredEpoch>, now: nat, dirs: set<string>, stuck: set<string>): Swept {
    if rs == [] then Swept([], dirs, true)
    else if rs[0].deleteAfter > now then
      var rest := Sweep(rs[1..], now, dirs, stuck);
      rest.(retained := [rs[0]] + rest.retained)
    else if rs[0].physical in dirs && rs[0].physical in stuck then Swept(rs, dirs, false)
    else Sweep(rs[1..], now, dirs - {rs[0].physical}, stuck)
  }

  // ----- invariants

  /** Valid, within u64, and with the retired epochs in order. */
  predicate Ordered(digest: Digest, m: Manifest) {
    && Valid(digest, m, m.logical)
    && m.current.epoch <= U64_MAX
    && (m.pending.Some? ==> m.pending.value.epoch == m.current.epoch + 1 <= U64_MAX)
    && Increasing(m.retired)
  }

  /** A new document is in epoch zero, which lives under the document's own id; nothing is proposed or retired. */
  lemma InitialOrdered(digest: Digest, logical: string, now: nat)
    ensures var m := Initial(logical, now);
            && Ordered(digest, m) && m.logical == m.current.physical == logical
            && m.current.epoch == 0 && m.current.startedAt == now
            && m.current.baselineState == 0 && m.current.baselineDeletes == 0
            && m.pending == None && m.retired == []
  {
  }

  lemma BeginOrdered(digest: Digest, m: Manifest, now: nat)
    requires Ordered(digest, m)
    ensures var r := Begin(digest, m, now);
            && (r.Ok? ==>
                  Ordered(digest, r.value) && r.value.pending.Some?
                  && r.value.current == m.current && r.value.retired == m.retired
                  && (if m.pending.Some? then r.value == m else r.value.pending.value.proposedAt == now))
            && (r.Err? <==> m.pending.None? && m.current.epoch == U64_MAX)
  {
  }

  lemma ActivateOrdered(digest: Digest, m: Manifest, now: nat, window: nat, a: nat, b: nat)
    requires Ordered(digest, m) && now <= U64_MAX
    ensures var r := Activate(m, now, window, a, b);
            && (r.Ok? <==> m.pending.Some?)
            && (r.Ok? ==>
                  && Ordered(digest, r.value) && r.value.current.epoch == m.current.epoch + 1
                  && r.value.current.startedAt == now && r.value.pending == None
                  && r.value.current.baselineState == a && r.value.current.baselineDeletes == b)
  {
    if m.pending.Some? {
      var m' := Activate(m, now, window, a, b).value;
      forall i | 0 <= i < |m'.retired| ensures RetiredValid(digest, m', m'.retired[i]) {
        if i < |m.retired| { assert RetiredValid(digest, m, m.retired[i]); }
      }
    }
  }

  /** A sweep keeps records in order and drops one only when its directory is gone. */
  lemma {:induction false} SweepOutcome(rs: seq<RetiredEpoch>, now: nat, dirs: set<string>, stuck: set<string>)
    ensures var s := Sweep(rs, now, dirs, stuck);
            && s.dirs <= dirs
            && (forall r :: r in s.retained ==> r in rs)
            && (forall r :: r in rs && r !in s.retained ==> r.deleteAfter <= now && r.physical !in s.dirs)
            && (forall p :: p in dirs && p !in s.dirs ==>
                  exists r :: r in rs && r.deleteAfter <= now && r.physical == p)
    decreases |rs|
  {
    if rs != [] {
      var d := if rs[0].deleteAfter > now then dirs else dirs - {rs[0].physical};
      SweepOutcome(rs[1..], now, d, stuck);
      var s := Sweep(rs, now, dirs, stuck);
      forall p | p in dirs && p !in s.dirs ensures exists r :: r in rs && r.deleteAfter <= now && r.physical == p {
        if p in d {
          var r :| r in rs[1..] && r.deleteAfter <= now && r.physical == p;
          assert r in rs;
        } else {
          assert rs[0] in rs;
        }
      }
    }
  }

  /** The sweep stops at this record: it is due, and its directory exists and cannot be removed. */
  predicate Hinders(r: RetiredEpoch, now: nat, dirs: set<string>, stuck: set<string>) {
    r.deleteAfter <= now && r.physical in dirs && r.physical in stuck
  }

  /** The sweep gets as far as removing the directory of record `i`. */
  predicate Swipes(rs: seq<RetiredEpoch>, now: nat, dirs: set<string>, stuck: set<string>, i: nat)
    requires i < |rs|
  {
    rs[i].deleteAfter <= now && forall j :: 0 <= j <= i ==> !Hinders(rs[j], now, dirs, stuck)
  }

  /** Exactly which directories a sweep removes, and when it gets through. */
  lemma {:induction false} SweepExact(rs: seq<RetiredEpoch>, now: nat, dirs: set<string>, stuck: set<string>, p: string)
    requires p in dirs
    ensures var s := Sweep(rs, now, dirs, stuck);
            && (p !in s.dirs <==> exists i :: 0 <= i < |rs| && rs[i].physical == p && Swipes(rs, now, dirs, stuck, i))
            && (s.ok <==> forall r :: r in rs ==> !Hinders(r, now, dirs, stuck))
    decreases |rs|
  {
    if rs != [] {
      var s, r, rest := Sweep(rs, now, dirs, stuck), rs[0], rs[1..];
      if !Hinders(r, now, dirs, stuck) {
        var d := if r.deleteAfter > now then dirs else dirs - {r.physical};
        HindersSame(rest, now, dirs, stuck, r, d);
        if p in d {
          SweepExact(rest, now, d, stuck, p);
          SwipesShift(rs, now, dirs, stuck, d, p);
        } else {
          SweepOutcome(rest, now, d, stuck);
          assert Swipes(rs, now, dirs, stuck, 0);
          SweepGetsThrough(rest, now, d, stuck);
        }
      } else {
        assert Hinders(rs[0], now, dirs, stuck) && rs[0] in rs;
      }
    }
  }

  lemma {:induction false} SweepGetsThrough(rs: seq<RetiredEpoch>, now: nat, dirs: set<string>, stuck: set<string>)
    ensures Sweep(rs, now, dirs, stuck).ok <==> forall r :: r in rs ==> !Hinders(r, now, dirs, stuck)
    decreases |rs|
  {
    if rs != [] {
      var d := if rs[0].deleteAfter > now then dirs else dirs - {rs[0].physical};
      if !Hinders(rs[0], now, dirs, stuck) {
        HindersSame(rs[1..], now, dirs, stuck, rs[0], d);
        SweepGetsThrough(rs[1..], now, d, stuck);
        assert forall r :: r in rs <==> r == rs[0] || r in rs[1..];
      } else {
        assert rs[0] in rs;
      }
    }
  }

  /** Removing a directory that does not hinder changes nothing for the other records. */
  lemma HindersSame(
    rest: seq<RetiredEpoch>, now: nat, dirs: set<string>, stuck: set<string>, r: RetiredEpoch, d: set<string>)
    requires !Hinders(r, now, dirs, stuck)
    requires d == if r.deleteAfter > now then dirs else dirs - {r.physical}
    ensures forall x :: x in rest ==> (Hinders(x, now, d, stuck) <==> Hinders(x, now, dirs, stuck))
  {
  }

  lemma SwipesShift(
    rs: seq<RetiredEpoch>, now: nat, dirs: set<string>, stuck: set<string>, d: set<string>, p: string)
    requires rs != [] && !Hinders(rs[0], now, dirs, stuck) && p in d && p in dirs
    requires d == if rs[0].deleteAfter > now then dirs else dirs - {rs[0].physical}
    requires forall x :: x in rs[1..] ==> (Hinders(x, now, d, stuck) <==> Hinders(x, now, dirs, stuck))
    ensures (exists i :: 0 <= i < |rs| && rs[i].physical == p && Swipes(rs, now, dirs, stuck, i)) <==>
            (exists i :: 0 <= i < |rs[1..]| && rs[1..][i].physical == p && Swipes(rs[1..], now, d, stuck, i))
    ensures (forall r :: r in rs ==> !Hinders(r, now, dirs, stuck)) <==>
            (forall r :: r in rs[1..] ==> !Hinders(r, now, d, stuck))
  {
    hide Hinders;
    var rest := rs[1..];
    forall i | 0 <= i < |rest| ensures Swipes(rest, now, d, stuck, i) <==> Swipes(rs, now, dirs, stuck, i + 1) {
      assert forall j :: 0 <= j <= i ==> rest[j] == rs[j + 1] && rest[j] in rest;
      if Swipes(rest, now, d, stuck, i) {
        forall j | 0 <= j <= i + 1 ensures !Hinders(rs[j], now, dirs, stuck) {
          if j > 0 { assert rest[j - 1] == rs[j]; }
        }
      }
      if Swipes(rs, now, dirs, stuck, i + 1) {
        forall j | 0 <= j <= i ensures !Hinders(rest[j], now, d, stuck) {
          assert rest[j] == rs[j + 1];
        }
      }
    }
    if i :| 0 <= i < |rs| && rs[i].physical == p && Swipes(rs, now, dirs, stuck, i) {
      assert i > 0 && rest[i - 1] == rs[i];
    }
    if i :| 0 <= i < |rest| && rest[i].physical == p && Swipes(rest, now, d, stuck, i) {
      assert rs[i + 1].physical == p;
    }
    assert forall r :: r in rs <==> r == rs[0] || r in rest;
  }

  predicate Increasing(rs: seq<RetiredEpoch>) {
    forall i, j :: 0 <= i < j < |rs| ==> rs[i].epoch < rs[j].epoch
  }

  lemma {:induction false} SweepIncreasing(rs: seq<RetiredEpoch>, now: nat, dirs: set<string>, stuck: set<string>)
    requires Increasing(rs)
    ensures Increasing(Sweep(rs, now, dirs, stuck).retained)
    decreases |rs|
  {
    if rs != [] {
      var d := if rs[0].deleteAfter > now then dirs else dirs - {rs[0].physical};
      SweepIncreasing(rs[1..], now, d, stuck);
      SweepOutcome(rs[1..], now, d, stuck);
      assert forall r :: r in rs[1..] ==> rs[0].epoch < r.epoch;
    }
  }

  /** After a sweep, got through or not, the manifest is still in order. */
  lemma SweepOrdered(digest: Digest, m: Manifest, now: nat, dirs: set<string>, stuck: set<string>)
    requires Ordered(digest, m)
    ensures Ordered(digest, m.(retired := Sweep(m.retired, now, dirs, stuck).retained))
  {
    hide Sweep;
    var kept := Sweep(m.retired, now, dirs, stuck).retained;
    SweepOutcome(m.retired, now, dirs, stuck);
    SweepIncreasing(m.retired, now, dirs, stuck);
    var m' := m.(retired := kept);
    forall i | 0 <= i < |kept| ensures RetiredValid(digest, m', kept[i]) {
      assert kept[i] in m.retired;
      var k :| 0 <= k < |m.retired| && m.retired[k] == kept[i];
      assert RetiredValid(digest, m, m.retired[k]);
    }
  }
}

/** Epochs over whole runs: the manifest in memory, the one on disk, and the epochs' directories. */
module EpochRun {
  import opened Wrappers
  import opened Bytes
  import opened Epochs

  datatype Store = Store(mem: Manifest, saved: Manifest, dirs: set<string>)

  /** `saveOk` says whether writing the manifest succeeds; if not, the old one is still in place. */
  datatype Action =
    | BeginEpoch(now: nat, saveOk: bool)
    | CreateReplacement
    | ActivateEpoch(now: nat, window: nat, stateBytes: nat, deleteBytes: nat, saveOk: bool)
    | Cleanup(now: nat, stuck: set<string>, saveOk: bool)
    | Restart

  function Save(s: Store, m: Manifest, ok: bool): Store {
    s.(mem := m, saved := if ok then m else s.saved)
  }

  /** Sweep in memory; only a sweep that got through is written. */
  function AfterCleanup(s: Store, now: nat, stuck: set<string>, saveOk: bool): Store {
    var swept := Sweep(s.mem.retired, now, s.dirs, stuck);
    Save(s.(dirs := swept.dirs), s.mem.(retired := swept.retained), swept.ok && saveOk)
  }

  function Next(digest: Digest, s: Store, a: Action): Store {
    match a
    case BeginEpoch(now, saveOk) =>
      var r := Begin(digest, s.mem, now);
      if r.Ok? then Save(s, r.value, saveOk) else s
    case CreateReplacement => if s.mem.pending.Some? then s.(dirs := s.dirs + {s.mem.pending.value.physical}) else s
    case ActivateEpoch(now, window, stateBytes, deleteBytes, saveOk) =>
      var r := Activate(s.mem, now, window, stateBytes, deleteBytes);
      if r.Ok? && now <= U64_MAX && s.mem.pending.value.physical in s.dirs then Save(s, r.value, saveOk) else s
    case Cleanup(now, stuck, saveOk) => AfterCleanup(s, now, stuck, saveOk)
    case Restart => s.(mem := s.saved)
  }

  function Run(digest: Digest, s: Store, actions: seq<Action>): Store
    decreases |actions|
  {
    if actions == [] then s else Run(digest, Next(digest, s, actions[0]), actions[1..])
  }

  function Created(logical: string, now: nat): Store {
    Store(Initial(logical, now), Initial(logical, now), {logical})
  }

  /** The epochs with a retirement record. */
  function RetiredEpochs(m: Manifest): set<nat> {
    set r | r in m.retired :: r.epoch
  }

  /** The epoch has a directory. */
  predicate HasDir(digest: Digest, logical: string, epoch: nat, dirs: set<string>) {
    PhysicalOf(digest, logical, epoch) in dirs
  }

  /** A manifest that accounts for the directories: an earlier epoch without a record has none. */
  ghost predicate Accounts(digest: Digest, m: Manifest, dirs: set<string>) {
    && Ordered(digest, m)
    && (forall e: nat :: e < m.current.epoch && e !in RetiredEpochs(m) ==> !HasDir(digest, m.logical, e, dirs))
  }

  /** What every run keeps, whatever fails. */
  ghost predicate Kept(digest: Digest, s: Store) {
    && NotSelfNamed(digest, s.mem.logical)
    && s.saved.logical == s.mem.logical
    && Accounts(digest, s.mem, s.dirs)
    && Accounts(digest, s.saved, s.dirs)
    && s.saved.current.epoch <= s.mem.current.epoch
  }

  /** ... and the current documents of both manifests exist. */
  ghost predicate Inv(digest: Digest, s: Store) {
    Kept(digest, s) && s.mem.current.physical in s.dirs && s.saved.current.physical in s.dirs
  }

  lemma CreatedInv(digest: Digest, logical: string, now: nat)
    requires NotSelfNamed(digest, logical)
    ensures Inv(digest, Created(logical, now))
  {
  }

  /** A sweep removes no directory but those of retired epochs. */
  lemma SweepSpares(digest: Digest, m: Manifest, now: nat, dirs: set<string>, stuck: set<string>, e: nat)
    requires NotSelfNamed(digest, m.logical) && Ordered(digest, m) && m.current.epoch <= e <= U64_MAX
    ensures var p := PhysicalOf(digest, m.logical, e);
            p in dirs ==> p in Sweep(m.retired, now, dirs, stuck).dirs
  {
    hide Sweep, PhysicalOf;
    var p, s := PhysicalOf(digest, m.logical, e), Sweep(m.retired, now, dirs, stuck);
    SweepOutcome(m.retired, now, dirs, stuck);
    forall r | r in m.retired ensures r.physical != p {
      var k :| 0 <= k < |m.retired| && m.retired[k] == r;
      assert RetiredValid(digest, m, m.retired[k]);
      if r.physical == p { PhysicalInjective(digest, m.logical, r.epoch, e); }
    }
  }

  /** Sweeping a manifest's records keeps it accounting for the directories. */
  lemma SweepAccounts(digest: Digest, m: Manifest, now: nat, dirs: set<string>, stuck: set<string>)
    requires Accounts(digest, m, dirs)
    ensures var s := Sweep(m.retired, now, dirs, stuck);
            Accounts(digest, m.(retired := s.retained), s.dirs)
  {
    hide Sweep, PhysicalOf, Ordered;
    var s := Sweep(m.retired, now, dirs, stuck);
    var m' := m.(retired := s.retained);
    SweepOrdered(digest, m, now, dirs, stuck);
    SweepOutcome(m.retired, now, dirs, stuck);
    forall e: nat | e < m.current.epoch && e !in RetiredEpochs(m') ensures !HasDir(digest, m.logical, e, s.dirs) {
      if e in RetiredEpochs(m) {
        var r :| r in m.retired && r.epoch == e;
        assert r !in s.retained;
        RetiredNamed(digest, m, r);
      }
    }
  }

  lemma CurrentNamed(digest: Digest, m: Manifest)
    requires Ordered(digest, m)
    ensures m.current.physical == PhysicalOf(digest, m.logical, m.current.epoch) && m.current.epoch <= U64_MAX
  {
  }

  lemma RetiredNamed(digest: Digest, m: Manifest, r: RetiredEpoch)
    requires Ordered(digest, m) && r in m.retired
    ensures r.physical == PhysicalOf(digest, m.logical, r.epoch)
  {
    var k :| 0 <= k < |m.retired| && m.retired[k] == r;
    assert RetiredValid(digest, m, m.retired[k]);
  }

  lemma FewerDirs(digest: Digest, m: Manifest, dirs: set<string>, dirs': set<string>)
    requires Accounts(digest, m, dirs) && dirs' <= dirs
    ensures Accounts(digest, m, dirs')
  {
  }

  lemma CleanupAccounts(digest: Digest, s: Store, now: nat, stuck: set<string>, saveOk: bool)
    requires Kept(digest, s)
    ensures Kept(digest, AfterCleanup(s, now, stuck, saveOk))
  {
    hide Sweep, Accounts;
    SweepAccounts(digest, s.mem, now, s.dirs, stuck);
    SweepOutcome(s.mem.retired, now, s.dirs, stuck);
    FewerDirs(digest, s.saved, s.dirs, Sweep(s.mem.retired, now, s.dirs, stuck).dirs);
  }

  /**
   A clean-up that does no harm: it gets through and is saved, or it does not get as far as the
   document that the saved manifest still points at.
   */
  predicate Harmless(s: Store, now: nat, stuck: set<string>, saveOk: bool) {
    var rs := s.mem.retired;
    || (saveOk && forall r :: r in rs ==> !Hinders(r, now, s.dirs, stuck))
    || (forall i :: 0 <= i < |rs| && rs[i].epoch == s.saved.current.epoch ==> !Swipes(rs, now, s.dirs, stuck, i))
  }

  /** A clean-up leaves the saved manifest its document exactly if it is harmless, and then keeps everything sound. */
  lemma CleanupExact(digest: Digest, s: Store, now: nat, stuck: set<string>, saveOk: bool)
    requires Inv(digest, s)
    ensures var s' := AfterCleanup(s, now, stuck, saveOk);
            && (s'.saved.current.physical in s'.dirs <==> Harmless(s, now, stuck, saveOk))
            && (Harmless(s, now, stuck, saveOk) ==> Inv(digest, s'))
  {
    hide Sweep, Accounts, PhysicalOf, Hinders, Swipes;
    CleanupAccounts(digest, s, now, stuck, saveOk);
    SweepGetsThrough(s.mem.retired, now, s.dirs, stuck);
    SavedReached(digest, s, now, stuck);
    AccountsOrdered(digest, s.mem, s.dirs);
    CurrentNamed(digest, s.mem);
    SweepSpares(digest, s.mem, now, s.dirs, stuck, s.mem.current.epoch);
  }

  lemma SavedReached(digest: Digest, s: Store, now: nat, stuck: set<string>)
    requires Inv(digest, s)
    ensures var rs := s.mem.retired;
            s.saved.current.physical in Sweep(rs, now, s.dirs, stuck).dirs <==>
            forall i :: 0 <= i < |rs| && rs[i].epoch == s.saved.current.epoch ==> !Swipes(rs, now, s.dirs, stuck, i)
  {
    hide Sweep, PhysicalOf, Hinders, Swipes;
    CurrentNamed(digest, s.saved);
    SweepExact(s.mem.retired, now, s.dirs, stuck, s.saved.current.physical);
    forall i | 0 <= i < |s.mem.retired|
      ensures s.mem.retired[i].physical == s.saved.current.physical <==>
              s.mem.retired[i].epoch == s.saved.current.epoch
    {
      var r := s.mem.retired[i];
      assert r in s.mem.retired;
      RetiredNamed(digest, s.mem, r);
      RetiredBelow(digest, s.mem, r);
      if r.physical == s.saved.current.physical {
        PhysicalInjective(digest, s.mem.logical, r.epoch, s.saved.current.epoch);
      }
    }
  }

  lemma AccountsOrdered(digest: Digest, m: Manifest, dirs: set<string>)
    requires Accounts(digest, m, dirs)
    ensures Ordered(digest, m)
  {
  }

  lemma CreateKeeps(digest: Digest, m: Manifest, dirs: set<string>, e: nat)
    requires NotSelfNamed(digest, m.logical) && Accounts(digest, m, dirs) && m.current.epoch < e <= U64_MAX
    ensures Accounts(digest, m, dirs + {PhysicalOf(digest, m.logical, e)})
  {
    hide PhysicalOf, Ordered;
    CurrentNamed(digest, m);
    forall o: nat | o < m.current.epoch ensures PhysicalOf(digest, m.logical, o) != PhysicalOf(digest, m.logical, e) {
      if PhysicalOf(digest, m.logical, o) == PhysicalOf(digest, m.logical, e) {
        PhysicalInjective(digest, m.logical, o, e);
      }
    }
  }

  lemma ActivateKeeps(digest: Digest, m: Manifest, dirs: set<string>, now: nat, window: nat, a: nat, b: nat)
    requires Accounts(digest, m, dirs) && now <= U64_MAX && m.pending.Some?
    ensures Accounts(digest, Activate(m, now, window, a, b).value, dirs)
  {
    hide PhysicalOf, Ordered;
    var m' := Activate(m, now, window, a, b).value;
    ActivateOrdered(digest, m, now, window, a, b);
    forall e: nat | e < m'.current.epoch && e !in RetiredEpochs(m') ensures !HasDir(digest, m.logical, e, dirs) {
      assert m'.retired[|m.retired|] in m'.retired;
      assert e != m.current.epoch;
      assert RetiredEpochs(m) <= RetiredEpochs(m');
    }
  }

  lemma BeginKeeps(digest: Digest, m: Manifest, dirs: set<string>, now: nat)
    requires Accounts(digest, m, dirs) && Begin(digest, m, now).Ok?
    ensures Accounts(digest, Begin(digest, m, now).value, dirs)
  {
    BeginOrdered(digest, m, now);
  }

  lemma PendingNamed(digest: Digest, m: Manifest)
    requires Ordered(digest, m) && m.pending.Some?
    ensures m.pending.value.epoch == m.current.epoch + 1 <= U64_MAX
    ensures m.pending.value.physical == PhysicalOf(digest, m.logical, m.current.epoch + 1)
  {
  }

  /** The clean-ups among the actions do no harm where they are taken. */
  predicate StepHarmless(s: Store, a: Action) {
    a.Cleanup? ==> Harmless(s, a.now, a.stuck, a.saveOk)
  }

  predicate AllHarmless(digest: Digest, s: Store, actions: seq<Action>)
    decreases |actions|
  {
    actions == [] || (StepHarmless(s, actions[0]) && AllHarmless(digest, Next(digest, s, actions[0]), actions[1..]))
  }

  lemma NextAccounts(digest: Digest, s: Store, a: Action)
    requires Kept(digest, s)
    ensures Kept(digest, Next(digest, s, a))
  {
    hide Accounts, PhysicalOf, Ordered, AfterCleanup;
    AccountsOrdered(digest, s.mem, s.dirs);
    match a
    case BeginEpoch(now, saveOk) =>
      if Begin(digest, s.mem, now).Ok? { BeginKeeps(digest, s.mem, s.dirs, now); }
    case CreateReplacement =>
      if s.mem.pending.Some? {
        PendingNamed(digest, s.mem);
        CreateKeeps(digest, s.mem, s.dirs, s.mem.current.epoch + 1);
        CreateKeeps(digest, s.saved, s.dirs, s.mem.current.epoch + 1);
      }
    case ActivateEpoch(now, window, x, y, saveOk) =>
      if s.mem.pending.Some? && now <= U64_MAX {
        PendingNamed(digest, s.mem);
        ActivateKeeps(digest, s.mem, s.dirs, now, window, x, y);
      }
    case Cleanup(now, stuck, saveOk) => CleanupAccounts(digest, s, now, stuck, saveOk);
    case Restart =>
  }

  lemma NextKeeps(digest: Digest, s: Store, a: Action)
    requires Inv(digest, s) && StepHarmless(s, a)
    ensures Inv(digest, Next(digest, s, a))
  {
    hide Kept, AfterCleanup, Harmless;
    NextAccounts(digest, s, a);
    if a.Cleanup? { CleanupExact(digest, s, a.now, a.stuck, a.saveOk); }
  }

  lemma {:induction false} RunAccounts(digest: Digest, s: Store, actions: seq<Action>)
    requires Kept(digest, s)
    ensures Kept(digest, Run(digest, s, actions))
    decreases |actions|
  {
    hide Kept, Next;
    if actions != [] {
      NextAccounts(digest, s, actions[0]);
      RunAccounts(digest, Next(digest, s, actions[0]), actions[1..]);
    }
  }

  lemma {:induction false} RunKeeps(digest: Digest, s: Store, actions: seq<Action>)
    requires Inv(digest, s) && AllHarmless(digest, s, actions)
    ensures Inv(digest, Run(digest, s, actions))
    decreases |actions|
  {
    hide Inv, Next, StepHarmless;
    if actions != [] {
      NextKeeps(digest, s, actions[0]);
      RunKeeps(digest, Next(digest, s, actions[0]), actions[1..]);
    }
  }

  /**
   Every run of proposals, activations, clean-ups that fail part way, failed saves and restarts keeps
   both manifests, in memory and on disk, valid with strictly increasing retired epochs, and every
   epoch below the current one either has a retirement record or has no directory any more. As long as
   every clean-up is harmless, the current document of each manifest exists as well.
   */
  lemma EpochsStaySound(digest: Digest, logical: string, now: nat, actions: seq<Action>)
    requires NotSelfNamed(digest, logical)
    ensures var s := Run(digest, Created(logical, now), actions);
            && Valid(digest, s.mem, s.mem.logical) && Valid(digest, s.saved, s.saved.logical)
            && Increasing(s.mem.retired) && Increasing(s.saved.retired)
            && (forall e: nat :: e in RetiredEpochs(s.mem) ==> e < s.mem.current.epoch)
            && (forall e: nat :: e < s.mem.current.epoch && e !in RetiredEpochs(s.mem) ==>
                  !HasDir(digest, s.mem.logical, e, s.dirs))
            && (forall e: nat :: e < s.saved.current.epoch && e !in RetiredEpochs(s.saved) ==>
                  !HasDir(digest, s.saved.logical, e, s.dirs))
            && (AllHarmless(digest, Created(logical, now), actions) ==>
                  s.mem.current.physical in s.dirs && s.saved.current.physical in s.dirs)
  {
    hide AllHarmless, Next, PhysicalOf;
    CreatedInv(digest, logical, now);
    RunAccounts(digest, Created(logical, now), actions);
    if AllHarmless(digest, Created(logical, now), actions) { RunKeeps(digest, Created(logical, now), actions); }
    var s := Run(digest, Created(logical, now), actions);
    forall r | r in s.mem.retired ensures r.epoch < s.mem.current.epoch {
      RetiredBelow(digest, s.mem, r);
    }
  }

  /** In every reachable store, a clean-up leaves the current and the pending document's directory alone. */
  lemma CleanupSparesLiveDocuments(
    digest: Digest, logical: string, now: nat, actions: seq<Action>, at: nat, stuck: set<string>, saveOk: bool)
    requires NotSelfNamed(digest, logical)
    ensures var s := Run(digest, Created(logical, now), actions);
            var s' := AfterCleanup(s, at, stuck, saveOk);
            && (s.mem.current.physical in s.dirs ==> s.mem.current.physical in s'.dirs)
            && (s.mem.pending.Some? && s.mem.pending.value.physical in s.dirs ==>
                  s.mem.pending.value.physical in s'.dirs)
            && (forall r :: r in s.mem.retired && r !in s'.mem.retired ==>
                  r.deleteAfter <= at && r.physical !in s'.dirs)
  {
    hide Sweep, PhysicalOf, Next;
    CreatedInv(digest, logical, now);
    RunAccounts(digest, Created(logical, now), actions);
    var s := Run(digest, Created(logical, now), actions);
    var m := s.mem;
    CurrentNamed(digest, m);
    SweepOutcome(m.retired, at, s.dirs, stuck);
    SweepSpares(digest, m, at, s.dirs, stuck, m.current.epoch);
    if m.pending.Some? {
      PendingNamed(digest, m);
      SweepSpares(digest, m, at, s.dirs, stuck, m.current.epoch + 1);
    }
  }

  // ----- the recovery window

  /** An activation that takes effect. */
  predicate Activates(s: Store, a: Action) {
    a.ActivateEpoch? && a.now <= U64_MAX && s.mem.pending.Some? && s.mem.pending.value.physical in s.dirs
  }

  /** The manifest has retired epoch `e`, to be deleted from `deadline` on. */
  ghost predicate Waits(m: Manifest, e: nat, deadline: nat) {
    e < m.current.epoch && exists r :: r in m.retired && r.epoch == e && r.deleteAfter == deadline
  }

  lemma WaitsAlone(digest: Digest, m: Manifest, e: nat, deadline: nat, r: RetiredEpoch)
    requires Ordered(digest, m) && Waits(m, e, deadline) && r in m.retired && r.epoch == e
    ensures r.deleteAfter == deadline
  {
    var x :| x in m.retired && x.epoch == e && x.deleteAfter == deadline;
    var i :| 0 <= i < |m.retired| && m.retired[i] == x;
    var j :| 0 <= j < |m.retired| && m.retired[j] == r;
    assert i != j ==> x.epoch != r.epoch;
  }

  /** A clean-up before the deadline leaves the directory and its record. */
  lemma EarlySweepSpares(
    digest: Digest, m: Manifest, now: nat, dirs: set<string>, stuck: set<string>, e: nat, deadline: nat)
    requires NotSelfNamed(digest, m.logical) && Ordered(digest, m) && Waits(m, e, deadline)
    requires HasDir(digest, m.logical, e, dirs) && now < deadline
    ensures var s := Sweep(m.retired, now, dirs, stuck);
            HasDir(digest, m.logical, e, s.dirs) && Waits(m.(retired := s.retained), e, deadline)
  {
    hide Sweep, PhysicalOf, Ordered;
    var s, p := Sweep(m.retired, now, dirs, stuck), PhysicalOf(digest, m.logical, e);
    SweepOutcome(m.retired, now, dirs, stuck);
    CurrentNamed(digest, m);
    forall r | r in m.retired && r.physical == p ensures r.deleteAfter == deadline {
      RetiredNamed(digest, m, r);
      RetiredBelow(digest, m, r);
      PhysicalInjective(digest, m.logical, r.epoch, e);
      WaitsAlone(digest, m, e, deadline, r);
    }
    var x :| x in m.retired && x.epoch == e && x.deleteAfter == deadline;
    assert x in s.retained;
  }

  /** `always`: the manifest on disk has retired the epoch as well, so that restarts do not matter. */
  ghost predicate InWindow(digest: Digest, s: Store, e: nat, deadline: nat, always: bool) {
    && HasDir(digest, s.mem.logical, e, s.dirs) && Waits(s.mem, e, deadline)
    && (always ==> Waits(s.saved, e, deadline))
  }

  predicate Early(a: Action, deadline: nat, always: bool) {
    (a.Cleanup? ==> a.now < deadline) && (a.Restart? ==> always)
  }

  lemma WindowStep(digest: Digest, s: Store, a: Action, e: nat, deadline: nat, always: bool)
    requires Kept(digest, s) && InWindow(digest, s, e, deadline, always) && Early(a, deadline, always)
    ensures InWindow(digest, Next(digest, s, a), e, deadline, always)
  {
    hide Sweep, PhysicalOf, PhysicalId, Ordered;
    match a
    case BeginEpoch(now, saveOk) => BeginSame(digest, s.mem, now);
    case CreateReplacement =>
    case ActivateEpoch(now, window, x, y, saveOk) =>
      if Activates(s, a) {
        PendingNamed(digest, s.mem);
        StillWaits(s.mem, Activate(s.mem, now, window, x, y).value, e, deadline);
      }
    case Cleanup(now, stuck, saveOk) => EarlySweepSpares(digest, s.mem, now, s.dirs, stuck, e, deadline);
    case Restart =>
  }

  lemma BeginSame(digest: Digest, m: Manifest, now: nat)
    ensures var r := Begin(digest, m, now);
            r.Ok? ==> r.value.current == m.current && r.value.retired == m.retired && r.value.logical == m.logical
  {
  }

  lemma StillWaits(m: Manifest, m': Manifest, e: nat, deadline: nat)
    requires Waits(m, e, deadline) && m.current.epoch <= m'.current.epoch && m.retired <= m'.retired
    ensures Waits(m', e, deadline)
  {
    var r :| r in m.retired && r.epoch == e && r.deleteAfter == deadline;
    assert r in m'.retired;
  }

  predicate AllEarly(actions: seq<Action>, deadline: nat, always: bool) {
    forall i :: 0 <= i < |actions| ==> Early(actions[i], deadline, always)
  }

  lemma {:induction false} WindowRun(
    digest: Digest, s: Store, actions: seq<Action>, e: nat, deadline: nat, always: bool)
    requires Kept(digest, s) && InWindow(digest, s, e, deadline, always) && AllEarly(actions, deadline, always)
    ensures var s' := Run(digest, s, actions);
            Kept(digest, s') && InWindow(digest, s', e, deadline, always) && s'.mem.logical == s.mem.logical
    decreases |actions|
  {
    hide Kept, Next, InWindow, Early;
    if actions != [] {
      NextAccounts(digest, s, actions[0]);
      WindowStep(digest, s, actions[0], e, deadline, always);
      SameLogical(digest, s, actions[0]);
      WindowRun(digest, Next(digest, s, actions[0]), actions[1..], e, deadline, always);
    }
  }

  lemma SameLogical(digest: Digest, s: Store, a: Action)
    requires Kept(digest, s)
    ensures Next(digest, s, a).mem.logical == s.mem.logical
  {
    hide Sweep, PhysicalId, Accounts;
  }

  /**
   The recovery window, exactly. At any point of any run an activation at time `t` with window `w` takes
   effect. Whatever follows, short of a clean-up at `t + w` or later, the document it retires stays; and a
   clean-up in which nothing is stuck then removes it if and only if it comes at `t + w` or later. A restart
   may come in between if the activation was saved: otherwise the restart takes the activation back.
   */
  lemma RecoveryWindowExact(
    digest: Digest, logical: string, now: nat, actions: seq<Action>, a: Action, more: seq<Action>,
    at: nat, saveOk: bool)
    requires NotSelfNamed(digest, logical) && a.ActivateEpoch?
    requires AllEarly(more, SaturatingAdd(a.now, a.window), a.saveOk)
    ensures var s := Run(digest, Created(logical, now), actions);
            var old_ := s.mem.current.physical;
            var later := Run(digest, Next(digest, s, a), more);
            Activates(s, a) && old_ in s.dirs ==>
              && old_ in later.dirs
              && (old_ in Next(digest, later, Cleanup(at, {}, saveOk)).dirs <==> at < SaturatingAdd(a.now, a.window))
  {
    hide PhysicalOf, Sweep, Accounts, AllEarly, Next, Run, InWindow;
    CreatedInv(digest, logical, now);
    RunAccounts(digest, Created(logical, now), actions);
    var s := Run(digest, Created(logical, now), actions);
    if Activates(s, a) && s.mem.current.physical in s.dirs {
      var e, deadline := s.mem.current.epoch, SaturatingAdd(a.now, a.window);
      NextAccounts(digest, s, a);
      Retires(digest, s, a);
      WindowRun(digest, Next(digest, s, a), more, e, deadline, a.saveOk);
      var later := Run(digest, Next(digest, s, a), more);
      WindowEnds(digest, later, at, saveOk, e, deadline, a.saveOk);
    }
  }

  /** An activation retires the current epoch with the deadline of its arguments. */
  lemma Retires(digest: Digest, s: Store, a: Action)
    requires Kept(digest, s) && Activates(s, a) && s.mem.current.physical in s.dirs
    ensures InWindow(digest, Next(digest, s, a), s.mem.current.epoch, SaturatingAdd(a.now, a.window), a.saveOk)
    ensures s.mem.current.physical == PhysicalOf(digest, s.mem.logical, s.mem.current.epoch)
    ensures Next(digest, s, a).mem.logical == s.mem.logical
  {
    hide PhysicalOf;
    CurrentNamed(digest, s.mem);
    PendingNamed(digest, s.mem);
    var m := Next(digest, s, a).mem;
    assert m.retired[|s.mem.retired|] in m.retired;
  }

  lemma WindowEnds(digest: Digest, s: Store, at: nat, saveOk: bool, e: nat, deadline: nat, always: bool)
    requires Kept(digest, s) && InWindow(digest, s, e, deadline, always)
    ensures PhysicalOf(digest, s.mem.logical, e) in s.dirs
    ensures PhysicalOf(digest, s.mem.logical, e) in Next(digest, s, Cleanup(at, {}, saveOk)).dirs <==> at < deadline
  {
    hide Sweep, PhysicalOf, Ordered;
    if at < deadline {
      EarlySweepSpares(digest, s.mem, at, s.dirs, {}, e, deadline);
    } else {
      FreeSweepDropsDue(s.mem.retired, at, s.dirs);
      var r :| r in s.mem.retired && r.epoch == e && r.deleteAfter == deadline;
      RetiredNamed(digest, s.mem, r);
    }
  }

  /** An epoch that an activation retired, with the activation's own time and window. */
  datatype Retirement = Retirement(epoch: nat, at: nat, window: nat)

  function Retirements(digest: Digest, s: Store, actions: seq<Action>): set<Retirement>
    decreases |actions|
  {
    if actions == [] then {}
    else
      var a := actions[0];
      (if Activates(s, a) then {Retirement(s.mem.current.epoch, a.now, a.window)} else {})
      + Retirements(digest, Next(digest, s, a), actions[1..])
  }

  /** Every retirement record comes from an activation. */
  ghost predicate Backed(m: Manifest, h: set<Retirement>) {
    forall r :: r in m.retired ==>
      exists x :: x in h && x.epoch == r.epoch && x.at == r.retiredAt && SaturatingAdd(x.at, x.window) == r.deleteAfter
  }

  lemma BackedStep(digest: Digest, s: Store, a: Action, h: set<Retirement>)
    requires Backed(s.mem, h) && Backed(s.saved, h)
    requires Activates(s, a) ==> Retirement(s.mem.current.epoch, a.now, a.window) in h
    ensures var s' := Next(digest, s, a); Backed(s'.mem, h) && Backed(s'.saved, h)
  {
    hide Sweep, PhysicalId;
    if a.Cleanup? { SweepOutcome(s.mem.retired, a.now, s.dirs, a.stuck); }
  }

  lemma {:induction false} BackedRun(digest: Digest, s: Store, actions: seq<Action>, h: set<Retirement>)
    requires Backed(s.mem, h) && Backed(s.saved, h) && Retirements(digest, s, actions) <= h
    ensures Backed(Run(digest, s, actions).mem, h)
    decreases |actions|
  {
    hide Next, Backed;
    if actions != [] {
      var a := actions[0];
      if Activates(s, a) {
        assert Retirement(s.mem.current.epoch, a.now, a.window) in Retirements(digest, s, actions);
      }
      BackedStep(digest, s, a, h);
      BackedRun(digest, Next(digest, s, a), actions[1..], h);
    }
  }

  /**
   Over every run, with restarts and failed saves anywhere: a clean-up removes only directories of epochs
   that some activation of the run retired, at a time and with a window that are over by then.
   */
  lemma RemovedOnlyAfterWindow(
    digest: Digest, logical: string, now: nat, actions: seq<Action>,
    at: nat, stuck: set<string>, saveOk: bool, p: string)
    requires NotSelfNamed(digest, logical)
    ensures var s := Run(digest, Created(logical, now), actions);
            p in s.dirs && p !in Next(digest, s, Cleanup(at, stuck, saveOk)).dirs ==>
              exists x :: x in Retirements(digest, Created(logical, now), actions)
                          && p == PhysicalOf(digest, logical, x.epoch) && SaturatingAdd(x.at, x.window) <= at
  {
    hide PhysicalOf, Sweep, Retirements, Accounts, Run;
    var start := Created(logical, now);
    var h := Retirements(digest, start, actions);
    CreatedInv(digest, logical, now);
    RunAccounts(digest, start, actions);
    BackedRun(digest, start, actions, h);
    var s := Run(digest, start, actions);
    RunLogical(digest, start, actions);
    if p in s.dirs && p !in Next(digest, s, Cleanup(at, stuck, saveOk)).dirs {
      SweepOutcome(s.mem.retired, at, s.dirs, stuck);
      var r :| r in s.mem.retired && r.deleteAfter <= at && r.physical == p;
      AccountsOrdered(digest, s.mem, s.dirs);
      RetiredNamed(digest, s.mem, r);
      var x :| x in h && x.epoch == r.epoch && x.at == r.retiredAt && SaturatingAdd(x.at, x.window) == r.deleteAfter;
    }
  }

  lemma {:induction false} RunLogical(digest: Digest, s: Store, actions: seq<Action>)
    requires Kept(digest, s)
    ensures Run(digest, s, actions).mem.logical == s.mem.logical
    decreases |actions|
  {
    hide Kept, Next;
    if actions != [] {
      NextAccounts(digest, s, actions[0]);
      SameLogical(digest, s, actions[0]);
      RunLogical(digest, Next(digest, s, actions[0]), actions[1..]);
    }
  }

  // ----- exact conditions

  /** An unhindered sweep drops every record that is due. */
  lemma {:induction false} FreeSweepDropsDue(rs: seq<RetiredEpoch>, now: nat, dirs: set<string>)
    ensures var s := Sweep(rs, now, dirs, {});
            s.ok && forall r :: r in rs && r.deleteAfter <= now ==> r.physical !in s.dirs
    decreases |rs|
  {
    if rs != [] {
      var d := if rs[0].deleteAfter > now then dirs else dirs - {rs[0].physical};
      FreeSweepDropsDue(rs[1..], now, d);
      SweepOutcome(rs[1..], now, d, {});
    }
  }

  /**
   `NotSelfNamed` is exactly what clean-ups rely on: without it there is a valid manifest whose
   clean-up removes its own current document.
   */
  lemma SelfNamedIsUnsafe(digest: Digest, logical: string)
    ensures NotSelfNamed(digest, logical) <==>
            forall m: Manifest, now: nat, dirs: set<string> ::
              m.logical == logical && Ordered(digest, m) && m.current.physical in dirs ==>
              m.current.physical in Sweep(m.retired, now, dirs, {}).dirs
  {
    if NotSelfNamed(digest, logical) {
      forall m: Manifest, now: nat, dirs: set<string>
        | m.logical == logical && Ordered(digest, m) && m.current.physical in dirs
        ensures m.current.physical in Sweep(m.retired, now, dirs, {}).dirs
      {
        CurrentNamed(digest, m);
        SweepSpares(digest, m, now, dirs, {}, m.current.epoch);
      }
    } else {
      var e: nat :| 0 < e <= U64_MAX && PhysicalId(digest, logical, e) == logical;
      var m := Manifest(Epochs.FORMAT, Epochs.FORMAT_VERSION, logical, EpochRecord(e, logical, 0, 0, 0), None,
        [RetiredEpoch(0, logical, 0, 0)]);
      assert Ordered(digest, m);
      FreeSweepDropsDue(m.retired, 0, {logical});
      assert m.retired[0] in m.retired;
      assert m.current.physical !in Sweep(m.retired, 0, {logical}, {}).dirs;
    }
  }

  /** The saved manifest's document exists. */
  predicate SavedExists(s: Store) {
    s.saved.current.physical in s.dirs
  }

  /**
   A clean-up looks only at the manifest in memory. After an activation that was not saved, the
   document the saved manifest still points at is a retired one in memory. Over whole runs: the saved
   manifest has its document throughout if and only if every clean-up taken was harmless.
   */
  lemma SoundExactlyWhenHarmless(digest: Digest, logical: string, now: nat, actions: seq<Action>)
    requires NotSelfNamed(digest, logical)
    ensures AllHarmless(digest, Created(logical, now), actions) <==>
            forall k :: 0 <= k <= |actions| ==> SavedExists(Run(digest, Created(logical, now), actions[..k]))
  {
    CreatedInv(digest, logical, now);
    HarmlessThroughout(digest, Created(logical, now), actions);
  }

  lemma {:induction false} HarmlessThroughout(digest: Digest, s: Store, actions: seq<Action>)
    requires Inv(digest, s)
    ensures AllHarmless(digest, s, actions) <==>
            forall k :: 0 <= k <= |actions| ==> SavedExists(Run(digest, s, actions[..k]))
    decreases |actions|
  {
    hide Next, StepHarmless, SavedExists, Inv;
    InvSavedExists(digest, s);
    if actions == [] {
      assert actions[..0] == [];
    } else {
      var a, rest := actions[0], actions[1..];
      var next := Next(digest, s, a);
      assert Run(digest, s, actions[..0]) == s;
      forall k | 0 <= k < |actions| ensures Run(digest, s, actions[..k + 1]) == Run(digest, next, rest[..k]) {
        assert actions[..k + 1][1..] == rest[..k];
      }
      StepExact(digest, s, a);
      if StepHarmless(s, a) {
        HarmlessThroughout(digest, next, rest);
        forall k | 0 <= k <= |actions|
          ensures SavedExists(Run(digest, s, actions[..k])) <==> k == 0 || SavedExists(Run(digest, next, rest[..k - 1]))
        {
          if k > 0 { assert Run(digest, s, actions[..(k - 1) + 1]) == Run(digest, next, rest[..k - 1]); }
        }
        if forall k :: 0 <= k <= |actions| ==> SavedExists(Run(digest, s, actions[..k])) {
          forall k | 0 <= k <= |rest| ensures SavedExists(Run(digest, next, rest[..k])) {
            assert SavedExists(Run(digest, s, actions[..k + 1]));
          }
        }
      } else {
        assert Run(digest, s, actions[..0 + 1]) == Run(digest, next, rest[..0]) == next;
      }
    }
  }

  lemma InvSavedExists(digest: Digest, s: Store)
    requires Inv(digest, s)
    ensures SavedExists(s)
  {
  }

  lemma StepExact(digest: Digest, s: Store, a: Action)
    requires Inv(digest, s)
    ensures SavedExists(Next(digest, s, a)) <==> StepHarmless(s, a)
    ensures StepHarmless(s, a) ==> Inv(digest, Next(digest, s, a))
  {
    hide Harmless, AfterCleanup, Inv;
    if StepHarmless(s, a) {
      NextKeeps(digest, s, a);
      InvSavedExists(digest, Next(digest, s, a));
    } else {
      CleanupExact(digest, s, a.now, a.stuck, a.saveOk);
    }
  }

  /** With no directory stuck, a clean-up is harmful exactly if it is not saved and the saved epoch's record is due. */
  lemma UnsavedActivationAtRisk(digest: Digest, s: Store, now: nat, saveOk: bool)
    requires Inv(digest, s)
    ensures SavedExists(AfterCleanup(s, now, {}, saveOk)) <==>
            saveOk || forall r :: r in s.mem.retired && r.epoch == s.saved.current.epoch ==> r.deleteAfter > now
  {
    CleanupExact(digest, s, now, {}, saveOk);
    var rs := s.mem.retired;
    assert forall i :: 0 <= i < |rs| ==> rs[i] in rs && (Swipes(rs, now, s.dirs, {}, i) <==> rs[i].deleteAfter <= now);
  }

  /**
   The harm is reachable: a first rollover whose activation cannot be saved, and, once the recovery
   window is over, a clean-up that cannot be saved either. The manifest on disk then points at a
   document that is gone, and a restart serves that manifest.
   */
  lemma UnsavedRolloverLosesDocument(
    digest: Digest, logical: string, created: nat, at: nat, window: nat, x: nat, y: nat, later: nat)
    requires NotSelfNamed(digest, logical) && at <= U64_MAX && later >= SaturatingAdd(at, window)
    ensures var actions := [
              BeginEpoch(at, true), CreateReplacement, ActivateEpoch(at, window, x, y, false),
              Cleanup(later, {}, false), Restart];
            var s := Run(digest, Created(logical, created), actions);
            s.mem.current == Initial(logical, created).current && s.mem.current.physical !in s.dirs
  {
    var s0 := Created(logical, created);
    var a0, a1 := BeginEpoch(at, true), CreateReplacement;
    var a2, a3 := ActivateEpoch(at, window, x, y, false), Cleanup(later, {}, false);
    var s1 := Next(digest, s0, a0);
    var s2 := Next(digest, s1, a1);
    var s3 := Next(digest, s2, a2);
    var s4 := Next(digest, s3, a3);
    assert s3.mem.retired == [RetiredEpoch(0, logical, at, SaturatingAdd(at, window))];
    FreeSweepDropsDue(s3.mem.retired, later, s3.dirs);
    assert s3.mem.retired[0] in s3.mem.retired;
    assert s4.saved.current == Initial(logical, created).current && logical !in s4.dirs;
    RunFive(digest, s0, a0, a1, a2, a3, Restart);
  }

  lemma RunFive(digest: Digest, s: Store, a: Action, b: Action, c: Action, d: Action, e: Action)
    ensures Run(digest, s, [a, b, c, d, e]) ==
            Next(digest, Next(digest, Next(digest, Next(digest, Next(digest, s, a), b), c), d), e)
  {
    hide Next;
    assert [a, b, c, d, e][1..] == [b, c, d, e] && [b, c, d, e][1..] == [c, d, e];
    assert [c, d, e][1..] == [d, e] && [d, e][1..] == [e] && [e][1..] == [];
    var s1 := Next(digest, s, a);
    var s3 := Next(digest, Next(digest, s1, b), c);
    var s4 := Next(digest, s3, d);
    assert Run(digest, Next(digest, s4, e), []) == Next(digest, s4, e);
    assert Run(digest, s4, [e]) == Next(digest, s4, e);
    assert Run(digest, s3, [d, e]) == Next(digest, s4, e);
    assert Run(digest, s1, [b, c, d, e]) == Run(digest, s3, [d, e]);
  }

  lemma RetiredBelow(digest: Digest, m: Manifest, r: RetiredEpoch)
    requires Ordered(digest, m) && r in m.retired
    ensures r.epoch < m.current.epoch <= U64_MAX
  {
    var k :| 0 <= k < |m.retired| && m.retired[k] == r;
    assert RetiredValid(digest, m, m.retired[k]);
  }
}

/** The manifest as an object, changed in place. */
module EpochManifest {
  import opened Wrappers
  import opened Bytes
  import opened Spec = Epochs

  class EpochManifest {
    const logical: string
    var current: EpochRecord
    var pending: Option<PendingEpoch>
    var retired: seq<RetiredEpoch>

    function View(): Manifest
      reads this
    {
      Manifest(Spec.FORMAT, Spec.FORMAT_VERSION, logical, current, pending, retired)
    }

    constructor (logical: string, now: nat)
      ensures View() == Initial(logical, now)
    {
      this.logical := logical;
      current, pending, retired := EpochRecord(0, logical, now, 0, 0), None, [];
    }

    method Begin(digest: Digest, now: nat) returns (r: Result<PendingEpoch, EpochError>)
      modifies this`pending
      ensures var spec := Spec.Begin(digest, old(View()), now);
              if spec.Ok? then View() == spec.value && r.Ok? && pending == Some(r.value)
              else View() == old(View()) && r == Err(spec.error)
    {
      if pending.None? {
        if current.epoch >= U64_MAX {
          return Err(EpochOverflow);
        }
        var epoch := current.epoch + 1;
        pending := Some(PendingEpoch(epoch, PhysicalId(digest, logical, epoch), now));
      }
      r := Ok(pending.value);
    }

    method Activate(now: nat, window: nat, stateBytes: nat, deleteBytes: nat) returns (r: Result<(), EpochError>)
      modifies this
      ensures var spec := Spec.Activate(old(View()), now, window, stateBytes, deleteBytes);
              if spec.Ok? then View() == spec.value && r == Ok(()) else View() == old(View()) && r == Err(spec.error)
    {
      if pending.None? {
        return Err(NoPendingEpoch);
      }
      var next := pending.value;
      pending := None;
      retired := retired + [RetiredEpoch(current.epoch, current.physical, now, SaturatingAdd(now, window))];
      current := EpochRecord(next.epoch, next.physical, now, stateBytes, deleteBytes);
      r := Ok(());
    }

    /** Remove expired directories; on an error put back the record at hand and every one behind it. */
    method RemoveExpired(now: nat, dirs: set<string>, stuck: set<string>) returns (left: set<string>, ok: bool)
      modifies this`retired
      ensures var spec := Sweep(old(retired), now, dirs, stuck);
              View() == old(View()).(retired := spec.retained) && left == spec.dirs && ok == spec.ok
    {
      var all := retired;
      var retained: seq<RetiredEpoch> := [];
      left := dirs;
      var i := 0;
      while i < |all|
        invariant i <= |all| && retired == old(retired)
        invariant var rest := Sweep(all[i..], now, left, stuck);
                  Sweep(all, now, dirs, stuck) == rest.(retained := retained + rest.retained)
      {
        var r := all[i];
        assert all[i..][1..] == all[i + 1..];
        if r.deleteAfter > now {
          ghost var rest := Sweep(all[i + 1..], now, left, stuck);
          assert retained + ([r] + rest.retained) == retained + [r] + rest.retained;
          retained := retained + [r];
        } else if r.physical in left && r.physical in stuck {
          retired := retained + all[i..];
          return left, false;
        } else {
          left := left - {r.physical};
        }
        i := i + 1;
      }
      assert retained + [] == retained;
      retired := retained;
      ok := true;
    }
  }
}
