/** Settings files: the reconcile decision and the guarded publish (src/ConfigSync.ts:49-102, 511-556). */
module ConfigDecision {
  import opened Wrappers
  import opened Lineage

  datatype ConfigMeta = ConfigMeta(entry: Entry, mtime: int)

  datatype ConfigAction = DoNothing | Upload | Download | DeleteLocal | DeleteRemote | Merge

  /** `replacedHash` absent: no publish recorded. `ownBase` absent: unknown who published the baseline. */
  datatype Options = Options(
    initialPull: bool, canMerge: bool, replacedHash: Option<Option<Hash>>, ownBase: Option<bool>)

  function MetaHash(m: Option<ConfigMeta>): Option<Hash> {
    if m.None? then None else Some(m.value.entry.hash)
  }

  function Decide(local: Option<ConfigMeta>, remote: Option<ConfigMeta>, base: Option<Hash>, o: Options): ConfigAction {
    if MetaHash(local) == MetaHash(remote) then DoNothing
    else if local.Some? && remote.None? then
      if base == None then Upload
      else if base == MetaHash(local) then DeleteLocal
      else Upload
    else if local.None? && remote.Some? then
      if base == MetaHash(remote) && !o.initialPull then DeleteRemote else Download
    else if local.Some? && remote.Some? then
      var h, r := local.value.entry.hash, remote.value.entry;
      if base == None then Download
      else if base == Some(r.hash) then Upload
      else if base == Some(h) && DescendsFrom(r, h) then Download
      else if base == Some(h) && o.replacedHash == Some(Some(r.hash)) then Upload
      else if base == Some(h) && o.ownBase == Some(false) then Download
      else if base == Some(h) && r.prev.None? then Download
      else if o.canMerge then Merge
      else if local.value.mtime >= remote.value.mtime then Upload
      else Download
    else DoNothing
  }

  /** The remote version neither descends from the baseline nor is otherwise known to follow it. */
  predicate MayHaveRaced(h: Hash, r: Entry, o: Options) {
    !DescendsFrom(r, h) && r.prev.Some? && o.ownBase != Some(false)
  }

  /**
   The decision by which side moved off the baseline. A file is deleted on one side exactly when
   that side did not move and the other is gone; a device with no baseline never overrides the shared
   settings; and only when both sides moved, or a publish of ours may have been overtaken, are the
   contents merged or, failing that, the newer one taken.
   */
  lemma DecisionByMoves(local: Option<ConfigMeta>, remote: Option<ConfigMeta>, base: Option<Hash>, o: Options)
    ensures var d := Decide(local, remote, base, o);
            var localMoved, remoteMoved := MetaHash(local) != base, MetaHash(remote) != base;
            && (d == DoNothing <==> MetaHash(local) == MetaHash(remote))
            && (local.Some? && remote.None? ==> d == (if localMoved then Upload else DeleteLocal))
            && (local.None? && remote.Some? ==>
                  d == (if !remoteMoved && !o.initialPull then DeleteRemote else Download))
            && (d == DeleteLocal <==> local.Some? && remote.None? && !localMoved)
            && (d == DeleteRemote <==> local.None? && remote.Some? && !remoteMoved && !o.initialPull)
            && (local.Some? && remote.Some? && MetaHash(local) != MetaHash(remote) ==>
                  var h, r := local.value.entry.hash, remote.value.entry;
                  var lost := !localMoved && !DescendsFrom(r, h) && o.replacedHash == Some(Some(r.hash));
                  var clash := base != None && remoteMoved && !lost && (localMoved || MayHaveRaced(h, r, o));
                  if base == None then d == Download
                  else if clash then
                    d == (if o.canMerge then Merge
                          else if local.value.mtime >= remote.value.mtime then Upload else Download)
                  else d == (if remoteMoved && !lost then Download else Upload))
  {
  }

  // ----- publishing one settings file

  /** An upload under way: the content read, the entry it is to replace, and whether its bytes are stored. */
  datatype Pending = Pending(hash: Hash, expected: Option<Hash>, stored: bool)

  /** One device's view; `blobs` are the bytes the server holds, `published` what was ever in the index. */
  datatype Settings = Settings(
    local: Option<Hash>, entry: Option<Entry>, base: Option<Hash>, pending: set<Pending>,
    blobs: set<Hash>, published: set<Hash>)

  const NO_SETTINGS := Settings(None, None, None, {}, {}, {})

  datatype Step =
    | LocalChange(content: Option<Hash>)
    | OutsidePublish(hash: Hash)
    | RemoteChange(entry: Option<Entry>)
    | ReadForUpload(expected: Option<Hash>)
    | StoreBlob(upload: Pending)
    | FinishUpload(upload: Pending)

  /** Publish only if the bytes are stored and neither the file nor the entry changed meanwhile. */
  predicate MayPublish(s: Settings, u: Pending) {
    u in s.pending && u.stored && s.local == Some(u.hash) && HashOf(s.entry) == u.expected
  }

  function Next(s: Settings, a: Step): Settings {
    match a
    case LocalChange(content) => s.(local := content)
    case OutsidePublish(hash) => s.(blobs := s.blobs + {hash}, published := s.published + {hash})
    case RemoteChange(entry) => if entry.Some? && entry.value.hash !in s.published then s else s.(entry := entry)
    case ReadForUpload(expected) =>
      if s.local.None? then s else s.(pending := s.pending + {Pending(s.local.value, expected, false)})
    case StoreBlob(u) =>
      if u !in s.pending then s
      else s.(pending := s.pending - {u} + {u.(stored := true)}, blobs := s.blobs + {u.hash})
    case FinishUpload(u) =>
      var rest := s.(pending := s.pending - {u});
      if !MayPublish(s, u) then rest
      else
        var lineage := LineageAfter(s.entry);
        var entry := Entry(u.hash, Some(u.expected), if lineage == [] then None else Some(Tagged(lineage)));
        rest.(entry := Some(entry), base := Some(u.hash), published := s.published + {u.hash})
  }

  function Run(s: Settings, steps: seq<Step>): Settings
    decreases |steps|
  {
    if steps == [] then s else Run(Next(s, steps[0]), steps[1..])
  }

  /** Whatever the index or the baseline names was published, and whatever was published is stored. */
  predicate Founded(s: Settings) {
    && s.published <= s.blobs
    && (s.entry.Some? ==> s.entry.value.hash in s.published)
    && (s.base.Some? ==> s.base.value in s.published)
    && (forall u :: u in s.pending && u.stored ==> u.hash in s.blobs)
  }

  lemma {:induction false} RunFounded(s: Settings, steps: seq<Step>)
    requires Founded(s)
    ensures Founded(Run(s, steps))
    decreases |steps|
  {
    hide LineageAfter;
    if steps != [] {
      RunFounded(Next(s, steps[0]), steps[1..]);
    }
  }

  /**
   After every run of local edits, remote changes and uploads overtaken by either: what the index and
   the baseline name has its bytes stored; and an upload is published exactly when its bytes are
   stored and file and entry are what they were, as the entry of a publish chain over the one replaced.
   */
  lemma PublishedSettingsAreWellFounded(steps: seq<Step>, u: Pending)
    ensures var s := Run(NO_SETTINGS, steps);
            var s' := Next(s, FinishUpload(u));
            && (s'.entry.Some? ==> s'.entry.value.hash in s'.blobs)
            && (s'.base.Some? ==> s'.base.value in s'.published && s'.base.value in s'.blobs)
            && (if MayPublish(s, u) then
                  && u.hash in s.blobs
                  && s'.entry == PublishChain(s.entry, [u.hash])
                  && s'.entry.value.prev == Some(HashOf(s.entry))
                  && (s.entry.Some? ==> DescendsFrom(s'.entry.value, s.entry.value.hash))
                else s'.entry == s.entry && s'.base == s.base)
  {
    hide LineageAfter;
    RunFounded(NO_SETTINGS, steps);
    RunFounded(Run(NO_SETTINGS, steps), [FinishUpload(u)]);
    assert [u.hash][..0] == [];
    var s := Run(NO_SETTINGS, steps);
    assert Run(s, [FinishUpload(u)]) == Next(s, FinishUpload(u)) by {
      assert [FinishUpload(u)][1..] == [];
    }
  }

  /** An upload that nothing overtakes is published over the entry it was read for, and becomes the baseline. */
  lemma UndisturbedUploadIsPublished(s: Settings)
    requires s.local.Some?
    ensures var expected := HashOf(s.entry);
            var read := Next(s, ReadForUpload(expected));
            var u := Pending(s.local.value, expected, false);
            var stored := Next(read, StoreBlob(u));
            var done := Next(stored, FinishUpload(u.(stored := true)));
            && u in read.pending && u.hash in stored.blobs
            && HashOf(done.entry) == done.base == s.local && done.entry.value.prev == Some(expected)
            && u.hash in done.published && u.(stored := true) !in done.pending
  {
    hide LineageAfter;
  }

  /** A change of the file or of the entry overtakes it: nothing is published. */
  lemma OvertakenUploadIsDropped(s: Settings, u: Pending, a: Step)
    requires || (a.LocalChange? && a.content != Some(u.hash))
             || (a.RemoteChange? && HashOf(a.entry) != u.expected
                 && (a.entry.Some? ==> a.entry.value.hash in s.published))
    ensures var overtaken := Next(s, a);
            var done := Next(overtaken, FinishUpload(u));
            done.entry == overtaken.entry && done.base == s.base && done.published == s.published
  {
    hide LineageAfter;
  }
}
