/** The bounded ancestry that published index entries carry (src/lineage.ts). */
module Lineage {
  import opened Wrappers

  type Hash = string

  const LINEAGE_LENGTH: nat := 8
  const PREFIX_LENGTH: nat := 16

  /** An element of a lineage read from the shared index; anything that is no string is ignored. */
  datatype Tag = Text(text: string) | Junk

  /** `prev` absent is an older client; `Some(None)` is a new path. */
  datatype Entry = Entry(hash: Hash, prev: Option<Option<Hash>>, lineage: Option<seq<Tag>>)

  function Prefix(h: Hash): string {
    if |h| <= PREFIX_LENGTH then h else h[..PREFIX_LENGTH]
  }

  function Texts(tags: seq<Tag>): seq<string> {
    if tags == [] then []
    else if tags[0].Text? then [tags[0].text] + Texts(tags[1..])
    else Texts(tags[1..])
  }

  /** Of a lineage read from the index exactly the strings count, in order. */
  lemma {:induction false} JunkIsIgnored(tags: seq<Tag>, tag: Tag)
    ensures Texts(tags + [tag]) == Texts(tags) + if tag.Text? then [tag.text] else []
    decreases |tags|
  {
    if tags == [] {
      assert tags + [tag] == [tag] && [tag][1..] == [];
    } else {
      assert (tags + [tag])[1..] == tags[1..] + [tag];
      JunkIsIgnored(tags[1..], tag);
    }
  }

  function Window(s: seq<string>): seq<string> {
    if |s| <= LINEAGE_LENGTH then s else s[..LINEAGE_LENGTH]
  }

  /** The lineage a new version replacing `replaced` publishes. */
  function LineageAfter(replaced: Option<Entry>): seq<string> {
    if replaced.None? || replaced.value.hash == "" then []
    else
      var prior := if replaced.value.lineage.Some? then Texts(replaced.value.lineage.value) else [];
      Window([Prefix(replaced.value.hash)] + prior)
  }

  predicate DescendsFrom(e: Entry, ancestor: Hash) {
    || e.prev == Some(Some(ancestor))
    || (e.lineage.Some? && Text(Prefix(ancestor)) in e.lineage.value)
  }

  function HashOf(e: Option<Entry>): Option<Hash> {
    if e.None? then None else Some(e.value.hash)
  }

  function Tagged(s: seq<string>): seq<Tag> {
    seq(|s|, i requires 0 <= i < |s| => Text(s[i]))
  }

  /** The entry that publishing `hash` over `replaced` puts in the index. */
  function Publish(replaced: Option<Entry>, hash: Hash): Entry {
    var lineage := LineageAfter(replaced);
    Entry(hash, Some(HashOf(replaced)), if lineage == [] then None else Some(Tagged(lineage)))
  }

  /** Over nothing, or over an entry that names no content, a publish records no ancestors. */
  lemma NoAncestors(replaced: Option<Entry>, hash: Hash)
    requires replaced.None? || replaced.value.hash == ""
    ensures Publish(replaced, hash) == Entry(hash, Some(HashOf(replaced)), None)
  {
  }

  /** The entry after publishing `hs` one over the other, starting from `start`. */
  function PublishChain(start: Option<Entry>, hs: seq<Hash>): Option<Entry>
    decreases |hs|
  {
    if hs == [] then start
    else Some(Publish(PublishChain(start, hs[..|hs| - 1]), hs[|hs| - 1]))
  }

  /** The prefixes of `hs`, newest first. */
  function Newest(hs: seq<Hash>): seq<string> {
    seq(|hs|, i requires 0 <= i < |hs| => Prefix(hs[|hs| - 1 - i]))
  }

  lemma {:induction false} TextsTagged(s: seq<string>)
    ensures Texts(Tagged(s)) == s
  {
    if s != [] {
      TextsTagged(s[1..]);
      assert Tagged(s)[1..] == Tagged(s[1..]);
    }
  }

  /** What replacing a published version records: its own prefix, then what it recorded itself. */
  lemma LineageAfterPublish(replaced: Option<Entry>, hash: Hash)
    requires hash != ""
    ensures LineageAfter(Some(Publish(replaced, hash))) == Window([Prefix(hash)] + LineageAfter(replaced))
  {
    hide Prefix, Window;
    TextsTagged(LineageAfter(replaced));
    assert [Prefix(hash)] + [] == [Prefix(hash)];
  }

  lemma NewestSnoc(hs: seq<Hash>, h: Hash)
    ensures Newest(hs + [h]) == [Prefix(h)] + Newest(hs)
  {
  }

  /** What a chain's next publish will record: every version replaced, newest first, cut to the window. */
  lemma {:induction false} LineageOfChain(start: Option<Entry>, hs: seq<Hash>)
    requires forall i :: 0 <= i < |hs| ==> hs[i] != ""
    ensures LineageAfter(PublishChain(start, hs)) == Window(Newest(hs) + LineageAfter(start))
    decreases |hs|
  {
    hide Prefix, Publish;
    if hs == [] {
      assert Newest(hs) + LineageAfter(start) == LineageAfter(start);
    } else {
      hide LineageAfter, Window;
      var before, h := hs[..|hs| - 1], hs[|hs| - 1];
      LineageOfChain(start, before);
      LineageAfterPublish(PublishChain(start, before), h);
      WindowCons(Prefix(h), Newest(before) + LineageAfter(start));
      assert hs == before + [h];
      NewestSnoc(before, h);
      assert [Prefix(h)] + (Newest(before) + LineageAfter(start)) == Newest(hs) + LineageAfter(start);
    }
  }

  lemma WindowCons(x: string, s: seq<string>)
    ensures Window([x] + Window(s)) == Window([x] + s)
  {
  }

  lemma TaggedMembers(s: seq<string>, x: string)
    ensures Text(x) in Tagged(s) <==> x in s
  {
    if x in s {
      var i :| 0 <= i < |s| && s[i] == x;
      assert Tagged(s)[i] == Text(x);
    }
  }

  /** One of the last eight of `hs` starts with the prefix `p`. */
  ghost predicate AmongLast(hs: seq<Hash>, p: string) {
    exists i :: 0 <= i < |hs| && |hs| - i <= LINEAGE_LENGTH && Prefix(hs[i]) == p
  }

  lemma WindowMembers(hs: seq<Hash>, p: string)
    ensures p in Window(Newest(hs)) <==> AmongLast(hs, p)
  {
    hide Prefix;
    var n, window := |hs|, Window(Newest(hs));
    if p in window {
      var k :| 0 <= k < |window| && window[k] == p;
      assert Prefix(hs[n - 1 - k]) == p;
    }
    forall i | 0 <= i < n && n - i <= LINEAGE_LENGTH ensures Prefix(hs[i]) in window {
      assert window[n - 1 - i] == Prefix(hs[i]);
    }
  }

  /**
   On a path published from scratch, version after version, the newest entry records exactly the
   prefixes of the last eight versions before it, newest first. It recognises as ancestors exactly
   the version it replaced and whatever shares a prefix with one of those, so every real ancestor
   in that window.
   */
  lemma AncestorsRecognised(hs: seq<Hash>, h: Hash, ancestor: Hash)
    requires forall i :: 0 <= i < |hs| ==> hs[i] != ""
    ensures var e := PublishChain(None, hs + [h]).value;
            && e.hash == h
            && e.prev == Some(if hs == [] then None else Some(hs[|hs| - 1]))
            && e.lineage == (if hs == [] then None else Some(Tagged(Window(Newest(hs)))))
            && (DescendsFrom(e, ancestor) <==>
                  (hs != [] && ancestor == hs[|hs| - 1]) || AmongLast(hs, Prefix(ancestor)))
  {
    hide Prefix, AmongLast, LineageAfter;
    assert (hs + [h])[..|hs|] == hs;
    LineageOfChain(None, hs);
    assert LineageAfter(None) == [] by { NothingRecorded(); }
    assert Newest(hs) + [] == Newest(hs);
    TaggedMembers(Window(Newest(hs)), Prefix(ancestor));
    WindowMembers(hs, Prefix(ancestor));
  }

  lemma NothingRecorded()
    ensures LineageAfter(None) == []
  {
  }
}
