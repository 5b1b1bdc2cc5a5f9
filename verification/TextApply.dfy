/**
 Applying a new text to a shared text by rewriting only the changed region (src/diff.ts).

 Texts are sequences of UTF-16 code units. The shared text replaces both halves of a surrogate
 pair with U+FFFD when an operation cuts between them, so the result is right only if no cut
 ever falls inside a pair.
 */
module TextApply {
  type Unit = u: int | 0 <= u < 0x1_0000

  const REPLACEMENT_CHARACTER: Unit := 0xFFFD

  predicate High(u: Unit) { 0xD800 <= u <= 0xDBFF }

  predicate Low(u: Unit) { 0xDC00 <= u <= 0xDFFF }

  /** A surrogate at `i` is half of a pair (section 2 of RFC 2781). */
  predicate PairedAt(s: seq<Unit>, i: nat)
    requires i < |s|
  {
    && (High(s[i]) ==> i + 1 < |s| && Low(s[i + 1]))
    && (Low(s[i]) ==> i > 0 && High(s[i - 1]))
  }

  predicate WellFormed(s: seq<Unit>) {
    forall i :: 0 <= i < |s| ==> PairedAt(s, i)
  }

  /** The position `i` lies inside a surrogate pair of `s`. */
  predicate Splits(s: seq<Unit>, i: nat) {
    0 < i < |s| && High(s[i - 1]) && Low(s[i])
  }

  /** Cut `s` at `i`, spoiling a pair the cut falls into. */
  function Cut(s: seq<Unit>, i: nat): (r: seq<Unit>)
    ensures |r| == |s|
  {
    if Splits(s, i) then s[i - 1 := REPLACEMENT_CHARACTER][i := REPLACEMENT_CHARACTER] else s
  }

  function AfterDelete(s: seq<Unit>, at: nat, count: nat): seq<Unit>
    requires at + count <= |s|
  {
    var t := Cut(Cut(s, at), at + count);
    t[..at] + t[at + count..]
  }

  function AfterInsert(s: seq<Unit>, at: nat, text: seq<Unit>): seq<Unit>
    requires at <= |s|
  {
    var t := Cut(s, at);
    t[..at] + text + t[at..]
  }

  class YText {
    var content: seq<Unit>

    method Delete(at: nat, count: nat)
      requires at + count <= |content|
      modifies this
      ensures content == AfterDelete(old(content), at, count)
    {
      content := Cut(Cut(content, at), at + count);
      content := content[..at] + content[at + count..];
    }

    method Insert(at: nat, text: seq<Unit>)
      requires at <= |content|
      modifies this
      ensures content == AfterInsert(old(content), at, text)
    {
      content := Cut(content, at);
      content := content[..at] + text + content[at..];
    }
  }

  // ----- the changed region

  /** How far two texts agree from `i` on. */
  function PrefixFrom(a: seq<Unit>, b: seq<Unit>, i: nat): (n: nat)
    requires i <= |a| && i <= |b|
    ensures i <= n <= |a| && n <= |b|
    decreases |a| - i
  {
    if i < |a| && i < |b| && a[i] == b[i] then PrefixFrom(a, b, i + 1) else i
  }

  /** How far two texts agree from their ends, not beyond `lo`. */
  function SuffixFrom(a: seq<Unit>, b: seq<Unit>, lo: nat, i: nat, j: nat): (r: (nat, nat))
    requires lo <= i <= |a| && lo <= j <= |b|
    ensures lo <= r.0 <= i && lo <= r.1 <= j
  {
    if i > lo && j > lo && a[i - 1] == b[j - 1] then SuffixFrom(a, b, lo, i - 1, j - 1) else (i, j)
  }

  /** The common prefix, one unit less if it ends with a high surrogate. */
  function StartOf(a: seq<Unit>, b: seq<Unit>): (start: nat)
    ensures start <= |a| && start <= |b|
  {
    var n := PrefixFrom(a, b, 0);
    if n > 0 && High(a[n - 1]) then n - 1 else n
  }

  datatype Region = Region(start: nat, endOld: nat, endNew: nat)

  /** What is rewritten to make `b` of `a`; the common suffix is one unit less if it begins with a low surrogate. */
  function RegionOf(a: seq<Unit>, b: seq<Unit>): Region {
    var start := StartOf(a, b);
    var (i, j) := SuffixFrom(a, b, start, |a|, |b|);
    if i < |a| && Low(a[i]) then Region(start, i + 1, j + 1) else Region(start, i, j)
  }

  method CommonStart(old_: seq<Unit>, new_: seq<Unit>) returns (start: nat)
    ensures start == StartOf(old_, new_)
    ensures start <= |old_| && start <= |new_| && old_[..start] == new_[..start]
    ensures !Splits(old_, start) && !Splits(new_, start)
    ensures start < |old_| && start < |new_| ==> old_[start] != new_[start] || High(old_[start])
    ensures start > 0 && High(old_[start - 1]) ==> start < |old_| && High(old_[start])
  {
    start := 0;
    var maxStart := if |old_| <= |new_| then |old_| else |new_|;
    while start < maxStart && old_[start] == new_[start]
      invariant start <= maxStart && PrefixFrom(old_, new_, start) == PrefixFrom(old_, new_, 0)
      invariant forall i :: 0 <= i < start ==> old_[i] == new_[i]
    {
      start := start + 1;
    }
    if start > 0 && High(old_[start - 1]) {
      start := start - 1;
    }
  }

  lemma SuffixesAgree(a: seq<Unit>, b: seq<Unit>, i: nat, j: nat)
    requires i <= |a| && j <= |b| && |a| - i == |b| - j
    requires forall k :: i <= k < |a| ==> a[k] == b[k + (|b| - |a|)]
    ensures a[i..] == b[j..]
  {
    forall k | 0 <= k < |a| - i ensures a[i..][k] == b[j..][k] {
      assert a[i + k] == b[i + k + (|b| - |a|)];
    }
  }

  /**
   The region in which two texts differ: what is before and behind it is common, it is cut as
   tightly as whole characters allow, and, whatever the texts, none of its four ends lies inside
   a surrogate pair.
   */
  method ChangedRegion(old_: seq<Unit>, new_: seq<Unit>) returns (start: nat, endOld: nat, endNew: nat)
    ensures Region(start, endOld, endNew) == RegionOf(old_, new_)
    ensures start <= endOld <= |old_| && start <= endNew <= |new_|
    ensures old_[..start] == new_[..start] && old_[endOld..] == new_[endNew..]
    ensures !Splits(old_, start) && !Splits(old_, endOld) && !Splits(new_, start) && !Splits(new_, endNew)
    ensures start < |old_| && start < |new_| ==> old_[start] != new_[start] || High(old_[start])
    ensures start < endOld && start < endNew ==> old_[endOld - 1] != new_[endNew - 1] || Low(old_[endOld - 1])
    ensures start > 0 && High(old_[start - 1]) ==> start < |old_| && High(old_[start])
    ensures endOld < |old_| && Low(old_[endOld]) ==> start < endOld && Low(old_[endOld - 1])
  {
    hide StartOf;
    start := CommonStart(old_, new_);
    endOld, endNew := |old_|, |new_|;
    while endOld > start && endNew > start && old_[endOld - 1] == new_[endNew - 1]
      invariant start <= endOld <= |old_| && start <= endNew <= |new_|
      invariant |old_| - endOld == |new_| - endNew
      invariant SuffixFrom(old_, new_, start, endOld, endNew) == SuffixFrom(old_, new_, start, |old_|, |new_|)
      invariant forall i :: endOld <= i < |old_| ==> old_[i] == new_[i + (|new_| - |old_|)]
    {
      endOld := endOld - 1;
      endNew := endNew - 1;
    }
    if endOld < |old_| && Low(old_[endOld]) {
      assert old_[endOld] == new_[endNew];
      endOld := endOld + 1;
      endNew := endNew + 1;
    }
    SuffixesAgree(old_, new_, endOld, endNew);
    assert endOld < |old_| ==> old_[endOld..][0] == new_[endNew..][0];
  }

  /** A slice between two positions that split no pair is well formed if the whole is. */
  lemma SliceWellFormed(s: seq<Unit>, i: nat, j: nat)
    requires WellFormed(s) && i <= j <= |s| && !Splits(s, i) && !Splits(s, j)
    ensures WellFormed(s[i..j])
  {
    var t := s[i..j];
    forall k | 0 <= k < |t| ensures PairedAt(t, k) {
      var m := i + k;
      assert t[k] == s[m] && PairedAt(s, m);
      assert k > 0 ==> t[k - 1] == s[m - 1];
      assert k + 1 < |t| ==> t[k + 1] == s[m + 1];
      assert k == 0 ==> m == i;
      assert k + 1 == |t| ==> m + 1 == j;
    }
  }

  /** Removing `s[start..end]` brings two halves together that then look like a pair. */
  predicate Joins(s: seq<Unit>, start: nat, end: nat) {
    0 < start <= end < |s| && High(s[start - 1]) && Low(s[end])
  }

  /** Two high halves in a row end at `i`, and two low ones in a row begin at `j`, behind them. */
  predicate StraysAt(s: seq<Unit>, i: int, j: int) {
    0 < i < j < |s| - 1 && High(s[i - 1]) && High(s[i]) && Low(s[j]) && Low(s[j + 1])
  }

  /** Stray halves on both sides of a place. */
  ghost predicate HasStrays(s: seq<Unit>) {
    exists i, j :: StraysAt(s, i, j)
  }

  lemma WellFormedHasNoStrays(s: seq<Unit>)
    requires WellFormed(s)
    ensures !HasStrays(s)
  {
    forall i, j ensures !StraysAt(s, i, j) {
      assert 0 < i <= |s| ==> PairedAt(s, i - 1);
    }
  }

  /** Deleting a range and inserting in its place, when no cut splits a pair of `s`. */
  lemma Rewritten(s: seq<Unit>, start: nat, end: nat, text: seq<Unit>)
    requires start <= end <= |s| && !Splits(s, start) && !Splits(s, end)
    ensures AfterDelete(s, start, end - start) == s[..start] + s[end..]
    ensures text != [] ==>
              (AfterInsert(s[..start] + s[end..], start, text) == s[..start] + text + s[end..] <==>
               !Joins(s, start, end))
  {
    var t := s[..start] + s[end..];
    assert t[..start] == s[..start] && t[start..] == s[end..];
    assert Splits(t, start) <==> Joins(s, start, end);
    if Joins(s, start, end) {
      assert AfterInsert(t, start, text)[start - 1] == REPLACEMENT_CHARACTER;
      assert (s[..start] + text + s[end..])[start - 1] == s[start - 1];
    }
  }

  /** Rewriting `a` into `b` inserts between two halves that the deletion brought together. */
  predicate Spoils(a: seq<Unit>, b: seq<Unit>) {
    var r := RegionOf(a, b);
    a != b && r.start < r.endNew && Joins(a, r.start, r.endOld)
  }

  /**
   The shared text ends up exactly the new one if and only if the two texts do not spoil it, which a text
   without stray halves on both sides of the change, and in particular a well-formed one, never does. The
   deleted and inserted pieces are the changed region of the two texts, and well formed if the texts are.
   */
  method ApplyText(ytext: YText, newText: seq<Unit>) returns (start: nat, deleted: seq<Unit>, inserted: seq<Unit>)
    modifies ytext
    ensures start + |deleted| <= |old(ytext.content)| && deleted == old(ytext.content)[start..start + |deleted|]
    ensures start + |inserted| <= |newText| && inserted == newText[start..start + |inserted|]
    ensures old(ytext.content) != newText ==>
              Region(start, start + |deleted|, start + |inserted|) == RegionOf(old(ytext.content), newText)
    ensures ytext.content == newText <==> !Spoils(old(ytext.content), newText)
    ensures WellFormed(old(ytext.content)) ==> ytext.content == newText && WellFormed(deleted)
    ensures WellFormed(newText) ==> WellFormed(inserted)
  {
    hide AfterDelete, AfterInsert, WellFormed, Splits, HasStrays, Joins, RegionOf;
    var oldText := ytext.content;
    if WellFormed(oldText) {
      WellFormedHasNoStrays(oldText);
      if Spoils(oldText, newText) { SpoiledHasStrays(oldText, newText); }
    }
    if oldText == newText {
      NothingWellFormed();
      return 0, [], [];
    }
    var endOld, endNew;
    start, endOld, endNew := ChangedRegion(oldText, newText);
    deleted, inserted := oldText[start..endOld], newText[start..endNew];
    if WellFormed(newText) { SliceWellFormed(newText, start, endNew); }
    if WellFormed(oldText) { SliceWellFormed(oldText, start, endOld); }
    AppliedExactly(oldText, newText, start, endOld, endNew);
    if |deleted| > 0 {
      ytext.Delete(start, |deleted|);
    }
    if |inserted| > 0 {
      ytext.Insert(start, inserted);
    }
  }

  /** What the two operations on a changed region make of the old text. */
  lemma AppliedExactly(old_: seq<Unit>, new_: seq<Unit>, start: nat, endOld: nat, endNew: nat)
    requires start <= endOld <= |old_| && start <= endNew <= |new_|
    requires old_[..start] == new_[..start] && old_[endOld..] == new_[endNew..]
    requires !Splits(old_, start) && !Splits(old_, endOld)
    ensures var cut := if start < endOld then AfterDelete(old_, start, endOld - start) else old_;
            && start <= |cut|
            && ((if start < endNew then AfterInsert(cut, start, new_[start..endNew]) else cut) == new_ <==>
                start == endNew || !Joins(old_, start, endOld))
  {
    hide AfterDelete, AfterInsert, Splits, Joins;
    var text := new_[start..endNew];
    Rewritten(old_, start, endOld, text);
    assert start == endOld ==> old_[..start] + old_[endOld..] == old_;
    assert new_ == new_[..start] + text + new_[endNew..];
    assert start == endNew ==> new_ == new_[..start] + new_[endNew..];
  }

  // ----- which texts can be spoiled

  /** The scans agree as far as the texts do and stop where they first differ. */
  lemma {:induction false} PrefixStops(a: seq<Unit>, b: seq<Unit>, i: nat, n: nat)
    requires i <= n <= |a| && n <= |b| && (forall k :: i <= k < n ==> a[k] == b[k])
    requires n < |a| && n < |b| ==> a[n] != b[n]
    ensures PrefixFrom(a, b, i) == n
    decreases n - i
  {
    if i < n { PrefixStops(a, b, i + 1, n); }
  }

  lemma {:induction false} SuffixStops(a: seq<Unit>, b: seq<Unit>, lo: nat, i: nat, j: nat, m: nat)
    requires lo + m <= i <= |a| && lo + m <= j <= |b| && a[i - m..i] == b[j - m..j]
    requires i - m > lo && j - m > lo ==> a[i - m - 1] != b[j - m - 1]
    ensures SuffixFrom(a, b, lo, i, j) == (i - m, j - m)
    decreases m
  {
    if m > 0 {
      assert a[i - 1] == a[i - m..i][m - 1] == b[j - m..j][m - 1] == b[j - 1];
      assert a[i - m..i - 1] == a[i - m..i][..m - 1] == b[j - m..j][..m - 1] == b[j - m..j - 1];
      SuffixStops(a, b, lo, i - 1, j - 1, m - 1);
    }
  }

  /** Spoiling takes stray halves on both sides. */
  lemma SpoiledHasStrays(a: seq<Unit>, b: seq<Unit>)
    requires Spoils(a, b)
    ensures HasStrays(a)
  {
    var r := RegionOf(a, b);
    var n, i := PrefixFrom(a, b, 0), SuffixFrom(a, b, r.start, |a|, |b|).0;
    assert r.start == n - 1 && High(a[r.start - 1]) && High(a[r.start]);
    assert r.endOld == i + 1 && Low(a[i]) && Low(a[i + 1]);
    assert StraysAt(a, r.start, i);
  }

  /** An edit that replaces what is between two high and two low halves. */
  lemma EditedRegion(a: seq<Unit>, i: nat, j: nat, y: Unit)
    requires StraysAt(a, i, j) && y != a[i + 1] && y != a[j - 1]
    ensures Spoils(a, a[..i + 1] + [y] + a[j..])
  {
    hide SuffixFrom, PrefixFrom;
    var b := a[..i + 1] + [y] + a[j..];
    var m := |a| - j;
    assert forall k :: 0 <= k < i + 1 ==> a[k] == b[k];
    PrefixStops(a, b, 0, i + 1);
    assert a[|a| - m..|a|] == a[j..] == b[|b| - m..|b|];
    SuffixStops(a, b, i, |a|, |b|, m);
    assert RegionOf(a, b) == Region(i, j + 1, i + 3);
    assert b[i + 1] == y;
  }

  /**
   The exact condition on the old text alone: some edit spoils it if and only if somewhere in it two high
   halves in a row are followed by two low ones.
   */
  lemma SpoilableExactlyWithStrays(a: seq<Unit>)
    ensures (exists b :: Spoils(a, b)) <==> HasStrays(a)
  {
    hide Spoils;
    if b :| Spoils(a, b) { SpoiledHasStrays(a, b); }
    if i, j :| StraysAt(a, i, j) {
      var y: Unit := if a[i + 1] != 0 && a[j - 1] != 0 then 0 else if a[i + 1] != 1 && a[j - 1] != 1 then 1 else 2;
      EditedRegion(a, i, j, y);
    }
  }

  /** A failing input: between two high and two low surrogates one unit is replaced by another. */
  lemma StrayHalvesAreSpoiled(h: Unit, l: Unit, x: Unit, y: Unit)
    requires High(h) && Low(l) && x != y
    ensures Spoils([h, h, x, l, l], [h, h, y, l, l])
  {
    var a, b := [h, h, x, l, l], [h, h, y, l, l];
    PrefixStops(a, b, 0, 2);
    SuffixStops(a, b, 1, 5, 5, 2);
  }

  lemma NothingWellFormed()
    ensures WellFormed([])
  {
  }
}
