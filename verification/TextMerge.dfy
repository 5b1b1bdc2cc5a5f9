/**
 The conservative line-oriented three-way merge (src/textMerge.ts). The array diff is a parameter:
 a function whose parts rebuild both of its arguments.
 */
module TextMerge {
  import opened Wrappers
  import opened TextLines

  datatype Kind = Kept | Added | Removed

  datatype Change = Change(kind: Kind, value: seq<Line>)

  type Diff = (seq<Line>, seq<Line>) -> seq<Change>

  /** The side of a list of changes that keeps what was there (`Removed`) or what came (`Added`). */
  function Side(cs: seq<Change>, dropped: Kind): seq<Line> {
    if cs == [] then []
    else (if cs[0].kind == dropped then [] else cs[0].value) + Side(cs[1..], dropped)
  }

  ghost predicate IsDiff(base: seq<Line>, next: seq<Line>, cs: seq<Change>) {
    && (forall i :: 0 <= i < |cs| ==> cs[i].value != [])
    && Side(cs, Added) == base
    && Side(cs, Removed) == next
  }

  ghost predicate DiffContract(d: Diff) {
    forall base, next :: IsDiff(base, next, d(base, next))
  }

  datatype TextEdit = TextEdit(start: nat, end: nat, replacement: seq<Line>)

  // ----- edits

  function Flush(pending: Option<TextEdit>): seq<TextEdit> {
    if pending.None? then [] else [pending.value]
  }

  /** One change, given the offset into the base and the edit being collected. */
  function Collect(c: Change, offset: nat, pending: Option<TextEdit>): (nat, Option<TextEdit>) {
    if c.kind == Kept then (offset + |c.value|, None)
    else
      var edit := if pending.None? then TextEdit(offset, offset, []) else pending.value;
      if c.kind == Removed then (offset + |c.value|, Some(edit.(end := offset + |c.value|)))
      else (offset, Some(edit.(replacement := edit.replacement + c.value)))
  }

  function EditsFrom(cs: seq<Change>, offset: nat, pending: Option<TextEdit>): seq<TextEdit>
    decreases |cs|
  {
    if cs == [] then Flush(pending)
    else
      var (next, collected) := Collect(cs[0], offset, pending);
      (if cs[0].kind == Kept then Flush(pending) else []) + EditsFrom(cs[1..], next, collected)
  }

  function Edits(d: Diff, base: seq<Line>, next: seq<Line>): seq<TextEdit> {
    EditsFrom(d(base, next), 0, None)
  }

  /** One turn of the edit loop, seen from the edits already flushed. */
  lemma EditsStep(cs: seq<Change>, i: nat, offset: nat, pending: Option<TextEdit>, flushed: seq<TextEdit>)
    requires i < |cs|
    ensures var (next, collected) := Collect(cs[i], offset, pending);
            var now := if cs[i].kind == Kept && pending.Some? then flushed + [pending.value] else flushed;
            flushed + EditsFrom(cs[i..], offset, pending) == now + EditsFrom(cs[i + 1..], next, collected)
  {
    hide Collect;
    var (next, collected) := Collect(cs[i], offset, pending);
    var rest := EditsFrom(cs[i + 1..], next, collected);
    assert cs[i..][1..] == cs[i + 1..];
    if cs[i].kind == Kept && pending.Some? {
      assert flushed + ([pending.value] + rest) == flushed + [pending.value] + rest;
    } else {
      assert [] + rest == rest;
    }
  }

  lemma NoMoreEdits(offset: nat, pending: Option<TextEdit>)
    ensures EditsFrom([], offset, pending) == Flush(pending)
  {
  }

  /** The edit loop as the plugin runs it. */
  method ComputeEdits(d: Diff, base: seq<Line>, next: seq<Line>) returns (result: seq<TextEdit>)
    ensures result == Edits(d, base, next)
  {
    hide EditsFrom;
    result := [];
    var baseOffset: nat := 0;
    var pending: Option<TextEdit> := None;
    var changes := d(base, next);
    var i := 0;
    while i < |changes|
      invariant i <= |changes|
      invariant result + EditsFrom(changes[i..], baseOffset, pending) == EditsFrom(changes, 0, None)
    {
      var change := changes[i];
      ghost var collected := Collect(change, baseOffset, pending);
      EditsStep(changes, i, baseOffset, pending, result);
      if change.kind == Kept {
        if pending.Some? {
          result := result + [pending.value];
          pending := None;
        }
        baseOffset := baseOffset + |change.value|;
      } else {
        if pending.None? {
          pending := Some(TextEdit(baseOffset, baseOffset, []));
        }
        if change.kind == Removed {
          baseOffset := baseOffset + |change.value|;
          pending := Some(pending.value.(end := baseOffset));
        } else {
          pending := Some(pending.value.(replacement := pending.value.replacement + change.value));
        }
      }
      assert (baseOffset, pending) == collected;
      i := i + 1;
    }
    assert changes[i..] == [];
    NoMoreEdits(baseOffset, pending);
    if pending.Some? {
      result := result + [pending.value];
    }
  }

  /** JavaScript's `slice` for non-negative bounds. */
  function Slice(s: seq<Line>, lo: nat, hi: nat): seq<Line> {
    var top := if hi <= |s| then hi else |s|;
    if lo <= top then s[lo..top] else []
  }

  /** Copy the base from `offset`, putting each edit's replacement in the place of its range. */
  function Apply(base: seq<Line>, es: seq<TextEdit>, offset: nat): seq<Line>
    decreases |es|
  {
    if es == [] then Slice(base, offset, |base|)
    else Slice(base, offset, es[0].start) + es[0].replacement + Apply(base, es[1..], es[0].end)
  }

  /** Edits in order within the base, each separated from the next by at least one kept line. */
  predicate Spaced(es: seq<TextEdit>, lo: nat, n: nat)
    decreases |es|
  {
    es == [] || (lo <= es[0].start <= es[0].end <= n && Spaced(es[1..], es[0].end + 1, n))
  }

  /** What stands before the unread changes when copying from `from`: base lines, then the pending replacement. */
  function Head(base: seq<Line>, from: nat, offset: nat, pending: Option<TextEdit>): seq<Line> {
    if pending.None? then Slice(base, from, offset)
    else Slice(base, from, pending.value.start) + pending.value.replacement
  }

  /** `pending` is an edit that ends at `offset`, and copying has not passed its start. */
  predicate Collecting(base: seq<Line>, offset: nat, pending: Option<TextEdit>, from: nat, lo: nat) {
    && offset <= |base|
    && (pending.None? ==> from <= offset && lo <= offset)
    && (pending.Some? ==> lo <= pending.value.start && from <= pending.value.start <= pending.value.end == offset)
  }

  lemma SliceAppend(base: seq<Line>, a: nat, b: nat, c: nat)
    requires a <= b <= c <= |base|
    ensures Slice(base, a, b) + Slice(base, b, c) == Slice(base, a, c)
  {
  }

  lemma SideStep(base: seq<Line>, cs: seq<Change>, offset: nat)
    requires cs != [] && offset <= |base| && Side(cs, Added) == base[offset..]
    ensures var next := if cs[0].kind == Added then offset else offset + |cs[0].value|;
            && next <= |base|
            && Side(cs[1..], Added) == base[next..]
            && (cs[0].kind != Added ==> Slice(base, offset, next) == cs[0].value)
  {
    var v, rest := cs[0].value, Side(cs[1..], Added);
    if cs[0].kind != Added {
      assert base[offset..] == v + rest;
      assert (v + rest)[..|v|] == v && (v + rest)[|v|..] == rest;
      assert base[offset..][..|v|] == base[offset..offset + |v|];
      assert base[offset..][|v|..] == base[offset + |v|..];
    }
  }

  /** Reading a change that is not kept only extends the pending edit. */
  lemma CollectStep(base: seq<Line>, cs: seq<Change>, offset: nat, pending: Option<TextEdit>, from: nat, lo: nat)
    requires cs != [] && cs[0].kind != Kept
    requires Collecting(base, offset, pending, from, lo) && Side(cs, Added) == base[offset..]
    ensures var (next, collected) := Collect(cs[0], offset, pending);
            && EditsFrom(cs, offset, pending) == EditsFrom(cs[1..], next, collected)
            && Collecting(base, next, collected, from, lo)
            && Side(cs[1..], Added) == base[next..]
  {
    hide Slice;
    SideStep(base, cs, offset);
    var (next, collected) := Collect(cs[0], offset, pending);
    assert [] + EditsFrom(cs[1..], next, collected) == EditsFrom(cs[1..], next, collected);
  }

  lemma Regroup(a: seq<Line>, b: seq<Line>, c: seq<Line>, d: seq<Line>)
    ensures (a + b) + (c + d) == (a + (b + c)) + d
  {
  }

  lemma CollectHead(base: seq<Line>, cs: seq<Change>, offset: nat, pending: Option<TextEdit>, from: nat)
    requires cs != [] && cs[0].kind != Kept
    ensures var (next, collected) := Collect(cs[0], offset, pending);
            Head(base, from, offset, pending) + Side(cs, Removed) ==
            Head(base, from, next, collected) + Side(cs[1..], Removed)
  {
    hide Slice;
    var edit := if pending.None? then TextEdit(offset, offset, []) else pending.value;
    var copied := Slice(base, from, edit.start);
    assert Head(base, from, offset, pending) == copied + edit.replacement;
    var v := if cs[0].kind == Added then cs[0].value else [];
    assert edit.replacement + [] == edit.replacement;
    Regroup(copied, edit.replacement, v, Side(cs[1..], Removed));
  }

  /**
   The collected edits rebuild the other side: copying from any earlier point `from` that the
   pending edit has not passed.
   */
  lemma {:induction false} EditsRebuild(
    base: seq<Line>, cs: seq<Change>, offset: nat, pending: Option<TextEdit>, from: nat, lo: nat)
    requires forall i :: 0 <= i < |cs| ==> cs[i].value != []
    requires Collecting(base, offset, pending, from, lo) && Side(cs, Added) == base[offset..]
    ensures var es := EditsFrom(cs, offset, pending);
            && Spaced(es, lo, |base|)
            && Apply(base, es, from) == Head(base, from, offset, pending) + Side(cs, Removed)
    decreases |cs|
  {
    hide Slice, Collect, Apply, Spaced;
    if cs == [] {
      LastEdit(base, offset, pending, from, lo);
    } else if cs[0].kind == Kept {
      SideStep(base, cs, offset);
      KeptCollects(cs[0], offset, pending);
      var v, tail, next := cs[0].value, Side(cs[1..], Removed), offset + |cs[0].value|;
      var rest := EditsFrom(cs[1..], next, None);
      if pending.None? {
        EditsRebuild(base, cs[1..], next, None, from, lo);
        assert [] + rest == rest;
        HeadKept(base, from, offset, next, v, tail);
      } else {
        EditsRebuild(base, cs[1..], next, None, offset, offset + 1);
        ApplyCons(base, pending.value, rest, from, lo);
        assert Head(base, offset, next, None) == v;
      }
    } else {
      var (next, collected) := Collect(cs[0], offset, pending);
      CollectStep(base, cs, offset, pending, from, lo);
      CollectHead(base, cs, offset, pending, from);
      EditsRebuild(base, cs[1..], next, collected, from, lo);
    }
  }

  lemma HeadKept(base: seq<Line>, from: nat, offset: nat, next: nat, v: seq<Line>, tail: seq<Line>)
    requires from <= offset <= next <= |base| && Slice(base, offset, next) == v
    ensures Head(base, from, offset, None) + (v + tail) == Head(base, from, next, None) + tail
  {
    SliceAppend(base, from, offset, next);
    assert Slice(base, from, offset) + (v + tail) == Slice(base, from, offset) + v + tail;
  }

  lemma ApplyCons(base: seq<Line>, e: TextEdit, rest: seq<TextEdit>, from: nat, lo: nat)
    ensures Apply(base, [e] + rest, from) == Slice(base, from, e.start) + e.replacement + Apply(base, rest, e.end)
    ensures Spaced([e] + rest, lo, |base|) <==> lo <= e.start <= e.end <= |base| && Spaced(rest, e.end + 1, |base|)
  {
    assert ([e] + rest)[1..] == rest;
  }

  lemma KeptCollects(c: Change, offset: nat, pending: Option<TextEdit>)
    requires c.kind == Kept
    ensures Collect(c, offset, pending) == (offset + |c.value|, None)
  {
  }

  lemma LastEdit(base: seq<Line>, offset: nat, pending: Option<TextEdit>, from: nat, lo: nat)
    requires Collecting(base, offset, pending, from, lo) && offset == |base|
    ensures Spaced(Flush(pending), lo, |base|)
    ensures Apply(base, Flush(pending), from) == Head(base, from, offset, pending) + []
  {
    if pending.Some? {
      assert Flush(pending)[1..] == [];
      assert Apply(base, [], offset) == [];
    }
  }

  /** The edits of a side, applied to the base, are that side; they never touch or overlap one another. */
  lemma EditsReproduce(d: Diff, base: seq<Line>, next: seq<Line>)
    requires DiffContract(d)
    ensures var es := Edits(d, base, next);
            Spaced(es, 0, |base|) && Apply(base, es, 0) == next
  {
    hide EditsFrom, Apply, Spaced, Side;
    var cs := d(base, next);
    assert IsDiff(base, next, cs);
    assert base[0..] == base;
    EditsRebuild(base, cs, 0, None, 0, 0);
    assert Slice(base, 0, 0) + next == next;
  }
}
