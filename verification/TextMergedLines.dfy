/**
 The merged text splits back into the merged lines: no interior line of a merge lacks its
 terminator, although any of the three texts may end without one.
 */
module TextMergedLines {
  import opened TextLines
  import opened TextMerge
  import opened TextThreeWay

  predicate AllTerminated(ls: seq<Line>) {
    forall i :: 0 <= i < |ls| ==> Terminated(ls[i])
  }

  lemma JoinInterior(a: seq<Line>, b: seq<Line>)
    ensures InteriorTerminated(a + b) <==>
            if b == [] then InteriorTerminated(a) else AllTerminated(a) && InteriorTerminated(b)
  {
    var ab := a + b;
    if b == [] {
      assert ab == a;
    } else {
      if InteriorTerminated(ab) {
        forall i | 0 <= i < |a| ensures Terminated(a[i]) { assert ab[i] == a[i]; }
        forall i | 0 <= i < |b| - 1 ensures Terminated(b[i]) { assert ab[|a| + i] == b[i]; }
      }
    }
  }

  /**
   How an edit of one side sits among the lines: its replacement may end unterminated only if it
   reaches the end of the base, and it may follow an unterminated base line only with nothing.
   */
  predicate Sits(base: seq<Line>, e: TextEdit) {
    && AllProper(e.replacement)
    && InteriorTerminated(e.replacement)
    && (e.end < |base| ==> AllTerminated(e.replacement))
    && (0 < e.start <= |base| && e.replacement != [] ==> Terminated(base[e.start - 1]))
  }

  /** Something always follows an edit that ends before the base does. */
  lemma RestNotEmpty(base: seq<Line>, es: seq<TextEdit>, end: nat)
    requires Spaced(es, end + 1, |base|) && end < |base|
    ensures Apply(base, es, end) != []
  {
    if es != [] {
      assert base[end..es[0].start] != [];
    }
  }

  /** Every edit of a side whose result is properly split sits properly. */
  lemma {:induction false} SideSits(base: seq<Line>, es: seq<TextEdit>, lo: nat, from: nat)
    requires Spaced(es, lo, |base|) && from <= lo && (from < lo || from == 0)
    requires AllProper(Apply(base, es, from)) && InteriorTerminated(Apply(base, es, from))
    ensures forall e :: e in es ==> Sits(base, e)
    decreases |es|
  {
    if es != [] {
      var e, copied, rest := es[0], Slice(base, from, es[0].start), Apply(base, es[1..], es[0].end);
      var all := Apply(base, es, from);
      assert all == copied + e.replacement + rest;
      ProperParts(copied + e.replacement, rest);
      ProperParts(copied, e.replacement);
      JoinInterior(copied + e.replacement, rest);
      JoinInterior(copied, e.replacement);
      if rest != [] {
        assert InteriorTerminated(copied + e.replacement);
        TerminatedParts(copied, e.replacement);
      }
      if e.end < |base| { RestNotEmpty(base, es[1..], e.end); }
      if 0 < e.start && e.replacement != [] {
        assert copied != [] && copied[|copied| - 1] == base[e.start - 1];
      }
      assert Sits(base, e);
      SideSits(base, es[1..], e.end + 1, e.end);
      assert forall x :: x in es <==> x == e || x in es[1..];
    }
  }

  lemma ProperParts(a: seq<Line>, b: seq<Line>)
    ensures AllProper(a + b) <==> AllProper(a) && AllProper(b)
  {
    if AllProper(a + b) {
      forall i | 0 <= i < |a| ensures Proper(a[i]) { assert (a + b)[i] == a[i]; }
      forall i | 0 <= i < |b| ensures Proper(b[i]) { assert (a + b)[|a| + i] == b[i]; }
    }
  }

  lemma TerminatedParts(a: seq<Line>, b: seq<Line>)
    ensures AllTerminated(a + b) <==> AllTerminated(a) && AllTerminated(b)
  {
    if AllTerminated(a + b) {
      forall i | 0 <= i < |a| ensures Terminated(a[i]) { assert (a + b)[i] == a[i]; }
      forall i | 0 <= i < |b| ensures Terminated(b[i]) { assert (a + b)[|a| + i] == b[i]; }
    }
  }

  /** Properly sitting edits in a chain, applied to properly split lines, give properly split lines. */
  lemma {:induction false} ChainSplits(base: seq<Line>, es: seq<TextEdit>, offset: nat)
    requires IsSplit(base) && Chain(es) && Within(es, |base|) && offset <= |base|
    requires forall e :: e in es ==> Sits(base, e)
    requires es != [] ==> offset <= es[0].start
    ensures IsSplit(Apply(base, es, offset))
    decreases |es|
  {
    if es != [] {
      var e, copied, rest := es[0], Slice(base, offset, es[0].start), Apply(base, es[1..], es[0].end);
      assert e in es;
      if |es| > 1 { assert Before(es[0], es[1]); }
      assert forall x :: x in es[1..] ==> x in es;
      ChainSplits(base, es[1..], e.end);
      if e.end == |base| {
        assert es[1..] == [] && rest == [];
      } else {
        assert AllTerminated(e.replacement);
      }
      CopiedTerminated(base, offset, e);
      ProperParts(copied + e.replacement, rest);
      ProperParts(copied, e.replacement);
      TerminatedParts(copied, e.replacement);
      JoinInterior(copied + e.replacement, rest);
      JoinInterior(copied, e.replacement);
    }
  }

  lemma CopiedTerminated(base: seq<Line>, offset: nat, e: TextEdit)
    requires IsSplit(base) && Sits(base, e) && offset <= e.start <= e.end <= |base|
    ensures var copied := Slice(base, offset, e.start);
            && AllProper(copied) && InteriorTerminated(copied)
            && (e.start < |base| || e.replacement != [] ==> AllTerminated(copied))
  {
    var copied := Slice(base, offset, e.start);
    forall i | 0 <= i < |copied| ensures copied[i] == base[offset + i] {}
  }

  /** Splitting the merged content gives exactly the merged lines. */
  lemma MergedSplitsBack(d: Diff, base: string, local: string, remote: string)
    requires DiffContract(d)
    ensures var lines := Lines(base);
            var l, r := Edits(d, lines, Lines(local)), Edits(d, lines, Lines(remote));
            !Conflicting(l, r) ==> Lines(Join(Apply(lines, Combined(l, r), 0))) == Apply(lines, Combined(l, r), 0)
  {
    hide Combined, Conflicting, Edits, Spaced, Apply, Join, Lines, Chain, Sits;
    var lines := Lines(base);
    var l, r := Edits(d, lines, Lines(local)), Edits(d, lines, Lines(remote));
    LinesSplit(base);
    LinesSplit(local);
    LinesSplit(remote);
    EditsReproduce(d, lines, Lines(local));
    EditsReproduce(d, lines, Lines(remote));
    if !Conflicting(l, r) {
      SideSits(lines, l, 0, 0);
      SideSits(lines, r, 0, 0);
      CombinedChain(l, r, |lines|);
      ChainSplits(lines, Combined(l, r), 0);
      SplitIsUnique(Apply(lines, Combined(l, r), 0));
    }
  }

  // ----- what `mergeText` returns

  /** `c` is both sides' edits, each once, in order and disjoint, and each side's own edits give that side back. */
  ghost predicate BothSides(
    c: seq<TextEdit>, l: seq<TextEdit>, r: seq<TextEdit>, base: seq<Line>, local: seq<Line>, remote: seq<Line>)
  {
    && Chain(c) && Within(c, |base|)
    && (forall e :: e in c <==> e in l || e in r)
    && Apply(base, Pick(c, l, true), 0) == local
    && Apply(base, Pick(c, r, true), 0) == remote
  }

  /** Two different edits, one from each side, that are not clear of one another. */
  ghost predicate Clash(l: seq<TextEdit>, r: seq<TextEdit>) {
    exists x, y :: x in l && y in r && x != y && !Apart(x, y)
  }

  lemma ClashIsConflict(l: seq<TextEdit>, r: seq<TextEdit>, n: nat)
    requires Spaced(l, 0, n) && Spaced(r, 0, n)
    ensures Clash(l, r) <==> Conflicting(l, r)
  {
    hide Spaced, Chain;
    SpacedChain(l, 0, n);
    SpacedChain(r, 0, n);
    forall x, y | x in l && y in r && x != y ensures Overlaps(x, y) <==> !Apart(x, y) {
      if !Overlaps(x, y) { ApartUnlessOverlapping(x, y); }
    }
  }

  /** The general path: a conflict exactly on a clash, and otherwise the lines with both sides' edits applied. */
  lemma GeneralExactly(d: Diff, base: string, local: string, remote: string)
    requires DiffContract(d)
    ensures var lines := Lines(base);
            var l, r := Edits(d, lines, Lines(local)), Edits(d, lines, Lines(remote));
            var m := MergeGeneral(d, base, local, remote);
            && (m == Conflict <==> Clash(l, r))
            && (m.Merged? ==>
                  exists c :: BothSides(c, l, r, lines, Lines(local), Lines(remote))
                              && Lines(m.content) == Apply(lines, c, 0))
  {
    hide Combined, Conflicting, Clash, Edits, Spaced, Apply, Join, Lines, Chain;
    var lines := Lines(base);
    var l, r := Edits(d, lines, Lines(local)), Edits(d, lines, Lines(remote));
    EditsReproduce(d, lines, Lines(local));
    EditsReproduce(d, lines, Lines(remote));
    ClashIsConflict(l, r, |lines|);
    MergeIsThreeWay(d, lines, Lines(local), Lines(remote));
    MergedSplitsBack(d, base, local, remote);
    if !Conflicting(l, r) { assert BothSides(Combined(l, r), l, r, lines, Lines(local), Lines(remote)); }
  }

  /**
   What `mergeText` returns, for all texts. It is a conflict if and only if the three texts differ
   pairwise and two different edits, one from each side, are not clear of one another. If two of the
   texts are equal it is the odd one out. Otherwise it is the text whose lines are the base with both
   sides' edits applied, each once, of which each side's own edits alone give that side back. If the diff
   finds no change between equal texts, that holds of every merged text.
   */
  lemma MergeTextExactly(d: Diff, base: string, local: string, remote: string)
    requires DiffContract(d)
    ensures var lines := Lines(base);
            var l, r := Edits(d, lines, Lines(local)), Edits(d, lines, Lines(remote));
            var differ := local != remote && local != base && remote != base;
            var m := MergeText(d, base, local, remote);
            && (m == Conflict <==> differ && Clash(l, r))
            && (!differ ==> m == Merged(if local == base then remote else local))
            && (m.Merged? && (differ || NoSpuriousChange(d)) ==>
                  exists c :: BothSides(c, l, r, lines, Lines(local), Lines(remote))
                              && Lines(m.content) == Apply(lines, c, 0))
  {
    hide Clash, Edits, Apply, Lines, MergeGeneral, BothSides;
    GeneralExactly(d, base, local, remote);
    if NoSpuriousChange(d) { ShortcutsAgree(d, base, local, remote); }
  }
}
