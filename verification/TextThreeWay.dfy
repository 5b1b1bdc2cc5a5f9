/** Combining the two sides' edits of a three-way merge (src/textMerge.ts:43-102). */
module TextThreeWay {
  import opened Wrappers
  import opened TextLines
  import opened TextMerge

  datatype MergeResult = Merged(content: string) | Conflict

  predicate IsInsertion(e: TextEdit) {
    e.start == e.end
  }

  predicate Overlaps(l: TextEdit, r: TextEdit) {
    if IsInsertion(l) && IsInsertion(r) then l.start == r.start
    else if IsInsertion(l) then r.start <= l.start <= r.end
    else if IsInsertion(r) then l.start <= r.start <= l.end
    else l.start < r.end && r.start < l.end
  }

  /** Two different edits, one from each side, that touch the same lines. */
  predicate Conflicting(local: seq<TextEdit>, remote: seq<TextEdit>) {
    exists l, r :: l in local && r in remote && l != r && Overlaps(l, r)
  }

  /** The edits of `es` that are not (or, with `among` true, that are) in `other`, in order. */
  function Pick(es: seq<TextEdit>, other: seq<TextEdit>, among: bool): (r: seq<TextEdit>)
    ensures forall e :: e in r <==> e in es && (e in other) == among
  {
    if es == [] then []
    else
      var rest := Pick(es[1..], other, among);
      if (es[0] in other) == among then [es[0]] + rest else rest
  }

  predicate Less(a: TextEdit, b: TextEdit) {
    a.start < b.start || (a.start == b.start && a.end < b.end)
  }

  function Insert(e: TextEdit, es: seq<TextEdit>): (r: seq<TextEdit>)
    ensures forall x :: x in r <==> x == e || x in es
  {
    if es == [] then [e]
    else if Less(es[0], e) then [es[0]] + Insert(e, es[1..])
    else [e] + es
  }

  /** A stable sort by start, then end. */
  function Sort(es: seq<TextEdit>): (r: seq<TextEdit>)
    ensures forall x :: x in r <==> x in es
  {
    if es == [] then [] else Insert(es[0], Sort(es[1..]))
  }

  function Combined(local: seq<TextEdit>, remote: seq<TextEdit>): seq<TextEdit> {
    Sort(local + Pick(remote, local, false))
  }

  /** The merge without the shortcuts for equal texts. */
  function MergeGeneral(d: Diff, base: string, local: string, remote: string): MergeResult {
    var lines := Lines(base);
    var l := Edits(d, lines, Lines(local));
    var r := Edits(d, lines, Lines(remote));
    if Conflicting(l, r) then Conflict else Merged(Join(Apply(lines, Combined(l, r), 0)))
  }

  function MergeText(d: Diff, base: string, local: string, remote: string): MergeResult {
    if local == remote then Merged(local)
    else if local == base then Merged(remote)
    else if remote == base then Merged(local)
    else MergeGeneral(d, base, local, remote)
  }

  // ----- order

  /** `a` ends before `b` starts; touching only if neither is a mere insertion. */
  predicate Before(a: TextEdit, b: TextEdit) {
    a.end < b.start || (a.end == b.start && !IsInsertion(a) && !IsInsertion(b))
  }

  predicate Apart(a: TextEdit, b: TextEdit) {
    Before(a, b) || Before(b, a)
  }

  predicate Within(es: seq<TextEdit>, n: nat) {
    forall e :: e in es ==> e.start <= e.end <= n
  }

  predicate Chain(es: seq<TextEdit>) {
    forall i, j :: 0 <= i < j < |es| ==> Before(es[i], es[j])
  }

  lemma {:induction false} SpacedChain(es: seq<TextEdit>, lo: nat, n: nat)
    requires Spaced(es, lo, n)
    ensures Chain(es) && Within(es, n)
    ensures forall e :: e in es ==> lo <= e.start
    decreases |es|
  {
    if es != [] {
      SpacedChain(es[1..], es[0].end + 1, n);
      assert forall e :: e in es <==> e == es[0] || e in es[1..];
      assert forall j :: 1 <= j < |es| ==> es[j] in es[1..];
    }
  }

  lemma ConsChain(e: TextEdit, es: seq<TextEdit>)
    requires Chain(es) && forall x :: x in es ==> Before(e, x)
    ensures Chain([e] + es)
  {
    var r := [e] + es;
    forall i, j | 0 <= i < j < |r| ensures Before(r[i], r[j]) {
      assert r[j] == es[j - 1] && es[j - 1] in es;
    }
  }

  lemma StartsBefore(e: TextEdit, es: seq<TextEdit>, n: nat)
    requires es != [] && Chain(es) && Within(es, n) && e.start <= e.end && !Less(es[0], e)
    requires forall x :: x in es ==> Apart(e, x)
    ensures forall x :: x in es ==> Before(e, x)
  {
    assert es[0] in es;
    forall j | 0 <= j < |es| ensures Before(e, es[j]) {
      assert es[j] in es;
    }
  }

  lemma {:induction false} InsertChain(e: TextEdit, es: seq<TextEdit>, n: nat)
    requires Chain(es) && Within(es, n) && e.start <= e.end
    requires forall x :: x in es ==> Apart(e, x)
    ensures Chain(Insert(e, es))
  {
    if es != [] && Less(es[0], e) {
      assert es[0] in es;
      assert forall j :: 1 <= j < |es| ==> es[j] in es[1..];
      InsertChain(e, es[1..], n);
      ConsChain(es[0], Insert(e, es[1..]));
    } else if es != [] {
      StartsBefore(e, es, n);
      ConsChain(e, es);
    }
  }

  lemma {:induction false} SortChain(es: seq<TextEdit>, n: nat)
    requires Within(es, n)
    requires forall i, j :: 0 <= i < j < |es| ==> Apart(es[i], es[j])
    ensures Chain(Sort(es))
  {
    if es != [] {
      assert forall x :: x in es[1..] ==> x in es;
      assert es[0] in es;
      SortChain(es[1..], n);
      InsertChain(es[0], Sort(es[1..]), n);
    }
  }

  /** A chain is determined by its elements. */
  lemma {:induction false} ChainUnique(a: seq<TextEdit>, b: seq<TextEdit>, n: nat)
    requires Chain(a) && Chain(b) && Within(a, n)
    requires forall e :: e in a <==> e in b
    ensures a == b
    decreases |a|
  {
    if a != [] {
      assert a[0] in a && a[0] in b;
      assert b[0] in b && b[0] in a;
      assert a[0] == b[0];
      forall e ensures e in a[1..] <==> e in b[1..] {
        if e in a[1..] { assert e in a && e != a[0] && e in b; }
        if e in b[1..] { assert e in b && e != b[0] && e in a; }
      }
      ChainUnique(a[1..], b[1..], n);
    }
  }

  lemma {:induction false} PickChain(es: seq<TextEdit>, other: seq<TextEdit>, among: bool)
    requires Chain(es)
    ensures Chain(Pick(es, other, among))
  {
    if es != [] {
      PickChain(es[1..], other, among);
      var rest := Pick(es[1..], other, among);
      forall j | 0 <= j < |rest| ensures Before(es[0], rest[j]) {
        assert rest[j] in es[1..];
      }
    }
  }

  lemma ApartUnlessOverlapping(l: TextEdit, r: TextEdit)
    requires l.start <= l.end && r.start <= r.end && !Overlaps(l, r)
    ensures Apart(l, r)
  {
  }

  lemma ConcatApart(a: seq<TextEdit>, b: seq<TextEdit>)
    requires Chain(a) && Chain(b) && forall x, y :: x in a && y in b ==> Apart(x, y)
    ensures forall i, j :: 0 <= i < j < |a + b| ==> Apart((a + b)[i], (a + b)[j])
  {
    hide Before;
    forall i, j | 0 <= i < j < |a + b| ensures Apart((a + b)[i], (a + b)[j]) {
      if i < |a| <= j {
        assert a[i] in a && b[j - |a|] in b;
      }
    }
  }

  /** Without a conflict the combined edits are all of both sides', each once, in order and disjoint. */
  lemma CombinedChain(local: seq<TextEdit>, remote: seq<TextEdit>, n: nat)
    requires Spaced(local, 0, n) && Spaced(remote, 0, n) && !Conflicting(local, remote)
    ensures var c := Combined(local, remote);
            && Chain(c) && Within(c, n)
            && (forall e :: e in c <==> e in local || e in remote)
  {
    hide Spaced, Chain, Overlaps, Apart, Sort;
    SpacedChain(local, 0, n);
    SpacedChain(remote, 0, n);
    var others := Pick(remote, local, false);
    PickChain(remote, local, false);
    forall x, y | x in local && y in others ensures Apart(x, y) {
      ApartUnlessOverlapping(x, y);
    }
    ConcatApart(local, others);
    assert forall e :: e in local + others <==> e in local || e in others;
    SortChain(local + others, n);
  }

  // ----- what a merge means

  /**
   A merge without a conflict is a true three-way merge. The combined edits are disjoint and in
   order, so the copy offset never runs backward; and erasing one side's edits from them leaves
   exactly the other side's, whose application to the base is the other side's text.
   */
  lemma MergeIsThreeWay(d: Diff, base: seq<Line>, local: seq<Line>, remote: seq<Line>)
    requires DiffContract(d)
    ensures var l, r := Edits(d, base, local), Edits(d, base, remote);
            !Conflicting(l, r) ==>
              var c := Combined(l, r);
              && Chain(c) && Within(c, |base|)
              && (forall e :: e in c <==> e in l || e in r)
              && Apply(base, Pick(c, l, true), 0) == local
              && Apply(base, Pick(c, r, true), 0) == remote
  {
    hide Spaced, Chain, Overlaps, Combined, Apply, Edits;
    var l, r := Edits(d, base, local), Edits(d, base, remote);
    EditsReproduce(d, base, local);
    EditsReproduce(d, base, remote);
    if !Conflicting(l, r) {
      var c := Combined(l, r);
      CombinedChain(l, r, |base|);
      SpacedChain(l, 0, |base|);
      SpacedChain(r, 0, |base|);
      PickChain(c, l, true);
      PickChain(c, r, true);
      ChainUnique(l, Pick(c, l, true), |base|);
      ChainUnique(r, Pick(c, r, true), |base|);
    }
  }

  lemma ConflictingSymmetric(l: seq<TextEdit>, r: seq<TextEdit>)
    requires Conflicting(l, r)
    ensures Conflicting(r, l)
  {
    var x, y :| x in l && y in r && x != y && Overlaps(x, y);
    assert Overlaps(y, x);
  }

  /** The combination does not depend on which side is called local. */
  lemma CombinedSymmetric(l: seq<TextEdit>, r: seq<TextEdit>, n: nat)
    requires Spaced(l, 0, n) && Spaced(r, 0, n) && !Conflicting(l, r)
    ensures !Conflicting(r, l) && Combined(l, r) == Combined(r, l)
  {
    hide Combined, Spaced, Chain, Overlaps;
    if Conflicting(r, l) { ConflictingSymmetric(r, l); }
    CombinedChain(l, r, n);
    CombinedChain(r, l, n);
    ChainUnique(Combined(l, r), Combined(r, l), n);
  }

  /** Swapping the sides changes nothing: same verdict, same content. */
  lemma MergeSymmetric(d: Diff, base: string, local: string, remote: string)
    requires DiffContract(d)
    ensures MergeText(d, base, local, remote) == MergeText(d, base, remote, local)
  {
    hide Combined, Conflicting, Edits, Spaced, Apply, Join, Lines;
    var lines := Lines(base);
    var l, r := Edits(d, lines, Lines(local)), Edits(d, lines, Lines(remote));
    EditsReproduce(d, lines, Lines(local));
    EditsReproduce(d, lines, Lines(remote));
    if Conflicting(l, r) {
      ConflictingSymmetric(l, r);
    } else {
      CombinedSymmetric(l, r, |lines|);
    }
  }

  /** Equal inputs have no changes between them: what a minimal diff returns for them. */
  ghost predicate NoSpuriousChange(d: Diff) {
    forall base, c :: c in d(base, base) ==> c.kind == Kept
  }

  lemma {:induction false} KeptOnlyNoEdits(cs: seq<Change>, offset: nat)
    requires forall c :: c in cs ==> c.kind == Kept
    ensures EditsFrom(cs, offset, None) == []
    decreases |cs|
  {
    if cs != [] {
      assert cs[0] in cs;
      KeptOnlyNoEdits(cs[1..], offset + |cs[0].value|);
    }
  }

  /** Merging a side with a side that changed nothing, or with itself, gives that side. */
  lemma MergeWithUnchanged(base: seq<Line>, es: seq<TextEdit>)
    requires Spaced(es, 0, |base|)
    ensures !Conflicting([], es) && !Conflicting(es, []) && !Conflicting(es, es)
    ensures Combined([], es) == es && Combined(es, []) == es && Combined(es, es) == es
  {
    hide Combined, Spaced, Chain;
    SpacedChain(es, 0, |base|);
    assert Spaced([], 0, |base|) by { NothingSpaced(|base|); }
    ChainNotConflicting(es, |base|);
    CombinedChain([], es, |base|);
    CombinedChain(es, [], |base|);
    CombinedChain(es, es, |base|);
    ChainUnique(es, Combined([], es), |base|);
    ChainUnique(es, Combined(es, []), |base|);
    ChainUnique(es, Combined(es, es), |base|);
  }

  lemma NothingSpaced(n: nat)
    ensures Spaced([], 0, n)
  {
  }

  lemma ChainNotConflicting(es: seq<TextEdit>, n: nat)
    requires Chain(es) && Within(es, n)
    ensures !Conflicting(es, es)
  {
    forall l, r | l in es && r in es && l != r ensures !Overlaps(l, r) {
      var i :| 0 <= i < |es| && es[i] == l;
      var j :| 0 <= j < |es| && es[j] == r;
      assert if i < j then Before(es[i], es[j]) else Before(es[j], es[i]);
    }
  }

  /** The three equality shortcuts return what the general merge would. */
  lemma ShortcutsAgree(d: Diff, base: string, local: string, remote: string)
    requires DiffContract(d) && NoSpuriousChange(d)
    ensures MergeText(d, base, local, remote) == MergeGeneral(d, base, local, remote)
  {
    hide Combined, Conflicting, Spaced, Apply, Join, Lines, EditsFrom;
    var lines := Lines(base);
    var l, r := Edits(d, lines, Lines(local)), Edits(d, lines, Lines(remote));
    EditsReproduce(d, lines, Lines(local));
    EditsReproduce(d, lines, Lines(remote));
    LinesSplit(local);
    LinesSplit(remote);
    KeptOnlyNoEdits(d(lines, lines), 0);
    MergeWithUnchanged(lines, l);
    MergeWithUnchanged(lines, r);
  }
}
