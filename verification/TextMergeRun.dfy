/** The merges as the plugin runs them: the loops of `mergeText` and `containsLines` (src/textMerge.ts:66-140). */
module TextMergeRun {
  import opened TextLines
  import opened TextMerge
  import opened TextThreeWay

  /** The remote edits whose index is not marked as a duplicate. */
  method Unmarked(remote: seq<TextEdit>, duplicates: set<nat>, ghost local: seq<TextEdit>) returns (kept: seq<TextEdit>)
    requires forall j :: 0 <= j < |remote| ==> (j in duplicates <==> remote[j] in local)
    ensures kept == Pick(remote, local, false)
  {
    kept := [];
    var j := |remote|;
    while j > 0
      invariant 0 <= j <= |remote|
      invariant kept == Pick(remote[j..], local, false)
    {
      j := j - 1;
      assert remote[j..][1..] == remote[j + 1..];
      if j !in duplicates {
        kept := [remote[j]] + kept;
      }
    }
    assert remote[0..] == remote;
  }

  /** Compare every local edit with every remote one: find a conflict, or the duplicated remote edits. */
  method CompareSides(local: seq<TextEdit>, remote: seq<TextEdit>) returns (conflict: bool, duplicates: set<nat>)
    ensures conflict == Conflicting(local, remote)
    ensures !conflict ==> forall j :: 0 <= j < |remote| ==> (j in duplicates <==> remote[j] in local)
  {
    duplicates := {};
    for i := 0 to |local|
      invariant forall j :: 0 <= j < |remote| ==> (j in duplicates <==> remote[j] in local[..i])
      invariant !Conflicting(local[..i], remote)
    {
      var localEdit := local[i];
      for index := 0 to |remote|
        invariant forall j :: 0 <= j < |remote| ==>
                    (j in duplicates <==> remote[j] in local[..i] || (j < index && remote[j] == localEdit))
        invariant forall j :: 0 <= j < index ==> remote[j] == localEdit || !Overlaps(localEdit, remote[j])
      {
        var remoteEdit := remote[index];
        if localEdit == remoteEdit {
          duplicates := duplicates + {index};
        } else if Overlaps(localEdit, remoteEdit) {
          assert localEdit in local && remoteEdit in remote;
          return true, duplicates;
        }
      }
      assert local[..i + 1] == local[..i] + [localEdit];
    }
    assert local[..|local|] == local;
    conflict := false;
  }

  lemma ApplyStep(base: seq<Line>, es: seq<TextEdit>, i: nat, offset: nat, output: seq<Line>)
    requires i < |es|
    ensures var e := es[i];
            output + Apply(base, es[i..], offset) ==
            output + Slice(base, offset, e.start) + e.replacement + Apply(base, es[i + 1..], e.end)
  {
    hide Slice;
    var e := es[i];
    assert es[i..][1..] == es[i + 1..];
    var a, b, c := Slice(base, offset, e.start), e.replacement, Apply(base, es[i + 1..], e.end);
    assert output + (a + b + c) == output + a + b + c;
  }

  /** Copy the base, replacing each edit's range. */
  method CopyWithEdits(base: seq<Line>, combined: seq<TextEdit>) returns (output: seq<Line>)
    ensures output == Apply(base, combined, 0)
  {
    hide Slice;
    output := [];
    var offset: nat := 0;
    var i := 0;
    while i < |combined|
      invariant i <= |combined|
      invariant output + Apply(base, combined[i..], offset) == Apply(base, combined, 0)
    {
      var edit := combined[i];
      ApplyStep(base, combined, i, offset, output);
      output := output + Slice(base, offset, edit.start) + edit.replacement;
      offset := edit.end;
      i := i + 1;
    }
    output := output + Slice(base, offset, |base|);
  }

  method RunMerge(d: Diff, baseText: string, localText: string, remoteText: string) returns (r: MergeResult)
    ensures r == MergeText(d, baseText, localText, remoteText)
  {
    if localText == remoteText { return Merged(localText); }
    if localText == baseText { return Merged(remoteText); }
    if remoteText == baseText { return Merged(localText); }
    var base := Lines(baseText);
    var local := ComputeEdits(d, base, Lines(localText));
    var remote := ComputeEdits(d, base, Lines(remoteText));
    var conflict, duplicates := CompareSides(local, remote);
    if conflict { return Conflict; }
    var others := Unmarked(remote, duplicates, local);
    var output := CopyWithEdits(base, Sort(local + others));
    r := Merged(Join(output));
  }

  // ----- texts with no shared history

  /** The content of a line: without a final `\\n` or `\\r\\n`. */
  function Content(l: Line): Line {
    if !Terminated(l) then l
    else if |l| > 1 && l[|l| - 2] == '\r' then l[..|l| - 2]
    else l[..|l| - 1]
  }

  function NonBlank(ls: seq<Line>, blank: Line -> bool): seq<Line> {
    if ls == [] then []
    else if blank(Content(ls[0])) then NonBlank(ls[1..], blank)
    else [Content(ls[0])] + NonBlank(ls[1..], blank)
  }

  /** The non-blank lines of a text, without their terminators. */
  function ContentLines(text: string, blank: Line -> bool): seq<Line> {
    NonBlank(Lines(text), blank)
  }

  /** The content of a line is the line up to its terminator. */
  lemma ContentStrips(l: Line)
    ensures var end := if !Terminated(l) then "" else if |l| > 1 && l[|l| - 2] == '\r' then "\r\n" else "\n";
            l == Content(l) + end
  {
  }

  /** The content lines of a text are its lines' contents, in order, without the blank ones. */
  lemma {:induction false} ContentLinesExactly(a: seq<Line>, l: Line, blank: Line -> bool)
    ensures NonBlank(a + [l], blank) == NonBlank(a, blank) + if blank(Content(l)) then [] else [Content(l)]
    ensures NonBlank([], blank) == []
    decreases |a|
  {
    if a == [] {
      assert a + [l] == [l] && [l][1..] == [];
    } else {
      assert (a + [l])[1..] == a[1..] + [l];
      ContentLinesExactly(a[1..], l, blank);
    }
  }

  /** `at` are increasing positions in `hay` from `lo` on that spell out `needles`. */
  ghost predicate Embeds(hay: seq<Line>, needles: seq<Line>, at: seq<nat>, lo: nat) {
    && |at| == |needles|
    && (forall i :: 0 <= i < |at| ==> lo <= at[i] < |hay| && hay[at[i]] == needles[i])
    && (forall i, j :: 0 <= i < j < |at| ==> at[i] < at[j])
  }

  /** `needles` appear in `hay`, in order. */
  ghost predicate InOrder(hay: seq<Line>, needles: seq<Line>, lo: nat) {
    exists at :: Embeds(hay, needles, at, lo)
  }

  /** Taking the earliest match loses nothing. */
  lemma MatchEarliest(hay: seq<Line>, needles: seq<Line>, lo: nat)
    requires needles != [] && lo < |hay|
    ensures InOrder(hay, needles, lo) <==>
            if hay[lo] == needles[0] then InOrder(hay, needles[1..], lo + 1) else InOrder(hay, needles, lo + 1)
  {
    if InOrder(hay, needles, lo) {
      var at :| Embeds(hay, needles, at, lo);
      if hay[lo] == needles[0] {
        assert Embeds(hay, needles[1..], at[1..], lo + 1);
      } else {
        assert Embeds(hay, needles, at, lo + 1);
      }
    }
    if hay[lo] == needles[0] && InOrder(hay, needles[1..], lo + 1) {
      var at :| Embeds(hay, needles[1..], at, lo + 1);
      assert Embeds(hay, needles, [lo] + at, lo);
    }
    if hay[lo] != needles[0] && InOrder(hay, needles, lo + 1) {
      var at :| Embeds(hay, needles, at, lo + 1);
      assert Embeds(hay, needles, at, lo);
    }
  }

  lemma NothingLeft(hay: seq<Line>, needles: seq<Line>, lo: nat)
    ensures lo >= |hay| && needles != [] ==> !InOrder(hay, needles, lo)
  {
    forall at: seq<nat> | |at| == |needles| && needles != [] && Embeds(hay, needles, at, lo) ensures lo < |hay| {
      assert lo <= at[0] < |hay|;
    }
  }

  method ContainsLines(outer: string, inner: string, blank: Line -> bool) returns (contained: bool)
    ensures contained <==> InOrder(ContentLines(outer, blank), ContentLines(inner, blank), 0)
  {
    var needles, hay := ContentLines(inner, blank), ContentLines(outer, blank);
    var index := 0;
    var k := 0;
    assert needles[0..] == needles;
    while k < |hay|
      invariant k <= |hay| && index <= |needles|
      invariant InOrder(hay, needles, 0) <==> InOrder(hay, needles[index..], k)
    {
      if index == |needles| { break; }
      MatchEarliest(hay, needles[index..], k);
      assert needles[index..][1..] == needles[index + 1..];
      if hay[k] == needles[index] { index := index + 1; }
      k := k + 1;
    }
    NothingLeft(hay, needles[index..], k);
    if index == |needles| {
      assert Embeds(hay, needles[index..], [], k);
    }
    contained := index == |needles|;
  }

  lemma {:induction false} InOrderItself(hay: seq<Line>)
    ensures InOrder(hay, hay, 0)
  {
    assert Embeds(hay, hay, seq(|hay|, i => i), 0);
  }

  /**
   Without a shared baseline one side is taken whole, and only if it already holds every non-blank
   line of the other, in order: nothing is dropped. Otherwise it is a conflict.
   */
  method MergeWithoutBaseline(localText: string, remoteText: string, allowLocalSuperset: bool, blank: Line -> bool)
    returns (r: MergeResult)
    ensures r.Merged? ==>
              && (r.content == remoteText || (r.content == localText && allowLocalSuperset))
              && InOrder(ContentLines(r.content, blank), ContentLines(localText, blank), 0)
              && InOrder(ContentLines(r.content, blank), ContentLines(remoteText, blank), 0)
    ensures r.Conflict? <==>
              && localText != remoteText
              && !InOrder(ContentLines(remoteText, blank), ContentLines(localText, blank), 0)
              && (allowLocalSuperset ==> !InOrder(ContentLines(localText, blank), ContentLines(remoteText, blank), 0))
  {
    InOrderItself(ContentLines(localText, blank));
    InOrderItself(ContentLines(remoteText, blank));
    if localText == remoteText { return Merged(localText); }
    var contained := ContainsLines(remoteText, localText, blank);
    if contained { return Merged(remoteText); }
    if allowLocalSuperset {
      contained := ContainsLines(localText, remoteText, blank);
      if contained { return Merged(localText); }
    }
    r := Conflict;
  }
}
