/** Splitting a text into lines that keep their terminators (src/textMerge.ts:11-13). */
module TextLines {
  type Line = string

  /** Length of the first line of `text`, terminator included. */
  function FirstLine(text: string): (n: nat)
    requires text != ""
    ensures 0 < n <= |text|
  {
    if text[0] == '\n' || |text| == 1 then 1 else 1 + FirstLine(text[1..])
  }

  function Lines(text: string): seq<Line> {
    if text == "" then []
    else var n := FirstLine(text); [text[..n]] + Lines(text[n..])
  }

  function Join(ls: seq<Line>): string {
    if ls == [] then "" else ls[0] + Join(ls[1..])
  }

  predicate Terminated(l: Line) {
    l != "" && l[|l| - 1] == '\n'
  }

  /** Not empty, and no terminator before its end. */
  predicate Proper(l: Line) {
    l != "" && forall i :: 0 <= i < |l| - 1 ==> l[i] != '\n'
  }

  predicate AllProper(ls: seq<Line>) {
    forall i :: 0 <= i < |ls| ==> Proper(ls[i])
  }

  /** Only the last line may lack its terminator. */
  predicate InteriorTerminated(ls: seq<Line>) {
    forall i :: 0 <= i < |ls| - 1 ==> Terminated(ls[i])
  }

  /** What a list of lines must look like to be some text's lines. */
  predicate IsSplit(ls: seq<Line>) {
    AllProper(ls) && InteriorTerminated(ls)
  }

  lemma {:induction false} FirstLineStops(text: string)
    requires text != ""
    ensures var n := FirstLine(text);
            && Proper(text[..n])
            && (n < |text| ==> Terminated(text[..n]))
  {
    if text[0] != '\n' && |text| > 1 {
      FirstLineStops(text[1..]);
      var n := FirstLine(text[1..]);
      forall i | 0 < i < n ensures text[i] != '\n' {
        assert text[1..][..n][i - 1] == text[i];
      }
    }
  }

  lemma ConsSplit(l: Line, ls: seq<Line>)
    requires Proper(l) && IsSplit(ls) && (ls != [] ==> Terminated(l))
    ensures IsSplit([l] + ls)
  {
    var r := [l] + ls;
    forall i | 0 <= i < |r| ensures Proper(r[i]) && (i < |r| - 1 ==> Terminated(r[i])) {
      if i > 0 { assert r[i] == ls[i - 1]; }
    }
  }

  /** Lines split a text without losing a character, and only the last may be unterminated. */
  lemma {:induction false} LinesSplit(text: string)
    ensures Join(Lines(text)) == text
    ensures IsSplit(Lines(text))
  {
    hide FirstLine, Proper, Terminated;
    if text != "" {
      var n := FirstLine(text);
      FirstLineStops(text);
      LinesSplit(text[n..]);
      ConsSplit(text[..n], Lines(text[n..]));
      assert Lines(text)[1..] == Lines(text[n..]);
      assert text == text[..n] + text[n..];
    }
  }

  lemma {:induction false} FirstLineOf(l: Line, rest: string)
    requires Proper(l) && (rest == "" || Terminated(l))
    ensures FirstLine(l + rest) == |l|
  {
    if |l| > 1 {
      assert (l + rest)[1..] == l[1..] + rest;
      assert Proper(l[1..]) by { assert forall i :: 0 <= i < |l| - 2 ==> l[1..][i] == l[i + 1]; }
      FirstLineOf(l[1..], rest);
    }
  }

  /** The split is unique: joining any proper list of lines and splitting again gives the list back. */
  lemma {:induction false} SplitIsUnique(ls: seq<Line>)
    requires IsSplit(ls)
    ensures Lines(Join(ls)) == ls
  {
    if ls != [] {
      SplitIsUnique(ls[1..]);
      var rest := Join(ls[1..]);
      if |ls| > 1 { assert Terminated(ls[0]); }
      FirstLineOf(ls[0], rest);
      assert (ls[0] + rest)[..|ls[0]|] == ls[0];
      assert (ls[0] + rest)[|ls[0]|..] == rest;
    }
  }
}
