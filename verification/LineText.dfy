/** Text as lines, each with its line ending, and the positions that the lines occupy. */
module LineText {
  function Concat(lines: seq<string>): string {
    if lines == [] then "" else lines[0] + Concat(lines[1..])
  }

  /** The length of the first line, its ending included. */
  function FirstLine(content: string): (n: nat)
    requires content != ""
    ensures 0 < n <= |content|
  {
    if content[0] == '\n' || |content| == 1 then 1 else 1 + FirstLine(content[1..])
  }

  function SplitLines(content: string): seq<string> {
    if content == "" then [] else [content[..FirstLine(content)]] + SplitLines(content[FirstLine(content)..])
  }

  /** A line holds a line feed at most at its end, and only the last line may lack it. */
  predicate AreLines(lines: seq<string>) {
    && (forall k :: 0 <= k < |lines| ==> lines[k] != "")
    && (forall k, i :: 0 <= k < |lines| && 0 <= i < |lines[k]| - 1 ==> lines[k][i] != '\n')
    && (forall k :: 0 <= k < |lines| - 1 ==> lines[k][|lines[k]| - 1] == '\n')
  }

  lemma {:induction false} FirstLineEnds(content: string)
    requires content != ""
    ensures var n := FirstLine(content);
            && (forall i :: 0 <= i < n - 1 ==> content[i] != '\n')
            && (n < |content| ==> content[n - 1] == '\n')
  {
    if content[0] != '\n' && |content| > 1 {
      FirstLineEnds(content[1..]);
      assert forall i :: 1 <= i < |content| ==> content[i] == content[1..][i - 1];
    }
  }

  /** Splitting gives lines, and the lines make up the content. */
  lemma {:induction false} SplitLinesIsExact(content: string)
    ensures AreLines(SplitLines(content)) && Concat(SplitLines(content)) == content
    decreases |content|
  {
    if content != "" {
      var n, lines := FirstLine(content), SplitLines(content);
      SplitLinesIsExact(content[n..]);
      FirstLineEnds(content);
      assert lines[1..] == SplitLines(content[n..]);
      assert forall k :: 1 <= k < |lines| ==> lines[k] == lines[1..][k - 1];
      assert content == content[..n] + content[n..];
    }
  }

  lemma {:induction false} FirstLineOf(line: string, rest: string)
    requires line != "" && (forall i :: 0 <= i < |line| - 1 ==> line[i] != '\n')
    requires rest != "" ==> line[|line| - 1] == '\n'
    ensures FirstLine(line + rest) == |line|
  {
    if |line| > 1 {
      assert (line + rest)[1..] == line[1..] + rest;
      FirstLineOf(line[1..], rest);
    }
  }

  /** No other list of lines makes up the same content. */
  lemma {:induction false} LinesAreUnique(lines: seq<string>)
    requires AreLines(lines)
    ensures SplitLines(Concat(lines)) == lines
  {
    if lines != [] {
      assert forall k :: 1 <= k < |lines| ==> lines[k] == lines[1..][k - 1];
      LinesAreUnique(lines[1..]);
      FirstLineOf(lines[0], Concat(lines[1..]));
      assert Concat(lines) == lines[0] + Concat(lines[1..]);
    }
  }

  // ---------------------------------------------------------------- positions

  /** Where line k starts; the line after the last one starts at the end. */
  function Start(lines: seq<string>, k: nat): nat
    requires k <= |lines|
  {
    if k == 0 then 0 else |lines[0]| + Start(lines[1..], k - 1)
  }

  /** The line that holds position p. */
  function LineAt(lines: seq<string>, p: nat): (k: nat)
    requires p < |Concat(lines)|
    ensures k < |lines| && Start(lines, k) <= p < Start(lines, k + 1)
  {
    if p < |lines[0]| then 0 else 1 + LineAt(lines[1..], p - |lines[0]|)
  }

  lemma {:induction false} StartStep(lines: seq<string>, k: nat)
    requires k < |lines|
    ensures Start(lines, k + 1) == Start(lines, k) + |lines[k]|
  {
    if k > 0 {
      StartStep(lines[1..], k - 1);
    }
  }

  lemma {:induction false} StartIsMonotone(lines: seq<string>, j: nat, k: nat)
    requires j <= k <= |lines|
    ensures Start(lines, j) <= Start(lines, k)
    decreases k
  {
    if j < k {
      StartStep(lines, k - 1);
      StartIsMonotone(lines, j, k - 1);
    }
  }

  lemma {:induction false} StartOfEnd(lines: seq<string>)
    ensures Start(lines, |lines|) == |Concat(lines)|
  {
    if lines != [] {
      StartOfEnd(lines[1..]);
    }
  }

  lemma {:induction false} ConcatSplits(lines: seq<string>, k: nat)
    requires k <= |lines|
    ensures Concat(lines) == Concat(lines[..k]) + Concat(lines[k..])
    ensures |Concat(lines[..k])| == Start(lines, k)
  {
    if k > 0 {
      ConcatSplits(lines[1..], k - 1);
      assert lines[..k][1..] == lines[1..][..k - 1];
      assert lines[1..][k - 1..] == lines[k..];
    }
  }

  /** The characters between the starts of two lines are those lines. */
  lemma {:induction false} Slice(lines: seq<string>, j: nat, k: nat)
    requires j <= k <= |lines|
    ensures Start(lines, j) <= Start(lines, k) <= |Concat(lines)|
    ensures Concat(lines)[Start(lines, j)..Start(lines, k)] == Concat(lines[j..k])
  {
    ConcatSplits(lines, k);
    ConcatSplits(lines[..k], j);
    assert lines[..k][..j] == lines[..j] && lines[..k][j..] == lines[j..k];
    ConcatSplits(lines, j);
  }

  lemma {:induction false} LineAtIsUnique(lines: seq<string>, p: nat, k: nat)
    requires k < |lines| && Start(lines, k) <= p < Start(lines, k + 1)
    ensures p < |Concat(lines)| && LineAt(lines, p) == k
  {
    StartIsMonotone(lines, k + 1, |lines|);
    StartOfEnd(lines);
    var at := LineAt(lines, p);
    if at < k {
      StartIsMonotone(lines, at + 1, k);
    } else if k < at {
      StartIsMonotone(lines, k + 1, at);
    }
  }
}
