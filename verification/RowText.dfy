/** Text as rows between line feeds, and documents as rows plus a final newline. */
module RowText {
  predicate IsRow(row: string) {
    '\n' !in row
  }

  predicate AreRows(rows: seq<string>) {
    forall i :: 0 <= i < |rows| ==> IsRow(rows[i])
  }

  function Join(rows: seq<string>): string {
    if |rows| == 0 then ""
    else if |rows| == 1 then rows[0]
    else rows[0] + "\n" + Join(rows[1..])
  }

  function Split(text: string): (rows: seq<string>)
    ensures rows != []
  {
    if text == "" then [""]
    else if text[0] == '\n' then [""] + Split(text[1..])
    else
      var rest := Split(text[1..]);
      [[text[0]] + rest[0]] + rest[1..]
  }

  /** Every row followed by a line feed. */
  function Terminated(rows: seq<string>): string {
    if rows == [] then "" else rows[0] + "\n" + Terminated(rows[1..])
  }

  lemma {:induction false} JoinTerminates(rows: seq<string>)
    requires rows != []
    ensures Join(rows) + "\n" == Terminated(rows)
  {
    if |rows| > 1 {
      JoinTerminates(rows[1..]);
    } else {
      assert rows[1..] == [];
      assert Terminated(rows[1..]) == "";
    }
  }

  lemma {:induction false} TerminatedConcat(a: seq<string>, b: seq<string>)
    ensures Terminated(a + b) == Terminated(a) + Terminated(b)
  {
    if a != [] {
      TerminatedConcat(a[1..], b);
      assert (a + b)[1..] == a[1..] + b;
    } else {
      assert a + b == b;
    }
  }

  lemma {:induction false} JoinConcat(a: seq<string>, b: seq<string>)
    requires b != []
    ensures Join(a + b) == Terminated(a) + Join(b)
  {
    if a != [] {
      JoinConcat(a[1..], b);
      assert (a + b)[1..] == a[1..] + b;
    } else {
      assert a + b == b;
    }
  }

  /** Splitting loses nothing. */
  lemma {:induction false} JoinSplit(text: string)
    ensures AreRows(Split(text)) && Join(Split(text)) == text
  {
    if text != "" {
      JoinSplit(text[1..]);
      var rest := Split(text[1..]);
      if text[0] == '\n' {
        assert Split(text)[1..] == rest;
      } else {
        assert Split(text)[1..] == rest[1..];
        assert text == [text[0]] + text[1..];
      }
    }
  }

  lemma {:induction false} SplitRow(row: string, rest: string)
    requires IsRow(row)
    ensures Split(row) == [row] && Split(row + "\n" + rest) == [row] + Split(rest)
  {
    if row == "" {
      assert (row + "\n" + rest)[1..] == rest;
    } else {
      assert IsRow(row[1..]);
      SplitRow(row[1..], rest);
      assert (row + "\n" + rest)[1..] == row[1..] + "\n" + rest;
      assert row == [row[0]] + row[1..];
    }
  }

  /** Rows are recovered from their text. */
  lemma {:induction false} SplitJoin(rows: seq<string>)
    requires rows != [] && AreRows(rows)
    ensures Split(Join(rows)) == rows
  {
    if |rows| > 1 {
      assert AreRows(rows[1..]);
      SplitJoin(rows[1..]);
      SplitRow(rows[0], Join(rows[1..]));
    } else {
      SplitRow(rows[0], "");
    }
  }

  /** The position at which row i starts. */
  function RowStart(rows: seq<string>, i: nat): nat
    requires i <= |rows|
  {
    if i == 0 then 0 else RowStart(rows, i - 1) + |rows[i - 1]| + 1
  }

  lemma {:induction false} RowStartIs(rows: seq<string>, i: nat)
    requires i <= |rows|
    ensures RowStart(rows, i) == |Terminated(rows[..i])|
  {
    if i > 0 {
      RowStartIs(rows, i - 1);
      assert rows[..i] == rows[..i - 1] + [rows[i - 1]];
      TerminatedConcat(rows[..i - 1], [rows[i - 1]]);
      assert Terminated([rows[i - 1]]) == rows[i - 1] + "\n" + Terminated([]);
    }
  }

  lemma {:induction false} RowStartGrows(rows: seq<string>, i: nat, j: nat)
    requires i < j <= |rows|
    ensures RowStart(rows, i) + |rows[i]| + 1 <= RowStart(rows, j)
    decreases j
  {
    if i + 1 < j {
      RowStartGrows(rows, i, j - 1);
    }
  }

  /** The terminated rows from i to j are the characters between their starts. */
  lemma {:induction false} TerminatedSlice(rows: seq<string>, i: nat, j: nat)
    requires i <= j <= |rows|
    ensures RowStart(rows, i) <= RowStart(rows, j) <= |Terminated(rows)|
    ensures Terminated(rows)[RowStart(rows, i)..RowStart(rows, j)] == Terminated(rows[i..j])
  {
    RowStartIs(rows, i);
    RowStartIs(rows, j);
    assert rows == rows[..i] + rows[i..j] + rows[j..];
    assert rows[..j] == rows[..i] + rows[i..j];
    TerminatedConcat(rows[..i] + rows[i..j], rows[j..]);
    TerminatedConcat(rows[..i], rows[i..j]);
  }

  // ---------------------------------------------------------------- documents

  datatype Document = Document(lines: seq<string>, finalNewline: bool)

  function SplitContent(content: string): Document {
    var finalNewline := content != "" && content[|content| - 1] == '\n';
    var body := if finalNewline then content[..|content| - 1] else content;
    Document(if body == "" then [] else Split(body), finalNewline)
  }

  function JoinContent(doc: Document): string {
    if doc.finalNewline then Join(doc.lines) + "\n" else Join(doc.lines)
  }

  /** Reading a text as a document and writing it back changes nothing. */
  lemma {:induction false} ContentRoundTrip(content: string)
    ensures JoinContent(SplitContent(content)) == content && AreRows(SplitContent(content).lines)
  {
    var doc := SplitContent(content);
    var body := if doc.finalNewline then content[..|content| - 1] else content;
    JoinSplit(body);
  }

  lemma {:induction false} JoinEnd(rows: seq<string>)
    requires rows != [] && AreRows(rows)
    ensures Join(rows) == "" <==> rows == [""]
    ensures Join(rows) != "" && Join(rows)[|Join(rows)| - 1] == '\n' <==> |rows| > 1 && rows[|rows| - 1] == ""
  {
    var front, last := rows[..|rows| - 1], rows[|rows| - 1];
    assert rows == front + [last];
    JoinConcat(front, [last]);
    assert IsRow(last);
    if front != [] {
      TerminatedConcat(front[..|front| - 1], [front[|front| - 1]]);
      assert front == front[..|front| - 1] + [front[|front| - 1]];
      assert Terminated([front[|front| - 1]]) == front[|front| - 1] + "\n" + Terminated([]);
    }
  }

  /**
   A document survives writing and reading exactly when it is not a single empty row, and an empty
   last row is followed by a final newline.
   */
  lemma {:induction false} DocumentRoundTrip(doc: Document)
    requires AreRows(doc.lines)
    ensures SplitContent(JoinContent(doc)) == doc
       <==> doc.lines != [""] && (doc.finalNewline || doc.lines == [] || doc.lines[|doc.lines| - 1] != "")
  {
    var body := Join(doc.lines);
    if doc.lines != [] {
      JoinEnd(doc.lines);
      SplitJoin(doc.lines);
      if doc.finalNewline {
        assert (body + "\n")[..|body|] == body;
      }
    } else {
      assert body == "";
      assert (body + "\n")[..|body|] == body;
    }
  }
}
