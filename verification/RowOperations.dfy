/** Row scripts: a document edited in place by insertions, deletions and whole-line replacements. */
module RowOperations {
  import opened Splicing
  import opened EditMatching
  import opened RowText
  import opened WholeLineEdits

  /** Parsed operations; inserted rows are never empty lists, and lines count from one. */
  datatype Operation =
    | InsertBefore(line: nat, rows: seq<string>)
    | InsertAfter(line: nat, rows: seq<string>)
    | Append(rows: seq<string>)
    | Delete(startLine: nat, endLine: nat)
    | Replace(pairs: seq<Pair>)
    | InsertBeforeAnchor(anchor: seq<string>, rows: seq<string>)
    | InsertAfterAnchor(anchor: seq<string>, rows: seq<string>)

  datatype RowProblem = OutsideFile(line: nat, count: nat) | EditFailed(problem: EditProblem)
  datatype Step = Done(doc: Document) | Rejected(problem: RowProblem)
  datatype ScriptResult = Written(content: string) | Refused(problem: RowProblem)

  predicate WellNumbered(op: Operation) {
    match op
    case InsertBefore(line, _) => line >= 1
    case InsertAfter(line, _) => line >= 1
    case Delete(startLine, endLine) => 1 <= startLine <= endLine
    case _ => true
  }

  // ---------------------------------------------------------------- operations on the text

  function PlainEdits(pairs: seq<Pair>): seq<Edit> {
    seq(|pairs|, k requires 0 <= k < |pairs| => RowEditFromPair(pairs[k], false))
  }

  predicate HasDeletion(pairs: seq<Pair>) {
    exists k :: 0 <= k < |pairs| && pairs[k].newRows == []
  }

  /** Deletions are tried with their line feeds first, then without. */
  function ReplaceRows(fuzzy: Fuzzy, content: string, pairs: seq<Pair>): Outcome {
    var primary := ApplyEdits(fuzzy, content, RowEdits(pairs), true);
    if primary.Edited? || !HasDeletion(pairs) then primary
    else ApplyEdits(fuzzy, content, PlainEdits(pairs), true)
  }

  method ApplyReplaceOperation(fuzzy: Fuzzy, content: string, pairs: seq<Pair>) returns (outcome: Outcome)
    ensures outcome == ReplaceRows(fuzzy, content, pairs)
  {
    outcome := ApplyEditsToNormalizedContent(fuzzy, content, RowEdits(pairs), true);
    if outcome.Failed? && HasDeletion(pairs) {
      outcome := ApplyEditsToNormalizedContent(fuzzy, content, PlainEdits(pairs), true);
    }
  }

  function AnchorEdit(op: Operation): Edit
    requires op.InsertBeforeAnchor? || op.InsertAfterAnchor?
  {
    var anchorText, insertText := Join(op.anchor), Join(op.rows);
    Edit(anchorText, if op.InsertBeforeAnchor? then insertText + "\n" + anchorText else anchorText + "\n" + insertText)
  }

  // ---------------------------------------------------------------- one operation

  function InsertAt(doc: Document, line: nat, index: nat, rows: seq<string>): Step {
    if index > |doc.lines| then Rejected(OutsideFile(line, |doc.lines|)) else
    var lines := Spliced(doc.lines, Splice(index, 0, rows));
    Done(Document(lines, doc.finalNewline || index + |rows| == |lines|))
  }

  function DeleteRows(doc: Document, startLine: nat, endLine: nat): Step
    requires 1 <= startLine <= endLine
  {
    if endLine > |doc.lines| then Rejected(OutsideFile(endLine, |doc.lines|)) else
    var lines := Spliced(doc.lines, Splice(startLine - 1, endLine - startLine + 1, []));
    Done(Document(lines, doc.finalNewline && lines != []))
  }

  function Rewritten(outcome: Outcome): Step {
    match outcome
    case Edited(text) => Done(SplitContent(text))
    case Failed(problem) => Rejected(EditFailed(problem))
  }

  function ApplyOperation(fuzzy: Fuzzy, doc: Document, op: Operation): Step
    requires WellNumbered(op)
  {
    match op
    case InsertBefore(line, rows) => InsertAt(doc, line, line - 1, rows)
    case InsertAfter(line, rows) => InsertAt(doc, line, line, rows)
    case Append(rows) => Done(Document(doc.lines + rows, true))
    case Delete(startLine, endLine) => DeleteRows(doc, startLine, endLine)
    case Replace(pairs) => Rewritten(ReplaceRows(fuzzy, JoinContent(doc), pairs))
    case _ => Rewritten(ApplyEdits(fuzzy, JoinContent(doc), [AnchorEdit(op)], true))
  }

  predicate AllNumbered(ops: seq<Operation>) {
    forall i :: 0 <= i < |ops| ==> WellNumbered(ops[i])
  }

  function ApplyScript(fuzzy: Fuzzy, doc: Document, ops: seq<Operation>): Step
    requires AllNumbered(ops)
    decreases |ops|
  {
    if ops == [] then Done(doc) else
    var step := ApplyOperation(fuzzy, doc, ops[0]);
    if step.Rejected? then step else ApplyScript(fuzzy, step.doc, ops[1..])
  }

  /** The document while a script runs. */
  class WorkingDocument {
    var lines: seq<string>
    var finalNewline: bool

    ghost function View(): Document
      reads this
    {
      Document(lines, finalNewline)
    }

    constructor (content: string)
      ensures View() == SplitContent(content)
    {
      var doc := SplitContent(content);
      lines, finalNewline := doc.lines, doc.finalNewline;
    }

    method Load(content: string)
      modifies this
      ensures View() == SplitContent(content)
    {
      var doc := SplitContent(content);
      lines, finalNewline := doc.lines, doc.finalNewline;
    }

    /** JavaScript's `splice` on the lines. */
    method SpliceLines(start: nat, count: nat, rows: seq<string>)
      modifies this`lines
      ensures lines == Spliced(old(lines), Splice(start, count, rows))
    {
      lines := Take(lines, start) + rows + Drop(lines, start + count);
    }

    method Apply(fuzzy: Fuzzy, op: Operation) returns (result: Step)
      requires WellNumbered(op)
      modifies this
      ensures var step := ApplyOperation(fuzzy, old(View()), op);
              if step.Done? then result == Done(View()) && View() == step.doc
              else result == step && View() == old(View())
    {
      hide ApplyEdits, SplitContent, ReplaceRows, JoinContent, Join, InsertAt, DeleteRows, Spliced;
      var outcome: Outcome;
      match op {
        case InsertBefore(line, rows) => result := Insert(line, line - 1, rows); return;
        case InsertAfter(line, rows) => result := Insert(line, line, rows); return;
        case Append(rows) =>
          lines, finalNewline := lines + rows, true;
          return Done(Document(lines, finalNewline));
        case Delete(startLine, endLine) => result := Remove(startLine, endLine); return;
        case Replace(pairs) =>
          outcome := ApplyReplaceOperation(fuzzy, JoinContent(Document(lines, finalNewline)), pairs);
        case _ =>
          outcome := ApplyEditsToNormalizedContent(fuzzy, JoinContent(Document(lines, finalNewline)), [AnchorEdit(op)],
                                                   true);
      }
      if outcome.Failed? { return Rejected(EditFailed(outcome.problem)); }
      Load(outcome.text);
      return Done(Document(lines, finalNewline));
    }

    method Remove(startLine: nat, endLine: nat) returns (result: Step)
      requires 1 <= startLine <= endLine
      modifies this
      ensures var step := DeleteRows(old(View()), startLine, endLine);
              if step.Done? then result == Done(View()) && View() == step.doc
              else result == step && View() == old(View())
    {
      if endLine > |lines| { return Rejected(OutsideFile(endLine, |lines|)); }
      SpliceLines(startLine - 1, endLine - startLine + 1, []);
      if |lines| == 0 { finalNewline := false; }
      return Done(Document(lines, finalNewline));
    }

    method Insert(line: nat, index: nat, rows: seq<string>) returns (result: Step)
      modifies this
      ensures var step := InsertAt(old(View()), line, index, rows);
              if step.Done? then result == Done(View()) && View() == step.doc
              else result == step && View() == old(View())
    {
      if index > |lines| { return Rejected(OutsideFile(line, |lines|)); }
      SpliceLines(index, 0, rows);
      if index + |rows| == |lines| { finalNewline := true; }
      return Done(Document(lines, finalNewline));
    }
  }

  method ApplyRowOperations(fuzzy: Fuzzy, content: string, ops: seq<Operation>) returns (result: ScriptResult)
    requires AllNumbered(ops)
    ensures result == match ApplyScript(fuzzy, SplitContent(content), ops)
                      case Done(doc) => Written(JoinContent(doc))
                      case Rejected(problem) => Refused(problem)
  {
    hide ApplyOperation, SplitContent;
    var doc := new WorkingDocument(content);
    for i := 0 to |ops|
      invariant ApplyScript(fuzzy, SplitContent(content), ops) == ApplyScript(fuzzy, doc.View(), ops[i..])
    {
      assert ops[i..][0] == ops[i] && ops[i..][1..] == ops[i + 1..];
      var step := doc.Apply(fuzzy, ops[i]);
      if step.Rejected? { return Refused(step.problem); }
    }
    return Written(JoinContent(Document(doc.lines, doc.finalNewline)));
  }

  // ---------------------------------------------------------------- laws

  /** Deleting inserted rows restores the lines, and the document unless the final newline was forced or lost. */
  lemma {:induction false} DeleteUndoesInsert(fuzzy: Fuzzy, doc: Document, line: nat, rows: seq<string>)
    requires 1 <= line <= |doc.lines| + 1 && rows != []
    ensures var inserted := ApplyOperation(fuzzy, doc, InsertBefore(line, rows));
            inserted.Done? &&
            var restored := ApplyOperation(fuzzy, inserted.doc, Delete(line, line + |rows| - 1));
            && restored.Done? && restored.doc.lines == doc.lines
            && (restored.doc == doc <==> if doc.lines == [] then !doc.finalNewline
                                         else line <= |doc.lines| || doc.finalNewline)
  {
    hide ApplyEdits, SplitContent, JoinContent, ReplaceRows;
    CutOutAgain(doc.lines, line - 1, rows);
    hide Spliced;
  }

  lemma {:induction false} CutOutAgain(lines: seq<string>, index: nat, rows: seq<string>)
    requires index <= |lines|
    ensures |Spliced(lines, Splice(index, 0, rows))| == |lines| + |rows|
    ensures Spliced(Spliced(lines, Splice(index, 0, rows)), Splice(index, |rows|, [])) == lines
  {
    var inserted := Spliced(lines, Splice(index, 0, rows));
    assert inserted == lines[..index] + rows + lines[index..];
    assert Take(inserted, index) == lines[..index];
    assert Drop(inserted, index + |rows|) == lines[index..];
    assert lines[..index] + [] + lines[index..] == lines;
  }

  /** A script runs operation by operation. */
  lemma {:induction false} ScriptsCompose(fuzzy: Fuzzy, doc: Document, first: seq<Operation>, second: seq<Operation>)
    requires AllNumbered(first) && AllNumbered(second)
    ensures AllNumbered(first + second)
    ensures ApplyScript(fuzzy, doc, first + second)
         == match ApplyScript(fuzzy, doc, first)
            case Done(middle) => ApplyScript(fuzzy, middle, second)
            case Rejected(problem) => Rejected(problem)
    decreases |first|
  {
    hide ApplyOperation;
    if first == [] {
      assert first + second == second;
    } else {
      assert (first + second)[1..] == first[1..] + second;
      var step := ApplyOperation(fuzzy, doc, first[0]);
      if step.Done? {
        ScriptsCompose(fuzzy, step.doc, first[1..], second);
      }
    }
  }
}
