/**
 Applying the hunks of a patch: each is located behind the previous one, by increasingly lenient
 comparisons of lines, and all are spliced in from the back.
 */
module PatchSplice {
  import opened Options
  import opened Splicing
  import opened RowText

  type LineEqual = (string, string) -> bool

  datatype UpdateChunk = UpdateChunk(context: Option<string>, oldLines: seq<string>, newLines: seq<string>,
                                     endOfFile: bool)
  datatype PatchProblem = ContextNotFound(context: string) | LinesNotFound(lines: seq<string>)
  datatype Place = Found(edit: Splice<string>, lineIndex: nat) | Missing(problem: PatchProblem)
  datatype Location = Located(edits: seq<Splice<string>>, lineIndex: nat) | Lost(problem: PatchProblem)
  datatype Patched = Patched(content: string) | Unpatched(problem: PatchProblem)

  // ---------------------------------------------------------------- seeking

  predicate StandsAt(equal: LineEqual, lines: seq<string>, pattern: seq<string>, i: nat)
    requires i + |pattern| <= |lines|
  {
    forall j :: 0 <= j < |pattern| ==> equal(lines[i + j], pattern[j])
  }

  /** The first position from i on at which the pattern stands. */
  function SeekFrom(equal: LineEqual, lines: seq<string>, pattern: seq<string>, i: nat): (found: Option<nat>)
    ensures found.Some? ==> i <= found.value && found.value + |pattern| <= |lines|
                            && StandsAt(equal, lines, pattern, found.value)
    ensures forall k :: i <= k && k + |pattern| <= |lines| && (found.None? || k < found.value) ==>
              !StandsAt(equal, lines, pattern, k)
    decreases |lines| - i
  {
    if i + |pattern| > |lines| then None
    else if StandsAt(equal, lines, pattern, i) then Some(i)
    else SeekFrom(equal, lines, pattern, i + 1)
  }

  /** The first comparison that finds the pattern decides. */
  function SeekPasses(passes: seq<LineEqual>, lines: seq<string>, pattern: seq<string>, i: nat): (found: Option<nat>)
    ensures found.Some? ==> i <= found.value && found.value + |pattern| <= |lines|
  {
    if passes == [] then None else
    var found := SeekFrom(passes[0], lines, pattern, i);
    if found.Some? then found else SeekPasses(passes[1..], lines, pattern, i)
  }

  function Seek(passes: seq<LineEqual>, lines: seq<string>, pattern: seq<string>, start: nat,
                eof: bool): (found: Option<nat>)
    requires start <= |lines|
    ensures found.Some? ==> found.value + |pattern| <= |lines| && (!eof ==> start <= found.value)
  {
    if pattern == [] then Some(start)
    else if |pattern| > |lines| then None
    else SeekPasses(passes, lines, pattern, if eof then |lines| - |pattern| else start)
  }

  /** The two inner loops: the first position at which the pattern stands under one comparison. */
  method SeekPass(equal: LineEqual, lines: seq<string>, pattern: seq<string>, searchStart: nat)
    returns (found: Option<nat>)
    ensures found == SeekFrom(equal, lines, pattern, searchStart)
  {
    var i := searchStart;
    while i + |pattern| <= |lines|
      invariant searchStart <= i
      invariant SeekFrom(equal, lines, pattern, searchStart) == SeekFrom(equal, lines, pattern, i)
      decreases |lines| - i
    {
      var ok, j := true, 0;
      while j < |pattern| && ok
        invariant j <= |pattern|
        invariant ok ==> forall k :: 0 <= k < j ==> equal(lines[i + k], pattern[k])
        invariant !ok ==> !StandsAt(equal, lines, pattern, i)
      {
        if !equal(lines[i + j], pattern[j]) { ok := false; }
        j := j + 1;
      }
      if ok { return Some(i); }
      i := i + 1;
    }
    return None;
  }

  method SeekSequence(passes: seq<LineEqual>, lines: seq<string>, pattern: seq<string>, start: nat, eof: bool)
    returns (found: Option<nat>)
    requires start <= |lines|
    ensures found == Seek(passes, lines, pattern, start, eof)
  {
    hide SeekFrom;
    if |pattern| == 0 { return Some(start); }
    if |pattern| > |lines| { return None; }
    var searchStart := if eof then |lines| - |pattern| else start;
    for p := 0 to |passes|
      invariant SeekPasses(passes, lines, pattern, searchStart) == SeekPasses(passes[p..], lines, pattern, searchStart)
    {
      assert passes[p..][0] == passes[p] && passes[p..][1..] == passes[p + 1..];
      found := SeekPass(passes[p], lines, pattern, searchStart);
      if found.Some? { return found; }
    }
    return None;
  }

  // ---------------------------------------------------------------- locating hunks

  function WithoutLastEmpty(lines: seq<string>): seq<string> {
    if lines != [] && lines[|lines| - 1] == "" then lines[..|lines| - 1] else lines
  }

  /** Where a hunk goes; a trailing empty old line may be dropped to find it. */
  function LocateHunk(passes: seq<LineEqual>, lines: seq<string>, chunk: UpdateChunk, lineIndex: nat): (place: Place)
    requires lineIndex <= |lines|
    ensures place.Found? ==> place.edit.End() <= |lines| && place.lineIndex <= |lines|
    ensures place.Found? && chunk.oldLines != [] ==>
              place.edit.End() == place.lineIndex && (!chunk.endOfFile ==> lineIndex <= place.edit.at)
  {
    if chunk.oldLines == [] then Found(Splice(|lines|, 0, chunk.newLines), lineIndex) else
    var found := Seek(passes, lines, chunk.oldLines, lineIndex, chunk.endOfFile);
    if found.Some? then
      Found(Splice(found.value, |chunk.oldLines|, chunk.newLines), found.value + |chunk.oldLines|)
    else if chunk.oldLines[|chunk.oldLines| - 1] != "" then Missing(LinesNotFound(chunk.oldLines)) else
    var pattern := chunk.oldLines[..|chunk.oldLines| - 1];
    var again := Seek(passes, lines, pattern, lineIndex, chunk.endOfFile);
    if again.None? then Missing(LinesNotFound(chunk.oldLines))
    else Found(Splice(again.value, |pattern|, WithoutLastEmpty(chunk.newLines)), again.value + |pattern|)
  }

  function LocateChunk(passes: seq<LineEqual>, lines: seq<string>, chunk: UpdateChunk, lineIndex: nat): (place: Place)
    requires lineIndex <= |lines|
    ensures place.Found? ==> place.edit.End() <= |lines| && place.lineIndex <= |lines|
    ensures place.Found? && chunk.oldLines != [] ==>
              place.edit.End() == place.lineIndex && (!chunk.endOfFile ==> lineIndex <= place.edit.at)
    ensures place.Found? && chunk.oldLines == [] ==>
              place.edit == Splice(|lines|, 0, chunk.newLines) && lineIndex <= place.lineIndex
  {
    if chunk.context.None? then LocateHunk(passes, lines, chunk, lineIndex) else
    var context := Seek(passes, lines, [chunk.context.value], lineIndex, false);
    if context.None? then Missing(ContextNotFound(chunk.context.value))
    else LocateHunk(passes, lines, chunk, context.value + 1)
  }

  function Locate(passes: seq<LineEqual>, lines: seq<string>, chunks: seq<UpdateChunk>): (location: Location)
    ensures location.Located? ==> |location.edits| == |chunks| && location.lineIndex <= |lines|
    ensures location.Located? ==> forall i :: 0 <= i < |chunks| ==> location.edits[i].End() <= |lines|
  {
    if chunks == [] then Located([], 0) else
    var before := Locate(passes, lines, chunks[..|chunks| - 1]);
    if before.Lost? then before else
    var place := LocateChunk(passes, lines, chunks[|chunks| - 1], before.lineIndex);
    if place.Missing? then Lost(place.problem)
    else Located(before.edits + [place.edit], place.lineIndex)
  }

  // ---------------------------------------------------------------- splicing

  /** Insert an edit behind those that start no earlier. */
  function PlaceDown(edits: seq<Splice<string>>, edit: Splice<string>): seq<Splice<string>> {
    if edits == [] then [edit]
    else if edits[|edits| - 1].at >= edit.at then edits + [edit]
    else PlaceDown(edits[..|edits| - 1], edit) + [edits[|edits| - 1]]
  }

  /** The edits by descending position; equal positions keep their order. */
  function Descending(edits: seq<Splice<string>>): seq<Splice<string>> {
    if edits == [] then [] else PlaceDown(Descending(edits[..|edits| - 1]), edits[|edits| - 1])
  }

  function ApplyInOrder(lines: seq<string>, edits: seq<Splice<string>>): seq<string>
    decreases |edits|
  {
    if edits == [] then lines else ApplyInOrder(Spliced(lines, edits[0]), edits[1..])
  }

  function Lines(content: string): seq<string> {
    WithoutLastEmpty(Split(content))
  }

  function Ended(lines: seq<string>): string {
    Join(if lines != [] && lines[|lines| - 1] == "" then lines else lines + [""])
  }

  function Derive(passes: seq<LineEqual>, content: string, chunks: seq<UpdateChunk>): Patched {
    var location := Locate(passes, Lines(content), chunks);
    if location.Lost? then Unpatched(location.problem)
    else Patched(Ended(ApplyInOrder(Lines(content), Descending(location.edits))))
  }

  lemma {:induction false} LocateFails(passes: seq<LineEqual>, lines: seq<string>, chunks: seq<UpdateChunk>, n: nat)
    requires n <= |chunks| && Locate(passes, lines, chunks[..n]).Lost?
    ensures Locate(passes, lines, chunks) == Locate(passes, lines, chunks[..n])
    decreases |chunks|
  {
    if n < |chunks| {
      assert chunks[..|chunks| - 1][..n] == chunks[..n];
      LocateFails(passes, lines, chunks[..|chunks| - 1], n);
    } else {
      assert chunks[..n] == chunks;
    }
  }

  method LocateOne(passes: seq<LineEqual>, lines: seq<string>, chunk: UpdateChunk, start: nat) returns (place: Place)
    requires start <= |lines|
    ensures place == LocateChunk(passes, lines, chunk, start)
  {
    hide Seek, SeekPasses;
    var lineIndex := start;
    if chunk.context.Some? {
      var ctxIndex := SeekSequence(passes, lines, [chunk.context.value], lineIndex, false);
      if ctxIndex.None? { return Missing(ContextNotFound(chunk.context.value)); }
      lineIndex := ctxIndex.value + 1;
    }
    if |chunk.oldLines| == 0 { return Found(Splice(|lines|, 0, chunk.newLines), lineIndex); }
    var pattern, newSlice := chunk.oldLines, chunk.newLines;
    var found := SeekSequence(passes, lines, pattern, lineIndex, chunk.endOfFile);
    if found.None? && pattern[|pattern| - 1] == "" {
      pattern := pattern[..|pattern| - 1];
      if |newSlice| > 0 && newSlice[|newSlice| - 1] == "" { newSlice := newSlice[..|newSlice| - 1]; }
      found := SeekSequence(passes, lines, pattern, lineIndex, chunk.endOfFile);
    }
    if found.None? { return Missing(LinesNotFound(chunk.oldLines)); }
    return Found(Splice(found.value, |pattern|, newSlice), found.value + |pattern|);
  }

  method DeriveUpdatedContent(passes: seq<LineEqual>, content: string, chunks: seq<UpdateChunk>)
    returns (result: Patched)
    ensures result == Derive(passes, content, chunks)
  {
    hide LocateChunk;
    var originalLines := Split(content);
    if originalLines[|originalLines| - 1] == "" { originalLines := originalLines[..|originalLines| - 1]; }
    var replacements: seq<Splice<string>> := [];
    var lineIndex: nat := 0;
    for i := 0 to |chunks|
      invariant Locate(passes, originalLines, chunks[..i]) == Located(replacements, lineIndex)
      invariant lineIndex <= |originalLines|
    {
      assert chunks[..i + 1][..i] == chunks[..i];
      var place := LocateOne(passes, originalLines, chunks[i], lineIndex);
      if place.Missing? {
        LocateFails(passes, originalLines, chunks, i + 1);
        return Unpatched(place.problem);
      }
      replacements := replacements + [place.edit];
      lineIndex := place.lineIndex;
    }
    assert chunks[..|chunks|] == chunks;
    var newLines, sorted := originalLines, Descending(replacements);
    for i := 0 to |sorted|
      invariant ApplyInOrder(newLines, sorted[i..]) == ApplyInOrder(originalLines, sorted)
    {
      assert sorted[i..][1..] == sorted[i + 1..];
      newLines := Take(newLines, sorted[i].at) + sorted[i].text + Drop(newLines, sorted[i].End());
    }
    if |newLines| == 0 || newLines[|newLines| - 1] != "" { newLines := newLines + [""]; }
    return Patched(Join(newLines));
  }
}
