/** Where a hunk goes, said of the lines and the comparisons alone. */
module PatchMeaning {
  import opened Options
  import opened Splicing
  import opened PatchSplice

  /** The pattern stands somewhere from a position on. */
  ghost predicate StandsFrom(equal: LineEqual, lines: seq<string>, pattern: seq<string>, from: nat) {
    exists k: nat :: from <= k && k + |pattern| <= |lines| && StandsAt(equal, lines, pattern, k)
  }

  /** The position is the first one under a comparison, and no stricter comparison finds the pattern. */
  ghost predicate FirstUnder(passes: seq<LineEqual>, lines: seq<string>, pattern: seq<string>, from: nat, i: nat,
                             p: nat) {
    && p < |passes| && from <= i && i + |pattern| <= |lines| && StandsAt(passes[p], lines, pattern, i)
    && (forall k: nat :: from <= k < i ==> !StandsAt(passes[p], lines, pattern, k))
    && (forall q :: 0 <= q < p ==> !StandsFrom(passes[q], lines, pattern, from))
  }

  ghost predicate StandsFirst(passes: seq<LineEqual>, lines: seq<string>, pattern: seq<string>, from: nat, i: nat) {
    exists p: nat :: FirstUnder(passes, lines, pattern, from, i, p)
  }

  /** No lines stand where the search starts; at the end of the file others stand only on the last lines. */
  ghost predicate Stands(passes: seq<LineEqual>, lines: seq<string>, pattern: seq<string>, start: nat, eof: bool,
                         i: nat) {
    if pattern == [] then i == start
    else |pattern| <= |lines| && StandsFirst(passes, lines, pattern, if eof then |lines| - |pattern| else start, i)
  }

  lemma {:induction false} SeekFromIs(equal: LineEqual, lines: seq<string>, pattern: seq<string>, from: nat)
    ensures StandsFrom(equal, lines, pattern, from) <==> SeekFrom(equal, lines, pattern, from).Some?
  {
  }

  lemma {:induction false} SeekPassesIs(passes: seq<LineEqual>, lines: seq<string>, pattern: seq<string>, from: nat,
                                        i: nat)
    ensures SeekPasses(passes, lines, pattern, from) == Some(i)
            <==> StandsFirst(passes, lines, pattern, from, i)
  {
    if passes != [] {
      var found := SeekFrom(passes[0], lines, pattern, from);
      SeekFromIs(passes[0], lines, pattern, from);
      SeekPassesIs(passes[1..], lines, pattern, from, i);
      if found == Some(i) { assert FirstUnder(passes, lines, pattern, from, i, 0); }
      if found.None? {
        forall p: nat | FirstUnder(passes[1..], lines, pattern, from, i, p)
          ensures FirstUnder(passes, lines, pattern, from, i, p + 1)
        {
          assert forall q :: 1 <= q < p + 1 ==> passes[q] == passes[1..][q - 1];
        }
        forall p: nat | FirstUnder(passes, lines, pattern, from, i, p)
          ensures p > 0 && FirstUnder(passes[1..], lines, pattern, from, i, p - 1)
        {
          assert forall q :: 1 <= q < p ==> passes[q] == passes[1..][q - 1];
        }
      }
    }
  }

  /** The search finds the first position under the strictest comparison that finds the pattern at all. */
  lemma {:induction false} SeekIs(passes: seq<LineEqual>, lines: seq<string>, pattern: seq<string>, start: nat,
                                  eof: bool, i: nat)
    requires start <= |lines|
    ensures Seek(passes, lines, pattern, start, eof) == Some(i) <==> Stands(passes, lines, pattern, start, eof, i)
  {
    if 0 < |pattern| <= |lines| {
      SeekPassesIs(passes, lines, pattern, if eof then |lines| - |pattern| else start, i);
    }
  }

  /**
   A hunk replaces its old lines where they stand; failing that, if they end in an empty line, the others,
   and then its new lines lose an empty last line too. Without old lines it adds to the end of the file.
   */
  ghost predicate HunkGoes(passes: seq<LineEqual>, lines: seq<string>, chunk: UpdateChunk, start: nat, place: Place) {
    var before, eof := chunk.oldLines, chunk.endOfFile;
    if before == [] then place == Found(Splice(|lines|, 0, chunk.newLines), start)
    else
      match place
      case Found(edit, lineIndex) =>
        && lineIndex == edit.End()
        && if edit.length == |before| then edit.text == chunk.newLines
        && Stands(passes, lines, before, start, eof, edit.at)
           else
             && edit.length < |before|
             && NoneStands(passes, lines, before, start, eof)
             && before == before[..edit.length] + [""]
             && Stands(passes, lines, before[..edit.length], start, eof, edit.at)
             && EmptyLineDropped(chunk.newLines, edit.text)
      case Missing(problem) =>
        && problem == LinesNotFound(before)
        && NoneStands(passes, lines, before, start, eof)
        && forall shorter :: before == shorter + [""] ==> NoneStands(passes, lines, shorter, start, eof)
  }

  ghost predicate NoneStands(passes: seq<LineEqual>, lines: seq<string>, pattern: seq<string>, start: nat, eof: bool) {
    forall i: nat :: !Stands(passes, lines, pattern, start, eof, i)
  }

  ghost predicate EmptyLineDropped(lines: seq<string>, kept: seq<string>) {
    lines == kept + [""] || (lines == kept && (lines == [] || lines[|lines| - 1] != ""))
  }

  lemma {:induction false} DroppedIs(lines: seq<string>, kept: seq<string>)
    ensures EmptyLineDropped(lines, kept) <==> kept == WithoutLastEmpty(lines)
  {
    if EmptyLineDropped(lines, kept) && lines == kept + [""] { assert lines[..|lines| - 1] == kept; }
  }

  lemma {:induction false} NoneStandsIs(passes: seq<LineEqual>, lines: seq<string>, pattern: seq<string>, start: nat,
                                        eof: bool)
    requires start <= |lines|
    ensures NoneStands(passes, lines, pattern, start, eof) <==> Seek(passes, lines, pattern, start, eof).None?
  {
    var found := Seek(passes, lines, pattern, start, eof);
    if found.Some? { SeekIs(passes, lines, pattern, start, eof, found.value); }
    forall i: nat | Stands(passes, lines, pattern, start, eof, i) ensures found.Some? {
      SeekIs(passes, lines, pattern, start, eof, i);
    }
  }

  /** A hunk goes to one place, or fails with one problem. */
  lemma {:induction false} HunkIs(passes: seq<LineEqual>, lines: seq<string>, chunk: UpdateChunk, start: nat,
                                  place: Place)
    requires start <= |lines|
    ensures place == LocateHunk(passes, lines, chunk, start) <==> HunkGoes(passes, lines, chunk, start, place)
  {
    hide Stands, NoneStands, EmptyLineDropped, WithoutLastEmpty, Seek;
    var before, eof := chunk.oldLines, chunk.endOfFile;
    if before != [] {
      var shorter := before[..|before| - 1];
      NoneStandsIs(passes, lines, before, start, eof);
      NoneStandsIs(passes, lines, shorter, start, eof);
      assert before == shorter + [before[|before| - 1]];
      forall other | before == other + [""] ensures other == shorter && before[|before| - 1] == "" {
      }
      if place.Found? {
        SeekIs(passes, lines, before, start, eof, place.edit.at);
        SeekIs(passes, lines, shorter, start, eof, place.edit.at);
        DroppedIs(chunk.newLines, place.edit.text);
      }
    }
  }

  /** A context sends the hunk behind the first line from there on that is like it. */
  ghost predicate ChunkGoes(passes: seq<LineEqual>, lines: seq<string>, chunk: UpdateChunk, start: nat, place: Place) {
    match chunk.context
    case None => HunkGoes(passes, lines, chunk, start, place)
    case Some(context) =>
      if NoneStands(passes, lines, [context], start, false) then place == Missing(ContextNotFound(context))
      else exists i: nat :: && Stands(passes, lines, [context], start, false, i)
                            && HunkGoes(passes, lines, chunk, i + 1, place)
  }

  lemma {:induction false} ChunkIs(passes: seq<LineEqual>, lines: seq<string>, chunk: UpdateChunk, start: nat,
                                   place: Place)
    requires start <= |lines|
    ensures place == LocateChunk(passes, lines, chunk, start) <==> ChunkGoes(passes, lines, chunk, start, place)
  {
    hide Stands, NoneStands, LocateHunk, HunkGoes, Seek;
    if chunk.context.None? {
      HunkIs(passes, lines, chunk, start, place);
    } else {
      var pattern := [chunk.context.value];
      NoneStandsIs(passes, lines, pattern, start, false);
      var found := Seek(passes, lines, pattern, start, false);
      if found.Some? {
        SeekIs(passes, lines, pattern, start, false, found.value);
        HunkIs(passes, lines, chunk, found.value + 1, place);
      }
      forall i: nat | Stands(passes, lines, pattern, start, false, i) ensures found == Some(i) {
        SeekIs(passes, lines, pattern, start, false, i);
      }
    }
  }

  /** Where the search for the next hunk starts: behind the one before it. */
  function Behind(ends: seq<nat>): nat {
    if ends == [] then 0 else ends[|ends| - 1]
  }

  /** Each hunk goes to its place behind the one before it. */
  ghost predicate Placed(passes: seq<LineEqual>, lines: seq<string>, chunks: seq<UpdateChunk>,
                         edits: seq<Splice<string>>, ends: seq<nat>) {
    && |edits| == |ends| <= |chunks|
    && forall k :: 0 <= k < |edits| ==> ChunkGoes(passes, lines, chunks[k], Behind(ends[..k]), Found(edits[k], ends[k]))
  }

  lemma {:induction false} PlacedAmongMore(passes: seq<LineEqual>, lines: seq<string>, chunks: seq<UpdateChunk>, n: nat,
                                           edits: seq<Splice<string>>, ends: seq<nat>)
    requires n <= |chunks| && Placed(passes, lines, chunks[..n], edits, ends)
    ensures Placed(passes, lines, chunks, edits, ends)
  {
    hide ChunkGoes, Behind;
  }

  lemma {:induction false} OneMorePlaced(passes: seq<LineEqual>, lines: seq<string>, chunks: seq<UpdateChunk>,
                                         edits: seq<Splice<string>>, ends: seq<nat>, edit: Splice<string>, end: nat)
    requires Placed(passes, lines, chunks, edits, ends) && |edits| < |chunks|
    requires ChunkGoes(passes, lines, chunks[|edits|], Behind(ends), Found(edit, end))
    ensures Placed(passes, lines, chunks, edits + [edit], ends + [end])
  {
    hide ChunkGoes, Behind;
    forall k | 0 <= k < |edits|
      ensures ChunkGoes(passes, lines, chunks[k], Behind((ends + [end])[..k]), Found(edits[k], ends[k]))
    {
      assert (ends + [end])[..k] == ends[..k];
    }
    assert (ends + [end])[..|edits|] == ends;
  }

  /** The places of all hunks, or of those before the first that has none, with the reason for it. */
  lemma {:induction false} LocationIs(passes: seq<LineEqual>, lines: seq<string>, chunks: seq<UpdateChunk>)
    returns (edits: seq<Splice<string>>, ends: seq<nat>)
    ensures Placed(passes, lines, chunks, edits, ends)
    ensures match Locate(passes, lines, chunks)
            case Located(found, lineIndex) => |edits| == |chunks| && found == edits && lineIndex == Behind(ends)
            case Lost(problem) =>
              |edits| < |chunks| && ChunkGoes(passes, lines, chunks[|edits|], Behind(ends), Missing(problem))
    decreases |chunks|
  {
    if chunks == [] {
      edits, ends := [], [];
    } else {
      hide ChunkGoes, LocateChunk, Placed;
      var n := |chunks| - 1;
      edits, ends := LocationIs(passes, lines, chunks[..n]);
      PlacedAmongMore(passes, lines, chunks, n, edits, ends);
      var before := Locate(passes, lines, chunks[..n]);
      if before.Located? {
        var place := LocateChunk(passes, lines, chunks[n], before.lineIndex);
        ChunkIs(passes, lines, chunks[n], before.lineIndex, place);
        if place.Found? {
          OneMorePlaced(passes, lines, chunks, edits, ends, place.edit, place.lineIndex);
          edits, ends := edits + [place.edit], ends + [place.lineIndex];
        }
      }
    }
  }
}
