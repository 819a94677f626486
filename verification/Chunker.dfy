/**
 Cutting a file into overlapping windows of lines (daemon/chunker.go), and why the overlap
 costs nothing later: merging the windows gives the file back.
 */
module Chunker {
  import opened Numbers
  import opened Text
  import opened Wrappers
  import opened ChunkMerge
  import opened ChunkSpans

  const CHUNK_LINES := 40
  const OVERLAP_LINES := 10

  // splitLines
  function SplitLines(content: string): seq<string> {
    if content == "" then [] else Split(content, NL)
  }

  // The window that starts after `start` lines. What kind of text it is, is judged from its
  // lines by classifyFile and isCommentChunk, which are left open.
  function Window(lines: seq<string>, path: string, kindOf: seq<string> -> string, start: nat): Chunk
    requires start < |lines|
  {
    var end := Min(start + CHUNK_LINES, |lines|);
    Chunk(path, start + 1, end, Join(lines[start..end], NL), 0.0, 0.0, kindOf(lines[start..end]))
  }

  function Windows(lines: seq<string>, path: string, kindOf: seq<string> -> string, start: nat): seq<Chunk>
    decreases |lines| - start
  {
    if start >= |lines| then []
    else
      [Window(lines, path, kindOf, start)] +
      if start + CHUNK_LINES >= |lines| then [] else Windows(lines, path, kindOf, start + CHUNK_LINES - OVERLAP_LINES)
  }

  // chunkContent
  method ChunkContent(content: string, path: string, kindOf: seq<string> -> string) returns (chunks: seq<Chunk>)
    ensures chunks == Windows(SplitLines(content), path, kindOf, 0)
  {
    var lines := SplitLines(content);
    chunks := [];
    if |lines| == 0 {
      return;
    }
    var stride := CHUNK_LINES - OVERLAP_LINES;
    var start: nat := 0;
    while start < |lines|
      invariant chunks + Windows(lines, path, kindOf, start) == Windows(lines, path, kindOf, 0)
      decreases |lines| - start
    {
      var end := start + CHUNK_LINES;
      if end > |lines| {
        end := |lines|;
      }
      var chunk := Chunk(path, start + 1, end, Join(lines[start..end], NL), 0.0, 0.0, kindOf(lines[start..end]));
      WindowsStep(lines, path, kindOf, start, chunks);
      chunks := chunks + [chunk];
      if end == |lines| {
        return;
      }
      start := start + stride;
    }
  }

  lemma WindowsStep(lines: seq<string>, path: string, kindOf: seq<string> -> string, start: nat, before: seq<Chunk>)
    requires start < |lines|
    ensures before + Windows(lines, path, kindOf, start) ==
            before + [Window(lines, path, kindOf, start)] +
            if start + CHUNK_LINES >= |lines| then [] else Windows(lines, path, kindOf, start + CHUNK_LINES - OVERLAP_LINES)
  {
  }

  lemma {:induction false} WindowsAreCut(lines: seq<string>, path: string, kindOf: seq<string> -> string, start: nat)
    requires Separate(lines, NL)
    ensures forall i :: 0 <= i < |Windows(lines, path, kindOf, start)| ==>
              Windows(lines, path, kindOf, start)[i].path == path && CutFrom(lines, Windows(lines, path, kindOf, start)[i])
    decreases |lines| - start
  {
    if start < |lines| && start + CHUNK_LINES < |lines| {
      WindowsAreCut(lines, path, kindOf, start + CHUNK_LINES - OVERLAP_LINES);
    }
  }

  // The chunk of the lines after `from`: forty of them, or the fewer that are left, and other
  // chunks come after it exactly if lines do.
  ghost predicate FortyFrom(lines: seq<string>, path: string, kindOf: seq<string> -> string, from: int, chunk: Chunk, after: int) {
    0 <= from < |lines| && var end := Min(from + 40, |lines|);
    && chunk.path == path && chunk.startLine == from + 1 && chunk.endLine == end
    && chunk.content == Join(lines[from..end], NL) && chunk.kind == kindOf(lines[from..end])
    && (after == 0 <==> end == |lines|)
  }

  ghost predicate EachForty(lines: seq<string>, path: string, kindOf: seq<string> -> string, start: nat, ws: seq<Chunk>) {
    forall i :: 0 <= i < |ws| ==> FortyFrom(lines, path, kindOf, start + 30 * i, ws[i], |ws| - 1 - i)
  }

  // THE WINDOWS are of forty lines, the last one of what is left, and each begins thirty lines
  // after the one before: ten lines are shared.
  lemma {:induction false} WindowsAre(lines: seq<string>, path: string, kindOf: seq<string> -> string, start: nat)
    ensures Windows(lines, path, kindOf, start) == [] <==> start >= |lines|
    ensures EachForty(lines, path, kindOf, start, Windows(lines, path, kindOf, start))
    decreases |lines| - start
  {
    if start < |lines| {
      var first := Window(lines, path, kindOf, start);
      if start + 40 < |lines| {
        WindowsAre(lines, path, kindOf, start + 30);
        var rest := Windows(lines, path, kindOf, start + 30);
        assert Windows(lines, path, kindOf, start) == [first] + rest;
        EachFortyAdded(lines, path, kindOf, start, first, rest);
      } else {
        assert Windows(lines, path, kindOf, start) == [first];
      }
    }
  }

  lemma EachFortyAdded(lines: seq<string>, path: string, kindOf: seq<string> -> string, start: nat, first: Chunk, rest: seq<Chunk>)
    requires rest != [] && FortyFrom(lines, path, kindOf, start, first, |rest|)
    requires EachForty(lines, path, kindOf, start + 30, rest)
    ensures EachForty(lines, path, kindOf, start, [first] + rest)
  {
    var ws := [first] + rest;
    forall i | 0 <= i < |ws|
      ensures FortyFrom(lines, path, kindOf, start + 30 * i, ws[i], |ws| - 1 - i)
    {
      if i > 0 {
        assert FortyFrom(lines, path, kindOf, start + 30 + 30 * (i - 1), rest[i - 1], |rest| - 1 - (i - 1));
        assert start + 30 + 30 * (i - 1) == start + 30 * i;
      }
    }
  }

  // No line falls between two windows.
  lemma {:induction false} WindowsCover(lines: seq<string>, path: string, kindOf: seq<string> -> string, start: nat, n: int)
    requires start < n <= |lines|
    ensures Covered(Windows(lines, path, kindOf, start), path, n)
    decreases |lines| - start
  {
    var ws := Windows(lines, path, kindOf, start);
    if n <= start + CHUNK_LINES {
      assert ws[0].path == path && OnLine(ws[0], n);
    } else {
      var next := start + CHUNK_LINES - OVERLAP_LINES;
      WindowsCover(lines, path, kindOf, next, n);
      var rest := Windows(lines, path, kindOf, next);
      var i :| 0 <= i < |rest| && rest[i].path == path && OnLine(rest[i], n);
      assert ws[i + 1] == rest[i];
    }
  }

  ghost predicate SpansOf(path: string, len: nat, out: seq<Chunk>) {
    forall k :: 0 <= k < |out| ==> out[k].path == path && 1 <= out[k].startLine <= out[k].endLine <= len
  }

  ghost predicate CoversAll(path: string, len: nat, out: seq<Chunk>) {
    forall n :: 1 <= n <= len ==> Covered(out, path, n)
  }

  ghost predicate AllApart(out: seq<Chunk>) {
    forall j, k :: 0 <= j < k < |out| ==> Apart(out[j], out[k])
  }

  // Runs that cover a whole file are one run.
  lemma OneSpan(path: string, len: nat, out: seq<Chunk>)
    requires len > 0 && SpansOf(path, len, out) && CoversAll(path, len, out) && AllApart(out)
    ensures |out| == 1 && out[0].startLine == 1 && out[0].endLine == len
  {
    assert Covered(out, path, 1);
    var first :| 0 <= first < |out| && out[first].path == path && OnLine(out[first], 1);
    if out[first].endLine < len {
      assert Covered(out, path, out[first].endLine + 1);
      var k :| 0 <= k < |out| && out[k].path == path && OnLine(out[k], out[first].endLine + 1);
      NothingElse(out, first, k);
    }
    if |out| > 1 {
      NothingElse(out, first, if first == 0 then 1 else 0);
    }
  }

  lemma NothingElse(out: seq<Chunk>, first: int, k: int)
    requires AllApart(out)
    requires 0 <= first < |out| && 0 <= k < |out|
    ensures k != first ==> Apart(out[k], out[first])
  {
  }

  lemma RunsSpan(files: map<string, seq<string>>, path: string, chunks: seq<Chunk>, out: seq<Chunk>, ranks: seq<nat>)
    requires path in files
    requires forall i :: 0 <= i < |chunks| ==> chunks[i].path == path
    requires MaximalRuns(files, chunks, out, ranks)
    ensures SpansOf(path, |files[path]|, out)
  {
    forall k | 0 <= k < |out|
      ensures out[k].path == path && CutFrom(files[path], out[k])
    {
      assert BestRank(chunks, ranks[k], out[k]);
    }
  }

  lemma WholeFileIsOneRun(files: map<string, seq<string>>, path: string, chunks: seq<Chunk>, out: seq<Chunk>, ranks: seq<nat>)
    requires path in files && files[path] != []
    requires forall i :: 0 <= i < |chunks| ==> chunks[i].path == path
    requires CoversAll(path, |files[path]|, chunks)
    requires MaximalRuns(files, chunks, out, ranks)
    ensures |out| == 1 && out[0].path == path && out[0].startLine == 1 && out[0].endLine == |files[path]|
    ensures CutFrom(files[path], out[0])
  {
    RunsSpan(files, path, chunks, out, ranks);
    OneSpan(path, |files[path]|, out);
  }

  // THE WINDOWS ARE THE FILE: merging every window of a file that is not empty gives one span
  // with the file's own content.
  lemma WindowsMergeToFile(content: string, path: string, kindOf: seq<string> -> string)
    requires content != ""
    ensures var out := Merged(Windows(SplitLines(content), path, kindOf, 0));
            && |out| == 1 && out[0].path == path && out[0].content == content
            && out[0].startLine == 1 && out[0].endLine == |SplitLines(content)|
  {
    var lines := SplitLines(content);
    JoinOfSplit(content, NL);
    var windows := Windows(lines, path, kindOf, 0);
    WindowsAreCut(lines, path, kindOf, 0);
    var files := map[path := lines];
    forall n | 1 <= n <= |lines|
      ensures Covered(windows, path, n)
    {
      WindowsCover(lines, path, kindOf, 0, n);
    }
    var ranks := MergedIsMaximalRuns(files, windows);
    WholeFileIsOneRun(files, path, windows, Merged(windows), ranks);
    assert lines[0..|lines|] == lines;
  }

  // ---------------------------------------------------------------- nothing is lost

  ghost predicate HeldBySome(runs: seq<Run>, c: Chunk) {
    exists k :: 0 <= k < |runs| && Holds(runs[k].chunk, c)
  }

  lemma HeldStays(runs: seq<Run>, more: seq<Run>, c: Chunk)
    requires HeldBySome(runs, c)
    ensures HeldBySome(runs + more, c)
  {
    var k :| 0 <= k < |runs| && Holds(runs[k].chunk, c);
    assert (runs + more)[k] == runs[k];
  }

  lemma HeldJoins(done: seq<Run>, cur: Run, r: Run, c: Chunk)
    requires HeldBySome(done + [cur], c)
    requires Holds(r.chunk, cur.chunk)
    ensures HeldBySome(done + [r], c)
  {
    var k :| 0 <= k < |done + [cur]| && Holds((done + [cur])[k].chunk, c);
    if k < |done| {
      assert (done + [r])[k] == (done + [cur])[k];
    } else {
      HoldsTransitive(r.chunk, cur.chunk, c);
      assert (done + [r])[|done|] == r;
    }
  }

  lemma {:induction false} SweepKeeps(chunks: seq<Chunk>, done: seq<Run>, cur: Run, rest: seq<nat>, c: Chunk)
    requires InBounds(rest, |chunks|)
    requires HeldBySome(done + [cur], c) || exists j :: 0 <= j < |rest| && chunks[rest[j]] == c
    ensures HeldBySome(Sweep(chunks, done, cur, rest), c)
    decreases |rest|
  {
    if rest != [] {
      var next := chunks[rest[0]];
      var later := !HeldBySome(done + [cur], c) && c != next;
      if later {
        ComesLater(chunks, rest, c);
      }
      if Splice(cur.chunk, next).None? {
        if !later {
          HeldWithNext(done, cur, Run(rest[0], next), c);
        }
        SweepKeeps(chunks, done + [cur], Run(rest[0], next), rest[1..], c);
      } else {
        var r := Run(Min(rest[0], cur.rank), Splice(cur.chunk, next).value);
        SpliceHoldsBoth(cur.chunk, next);
        if !later {
          HeldWhenJoined(done, cur, next, r, c);
        }
        SweepKeeps(chunks, done, r, rest[1..], c);
      }
    }
  }

  lemma ComesLater(chunks: seq<Chunk>, rest: seq<nat>, c: Chunk)
    requires InBounds(rest, |chunks|) && rest != [] && chunks[rest[0]] != c
    requires exists j :: 0 <= j < |rest| && chunks[rest[j]] == c
    ensures exists j :: 0 <= j < |rest[1..]| && chunks[rest[1..][j]] == c
  {
    var j :| 0 <= j < |rest| && chunks[rest[j]] == c;
    assert rest[1..][j - 1] == rest[j];
  }

  lemma HeldWithNext(done: seq<Run>, cur: Run, r: Run, c: Chunk)
    requires HeldBySome(done + [cur], c) || c == r.chunk
    ensures HeldBySome(done + [cur] + [r], c)
  {
    if HeldBySome(done + [cur], c) {
      HeldStays(done + [cur], [r], c);
    } else {
      assert (done + [cur] + [r])[|done| + 1].chunk == c;
    }
  }

  lemma HeldWhenJoined(done: seq<Run>, cur: Run, next: Chunk, r: Run, c: Chunk)
    requires HeldBySome(done + [cur], c) || c == next
    requires Holds(r.chunk, cur.chunk) && Holds(r.chunk, next)
    ensures HeldBySome(done + [r], c)
  {
    if HeldBySome(done + [cur], c) {
      HeldJoins(done, cur, r, c);
    } else {
      assert (done + [r])[|done|] == r;
    }
  }

  lemma {:induction false} RunsKeep(chunks: seq<Chunk>, order: seq<string>, i: nat)
    requires i < |chunks| && chunks[i].path in order
    ensures HeldBySome(RunsOfAll(chunks, order), chunks[i])
  {
    var init, last := order[..|order| - 1], order[|order| - 1];
    if chunks[i].path in init {
      RunsKeep(chunks, init, i);
      HeldStays(RunsOfAll(chunks, init), RunsOf(chunks, last), chunks[i]);
    } else {
      assert order == init + [last];
      PlaceKept(chunks, last, i);
      var k :| 0 <= k < |RunsOf(chunks, last)| && Holds(RunsOf(chunks, last)[k].chunk, chunks[i]);
      assert RunsOfAll(chunks, order)[|RunsOfAll(chunks, init)| + k] == RunsOf(chunks, last)[k];
    }
  }

  lemma PlaceKept(chunks: seq<Chunk>, path: string, i: nat)
    requires i < |chunks| && chunks[i].path == path
    ensures HeldBySome(RunsOf(chunks, path), chunks[i])
  {
    var idxs := SortPlaces(chunks, Places(chunks, path));
    PlacesAre(chunks, path, i);
    SortedPlaces(chunks, Places(chunks, path));
    var j :| 0 <= j < |idxs| && idxs[j] == i;
    var first := Run(idxs[0], chunks[idxs[0]]);
    if j == 0 {
      assert ([] + [first])[0].chunk == chunks[i];
    } else {
      assert idxs[1..][j - 1] == i;
    }
    SweepKeeps(chunks, [], first, idxs[1..], chunks[i]);
  }

  // NOTHING IS LOST, whatever the chunks: of every chunk given, some span returned holds all
  // of it, unchanged if it could not be spliced.
  lemma MergeKeepsEverything(chunks: seq<Chunk>, i: nat)
    requires i < |chunks|
    ensures exists k :: 0 <= k < |Merged(chunks)| && Holds(Merged(chunks)[k], chunks[i])
  {
    if |chunks| < 2 {
      assert Holds(Merged(chunks)[i], chunks[i]);
    } else {
      FilesAre(chunks);
      var runs := RunsOfAll(chunks, Files(chunks));
      RunsKeep(chunks, Files(chunks), i);
      var k :| 0 <= k < |runs| && Holds(runs[k].chunk, chunks[i]);
      assert runs[k] in SortRuns(runs);
      var j :| 0 <= j < |SortRuns(runs)| && SortRuns(runs)[j] == runs[k];
      assert Merged(chunks)[j] == runs[k].chunk;
    }
  }
}
