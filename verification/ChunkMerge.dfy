/**
 Folding retrieved chunks of a file into contiguous spans (daemon/chunkmerge.go). Chunks are
 indexed as overlapping windows; a prompt should hold each line once. Two chunks are joined
 only if their ranges touch or overlap and the lines they share are the same.
 */
module ChunkMerge {
  import opened Numbers
  import opened Text
  import opened Wrappers

  const NL := '\n'

  // A stretch of lines of a file, both ends included and counted from one.
  datatype Chunk = Chunk(
    path: string, startLine: int, endLine: int, content: string, score: real, rawScore: real, kind: string)

  function MaxReal(a: real, b: real): real { if b > a then b else a }

  // chunkLinesOf: the lines, if there are as many as the range says.
  function LinesOf(c: Chunk): Option<seq<string>> {
    var lines := Split(c.content, NL);
    if c.startLine < 1 || c.endLine < c.startLine || |lines| != c.endLine - c.startLine + 1 then None else Some(lines)
  }

  // spliceChunk
  function Splice(cur: Chunk, next: Chunk): Option<Chunk> {
    if cur.path != next.path || next.startLine < cur.startLine || next.startLine > cur.endLine + 1 then None
    else match (LinesOf(cur), LinesOf(next))
      case (Some(curLines), Some(nextLines)) =>
        var offset := next.startLine - cur.startLine;
        var overlap := Max(Min(next.endLine, cur.endLine) - next.startLine + 1, 0);
        if overlap > 0 && (offset + overlap > |curLines| || overlap > |nextLines|) then None
        else if overlap > 0 && curLines[offset..offset + overlap] != nextLines[..overlap] then None
        else Some(Chunk(cur.path, cur.startLine, Max(next.endLine, cur.endLine),
                        Join(curLines + nextLines[overlap..], NL),
                        MaxReal(cur.score, next.score), MaxReal(cur.rawScore, next.rawScore),
                        if cur.kind == "" then next.kind else cur.kind))
      case _ => None
  }

  // ---------------------------------------------------------------- what a splice is

  // Line `n` of the file, as the chunk has it.
  ghost predicate HasLine(c: Chunk, n: int) {
    LinesOf(c).Some? && c.startLine <= n <= c.endLine
  }

  ghost function LineAt(c: Chunk, n: int): string
    requires HasLine(c, n)
  {
    LinesOf(c).value[n - c.startLine]
  }

  // The two have the same text wherever both have any.
  ghost predicate Agree(a: Chunk, b: Chunk) {
    forall n {:trigger HasLine(a, n)} :: HasLine(a, n) && HasLine(b, n) ==> LineAt(a, n) == LineAt(b, n)
  }

  // Everything `c` says, `o` says.
  ghost predicate Holds(o: Chunk, c: Chunk) {
    o == c ||
    (&& LinesOf(o).Some? && LinesOf(c).Some?
     && o.path == c.path && o.startLine <= c.startLine && c.endLine <= o.endLine
     && (forall n {:trigger HasLine(c, n)} :: HasLine(c, n) ==> HasLine(o, n) && LineAt(o, n) == LineAt(c, n))
     && o.score >= c.score && o.rawScore >= c.rawScore)
  }

  lemma LinesAreSeparate(c: Chunk)
    ensures LinesOf(c).Some? ==> Separate(LinesOf(c).value, NL)
  {
    JoinOfSplit(c.content, NL);
  }

  // The lines of the joined text are the joined lines.
  lemma SplicedLines(cur: Chunk, next: Chunk)
    requires Splice(cur, next).Some?
    ensures var overlap := Max(Min(next.endLine, cur.endLine) - next.startLine + 1, 0);
            && overlap <= |LinesOf(next).value|
            && LinesOf(Splice(cur, next).value) == Some(LinesOf(cur).value + LinesOf(next).value[overlap..])
  {
    LinesAreSeparate(cur);
    LinesAreSeparate(next);
    var overlap := Max(Min(next.endLine, cur.endLine) - next.startLine + 1, 0);
    SplitOfJoin(LinesOf(cur).value + LinesOf(next).value[overlap..], NL);
  }

  // A SPLICE IS NOT A GUESS: it is made exactly if the ranges touch or overlap, both chunks
  // have the lines they say, and the lines they share are equal; and then it holds both.
  lemma SpliceIff(cur: Chunk, next: Chunk)
    ensures Splice(cur, next).Some? <==>
            && cur.path == next.path && cur.startLine <= next.startLine <= cur.endLine + 1
            && LinesOf(cur).Some? && LinesOf(next).Some? && Agree(cur, next)
  {
    if cur.path == next.path && cur.startLine <= next.startLine <= cur.endLine + 1
       && LinesOf(cur).Some? && LinesOf(next).Some? {
      var overlap := Max(Min(next.endLine, cur.endLine) - next.startLine + 1, 0);
      if overlap > 0 {
        SharedLinesAgree(cur, next, overlap);
      }
    }
  }

  lemma SharedLinesAgree(cur: Chunk, next: Chunk, overlap: nat)
    requires LinesOf(cur).Some? && LinesOf(next).Some? && cur.startLine <= next.startLine
    requires overlap == Min(next.endLine, cur.endLine) - next.startLine + 1 > 0
    ensures var offset := next.startLine - cur.startLine;
            && offset + overlap <= |LinesOf(cur).value| && overlap <= |LinesOf(next).value|
            && (Agree(cur, next) <==> LinesOf(cur).value[offset..offset + overlap] == LinesOf(next).value[..overlap])
  {
    var curLines, nextLines := LinesOf(cur).value, LinesOf(next).value;
    var offset := next.startLine - cur.startLine;
    if Agree(cur, next) {
      forall i | 0 <= i < overlap
        ensures curLines[offset..offset + overlap][i] == nextLines[..overlap][i]
      {
        assert HasLine(cur, next.startLine + i);
      }
    }
    if curLines[offset..offset + overlap] == nextLines[..overlap] {
      forall n {:trigger HasLine(cur, n)} | HasLine(cur, n) && HasLine(next, n)
        ensures LineAt(cur, n) == LineAt(next, n)
      {
        assert curLines[offset..offset + overlap][n - next.startLine] == nextLines[..overlap][n - next.startLine];
      }
    }
  }

  lemma SpliceHoldsBoth(cur: Chunk, next: Chunk)
    requires Splice(cur, next).Some?
    ensures Holds(Splice(cur, next).value, cur) && Holds(Splice(cur, next).value, next)
    ensures var m := Splice(cur, next).value;
            && m.startLine == cur.startLine && m.endLine in {cur.endLine, next.endLine}
            && m.score in {cur.score, next.score} && m.rawScore in {cur.rawScore, next.rawScore}
            && (if cur.kind != "" then m.kind == cur.kind else m.kind == next.kind)
  {
    var m := Splice(cur, next).value;
    var overlap := Max(Min(next.endLine, cur.endLine) - next.startLine + 1, 0);
    SplicedLines(cur, next);
    SpliceIff(cur, next);
    forall n {:trigger HasLine(next, n)} | HasLine(next, n)
      ensures HasLine(m, n) && LineAt(m, n) == LineAt(next, n)
    {
      if n <= cur.endLine {
        assert HasLine(cur, n);
      } else {
        assert n - next.startLine >= overlap;
      }
    }
  }

  lemma HoldsTransitive(a: Chunk, b: Chunk, c: Chunk)
    requires Holds(a, b) && Holds(b, c)
    ensures Holds(a, c)
  {
    if a != b && b != c {
      forall n {:trigger HasLine(c, n)} | HasLine(c, n)
        ensures HasLine(a, n) && LineAt(a, n) == LineAt(c, n)
      {
        assert HasLine(b, n);
      }
    }
  }

  // ---------------------------------------------------------------- the sweep

  // One span being built, and the best input rank that went into it.
  datatype Run = Run(rank: nat, chunk: Chunk)

  // The files, in the order they first appear, and the places of one file's chunks.
  function Files(chunks: seq<Chunk>): seq<string> {
    if chunks == [] then []
    else
      var order := Files(chunks[..|chunks| - 1]);
      var path := chunks[|chunks| - 1].path;
      if path in order then order else order + [path]
  }

  predicate InBounds(idxs: seq<nat>, n: nat) {
    forall j :: 0 <= j < |idxs| ==> idxs[j] < n
  }

  function Places(chunks: seq<Chunk>, path: string): (idxs: seq<nat>)
    ensures InBounds(idxs, |chunks|)
  {
    if chunks == [] then []
    else
      var before := Places(chunks[..|chunks| - 1], path);
      if chunks[|chunks| - 1].path == path then before + [|chunks| - 1] else before
  }

  // The stable sort: by first line, the longer first, and the earlier first.
  predicate InOrder(chunks: seq<Chunk>, a: nat, b: nat)
    requires a < |chunks| && b < |chunks|
  {
    var ca, cb := chunks[a], chunks[b];
    ca.startLine < cb.startLine ||
    (ca.startLine == cb.startLine && (ca.endLine > cb.endLine || (ca.endLine == cb.endLine && a <= b)))
  }

  function InsertPlace(chunks: seq<Chunk>, i: nat, idxs: seq<nat>): (r: seq<nat>)
    requires i < |chunks| && InBounds(idxs, |chunks|)
    ensures InBounds(r, |chunks|) && |r| == |idxs| + 1
  {
    if idxs == [] || InOrder(chunks, i, idxs[0]) then [i] + idxs
    else [idxs[0]] + InsertPlace(chunks, i, idxs[1..])
  }

  function SortPlaces(chunks: seq<Chunk>, idxs: seq<nat>): (r: seq<nat>)
    requires InBounds(idxs, |chunks|)
    ensures InBounds(r, |chunks|) && |r| == |idxs|
  {
    if idxs == [] then [] else InsertPlace(chunks, idxs[0], SortPlaces(chunks, idxs[1..]))
  }

  // The inner loop of mergeAdjacentChunks over the places still to come.
  function Sweep(chunks: seq<Chunk>, done: seq<Run>, cur: Run, rest: seq<nat>): seq<Run>
    requires InBounds(rest, |chunks|)
    decreases |rest|
  {
    if rest == [] then done + [cur]
    else
      var i := rest[0];
      match Splice(cur.chunk, chunks[i])
      case None => Sweep(chunks, done + [cur], Run(i, chunks[i]), rest[1..])
      case Some(merged) => Sweep(chunks, done, Run(Min(i, cur.rank), merged), rest[1..])
  }

  function SweepAll(chunks: seq<Chunk>, idxs: seq<nat>): seq<Run>
    requires InBounds(idxs, |chunks|)
  {
    if idxs == [] then [] else Sweep(chunks, [], Run(idxs[0], chunks[idxs[0]]), idxs[1..])
  }

  function RunsOf(chunks: seq<Chunk>, path: string): seq<Run> {
    SweepAll(chunks, SortPlaces(chunks, Places(chunks, path)))
  }

  function RunsOfAll(chunks: seq<Chunk>, order: seq<string>): seq<Run> {
    if order == [] then []
    else RunsOfAll(chunks, order[..|order| - 1]) + RunsOf(chunks, order[|order| - 1])
  }

  function InsertRun(r: Run, runs: seq<Run>): (s: seq<Run>)
    ensures forall x :: x in s <==> x == r || x in runs
    ensures |s| == |runs| + 1
  {
    if runs == [] || r.rank <= runs[0].rank then [r] + runs else [runs[0]] + InsertRun(r, runs[1..])
  }

  // The final stable sort, by rank.
  function SortRuns(runs: seq<Run>): (s: seq<Run>)
    ensures forall x :: x in s <==> x in runs
    ensures |s| == |runs|
  {
    if runs == [] then [] else InsertRun(runs[0], SortRuns(runs[1..]))
  }

  function ChunksOf(runs: seq<Run>): (cs: seq<Chunk>)
    ensures |cs| == |runs|
    ensures forall k :: 0 <= k < |runs| ==> cs[k] == runs[k].chunk
  {
    seq(|runs|, k requires 0 <= k < |runs| => runs[k].chunk)
  }

  // mergeAdjacentChunks, as a function.
  function Merged(chunks: seq<Chunk>): seq<Chunk> {
    if |chunks| < 2 then chunks else ChunksOf(SortRuns(RunsOfAll(chunks, Files(chunks))))
  }

  // ---------------------------------------------------------------- mergeAdjacentChunks

  method SweepFile(chunks: seq<Chunk>, idxs: seq<nat>, before: seq<Run>) returns (runs: seq<Run>)
    requires idxs != [] && InBounds(idxs, |chunks|)
    ensures runs == before + SweepAll(chunks, idxs)
  {
    ghost var done: seq<Run> := [];
    runs := before;
    var cur := Run(idxs[0], chunks[idxs[0]]);
    for k := 1 to |idxs|
      invariant runs == before + done
      invariant Sweep(chunks, done, cur, idxs[k..]) == SweepAll(chunks, idxs)
    {
      var i := idxs[k];
      assert idxs[k..][1..] == idxs[k + 1..];
      match Splice(cur.chunk, chunks[i]) {
        case None =>
          runs := runs + [cur];
          done := done + [cur];
          cur := Run(i, chunks[i]);
        case Some(merged) =>
          cur := Run(Min(i, cur.rank), merged);
      }
    }
    runs := runs + [cur];
  }

  // The grouping loop: the files in order of appearance, and the places of each.
  method GroupByFile(chunks: seq<Chunk>) returns (byFile: map<string, seq<nat>>, order: seq<string>)
    ensures order == Files(chunks)
    ensures forall p :: p in byFile <==> p in order
    ensures forall p :: p in byFile ==> byFile[p] == Places(chunks, p)
  {
    byFile := map[];
    order := [];
    for i := 0 to |chunks|
      invariant order == Files(chunks[..i])
      invariant forall p :: p in byFile <==> p in order
      invariant forall p :: if p in byFile then byFile[p] == Places(chunks[..i], p) else Places(chunks[..i], p) == []
    {
      var path := chunks[i].path;
      assert chunks[..i + 1][..i] == chunks[..i];
      if path !in byFile {
        order := order + [path];
        byFile := byFile[path := []];
      }
      byFile := byFile[path := byFile[path] + [i]];
    }
    assert chunks[..|chunks|] == chunks;
  }

  // The loop over the files.
  method SweepFiles(chunks: seq<Chunk>) returns (runs: seq<Run>)
    ensures runs == RunsOfAll(chunks, Files(chunks))
  {
    var byFile, order := GroupByFile(chunks);
    runs := [];
    for f := 0 to |order|
      invariant runs == RunsOfAll(chunks, order[..f])
    {
      assert order[..f + 1][..f] == order[..f];
      assert order[f] in order;
      var idxs := SortPlaces(chunks, byFile[order[f]]);
      if idxs != [] {
        runs := SweepFile(chunks, idxs, runs);
      } else {
        assert runs + [] == runs;
      }
    }
    assert order[..|order|] == order;
  }

  method MergeAdjacentChunks(chunks: seq<Chunk>) returns (out: seq<Chunk>)
    ensures out == Merged(chunks)
  {
    if |chunks| < 2 {
      return chunks;
    }
    var runs := SweepFiles(chunks);
    out := Unwrap(SortRuns(runs));
  }

  method Unwrap(runs: seq<Run>) returns (out: seq<Chunk>)
    ensures out == ChunksOf(runs)
  {
    out := [];
    for k := 0 to |runs|
      invariant |out| == k
      invariant forall j :: 0 <= j < k ==> out[j] == runs[j].chunk
    {
      out := out + [runs[k].chunk];
    }
  }
}
