/**
 What folding chunks comes to (daemon/chunkmerge.go, daemon/chunker.go). Of chunks cut from
 one version of each file, it makes exactly the maximal runs of covered lines with their
 exact text; and of all the windows the chunker cuts a file into, it makes the file again.
 */
module ChunkSpans {
  import opened Numbers
  import opened Text
  import opened Wrappers
  import opened ChunkMerge

  // ---------------------------------------------------------------- chunks of one version

  // The chunk is lines startLine..endLine of the file.
  ghost predicate CutFrom(file: seq<string>, c: Chunk) {
    && Separate(file, NL)
    && 1 <= c.startLine <= c.endLine <= |file|
    && c.content == Join(file[c.startLine - 1..c.endLine], NL)
  }

  lemma CutLines(file: seq<string>, c: Chunk)
    requires CutFrom(file, c)
    ensures LinesOf(c) == Some(file[c.startLine - 1..c.endLine])
  {
    SplitOfJoin(file[c.startLine - 1..c.endLine], NL);
  }

  lemma JoinedCut(file: seq<string>, a: nat, b: nat, c: nat, d: nat)
    requires a <= b <= |file| && a <= c <= b + 0 && c <= d <= |file|
    ensures file[a..b] + file[c..d][(if d <= b then d - c else b - c)..] == file[a..if d <= b then b else d]
  {
    if d <= b {
      assert file[c..d][d - c..] == [];
    } else {
      assert file[c..d][b - c..] == file[b..d];
      assert file[a..b] + file[b..d] == file[a..d];
    }
  }

  // Chunks of one version agree wherever they meet.
  lemma CutsAgree(file: seq<string>, a: Chunk, b: Chunk)
    requires CutFrom(file, a) && CutFrom(file, b)
    ensures LinesOf(a).Some? && LinesOf(b).Some? && Agree(a, b)
  {
    CutLines(file, a);
    CutLines(file, b);
  }

  // Chunks of one version are joined exactly if their ranges touch or overlap.
  lemma SpliceCutIff(file: seq<string>, cur: Chunk, next: Chunk)
    requires CutFrom(file, cur) && CutFrom(file, next)
    requires cur.path == next.path && cur.startLine <= next.startLine
    ensures Splice(cur, next).Some? <==> next.startLine <= cur.endLine + 1
  {
    CutsAgree(file, cur, next);
    SpliceIff(cur, next);
  }

  // And what they make is cut from that version too.
  lemma SpliceCut(file: seq<string>, cur: Chunk, next: Chunk)
    requires CutFrom(file, cur) && CutFrom(file, next)
    requires Splice(cur, next).Some?
    ensures var m := Splice(cur, next).value;
            && m.path == cur.path && m.startLine == cur.startLine && m.endLine == Max(cur.endLine, next.endLine)
            && CutFrom(file, m)
  {
    SpliceIff(cur, next);
    SplicedLines(cur, next);
    CutLines(file, cur);
    CutLines(file, next);
    SplicedCut(file, cur, next, Splice(cur, next).value);
  }

  lemma SplicedCut(file: seq<string>, cur: Chunk, next: Chunk, m: Chunk)
    requires Separate(file, NL)
    requires 1 <= cur.startLine <= cur.endLine <= |file| && 1 <= next.startLine <= next.endLine <= |file|
    requires cur.startLine <= next.startLine <= cur.endLine + 1
    requires m.startLine == cur.startLine && m.endLine == Max(next.endLine, cur.endLine)
    requires var overlap := Max(Min(next.endLine, cur.endLine) - next.startLine + 1, 0);
             && overlap <= next.endLine - next.startLine + 1
             && m.content == Join(file[cur.startLine - 1..cur.endLine] + file[next.startLine - 1..next.endLine][overlap..], NL)
    ensures CutFrom(file, m)
  {
    JoinedCut(file, cur.startLine - 1, cur.endLine, next.startLine - 1, next.endLine);
  }

  // ---------------------------------------------------------------- one file's sweep

  predicate Inside(c: Chunk, o: Chunk) {
    c.path == o.path && o.startLine <= c.startLine && c.endLine <= o.endLine
  }

  ghost predicate InsideSome(c: Chunk, runs: seq<Run>) {
    exists k :: 0 <= k < |runs| && Inside(c, runs[k].chunk)
  }

  predicate OnLine(c: Chunk, n: int) {
    c.startLine <= n <= c.endLine
  }

  // The best rank of what went into the run.
  ghost predicate Best(chunks: seq<Chunk>, processed: set<nat>, r: Run) {
    && r.rank in processed && r.rank < |chunks|
    && Inside(chunks[r.rank], r.chunk)
    && forall i :: i in processed && i < |chunks| && Inside(chunks[i], r.chunk) ==> r.rank <= i
  }

  // Something stands between any two, in order.
  ghost predicate Gaps(runs: seq<Run>) {
    forall j, k :: 0 <= j < k < |runs| ==> runs[j].chunk.endLine + 1 < runs[k].chunk.startLine
  }

  ghost predicate GoodRun(file: seq<string>, path: string, chunks: seq<Chunk>, processed: set<nat>, r: Run) {
    r.chunk.path == path && CutFrom(file, r.chunk) && Best(chunks, processed, r)
  }

  // Every line of a run is a line of a chunk that went in.
  ghost predicate Filled(chunks: seq<Chunk>, processed: set<nat>, r: Run) {
    forall n :: OnLine(r.chunk, n) ==> exists i :: i in processed && i < |chunks| && chunks[i].path == r.chunk.path && OnLine(chunks[i], n)
  }

  // `runs` are what the sweep should have made of the chunks at `processed`.
  ghost predicate Swept(file: seq<string>, path: string, chunks: seq<Chunk>, processed: set<nat>, runs: seq<Run>) {
    && AllPlaced(path, chunks, processed, runs)
    && AllGood(file, path, chunks, processed, runs)
    && Gaps(runs)
  }

  ghost predicate AllPlaced(path: string, chunks: seq<Chunk>, processed: set<nat>, runs: seq<Run>) {
    forall i :: i in processed ==>
      i < |chunks| && chunks[i].path == path && chunks[i].startLine <= chunks[i].endLine && InsideSome(chunks[i], runs)
  }

  ghost predicate AllGood(file: seq<string>, path: string, chunks: seq<Chunk>, processed: set<nat>, runs: seq<Run>) {
    forall k :: 0 <= k < |runs| ==>
      GoodRun(file, path, chunks, processed, runs[k]) && Filled(chunks, processed, runs[k])
  }

  // Everything in `runs` ends well before line `n`.
  ghost predicate EndBefore(runs: seq<Run>, n: int) {
    forall k :: 0 <= k < |runs| ==> runs[k].chunk.endLine + 1 < n
  }

  // ---- the next chunk starts past the run at hand

  lemma NotInside(path: string, chunks: seq<Chunk>, processed: set<nat>, runs: seq<Run>, o: Chunk, j: nat)
    requires AllPlaced(path, chunks, processed, runs)
    requires EndBefore(runs, o.startLine)
    requires j in processed
    ensures !Inside(chunks[j], o)
  {
    var k :| 0 <= k < |runs| && Inside(chunks[j], runs[k].chunk);
    assert chunks[j].endLine <= runs[k].chunk.endLine < o.startLine;
  }

  lemma NewPlaced(path: string, chunks: seq<Chunk>, processed: set<nat>, runs: seq<Run>, r: Run, i: nat)
    requires AllPlaced(path, chunks, processed, runs)
    requires i < |chunks| && chunks[i].path == path && chunks[i].startLine <= chunks[i].endLine
    requires Inside(chunks[i], r.chunk)
    ensures AllPlaced(path, chunks, processed + {i}, runs + [r])
  {
    forall j | j in processed + {i}
      ensures InsideSome(chunks[j], runs + [r])
    {
      if j == i {
        assert Inside(chunks[i], (runs + [r])[|runs|].chunk);
      } else {
        var k :| 0 <= k < |runs| && Inside(chunks[j], runs[k].chunk);
        assert (runs + [r])[k] == runs[k];
      }
    }
  }

  // A run keeps what it was when a chunk that is not inside it joins.
  lemma GoodStays(file: seq<string>, path: string, chunks: seq<Chunk>, processed: set<nat>, r: Run, i: nat)
    requires GoodRun(file, path, chunks, processed, r) && Filled(chunks, processed, r)
    requires i < |chunks| ==> !Inside(chunks[i], r.chunk)
    ensures GoodRun(file, path, chunks, processed + {i}, r) && Filled(chunks, processed + {i}, r)
  {
    forall n | OnLine(r.chunk, n)
      ensures exists j :: j in processed + {i} && j < |chunks| && chunks[j].path == r.chunk.path && OnLine(chunks[j], n)
    {
      var j :| j in processed && j < |chunks| && chunks[j].path == r.chunk.path && OnLine(chunks[j], n);
      assert j in processed + {i};
    }
  }

  lemma NewGood(file: seq<string>, path: string, chunks: seq<Chunk>, processed: set<nat>, runs: seq<Run>, i: nat)
    requires AllPlaced(path, chunks, processed, runs)
    requires AllGood(file, path, chunks, processed, runs)
    requires i < |chunks| && chunks[i].path == path && CutFrom(file, chunks[i])
    requires EndBefore(runs, chunks[i].startLine)
    ensures AllGood(file, path, chunks, processed + {i}, runs + [Run(i, chunks[i])])
  {
    var r := Run(i, chunks[i]);
    forall j | j in processed && j < |chunks|
      ensures !Inside(chunks[j], r.chunk)
    {
      NotInside(path, chunks, processed, runs, r.chunk, j);
    }
    forall n | OnLine(r.chunk, n)
      ensures exists j :: j in processed + {i} && j < |chunks| && chunks[j].path == r.chunk.path && OnLine(chunks[j], n)
    {
      assert i in processed + {i};
    }
    forall k | 0 <= k < |runs|
      ensures GoodRun(file, path, chunks, processed + {i}, runs[k]) && Filled(chunks, processed + {i}, runs[k])
    {
      assert runs[k].chunk.endLine + 1 < chunks[i].startLine;
      GoodStays(file, path, chunks, processed, runs[k], i);
    }
  }

  lemma LastEnds(runs: seq<Run>, n: int)
    requires runs != [] && Gaps(runs)
    requires runs[|runs| - 1].chunk.startLine <= runs[|runs| - 1].chunk.endLine
    requires runs[|runs| - 1].chunk.endLine + 1 < n
    ensures EndBefore(runs, n)
  {
  }

  lemma GapsNew(runs: seq<Run>, r: Run)
    requires Gaps(runs) && EndBefore(runs, r.chunk.startLine)
    ensures Gaps(runs + [r])
  {
  }

  lemma SweptNew(file: seq<string>, path: string, chunks: seq<Chunk>, processed: set<nat>, done: seq<Run>, cur: Run, i: nat)
    requires Swept(file, path, chunks, processed, done + [cur])
    requires i < |chunks| && chunks[i].path == path && CutFrom(file, chunks[i])
    requires chunks[i].startLine > cur.chunk.endLine + 1
    ensures Swept(file, path, chunks, processed + {i}, done + [cur] + [Run(i, chunks[i])])
  {
    var runs := done + [cur];
    assert runs[|runs| - 1] == cur && GoodRun(file, path, chunks, processed, runs[|runs| - 1]);
    LastEnds(runs, chunks[i].startLine);
    NewPlaced(path, chunks, processed, runs, Run(i, chunks[i]), i);
    NewGood(file, path, chunks, processed, runs, i);
    GapsNew(runs, Run(i, chunks[i]));
  }

  // ---- the next chunk joins the run at hand

  lemma SweptJoin(file: seq<string>, path: string, chunks: seq<Chunk>, processed: set<nat>, done: seq<Run>, cur: Run, i: nat)
    requires Swept(file, path, chunks, processed, done + [cur])
    requires i < |chunks| && chunks[i].path == path && CutFrom(file, chunks[i])
    requires cur.chunk.startLine <= chunks[i].startLine
    requires Splice(cur.chunk, chunks[i]).Some?
    ensures Swept(file, path, chunks, processed + {i}, done + [Run(Min(i, cur.rank), Splice(cur.chunk, chunks[i]).value)])
  {
    CurIsGood(file, path, chunks, processed, done, cur);
    SpliceCut(file, cur.chunk, chunks[i]);
    SpliceCutIff(file, cur.chunk, chunks[i]);
    JoinedRun(file, path, chunks, processed, done, cur, Run(Min(i, cur.rank), Splice(cur.chunk, chunks[i]).value), i);
  }

  lemma JoinedRun(file: seq<string>, path: string, chunks: seq<Chunk>, processed: set<nat>, done: seq<Run>, cur: Run, r: Run, i: nat)
    requires Swept(file, path, chunks, processed, done + [cur])
    requires i < |chunks| && chunks[i].path == path == r.chunk.path
    requires cur.chunk.path == path
    requires cur.chunk.startLine <= chunks[i].startLine <= cur.chunk.endLine + 1
    requires chunks[i].startLine <= chunks[i].endLine
    requires r.rank == Min(i, cur.rank) && CutFrom(file, r.chunk)
    requires r.chunk.startLine == cur.chunk.startLine && r.chunk.endLine == Max(cur.chunk.endLine, chunks[i].endLine)
    ensures Swept(file, path, chunks, processed + {i}, done + [r])
  {
    DoneEnds(done, cur);
    JoinPlaced(path, chunks, processed, done, cur, r, i);
    JoinGood(file, path, chunks, processed, done, cur, r, i);
    GapsInit(done, cur);
    GapsNew(done, r);
  }

  lemma GapsInit(done: seq<Run>, cur: Run)
    requires Gaps(done + [cur])
    ensures Gaps(done)
  {
    forall j, k | 0 <= j < k < |done|
      ensures done[j].chunk.endLine + 1 < done[k].chunk.startLine
    {
      assert (done + [cur])[j].chunk.endLine + 1 < (done + [cur])[k].chunk.startLine;
    }
  }

  lemma DoneEnds(done: seq<Run>, cur: Run)
    requires Gaps(done + [cur])
    ensures EndBefore(done, cur.chunk.startLine)
  {
    forall k | 0 <= k < |done|
      ensures done[k].chunk.endLine + 1 < cur.chunk.startLine
    {
      assert (done + [cur])[k].chunk.endLine + 1 < (done + [cur])[|done|].chunk.startLine;
    }
  }

  lemma JoinPlaced(path: string, chunks: seq<Chunk>, processed: set<nat>, done: seq<Run>, cur: Run, r: Run, i: nat)
    requires AllPlaced(path, chunks, processed, done + [cur])
    requires i < |chunks| && chunks[i].path == path && chunks[i].startLine <= chunks[i].endLine
    requires Inside(chunks[i], r.chunk) && Inside(cur.chunk, r.chunk)
    ensures AllPlaced(path, chunks, processed + {i}, done + [r])
  {
    forall j | j in processed + {i}
      ensures InsideSome(chunks[j], done + [r])
    {
      assert (done + [r])[|done|] == r;
      if j != i {
        var k :| 0 <= k < |done + [cur]| && Inside(chunks[j], (done + [cur])[k].chunk);
        if k < |done| {
          assert (done + [r])[k] == (done + [cur])[k];
        } else {
          assert Inside(chunks[j], r.chunk);
        }
      }
    }
  }

  // What is inside the joined run was inside the one at hand, or is what joined.
  lemma InsideJoined(path: string, chunks: seq<Chunk>, processed: set<nat>, done: seq<Run>, cur: Run, r: Run, j: nat)
    requires AllPlaced(path, chunks, processed, done + [cur])
    requires EndBefore(done, cur.chunk.startLine)
    requires r.chunk.startLine == cur.chunk.startLine
    requires j in processed && Inside(chunks[j], r.chunk)
    ensures Inside(chunks[j], cur.chunk)
  {
    forall k | 0 <= k < |done|
      ensures !Inside(chunks[j], (done + [cur])[k].chunk)
    {
      assert done[k].chunk.endLine + 1 < cur.chunk.startLine;
    }
    var k :| 0 <= k < |done + [cur]| && Inside(chunks[j], (done + [cur])[k].chunk);
    assert k == |done|;
  }

  lemma JoinBest(path: string, chunks: seq<Chunk>, processed: set<nat>, done: seq<Run>, cur: Run, r: Run, i: nat)
    requires AllPlaced(path, chunks, processed, done + [cur])
    requires EndBefore(done, cur.chunk.startLine)
    requires Best(chunks, processed, cur)
    requires i < |chunks|
    requires r.rank == Min(i, cur.rank) && r.chunk.startLine == cur.chunk.startLine
    requires Inside(chunks[i], r.chunk) && Inside(cur.chunk, r.chunk)
    ensures Best(chunks, processed + {i}, r)
  {
    forall j | j in processed + {i} && j < |chunks| && Inside(chunks[j], r.chunk)
      ensures r.rank <= j
    {
      if j != i {
        InsideJoined(path, chunks, processed, done, cur, r, j);
      }
    }
  }

  lemma JoinFilled(chunks: seq<Chunk>, processed: set<nat>, cur: Run, r: Run, i: nat)
    requires Filled(chunks, processed, cur)
    requires i < |chunks| && chunks[i].path == r.chunk.path == cur.chunk.path
    requires chunks[i].startLine <= cur.chunk.endLine + 1
    requires r.chunk.startLine == cur.chunk.startLine && r.chunk.endLine == Max(cur.chunk.endLine, chunks[i].endLine)
    ensures Filled(chunks, processed + {i}, r)
  {
    forall n | OnLine(r.chunk, n)
      ensures exists j :: j in processed + {i} && j < |chunks| && chunks[j].path == r.chunk.path && OnLine(chunks[j], n)
    {
      if OnLine(cur.chunk, n) {
        var j :| j in processed && j < |chunks| && chunks[j].path == cur.chunk.path && OnLine(chunks[j], n);
        assert j in processed + {i};
      } else {
        assert i in processed + {i} && OnLine(chunks[i], n);
      }
    }
  }

  lemma JoinGood(file: seq<string>, path: string, chunks: seq<Chunk>, processed: set<nat>, done: seq<Run>, cur: Run, r: Run, i: nat)
    requires AllPlaced(path, chunks, processed, done + [cur])
    requires AllGood(file, path, chunks, processed, done + [cur])
    requires EndBefore(done, cur.chunk.startLine)
    requires i < |chunks| && chunks[i].path == path == r.chunk.path
    requires cur.chunk.startLine <= chunks[i].startLine <= cur.chunk.endLine + 1
    requires chunks[i].startLine <= chunks[i].endLine
    requires r.rank == Min(i, cur.rank) && CutFrom(file, r.chunk)
    requires r.chunk.startLine == cur.chunk.startLine && r.chunk.endLine == Max(cur.chunk.endLine, chunks[i].endLine)
    ensures AllGood(file, path, chunks, processed + {i}, done + [r])
  {
    assert (done + [cur])[|done|] == cur;
    assert GoodRun(file, path, chunks, processed, cur) && Filled(chunks, processed, cur);
    JoinBest(path, chunks, processed, done, cur, r, i);
    JoinFilled(chunks, processed, cur, r, i);
    forall k | 0 <= k < |done|
      ensures GoodRun(file, path, chunks, processed + {i}, done[k]) && Filled(chunks, processed + {i}, done[k])
    {
      assert (done + [cur])[k] == done[k];
      assert done[k].chunk.endLine + 1 < cur.chunk.startLine;
      GoodStays(file, path, chunks, processed, done[k], i);
    }
    GoodTogether(file, path, chunks, processed + {i}, done, r);
  }

  lemma GoodTogether(file: seq<string>, path: string, chunks: seq<Chunk>, processed: set<nat>, done: seq<Run>, r: Run)
    requires AllGood(file, path, chunks, processed, done)
    requires GoodRun(file, path, chunks, processed, r) && Filled(chunks, processed, r)
    ensures AllGood(file, path, chunks, processed, done + [r])
  {
  }

  // ---- the whole sweep

  ghost predicate StartsAscend(chunks: seq<Chunk>, idxs: seq<nat>)
    requires InBounds(idxs, |chunks|)
  {
    forall j, k :: 0 <= j < k < |idxs| ==> chunks[idxs[j]].startLine <= chunks[idxs[k]].startLine
  }

  ghost predicate AllCut(file: seq<string>, path: string, chunks: seq<Chunk>, idxs: seq<nat>) {
    forall j :: 0 <= j < |idxs| ==> idxs[j] < |chunks| && chunks[idxs[j]].path == path && CutFrom(file, chunks[idxs[j]])
  }

  ghost function SetOf(idxs: seq<nat>): (r: set<nat>)
    ensures forall i :: i in r <==> i in idxs
  {
    set i | i in idxs
  }

  lemma RestOf(file: seq<string>, path: string, chunks: seq<Chunk>, rest: seq<nat>)
    requires InBounds(rest, |chunks|) && AllCut(file, path, chunks, rest) && StartsAscend(chunks, rest)
    requires rest != []
    ensures InBounds(rest[1..], |chunks|) && AllCut(file, path, chunks, rest[1..]) && StartsAscend(chunks, rest[1..])
    ensures SetOf(rest) == {rest[0]} + SetOf(rest[1..])
    ensures StartNoEarlier(chunks, rest[1..], chunks[rest[0]].startLine)
  {
    assert rest == [rest[0]] + rest[1..];
  }

  ghost predicate StartNoEarlier(chunks: seq<Chunk>, rest: seq<nat>, n: int)
    requires InBounds(rest, |chunks|)
  {
    forall j :: 0 <= j < |rest| ==> n <= chunks[rest[j]].startLine
  }

  lemma CurIsGood(file: seq<string>, path: string, chunks: seq<Chunk>, processed: set<nat>, done: seq<Run>, cur: Run)
    requires Swept(file, path, chunks, processed, done + [cur])
    ensures cur.chunk.path == path && CutFrom(file, cur.chunk)
  {
    assert (done + [cur])[|done|] == cur && GoodRun(file, path, chunks, processed, (done + [cur])[|done|]);
  }

  lemma {:induction false} SweepIsSwept(file: seq<string>, path: string, chunks: seq<Chunk>, processed: set<nat>,
                                        done: seq<Run>, cur: Run, rest: seq<nat>)
    requires InBounds(rest, |chunks|) && AllCut(file, path, chunks, rest) && StartsAscend(chunks, rest)
    requires Swept(file, path, chunks, processed, done + [cur])
    requires StartNoEarlier(chunks, rest, cur.chunk.startLine)
    ensures Swept(file, path, chunks, processed + SetOf(rest), Sweep(chunks, done, cur, rest))
    decreases |rest|
  {
    if rest == [] {
      assert processed + SetOf(rest) == processed;
    } else {
      var i := rest[0];
      RestOf(file, path, chunks, rest);
      assert processed + {i} + SetOf(rest[1..]) == processed + SetOf(rest);
      CurIsGood(file, path, chunks, processed, done, cur);
      SpliceCutIff(file, cur.chunk, chunks[i]);
      if Splice(cur.chunk, chunks[i]).None? {
        SweptNew(file, path, chunks, processed, done, cur, i);
        SweepIsSwept(file, path, chunks, processed + {i}, done + [cur], Run(i, chunks[i]), rest[1..]);
      } else {
        var r := Run(Min(i, cur.rank), Splice(cur.chunk, chunks[i]).value);
        SpliceCut(file, cur.chunk, chunks[i]);
        SweptJoin(file, path, chunks, processed, done, cur, i);
        assert StartNoEarlier(chunks, rest[1..], r.chunk.startLine);
        SweepIsSwept(file, path, chunks, processed + {i}, done, r, rest[1..]);
      }
    }
  }

  lemma SweptFirst(file: seq<string>, path: string, chunks: seq<Chunk>, i: nat)
    requires i < |chunks| && chunks[i].path == path && CutFrom(file, chunks[i])
    ensures Swept(file, path, chunks, {i}, [Run(i, chunks[i])])
  {
    assert Inside(chunks[i], [Run(i, chunks[i])][0].chunk);
    forall n | OnLine(chunks[i], n)
      ensures exists j :: j in {i} && j < |chunks| && chunks[j].path == chunks[i].path && OnLine(chunks[j], n)
    {
      assert i in {i};
    }
  }

  lemma SweepAllIsSwept(file: seq<string>, path: string, chunks: seq<Chunk>, idxs: seq<nat>)
    requires InBounds(idxs, |chunks|) && AllCut(file, path, chunks, idxs) && StartsAscend(chunks, idxs)
    ensures Swept(file, path, chunks, SetOf(idxs), SweepAll(chunks, idxs))
  {
    if idxs != [] {
      var first := Run(idxs[0], chunks[idxs[0]]);
      SweptFirst(file, path, chunks, idxs[0]);
      assert [] + [first] == [first];
      RestOf(file, path, chunks, idxs);
      SweepIsSwept(file, path, chunks, {idxs[0]}, [], first, idxs[1..]);
    }
  }

  // ---- the places in order

  lemma {:induction false} InsertedPlaces(chunks: seq<Chunk>, i: nat, idxs: seq<nat>)
    requires i < |chunks| && InBounds(idxs, |chunks|) && StartsAscend(chunks, idxs)
    ensures StartsAscend(chunks, InsertPlace(chunks, i, idxs))
    ensures forall k :: k in InsertPlace(chunks, i, idxs) <==> k == i || k in idxs
    decreases |idxs|
  {
    if idxs != [] && !InOrder(chunks, i, idxs[0]) {
      InsertedPlaces(chunks, i, idxs[1..]);
      var rest := InsertPlace(chunks, i, idxs[1..]);
      assert idxs == [idxs[0]] + idxs[1..];
      forall k | 0 <= k < |rest|
        ensures chunks[idxs[0]].startLine <= chunks[rest[k]].startLine
      {
        assert rest[k] in rest;
        if rest[k] != i {
          var j :| 0 <= j < |idxs[1..]| && idxs[1..][j] == rest[k];
          assert idxs[j + 1] == rest[k];
        }
      }
    }
  }

  lemma {:induction false} SortedPlaces(chunks: seq<Chunk>, idxs: seq<nat>)
    requires InBounds(idxs, |chunks|)
    ensures StartsAscend(chunks, SortPlaces(chunks, idxs))
    ensures forall k :: k in SortPlaces(chunks, idxs) <==> k in idxs
  {
    if idxs != [] {
      SortedPlaces(chunks, idxs[1..]);
      InsertedPlaces(chunks, idxs[0], SortPlaces(chunks, idxs[1..]));
      assert idxs == [idxs[0]] + idxs[1..];
    }
  }

  lemma {:induction false} PlacesAre(chunks: seq<Chunk>, path: string, i: nat)
    ensures i in Places(chunks, path) <==> i < |chunks| && chunks[i].path == path
    decreases |chunks|
  {
    if chunks != [] {
      PlacesAre(chunks[..|chunks| - 1], path, i);
    }
  }

  // ---------------------------------------------------------------- all the files

  // Each file has one version, and every chunk is cut from its file's.
  ghost predicate OneVersion(files: map<string, seq<string>>, chunks: seq<Chunk>) {
    forall i :: 0 <= i < |chunks| ==> chunks[i].path in files && CutFrom(files[chunks[i].path], chunks[i])
  }

  // Different files, or something between.
  ghost predicate Apart(a: Chunk, b: Chunk) {
    a.path != b.path || a.endLine + 1 < b.startLine || b.endLine + 1 < a.startLine
  }

  ghost predicate PairwiseApart(runs: seq<Run>) {
    forall j, k :: 0 <= j < k < |runs| ==> Apart(runs[j].chunk, runs[k].chunk)
  }

  // A run of the file's own version, all of it covered by chunks, at the rank of the best.
  ghost predicate TrueRun(files: map<string, seq<string>>, chunks: seq<Chunk>, r: Run) {
    && r.chunk.path in files && CutFrom(files[r.chunk.path], r.chunk)
    && BestRank(chunks, r.rank, r.chunk)
    && forall n :: OnLine(r.chunk, n) ==> Covered(chunks, r.chunk.path, n)
  }

  ghost predicate BestRank(chunks: seq<Chunk>, rank: nat, o: Chunk) {
    && rank < |chunks| && Inside(chunks[rank], o)
    && forall i :: 0 <= i < |chunks| && Inside(chunks[i], o) ==> rank <= i
  }

  ghost predicate Covered(chunks: seq<Chunk>, path: string, n: int) {
    exists i :: 0 <= i < |chunks| && chunks[i].path == path && OnLine(chunks[i], n)
  }

  ghost predicate AllTrue(files: map<string, seq<string>>, chunks: seq<Chunk>, runs: seq<Run>) {
    forall k :: 0 <= k < |runs| ==> TrueRun(files, chunks, runs[k])
  }

  ghost predicate AllInside(chunks: seq<Chunk>, paths: seq<string>, runs: seq<Run>) {
    forall i :: 0 <= i < |chunks| && chunks[i].path in paths ==> InsideSome(chunks[i], runs)
  }

  lemma FileRuns(files: map<string, seq<string>>, chunks: seq<Chunk>, path: string)
    requires OneVersion(files, chunks)
    requires path in files
    ensures AllTrue(files, chunks, RunsOf(chunks, path)) && PairwiseApart(RunsOf(chunks, path))
    ensures AllInside(chunks, [path], RunsOf(chunks, path))
    ensures forall k :: 0 <= k < |RunsOf(chunks, path)| ==> RunsOf(chunks, path)[k].chunk.path == path
  {
    var idxs := SortPlaces(chunks, Places(chunks, path));
    SortedPlaces(chunks, Places(chunks, path));
    forall i: nat
      ensures i in SetOf(idxs) <==> i < |chunks| && chunks[i].path == path
    {
      PlacesAre(chunks, path, i);
    }
    forall j | 0 <= j < |idxs|
      ensures chunks[idxs[j]].path == path && CutFrom(files[path], chunks[idxs[j]])
    {
      assert idxs[j] in idxs;
      PlacesAre(chunks, path, idxs[j]);
    }
    SweepAllIsSwept(files[path], path, chunks, idxs);
    SweptIsTrue(files, path, chunks, SetOf(idxs), RunsOf(chunks, path));
  }

  lemma SweptIsTrue(files: map<string, seq<string>>, path: string, chunks: seq<Chunk>, processed: set<nat>, runs: seq<Run>)
    requires path in files
    requires forall i: nat :: i in processed <==> i < |chunks| && chunks[i].path == path
    requires Swept(files[path], path, chunks, processed, runs)
    ensures AllTrue(files, chunks, runs) && PairwiseApart(runs) && AllInside(chunks, [path], runs)
    ensures forall k :: 0 <= k < |runs| ==> runs[k].chunk.path == path
  {
    forall k | 0 <= k < |runs|
      ensures TrueRun(files, chunks, runs[k]) && runs[k].chunk.path == path
    {
      assert GoodRun(files[path], path, chunks, processed, runs[k]) && Filled(chunks, processed, runs[k]);
      BestIsBestRank(chunks, processed, runs[k], path);
      FilledIsCovered(chunks, processed, runs[k]);
    }
  }

  lemma BestIsBestRank(chunks: seq<Chunk>, processed: set<nat>, r: Run, path: string)
    requires forall i: nat :: i in processed <==> i < |chunks| && chunks[i].path == path
    requires Best(chunks, processed, r) && r.chunk.path == path
    ensures BestRank(chunks, r.rank, r.chunk)
  {
    forall i: nat | i < |chunks| && Inside(chunks[i], r.chunk)
      ensures r.rank <= i
    {
      assert i in processed;
    }
  }

  lemma FilledIsCovered(chunks: seq<Chunk>, processed: set<nat>, r: Run)
    requires Filled(chunks, processed, r)
    ensures forall n :: OnLine(r.chunk, n) ==> Covered(chunks, r.chunk.path, n)
  {
  }

  lemma JoinLists(files: map<string, seq<string>>, chunks: seq<Chunk>, paths: seq<string>, path: string, a: seq<Run>, b: seq<Run>)
    requires AllTrue(files, chunks, a) && PairwiseApart(a) && AllInside(chunks, paths, a)
    requires AllTrue(files, chunks, b) && PairwiseApart(b) && AllInside(chunks, [path], b)
    requires forall k :: 0 <= k < |a| ==> a[k].chunk.path in paths
    requires forall k :: 0 <= k < |b| ==> b[k].chunk.path == path
    requires path !in paths
    ensures AllTrue(files, chunks, a + b) && PairwiseApart(a + b) && AllInside(chunks, paths + [path], a + b)
    ensures forall k :: 0 <= k < |a + b| ==> (a + b)[k].chunk.path in paths + [path]
  {
    forall i | 0 <= i < |chunks| && chunks[i].path in paths + [path]
      ensures InsideSome(chunks[i], a + b)
    {
      if chunks[i].path in paths {
        var k :| 0 <= k < |a| && Inside(chunks[i], a[k].chunk);
        assert (a + b)[k] == a[k];
      } else {
        var k :| 0 <= k < |b| && Inside(chunks[i], b[k].chunk);
        assert (a + b)[|a| + k] == b[k];
      }
    }
  }

  lemma {:induction false} AllRuns(files: map<string, seq<string>>, chunks: seq<Chunk>, order: seq<string>)
    requires OneVersion(files, chunks)
    requires forall j, k :: 0 <= j < k < |order| ==> order[j] != order[k]
    requires forall p :: p in order ==> p in files
    ensures var runs := RunsOfAll(chunks, order);
            && AllTrue(files, chunks, runs) && PairwiseApart(runs) && AllInside(chunks, order, runs)
            && forall k :: 0 <= k < |runs| ==> runs[k].chunk.path in order
  {
    if order != [] {
      var init, last := order[..|order| - 1], order[|order| - 1];
      assert order == init + [last];
      AllRuns(files, chunks, init);
      FileRuns(files, chunks, last);
      JoinLists(files, chunks, init, last, RunsOfAll(chunks, init), RunsOf(chunks, last));
    }
  }

  lemma {:induction false} FilesAre(chunks: seq<Chunk>)
    ensures forall j, k :: 0 <= j < k < |Files(chunks)| ==> Files(chunks)[j] != Files(chunks)[k]
    ensures forall i :: 0 <= i < |chunks| ==> chunks[i].path in Files(chunks)
    ensures forall p :: p in Files(chunks) ==> exists i :: 0 <= i < |chunks| && chunks[i].path == p
  {
    if chunks != [] {
      var init := chunks[..|chunks| - 1];
      FilesAre(init);
      assert chunks == init + [chunks[|chunks| - 1]];
      forall p | p in Files(chunks)
        ensures exists i :: 0 <= i < |chunks| && chunks[i].path == p
      {
        if p in Files(init) {
          var i :| 0 <= i < |init| && init[i].path == p;
          assert chunks[i].path == p;
        } else {
          assert chunks[|chunks| - 1].path == p;
        }
      }
    }
  }

  // ---- back to ranked order

  ghost predicate RanksAscend(runs: seq<Run>) {
    forall j, k :: 0 <= j < k < |runs| ==> runs[j].rank <= runs[k].rank
  }

  lemma {:induction false} InsertedRun(r: Run, runs: seq<Run>)
    requires RanksAscend(runs) && PairwiseApart(runs)
    requires forall k :: 0 <= k < |runs| ==> Apart(r.chunk, runs[k].chunk)
    ensures RanksAscend(InsertRun(r, runs)) && PairwiseApart(InsertRun(r, runs))
  {
    if runs != [] && r.rank > runs[0].rank {
      InsertedRun(r, runs[1..]);
      var rest := InsertRun(r, runs[1..]);
      forall k | 0 <= k < |rest|
        ensures runs[0].rank <= rest[k].rank && Apart(runs[0].chunk, rest[k].chunk)
      {
        assert rest[k] in rest;
        if rest[k] != r {
          var j :| 0 <= j < |runs[1..]| && runs[1..][j] == rest[k];
          assert runs[j + 1] == rest[k];
        }
      }
    }
  }

  lemma {:induction false} SortedRuns(runs: seq<Run>)
    requires PairwiseApart(runs)
    ensures RanksAscend(SortRuns(runs)) && PairwiseApart(SortRuns(runs))
  {
    if runs != [] {
      SortedRuns(runs[1..]);
      var rest := SortRuns(runs[1..]);
      forall k | 0 <= k < |rest|
        ensures Apart(runs[0].chunk, rest[k].chunk)
      {
        assert rest[k] in rest;
        var j :| 0 <= j < |runs[1..]| && runs[1..][j] == rest[k];
        assert runs[j + 1] == rest[k];
      }
      InsertedRun(runs[0], rest);
    }
  }

  // ---------------------------------------------------------------- the theorem

  // The maximal runs of covered lines, with their own text, each where its best member was.
  ghost predicate MaximalRuns(files: map<string, seq<string>>, chunks: seq<Chunk>, out: seq<Chunk>, ranks: seq<nat>) {
    && |ranks| == |out|
    && (forall k :: 0 <= k < |out| ==> out[k].path in files && CutFrom(files[out[k].path], out[k]))
    && (forall j, k :: 0 <= j < k < |out| ==> Apart(out[j], out[k]))
    && (forall path, n :: Covered(out, path, n) <==> Covered(chunks, path, n))
    && (forall k :: 0 <= k < |out| ==> BestRank(chunks, ranks[k], out[k]))
    && (forall j, k :: 0 <= j < k < |out| ==> ranks[j] < ranks[k])
  }

  function RanksOf(runs: seq<Run>): (r: seq<nat>)
    ensures |r| == |runs| && forall k :: 0 <= k < |runs| ==> r[k] == runs[k].rank
  {
    seq(|runs|, k requires 0 <= k < |runs| => runs[k].rank)
  }

  lemma RunsAreMaximal(files: map<string, seq<string>>, chunks: seq<Chunk>, runs: seq<Run>)
    requires OneVersion(files, chunks)
    requires AllTrue(files, chunks, runs) && PairwiseApart(runs) && RanksAscend(runs)
    requires forall i :: 0 <= i < |chunks| ==> InsideSome(chunks[i], runs)
    ensures MaximalRuns(files, chunks, ChunksOf(runs), RanksOf(runs))
  {
    var out := ChunksOf(runs);
    forall j, k | 0 <= j < k < |runs|
      ensures runs[j].rank < runs[k].rank
    {
      assert TrueRun(files, chunks, runs[j]) && TrueRun(files, chunks, runs[k]);
      ApartRanks(files, chunks, runs[j], runs[k]);
    }
    forall path, n
      ensures Covered(out, path, n) <==> Covered(chunks, path, n)
    {
      SameCover(files, chunks, runs, path, n);
    }
    forall k | 0 <= k < |out|
      ensures BestRank(chunks, RanksOf(runs)[k], out[k]) && out[k].path in files && CutFrom(files[out[k].path], out[k])
    {
      assert TrueRun(files, chunks, runs[k]);
    }
  }

  lemma ApartRanks(files: map<string, seq<string>>, chunks: seq<Chunk>, a: Run, b: Run)
    requires OneVersion(files, chunks)
    requires TrueRun(files, chunks, a) && TrueRun(files, chunks, b) && Apart(a.chunk, b.chunk)
    ensures a.rank != b.rank
  {
    assert CutFrom(files[chunks[a.rank].path], chunks[a.rank]);
  }

  lemma SameCover(files: map<string, seq<string>>, chunks: seq<Chunk>, runs: seq<Run>, path: string, n: int)
    requires AllTrue(files, chunks, runs)
    requires forall i :: 0 <= i < |chunks| ==> InsideSome(chunks[i], runs)
    ensures Covered(ChunksOf(runs), path, n) <==> Covered(chunks, path, n)
  {
    var out := ChunksOf(runs);
    if Covered(out, path, n) {
      var k :| 0 <= k < |out| && out[k].path == path && OnLine(out[k], n);
      assert TrueRun(files, chunks, runs[k]);
    }
    if Covered(chunks, path, n) {
      var i :| 0 <= i < |chunks| && chunks[i].path == path && OnLine(chunks[i], n);
      var k :| 0 <= k < |runs| && Inside(chunks[i], runs[k].chunk);
      assert out[k].path == path && OnLine(out[k], n);
    }
  }

  lemma MergedIsMaximalRuns(files: map<string, seq<string>>, chunks: seq<Chunk>) returns (ranks: seq<nat>)
    requires OneVersion(files, chunks)
    ensures MaximalRuns(files, chunks, Merged(chunks), ranks)
  {
    if |chunks| < 2 {
      ranks := if chunks == [] then [] else [0];
    } else {
      var order := Files(chunks);
      FilesAre(chunks);
      AllRuns(files, chunks, order);
      var runs := RunsOfAll(chunks, order);
      var sorted := SortRuns(runs);
      SortedRuns(runs);
      SortedStaysTrue(files, chunks, runs, sorted);
      RunsAreMaximal(files, chunks, sorted);
      ranks := RanksOf(sorted);
    }
  }

  lemma SortedStaysTrue(files: map<string, seq<string>>, chunks: seq<Chunk>, runs: seq<Run>, sorted: seq<Run>)
    requires forall x :: x in sorted <==> x in runs
    requires AllTrue(files, chunks, runs)
    requires forall i :: 0 <= i < |chunks| ==> InsideSome(chunks[i], runs)
    ensures AllTrue(files, chunks, sorted)
    ensures forall i :: 0 <= i < |chunks| ==> InsideSome(chunks[i], sorted)
  {
    forall k | 0 <= k < |sorted|
      ensures TrueRun(files, chunks, sorted[k])
    {
      assert sorted[k] in sorted;
      var j :| 0 <= j < |runs| && runs[j] == sorted[k];
    }
    forall i | 0 <= i < |chunks|
      ensures InsideSome(chunks[i], sorted)
    {
      var k :| 0 <= k < |runs| && Inside(chunks[i], runs[k].chunk);
      assert runs[k] in sorted;
      var j :| 0 <= j < |sorted| && sorted[j] == runs[k];
    }
  }
}
