/**
 Whether folding and capping the direct spans twice is doing it once (daemon/fileref.go,
 directSpansFor). It is not for every list of spans: a span dropped by the cap can have kept
 two others apart. The exact condition is about neighbours in a file's order.
 */
module DirectSpans {
  import opened Numbers
  import opened Text
  import opened Wrappers
  import opened ChunkMerge
  import opened ChunkSpans
  import opened Delivery

  // ---------------------------------------------------------------- the ranks of runs

  ghost predicate NoneTwice(s: seq<nat>) {
    forall j, k :: 0 <= j < k < |s| ==> s[j] != s[k]
  }

  // Two neighbours of the list splice.
  ghost predicate Touching(chunks: seq<Chunk>, idxs: seq<nat>)
    requires InBounds(idxs, |chunks|)
  {
    exists t {:trigger Touch(chunks, idxs, t)} :: 0 <= t < |idxs| - 1 && Touch(chunks, idxs, t)
  }

  ghost predicate Touch(chunks: seq<Chunk>, idxs: seq<nat>, t: int)
    requires InBounds(idxs, |chunks|) && 0 <= t < |idxs| - 1
  {
    Splice(chunks[idxs[t]], chunks[idxs[t + 1]]).Some?
  }

  // The ranks the sweep has and will have.
  ghost function Ranks(done: seq<Run>, cur: Run, rest: seq<nat>): seq<nat> {
    RanksOf(done) + [cur.rank] + rest
  }

  lemma RanksMove(done: seq<Run>, cur: Run, i: nat, c: Chunk, rest: seq<nat>)
    requires rest != [] && rest[0] == i
    ensures Ranks(done + [cur], Run(i, c), rest[1..]) == Ranks(done, cur, rest)
  {
    assert RanksOf(done + [cur]) == RanksOf(done) + [cur.rank];
    assert rest == [i] + rest[1..];
  }

  lemma RanksJoin(done: seq<Run>, cur: Run, i: nat, c: Chunk, rest: seq<nat>)
    requires rest != [] && rest[0] == i && NoneTwice(Ranks(done, cur, rest))
    ensures var q := Ranks(done, Run(Min(i, cur.rank), c), rest[1..]);
            && NoneTwice(q) && Max(i, cur.rank) !in q
            && forall x :: x in q ==> x in Ranks(done, cur, rest)
  {
    var all, n := Ranks(done, cur, rest), |done|;
    var q := Ranks(done, Run(Min(i, cur.rank), c), rest[1..]);
    assert all[n] == cur.rank && all[n + 1] == i;
    forall k | 0 <= k < |q| && k != n
      ensures q[k] == all[if k < n then k else k + 1] && q[k] in all
    {
    }
    assert all[n] in all && all[n + 1] in all;
    assert NoneTwice(q) by {
      forall j, k | 0 <= j < k < |q|
        ensures q[j] != q[k]
      {
        assert q[n] == all[n] || q[n] == all[n + 1];
      }
    }
  }

  // No rank is made up, and none is there twice.
  lemma {:induction false} SweepRanks(chunks: seq<Chunk>, done: seq<Run>, cur: Run, rest: seq<nat>)
    requires InBounds(rest, |chunks|) && NoneTwice(Ranks(done, cur, rest))
    ensures NoneTwice(RanksOf(Sweep(chunks, done, cur, rest)))
    ensures forall x :: x in RanksOf(Sweep(chunks, done, cur, rest)) ==> x in Ranks(done, cur, rest)
    decreases |rest|
  {
    if rest == [] {
      assert RanksOf(done + [cur]) == Ranks(done, cur, rest);
    } else {
      var i := rest[0];
      match Splice(cur.chunk, chunks[i])
      case None =>
        RanksMove(done, cur, i, chunks[i], rest);
        SweepRanks(chunks, done + [cur], Run(i, chunks[i]), rest[1..]);
      case Some(merged) =>
        RanksJoin(done, cur, i, merged, rest);
        SweepRanks(chunks, done, Run(Min(i, cur.rank), merged), rest[1..]);
    }
  }

  lemma TouchingRest(chunks: seq<Chunk>, first: nat, rest: seq<nat>)
    requires InBounds(rest, |chunks|) && first < |chunks|
    ensures Touching(chunks, [first] + rest) <==>
            rest != [] && (Splice(chunks[first], chunks[rest[0]]).Some? || Touching(chunks, rest))
  {
    var all := [first] + rest;
    if Touching(chunks, all) {
      var t :| 0 <= t < |all| - 1 && Touch(chunks, all, t);
      assert t > 0 ==> Touch(chunks, rest, t - 1);
    }
    if rest != [] && Splice(chunks[first], chunks[rest[0]]).Some? {
      assert Touch(chunks, all, 0);
    }
    if Touching(chunks, rest) {
      var t :| 0 <= t < |rest| - 1 && Touch(chunks, rest, t);
      assert Touch(chunks, all, t + 1);
    }
  }

  // If neighbours splice, some rank is lost:
  lemma {:induction false} SweepLoses(chunks: seq<Chunk>, done: seq<Run>, cur: Run, rest: seq<nat>) returns (x: nat)
    requires InBounds(rest, |chunks|) && cur.rank < |chunks| && cur.chunk == chunks[cur.rank]
    requires NoneTwice(Ranks(done, cur, rest))
    requires Touching(chunks, [cur.rank] + rest)
    ensures x in [cur.rank] + rest && x !in RanksOf(Sweep(chunks, done, cur, rest))
    decreases |rest|
  {
    TouchingRest(chunks, cur.rank, rest);
    var i := rest[0];
    match Splice(cur.chunk, chunks[i])
    case None =>
      RanksMove(done, cur, i, chunks[i], rest);
      assert [i] + rest[1..] == rest;
      x := SweepLoses(chunks, done + [cur], Run(i, chunks[i]), rest[1..]);
    case Some(merged) =>
      RanksJoin(done, cur, i, merged, rest);
      SweepRanks(chunks, done, Run(Min(i, cur.rank), merged), rest[1..]);
      x := Max(i, cur.rank);
  }

  // otherwise all are kept, each with its own chunk.
  lemma {:induction false} SweepKeeps(chunks: seq<Chunk>, done: seq<Run>, cur: Run, rest: seq<nat>)
    requires InBounds(rest, |chunks|) && cur.rank < |chunks| && cur.chunk == chunks[cur.rank]
    requires FromChunks(chunks, done)
    requires !Touching(chunks, [cur.rank] + rest)
    ensures RanksOf(Sweep(chunks, done, cur, rest)) == Ranks(done, cur, rest)
    ensures FromChunks(chunks, Sweep(chunks, done, cur, rest))
    decreases |rest|
  {
    if rest == [] {
      assert RanksOf(done + [cur]) == Ranks(done, cur, rest);
    } else {
      var i := rest[0];
      TouchingRest(chunks, cur.rank, rest);
      RanksMove(done, cur, i, chunks[i], rest);
      assert [i] + rest[1..] == rest;
      SweepKeeps(chunks, done + [cur], Run(i, chunks[i]), rest[1..]);
    }
  }

  // ---------------------------------------------------------------- one file, and all of them

  // The places of one file's chunks in the order of the sweep.
  function Order(chunks: seq<Chunk>, path: string): (idxs: seq<nat>)
    ensures InBounds(idxs, |chunks|)
  {
    SortPlaces(chunks, Places(chunks, path))
  }

  lemma {:induction false} PlacesOnce(chunks: seq<Chunk>, path: string)
    ensures NoneTwice(Places(chunks, path))
  {
    if chunks != [] {
      PlacesOnce(chunks[..|chunks| - 1], path);
    }
  }

  lemma ConsOnce(x: nat, s: seq<nat>)
    requires NoneTwice(s) && x !in s
    ensures NoneTwice([x] + s)
  {
  }

  lemma RestOnce(s: seq<nat>)
    requires NoneTwice(s) && s != []
    ensures NoneTwice(s[1..]) && s[0] !in s[1..]
    ensures forall x :: x in s[1..] ==> x in s
  {
    forall x | x in s[1..]
      ensures x in s && x != s[0]
    {
      var k :| 0 <= k < |s[1..]| && s[1..][k] == x;
      assert s[k + 1] == x;
    }
  }

  lemma {:induction false} InsertedOnce(chunks: seq<Chunk>, i: nat, idxs: seq<nat>)
    requires i < |chunks| && InBounds(idxs, |chunks|) && StartsAscend(chunks, idxs)
    requires NoneTwice(idxs) && i !in idxs
    ensures NoneTwice(InsertPlace(chunks, i, idxs))
    decreases |idxs|
  {
    if idxs == [] || InOrder(chunks, i, idxs[0]) {
      ConsOnce(i, idxs);
    } else {
      RestOnce(idxs);
      InsertedOnce(chunks, i, idxs[1..]);
      InsertedPlaces(chunks, i, idxs[1..]);
      ConsOnce(idxs[0], InsertPlace(chunks, i, idxs[1..]));
    }
  }

  lemma {:induction false} SortedOnce(chunks: seq<Chunk>, idxs: seq<nat>)
    requires InBounds(idxs, |chunks|) && NoneTwice(idxs)
    ensures NoneTwice(SortPlaces(chunks, idxs))
  {
    if idxs != [] {
      RestOnce(idxs);
      SortedOnce(chunks, idxs[1..]);
      SortedPlaces(chunks, idxs[1..]);
      InsertedOnce(chunks, idxs[0], SortPlaces(chunks, idxs[1..]));
    }
  }

  lemma {:induction false} OrderIs(chunks: seq<Chunk>, path: string)
    ensures NoneTwice(Order(chunks, path))
    ensures forall i: nat :: i in Order(chunks, path) <==> i < |chunks| && chunks[i].path == path
  {
    PlacesOnce(chunks, path);
    SortedOnce(chunks, Places(chunks, path));
    SortedPlaces(chunks, Places(chunks, path));
    forall i: nat
      ensures i in Places(chunks, path) <==> i < |chunks| && chunks[i].path == path
    {
      PlacesAre(chunks, path, i);
    }
  }

  lemma {:induction false} FileRanks(chunks: seq<Chunk>, path: string)
    ensures NoneTwice(RanksOf(RunsOf(chunks, path)))
    ensures forall x :: x in RanksOf(RunsOf(chunks, path)) ==> x < |chunks| && chunks[x].path == path
  {
    var idxs := Order(chunks, path);
    OrderIs(chunks, path);
    if idxs != [] {
      var cur := Run(idxs[0], chunks[idxs[0]]);
      assert Ranks([], cur, idxs[1..]) == idxs;
      SweepRanks(chunks, [], cur, idxs[1..]);
    }
  }

  lemma {:induction false} FileLoses(chunks: seq<Chunk>, path: string) returns (x: nat)
    requires Touching(chunks, Order(chunks, path))
    ensures x < |chunks| && chunks[x].path == path && x !in RanksOf(RunsOf(chunks, path))
  {
    OrderIs(chunks, path);
    x := AllLoses(chunks, Order(chunks, path));
  }

  lemma AllLoses(chunks: seq<Chunk>, idxs: seq<nat>) returns (x: nat)
    requires InBounds(idxs, |chunks|) && NoneTwice(idxs) && Touching(chunks, idxs)
    ensures x in idxs && x !in RanksOf(SweepAll(chunks, idxs))
  {
    var cur := Run(idxs[0], chunks[idxs[0]]);
    assert Ranks([], cur, idxs[1..]) == idxs && [cur.rank] + idxs[1..] == idxs;
    x := SweepLoses(chunks, [], cur, idxs[1..]);
  }

  lemma {:induction false} FileKeeps(chunks: seq<Chunk>, path: string)
    requires !Touching(chunks, Order(chunks, path))
    ensures FromChunks(chunks, RunsOf(chunks, path))
    ensures forall i: nat :: i < |chunks| && chunks[i].path == path ==> i in RanksOf(RunsOf(chunks, path))
  {
    var idxs := Order(chunks, path);
    OrderIs(chunks, path);
    if idxs != [] {
      var cur := Run(idxs[0], chunks[idxs[0]]);
      assert Ranks([], cur, idxs[1..]) == idxs && [cur.rank] + idxs[1..] == idxs;
      SweepKeeps(chunks, [], cur, idxs[1..]);
    }
  }

  lemma RanksAppend(a: seq<Run>, b: seq<Run>)
    ensures RanksOf(a + b) == RanksOf(a) + RanksOf(b)
  {
  }

  ghost predicate Different(order: seq<string>) {
    forall j, k :: 0 <= j < k < |order| ==> order[j] != order[k]
  }

  // The runs of a list of files have ranks of their own files, none twice.
  lemma {:induction false} AllRanks(chunks: seq<Chunk>, order: seq<string>)
    requires Different(order)
    ensures NoneTwice(RanksOf(RunsOfAll(chunks, order)))
    ensures forall x :: x in RanksOf(RunsOfAll(chunks, order)) ==> x < |chunks| && chunks[x].path in order
  {
    if order != [] {
      var init, last := order[..|order| - 1], order[|order| - 1];
      AllRanks(chunks, init);
      FileRanks(chunks, last);
      RanksAppend(RunsOfAll(chunks, init), RunsOf(chunks, last));
      TogetherOnce(chunks, RanksOf(RunsOfAll(chunks, init)), RanksOf(RunsOf(chunks, last)), init, last);
      assert order == init + [last];
    }
  }

  lemma TogetherOnce(chunks: seq<Chunk>, a: seq<nat>, b: seq<nat>, init: seq<string>, last: string)
    requires NoneTwice(a) && NoneTwice(b) && last !in init
    requires forall x :: x in a ==> x < |chunks| && chunks[x].path in init
    requires forall x :: x in b ==> x < |chunks| && chunks[x].path == last
    ensures NoneTwice(a + b)
  {
    forall j, k | 0 <= j < k < |a + b|
      ensures (a + b)[j] != (a + b)[k]
    {
      if j < |a| <= k {
        assert a[j] in a && b[k - |a|] in b;
      }
    }
  }

  // A rank one file has lost is not among another's.
  lemma {:induction false} LostForAll(chunks: seq<Chunk>, order: seq<string>, x: nat)
    requires x < |chunks| && x !in RanksOf(RunsOf(chunks, chunks[x].path))
    ensures x !in RanksOf(RunsOfAll(chunks, order))
  {
    if order != [] {
      var init, last := order[..|order| - 1], order[|order| - 1];
      LostForAll(chunks, init, x);
      FileRanks(chunks, last);
      RanksAppend(RunsOfAll(chunks, init), RunsOf(chunks, last));
    }
  }

  lemma {:induction false} AllKept(chunks: seq<Chunk>, order: seq<string>)
    requires forall p :: p in order ==> !Touching(chunks, Order(chunks, p))
    ensures FromChunks(chunks, RunsOfAll(chunks, order))
    ensures forall i: nat :: i < |chunks| && chunks[i].path in order ==> i in RanksOf(RunsOfAll(chunks, order))
  {
    if order != [] {
      var init, last := order[..|order| - 1], order[|order| - 1];
      AllKept(chunks, init);
      FileKeeps(chunks, last);
      RanksAppend(RunsOfAll(chunks, init), RunsOf(chunks, last));
      assert order == init + [last];
    }
  }

  // ---------------------------------------------------------------- back in ranked order

  ghost predicate Rising(s: seq<nat>) {
    forall j, k :: 0 <= j < k < |s| ==> s[j] < s[k]
  }

  lemma RankIn(runs: seq<Run>, r: Run)
    requires r in runs
    ensures r.rank in RanksOf(runs)
  {
    var k :| 0 <= k < |runs| && runs[k] == r;
    assert RanksOf(runs)[k] == r.rank;
  }

  lemma ConsRises(r: Run, runs: seq<Run>)
    requires Rising(RanksOf(runs)) && forall k :: 0 <= k < |runs| ==> r.rank < runs[k].rank
    ensures Rising(RanksOf([r] + runs))
  {
    assert RanksOf([r] + runs) == [r.rank] + RanksOf(runs);
  }

  lemma RestRises(runs: seq<Run>)
    requires Rising(RanksOf(runs)) && runs != []
    ensures Rising(RanksOf(runs[1..])) && forall x :: x in runs[1..] ==> runs[0].rank < x.rank
  {
    assert RanksOf(runs[1..]) == RanksOf(runs)[1..];
    forall x | x in runs[1..]
      ensures runs[0].rank < x.rank
    {
      RankIn(runs[1..], x);
      var k :| 0 <= k < |runs[1..]| && RanksOf(runs)[1..][k] == x.rank;
      assert RanksOf(runs)[0] < RanksOf(runs)[k + 1];
    }
  }

  lemma {:induction false} InsertedRises(r: Run, runs: seq<Run>)
    requires Rising(RanksOf(runs)) && r.rank !in RanksOf(runs)
    ensures Rising(RanksOf(InsertRun(r, runs)))
  {
    if runs != [] {
      RestRises(runs);
      RankIn(runs, runs[0]);
      if r.rank > runs[0].rank {
        assert RanksOf(runs[1..]) == RanksOf(runs)[1..];
        InsertedRises(r, runs[1..]);
        ConsRises(runs[0], InsertRun(r, runs[1..]));
      } else {
        forall k | 0 <= k < |runs|
          ensures r.rank < runs[k].rank
        {
          assert k > 0 ==> runs[k] == runs[1..][k - 1];
        }
        ConsRises(r, runs);
      }
    }
  }

  lemma {:induction false} SortedRises(runs: seq<Run>)
    requires NoneTwice(RanksOf(runs))
    ensures Rising(RanksOf(SortRuns(runs)))
  {
    if runs != [] {
      assert RanksOf(runs[1..]) == RanksOf(runs)[1..];
      SortedRises(runs[1..]);
      var rest := SortRuns(runs[1..]);
      forall k | 0 <= k < |rest|
        ensures RanksOf(rest)[k] in RanksOf(runs)[1..]
      {
        assert rest[k] in rest;
        RankIn(runs[1..], rest[k]);
      }
      InsertedRises(runs[0], rest);
    }
  }

  // ---------------------------------------------------------------- merging changes nothing

  // Some file has neighbours that splice.
  ghost predicate AnyTouching(chunks: seq<Chunk>) {
    exists path {:trigger Order(chunks, path)} :: Touching(chunks, Order(chunks, path))
  }

  // What merging leaves, with its ranks.
  lemma {:induction false} MergedRuns(chunks: seq<Chunk>) returns (runs: seq<Run>)
    requires |chunks| >= 2
    ensures Merged(chunks) == ChunksOf(runs) && Rising(RanksOf(runs))
    ensures forall r :: r in runs <==> r in RunsOfAll(chunks, Files(chunks))
    ensures forall k :: 0 <= k < |runs| ==> runs[k].rank < |chunks|
  {
    var all := RunsOfAll(chunks, Files(chunks));
    FilesAre(chunks);
    AllRanks(chunks, Files(chunks));
    SortedRises(all);
    runs := SortRuns(all);
    forall k | 0 <= k < |runs|
      ensures runs[k].rank < |chunks|
    {
      assert runs[k] in runs;
      RankIn(all, runs[k]);
    }
  }

  // MERGING A LIST CHANGES NOTHING exactly if no two neighbours in a file's order splice. This
  // asks nothing of the chunks: they may contradict each other, or not have the lines they say.
  lemma {:induction false} MergedIsItselfIff(chunks: seq<Chunk>)
    ensures Merged(chunks) == chunks <==> !AnyTouching(chunks)
  {
    if AnyTouching(chunks) {
      var path :| Touching(chunks, Order(chunks, path));
      var i, j := TouchingPair(chunks, path);
      var x := FileLoses(chunks, path);
      LostForAll(chunks, Files(chunks), x);
      MergedLost(chunks, x);
    } else if |chunks| >= 2 {
      FilesAre(chunks);
      AllKept(chunks, Files(chunks));
      MergedKept(chunks);
    }
  }

  lemma TouchingPair(chunks: seq<Chunk>, path: string) returns (i: nat, j: nat)
    requires Touching(chunks, Order(chunks, path))
    ensures i < |chunks| && j < |chunks| && i != j && chunks[i].path == chunks[j].path == path
  {
    var idxs := Order(chunks, path);
    OrderIs(chunks, path);
    var t :| 0 <= t < |idxs| - 1 && Touch(chunks, idxs, t);
    i, j := idxs[t], idxs[t + 1];
    assert i in idxs && j in idxs;
  }

  lemma {:induction false} MergedLost(chunks: seq<Chunk>, x: nat)
    requires |chunks| >= 2 && x < |chunks| && x !in RanksOf(RunsOfAll(chunks, Files(chunks)))
    ensures Merged(chunks) != chunks
  {
    var runs := MergedRuns(chunks);
    if |runs| == |chunks| {
      RankThere(RunsOfAll(chunks, Files(chunks)), runs, x);
    }
  }

  lemma RankThere(all: seq<Run>, runs: seq<Run>, x: nat)
    requires Rising(RanksOf(runs)) && forall k :: 0 <= k < |runs| ==> runs[k].rank < |runs|
    requires forall r :: r in runs ==> r in all
    requires x < |runs|
    ensures x in RanksOf(all)
  {
    AllRanksThere(RanksOf(runs), x);
    RankIn(all, runs[x]);
  }

  // Rising, below the length, and so many: 0, 1, 2, ...
  lemma {:induction false} AllRanksThere(ranks: seq<nat>, x: nat)
    requires Rising(ranks) && forall k :: 0 <= k < |ranks| ==> ranks[k] < |ranks|
    requires x < |ranks|
    ensures ranks[x] == x
  {
    AtLeast(ranks, x);
    AtMost(ranks, x, |ranks|);
  }

  lemma {:induction false} AtMost(ranks: seq<nat>, x: nat, n: nat)
    requires Rising(ranks) && forall k :: 0 <= k < |ranks| ==> ranks[k] < n
    requires x < |ranks|
    ensures ranks[x] + (|ranks| - x) <= n
    decreases |ranks| - x
  {
    if x + 1 < |ranks| {
      AtMost(ranks, x + 1, n);
    }
  }

  lemma StillListed(all: seq<Run>, runs: seq<Run>, i: nat)
    requires forall r :: r in all ==> r in runs
    requires i in RanksOf(all)
    ensures Listed(RanksOf(runs), i)
  {
    var j: nat :| j < |all| && RanksOf(all)[j] == i;
    assert all[j] in runs;
    var k: nat :| k < |runs| && runs[k] == all[j];
    assert RanksOf(runs)[k] == i;
  }

  lemma {:induction false} MergedKept(chunks: seq<Chunk>)
    requires |chunks| >= 2
    requires FromChunks(chunks, RunsOfAll(chunks, Files(chunks)))
    requires forall i: nat :: i < |chunks| ==> i in RanksOf(RunsOfAll(chunks, Files(chunks)))
    ensures Merged(chunks) == chunks
  {
    var all := RunsOfAll(chunks, Files(chunks));
    var runs := MergedRuns(chunks);
    forall i: nat | i < |chunks|
      ensures Listed(RanksOf(runs), i)
    {
      StillListed(all, runs, i);
    }
    AscendingOnto(RanksOf(runs), |chunks|);
    forall k | 0 <= k < |runs|
      ensures runs[k].chunk == chunks[k]
    {
      assert runs[k] in all && RanksOf(runs)[k] == k;
    }
  }

  // ---------------------------------------------------------------- folding and capping twice

  // THE FIRST MERGED SPANS ARE KEPT, up to three; fewer if there would be no place left for a hit.
  lemma FirstSpansAreKept(direct: seq<Chunk>, k: int)
    ensures DirectSpansFor(direct, k) <= Merged(direct)
    ensures DirectSpansFor(direct, k) != Merged(direct) ==> |DirectSpansFor(direct, k)| in {3, k - 1}
    ensures k >= 2 ==> |DirectSpansFor(direct, k)| < k
    ensures k !in {2, 3} && |Merged(direct)| >= 3 ==> |DirectSpansFor(direct, k)| == 3
    ensures |DirectSpansFor(direct, k)| <= 3
  {
  }

  // FOLDING AND CAPPING TWICE IS DOING IT ONCE exactly if no two of the spans kept, next to
  // each other in their file's order, splice.
  lemma {:induction false} DirectSpansAgainIff(direct: seq<Chunk>, k: int)
    ensures DirectSpansFor(DirectSpansFor(direct, k), k) == DirectSpansFor(direct, k) <==>
            !AnyTouching(DirectSpansFor(direct, k))
  {
    MergedIsItselfIff(DirectSpansFor(direct, k));
    NoMore(DirectSpansFor(direct, k));
  }

  // Merging makes no more of them.
  lemma {:induction false} NoMore(chunks: seq<Chunk>)
    ensures |Merged(chunks)| <= |chunks|
  {
    if |chunks| >= 2 {
      var runs := MergedRuns(chunks);
      if |runs| > 0 {
        AtMost(RanksOf(runs), 0, |chunks|);
      }
    }
  }

  // The spans of one version of each file never do.
  lemma {:induction false} DirectSpansIdempotent(files: map<string, seq<string>>, direct: seq<Chunk>, k: int)
    requires OneVersion(files, direct)
    ensures !AnyTouching(DirectSpansFor(direct, k))
    ensures DirectSpansFor(DirectSpansFor(direct, k), k) == DirectSpansFor(direct, k)
  {
    DirectSpansKeep(files, direct, k);
    ApartIsMerged(files, DirectSpansFor(direct, k));
    MergedIsItselfIff(DirectSpansFor(direct, k));
  }

  // THE EXCEPTION, concretely: lines 1 and 2 of a file, its line 3, another file, and line 1 in
  // another version. The last keeps the first two apart, and the cap drops it.
  lemma CapJoinsWhatItKept()
    ensures var direct := Contradicting();
            && DirectSpansFor(direct, 0) == direct[..3]
            && DirectSpansFor(direct[..3], 0) != direct[..3]
  {
    var direct := Contradicting();
    ContradictingStays();
    MergedIsItselfIff(direct);
    KeptTouch();
    MergedIsItselfIff(direct[..3]);
    NoMore(direct[..3]);
  }

  function Span(path: string, first: int, last: int, text: string): Chunk {
    Chunk(path, first, last, text, 0.0, 0.0, "")
  }

  function Contradicting(): seq<Chunk> {
    [Span("f", 1, 2, "p\nq"), Span("f", 3, 3, "r"), Span("g", 1, 1, "z"), Span("f", 1, 1, "x")]
  }

  // Its places in file f, as the sweep comes by them.
  lemma ContradictingOrder()
    ensures Order(Contradicting(), "f") == [0, 3, 1]
    ensures Order(Contradicting()[..3], "f") == [0, 1]
  {
    var all := Contradicting();
    assert all[..3][..2] == all[..2] && all[..2][..1] == all[..1] && all[..1][..0] == [];
    assert Places(all[..1], "f") == [0];
    assert Places(all[..2], "f") == [0, 1];
    assert Places(all[..3], "f") == [0, 1];
    assert Places(all, "f") == [0, 1, 3];
    SortThree(all, 0, 1, 3);
    SortTwo(all[..3], 0, 1);
  }

  lemma SortTwo(chunks: seq<Chunk>, a: nat, b: nat)
    requires a < |chunks| && b < |chunks| && InOrder(chunks, a, b)
    ensures SortPlaces(chunks, [a, b]) == [a, b]
  {
    assert [a, b][1..] == [b] && [b][1..] == [];
    assert SortPlaces(chunks, [b]) == [b];
  }

  lemma SortThree(chunks: seq<Chunk>, a: nat, b: nat, c: nat)
    requires a < |chunks| && b < |chunks| && c < |chunks|
    requires !InOrder(chunks, b, c) && InOrder(chunks, a, c)
    ensures SortPlaces(chunks, [a, b, c]) == [a, c, b]
  {
    assert [a, b, c][1..] == [b, c] && [b, c][1..] == [c] && [c][1..] == [];
    assert SortPlaces(chunks, [c]) == [c];
    assert InsertPlace(chunks, b, [c]) == [c, b];
  }

  lemma ContradictingLines()
    ensures LinesOf(Contradicting()[0]) == Some(["p", "q"])
    ensures LinesOf(Contradicting()[1]) == Some(["r"])
    ensures LinesOf(Contradicting()[3]) == Some(["x"])
  {
    assert "p" + [NL] + "q" == "p\nq";
    SplitFirst("p", "q", NL);
    SplitOne("q", NL);
    SplitOne("r", NL);
    SplitOne("x", NL);
    assert ["p"] + ["q"] == ["p", "q"];
  }

  lemma VersionsDiffer()
    ensures Splice(Contradicting()[0], Contradicting()[3]).None?
    ensures Splice(Contradicting()[3], Contradicting()[1]).None?
  {
    var a, b := Contradicting()[0], Contradicting()[3];
    ContradictingLines();
    SpliceIff(a, b);
    SpliceIff(b, Contradicting()[1]);
    assert HasLine(a, 1) && HasLine(b, 1) && LineAt(a, 1) == "p" && LineAt(b, 1) == "x";
    assert "p"[0] != "x"[0];
  }

  lemma ContradictingStays()
    ensures !AnyTouching(Contradicting())
  {
    VersionsDiffer();
    ContradictingOrder();
    OnlyInOneFile(Contradicting(), "f", 2);
  }

  // Only one file has more than one chunk, and its neighbours do not splice.
  lemma OnlyInOneFile(chunks: seq<Chunk>, path: string, other: nat)
    requires |chunks| == 4 && other < 4 && chunks[other].path != path
    requires forall i: nat :: i < 4 && i != other ==> chunks[i].path == path
    requires Order(chunks, path) == [0, 3, 1]
    requires Splice(chunks[0], chunks[3]).None? && Splice(chunks[3], chunks[1]).None?
    ensures !AnyTouching(chunks)
  {
    forall p
      ensures !Touching(chunks, Order(chunks, p))
    {
      if p == path {
        assert !Touch(chunks, [0, 3, 1], 0) && !Touch(chunks, [0, 3, 1], 1);
      } else if Touching(chunks, Order(chunks, p)) {
        var i, j := TouchingPair(chunks, p);
      }
    }
  }

  lemma KeptTouch()
    ensures AnyTouching(Contradicting()[..3])
  {
    var kept := Contradicting()[..3];
    ContradictingLines();
    ContradictingOrder();
    assert Touch(kept, [0, 1], 0);
    assert Touching(kept, Order(kept, "f"));
  }
}
