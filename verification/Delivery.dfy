/**
 What one request's retrieval hands the model (daemon/delivery.go, daemon/fileref.go): direct
 spans first, then every hit's own chunk, then the regions around them, each kept only if the
 merged result still fits the budget.
 */
module Delivery {
  import opened Numbers
  import opened Text
  import opened Wrappers
  import opened ChunkMerge
  import opened ChunkSpans

  const MAX_DIRECT_SPANS := 3

  // How long a rendered chunk is, all but the number in its "[n] " label: it depends on the
  // file, the range and the text alone. Scrubbing and escaping are left open.
  type Body = (string, int, int, string) -> nat

  // len(renderChunk(index, c))
  function SizeAt(body: Body, index: nat, c: Chunk): nat {
    |Decimal(index)| + body(c.path, c.startLine, c.endLine, c.content)
  }

  // The whole of the spans, labelled in order.
  function Total(body: Body, spans: seq<Chunk>): nat {
    if spans == [] then 0
    else Total(body, spans[..|spans| - 1]) + SizeAt(body, |spans|, spans[|spans| - 1])
  }

  function Capped(spans: seq<Chunk>, k: int): seq<Chunk> {
    if k > 0 && |spans| > k then spans[..k] else spans
  }

  function DirectLimit(k: int): nat {
    if k >= 2 && MAX_DIRECT_SPANS > k - 1 then k - 1 else MAX_DIRECT_SPANS
  }

  // directSpansFor
  function DirectSpansFor(direct: seq<Chunk>, k: int): seq<Chunk> {
    var merged := Merged(direct);
    if |merged| > DirectLimit(k) then merged[..DirectLimit(k)] else merged
  }

  // The spans fuseDirectSpans returns.
  function Fused(direct: seq<Chunk>, similar: seq<Chunk>, k: int): seq<Chunk> {
    Capped(Merged(DirectSpansFor(direct, k) + similar), k)
  }

  // ---------------------------------------------------------------- the steps

  datatype Step = Step(chunks: seq<Chunk>, direct: bool, places: int, widens: int)

  function Widening(wid: seq<seq<Chunk>>, i: nat): seq<Chunk> {
    if i < |wid| then wid[i] else []
  }

  function DirectStep(c: Chunk): Step { Step([c], true, -1, -1) }
  function PlaceStep(hits: seq<Chunk>, i: nat): Step requires i < |hits| { Step([hits[i]], false, i, -1) }
  function WidenStep(wid: seq<seq<Chunk>>, i: nat): seq<Step> {
    if Widening(wid, i) == [] then [] else [Step(Widening(wid, i), false, -1, i)]
  }

  function DirectSteps(spans: seq<Chunk>): seq<Step> {
    if spans == [] then [] else DirectSteps(spans[..|spans| - 1]) + [DirectStep(spans[|spans| - 1])]
  }

  // The first `n` hits placed, those before widenFirst widened at once.
  function PlaceSteps(hits: seq<Chunk>, wid: seq<seq<Chunk>>, widenFirst: int, n: nat): seq<Step>
    requires n <= |hits|
  {
    if n == 0 then []
    else
      PlaceSteps(hits, wid, widenFirst, n - 1) + [PlaceStep(hits, n - 1)] +
      if n - 1 < widenFirst then WidenStep(wid, n - 1) else []
  }

  function WidenSteps(wid: seq<seq<Chunk>>, first: nat, end: nat): seq<Step>
    decreases end
  {
    if end <= first then [] else WidenSteps(wid, first, end - 1) + WidenStep(wid, end - 1)
  }

  function Steps(direct: seq<Chunk>, hits: seq<Chunk>, wid: seq<seq<Chunk>>, widenFirst: int, k: int): seq<Step> {
    DirectSteps(DirectSpansFor(direct, k)) + PlaceSteps(hits, wid, widenFirst, |hits|) + WidenSteps(wid, Max(widenFirst, 0), |hits|)
  }

  // ---------------------------------------------------------------- taking them

  datatype Selection = Selection(direct: seq<Chunk>, similar: seq<Chunk>, placed: set<int>, truncated: bool, accepted: nat)

  const NOTHING := Selection([], [], {}, false, 0)

  datatype Limits = Limits(k: int, budget: int, body: Body)

  // `fits`, with every size measured anew.
  predicate Fits(l: Limits, direct: seq<Chunk>, similar: seq<Chunk>) {
    var spans := Capped(Merged(direct + similar), l.k);
    spans == [] || Total(l.body, spans) <= l.budget
  }

  function Grown(sel: Selection, st: Step): Selection {
    Selection(if st.direct then sel.direct + st.chunks else sel.direct,
              if st.direct then sel.similar else sel.similar + st.chunks,
              if st.places >= 0 then sel.placed + {st.places} else sel.placed,
              sel.truncated, sel.accepted + 1)
  }

  predicate Rejected(l: Limits, sel: Selection, st: Step) {
    |sel.direct| + |sel.similar| > 0 && !Fits(l, Grown(sel, st).direct, Grown(sel, st).similar)
  }

  function Take(l: Limits, sel: Selection, st: Step): Selection {
    if st.widens >= 0 && st.widens !in sel.placed then sel
    else if Rejected(l, sel, st) then sel.(truncated := sel.truncated || st.widens < 0)
    else Grown(sel, st)
  }

  function TakeAll(l: Limits, sel: Selection, steps: seq<Step>): Selection {
    if steps == [] then sel else Take(l, TakeAll(l, sel, steps[..|steps| - 1]), steps[|steps| - 1])
  }

  datatype Delivered = Delivered(chunks: seq<Chunk>, truncated: bool, inputCount: nat, directSpans: nat)

  function Deliver(sel: Selection, k: int): Delivered {
    var direct := DirectSpansFor(sel.direct, k);
    Delivered(Fused(sel.direct, sel.similar, k), sel.truncated, |direct| + |sel.similar|, |direct|)
  }

  // packHitsFirst, as a function.
  function Packed(l: Limits, direct: seq<Chunk>, hits: seq<Chunk>, wid: seq<seq<Chunk>>, widenFirst: int): Selection {
    TakeAll(l, NOTHING, Steps(direct, hits, wid, widenFirst, l.k))
  }

  // The same, for any way of taking a step.
  ghost function Fold(take: (Selection, Step) -> Selection, sel: Selection, steps: seq<Step>): Selection {
    if steps == [] then sel else take(Fold(take, sel, steps[..|steps| - 1]), steps[|steps| - 1])
  }

  lemma {:induction false} FoldAppend(take: (Selection, Step) -> Selection, sel: Selection, a: seq<Step>, b: seq<Step>)
    ensures Fold(take, sel, a + b) == Fold(take, Fold(take, sel, a), b)
    decreases |b|
  {
    if b == [] {
      assert a + b == a;
    } else {
      FoldAppend(take, sel, a, b[..|b| - 1]);
      assert (a + b)[..|a + b| - 1] == a + b[..|b| - 1];
    }
  }

  lemma {:induction false} TakeAllIsFold(l: Limits, sel: Selection, steps: seq<Step>)
    ensures TakeAll(l, sel, steps) == Fold((s, st) => Take(l, s, st), sel, steps)
  {
    if steps != [] {
      TakeAllIsFold(l, sel, steps[..|steps| - 1]);
    }
  }

  lemma TakeAllAppend(l: Limits, sel: Selection, a: seq<Step>, b: seq<Step>)
    ensures TakeAll(l, sel, a + b) == TakeAll(l, TakeAll(l, sel, a), b)
  {
    TakeAllIsFold(l, sel, a + b);
    TakeAllIsFold(l, sel, a);
    TakeAllIsFold(l, TakeAll(l, sel, a), b);
    FoldAppend((s, st) => Take(l, s, st), sel, a, b);
  }

  // ---------------------------------------------------------------- one version throughout

  ghost predicate OneVersionSteps(files: map<string, seq<string>>, steps: seq<Step>) {
    forall j :: 0 <= j < |steps| ==> OneVersion(files, steps[j].chunks) && steps[j].chunks != []
  }

  ghost predicate OneVersionInput(
    files: map<string, seq<string>>, direct: seq<Chunk>, hits: seq<Chunk>, wid: seq<seq<Chunk>>)
  {
    && OneVersion(files, direct) && OneVersion(files, hits)
    && forall i :: 0 <= i < |wid| ==> OneVersion(files, wid[i])
  }

  lemma MergedKeepsVersion(files: map<string, seq<string>>, chunks: seq<Chunk>)
    requires OneVersion(files, chunks)
    ensures OneVersion(files, Merged(chunks)) && AllApart(Merged(chunks))
  {
    var ranks := MergedIsMaximalRuns(files, chunks);
  }

  ghost predicate AllApart(out: seq<Chunk>) {
    forall j, k :: 0 <= j < k < |out| ==> Apart(out[j], out[k])
  }

  lemma DirectSpansKeep(files: map<string, seq<string>>, direct: seq<Chunk>, k: int)
    requires OneVersion(files, direct)
    ensures OneVersion(files, DirectSpansFor(direct, k)) && AllApart(DirectSpansFor(direct, k))
    ensures |DirectSpansFor(direct, k)| <= DirectLimit(k)
  {
    MergedKeepsVersion(files, direct);
  }

  lemma {:induction false} DirectStepsAre(spans: seq<Chunk>)
    ensures |DirectSteps(spans)| == |spans|
    ensures forall j :: 0 <= j < |spans| ==> DirectSteps(spans)[j] == DirectStep(spans[j])
  {
    if spans != [] {
      DirectStepsAre(spans[..|spans| - 1]);
    }
  }

  lemma {:induction false} PlaceStepsVersion(
    files: map<string, seq<string>>, hits: seq<Chunk>, wid: seq<seq<Chunk>>, widenFirst: int, n: nat)
    requires n <= |hits| && OneVersionInput(files, [], hits, wid)
    ensures OneVersionSteps(files, PlaceSteps(hits, wid, widenFirst, n))
    ensures NoDirect(PlaceSteps(hits, wid, widenFirst, n))
  {
    if n > 0 {
      PlaceStepsVersion(files, hits, wid, widenFirst, n - 1);
      var before := PlaceSteps(hits, wid, widenFirst, n - 1);
      assert OneVersion(files, [hits[n - 1]]);
      StepsTogether(files, before, [PlaceStep(hits, n - 1)]);
      if n - 1 < widenFirst {
        StepsTogether(files, before + [PlaceStep(hits, n - 1)], WidenStep(wid, n - 1));
      } else {
        assert before + [PlaceStep(hits, n - 1)] + [] == before + [PlaceStep(hits, n - 1)];
      }
    }
  }

  lemma StepsTogether(files: map<string, seq<string>>, a: seq<Step>, b: seq<Step>)
    requires OneVersionSteps(files, a) && NoDirect(a) && OneVersionSteps(files, b) && NoDirect(b)
    ensures OneVersionSteps(files, a + b) && NoDirect(a + b)
  {
  }

  lemma {:induction false} WidenStepsVersion(files: map<string, seq<string>>, wid: seq<seq<Chunk>>, first: nat, end: nat)
    requires OneVersionInput(files, [], [], wid)
    ensures OneVersionSteps(files, WidenSteps(wid, first, end))
    ensures NoDirect(WidenSteps(wid, first, end))
    decreases end
  {
    if first < end {
      WidenStepsVersion(files, wid, first, end - 1);
    }
  }

  ghost predicate NoDirect(steps: seq<Step>) {
    forall j :: 0 <= j < |steps| ==> !steps[j].direct
  }

  // ---------------------------------------------------------------- spans apart merge to themselves

  ghost predicate FromChunks(chunks: seq<Chunk>, runs: seq<Run>) {
    forall j :: 0 <= j < |runs| ==> runs[j].rank < |chunks| && runs[j].chunk == chunks[runs[j].rank]
  }

  lemma SpliceSelf(file: seq<string>, c: Chunk)
    requires CutFrom(file, c)
    ensures Splice(c, c) == Some(c)
  {
    CutLines(file, c);
    var lines := LinesOf(c).value;
    JoinOfSplit(c.content, NL);
    assert lines + lines[|lines|..] == lines;
    assert lines[0..0 + |lines|] == lines[..|lines|];
  }

  lemma ApartOrSame(files: map<string, seq<string>>, chunks: seq<Chunk>, i: nat, j: nat)
    requires OneVersion(files, chunks) && AllApart(chunks)
    requires i < |chunks| && j < |chunks|
    ensures if i == j then Splice(chunks[i], chunks[j]) == Some(chunks[i]) else Splice(chunks[i], chunks[j]).None?
  {
    assert CutFrom(files[chunks[i].path], chunks[i]) && CutFrom(files[chunks[j].path], chunks[j]);
    if i == j {
      SpliceSelf(files[chunks[i].path], chunks[i]);
    } else {
      assert if i < j then Apart(chunks[i], chunks[j]) else Apart(chunks[j], chunks[i]);
    }
  }

  lemma {:induction false} SweepApart(
    files: map<string, seq<string>>, chunks: seq<Chunk>, done: seq<Run>, cur: Run, rest: seq<nat>)
    requires OneVersion(files, chunks) && AllApart(chunks)
    requires InBounds(rest, |chunks|)
    requires FromChunks(chunks, done) && FromChunks(chunks, [cur])
    ensures FromChunks(chunks, Sweep(chunks, done, cur, rest))
    decreases |rest|
  {
    assert [cur][0] == cur;
    if rest != [] {
      ApartOrSame(files, chunks, cur.rank, rest[0]);
      if cur.rank == rest[0] {
        SweepApart(files, chunks, done, cur, rest[1..]);
      } else {
        SweepApart(files, chunks, done + [cur], Run(rest[0], chunks[rest[0]]), rest[1..]);
      }
    }
  }

  lemma {:induction false} RunsApart(files: map<string, seq<string>>, chunks: seq<Chunk>, order: seq<string>)
    requires OneVersion(files, chunks) && AllApart(chunks)
    ensures FromChunks(chunks, RunsOfAll(chunks, order))
  {
    if order != [] {
      RunsApart(files, chunks, order[..|order| - 1]);
      var idxs := SortPlaces(chunks, Places(chunks, order[|order| - 1]));
      if idxs != [] {
        SweepApart(files, chunks, [], Run(idxs[0], chunks[idxs[0]]), idxs[1..]);
      }
    }
  }

  lemma MergedMembers(files: map<string, seq<string>>, chunks: seq<Chunk>, j: nat)
    requires OneVersion(files, chunks) && AllApart(chunks) && j < |Merged(chunks)|
    ensures Merged(chunks)[j] in chunks
  {
    if |chunks| >= 2 {
      var runs := RunsOfAll(chunks, Files(chunks));
      RunsApart(files, chunks, Files(chunks));
      assert SortRuns(runs)[j] in runs;
    }
  }

  // Spans that stand apart are each where they were.
  lemma ApartIsMerged(files: map<string, seq<string>>, chunks: seq<Chunk>)
    requires OneVersion(files, chunks) && AllApart(chunks)
    ensures Merged(chunks) == chunks
  {
    var out := Merged(chunks);
    var ranks := MergedIsMaximalRuns(files, chunks);
    forall j | 0 <= j < |out|
      ensures out[j] == chunks[ranks[j]]
    {
      MergedMembers(files, chunks, j);
      var i :| 0 <= i < |chunks| && chunks[i] == out[j];
      InsideIsSame(files, chunks, ranks[j], i);
    }
    forall i: nat | i < |chunks|
      ensures Listed(ranks, i)
    {
      assert CutFrom(files[chunks[i].path], chunks[i]);
      assert Covered(chunks, chunks[i].path, chunks[i].startLine);
      KeepsItsPlace(files, chunks, out, ranks, i);
    }
    AscendingOnto(ranks, |chunks|);
  }

  lemma KeepsItsPlace(files: map<string, seq<string>>, chunks: seq<Chunk>, out: seq<Chunk>, ranks: seq<nat>, i: nat)
    requires OneVersion(files, chunks) && AllApart(chunks) && i < |chunks|
    requires |ranks| == |out| && forall j :: 0 <= j < |out| ==> ranks[j] < |chunks| && out[j] == chunks[ranks[j]]
    requires Covered(out, chunks[i].path, chunks[i].startLine)
    ensures Listed(ranks, i)
  {
    assert CutFrom(files[chunks[i].path], chunks[i]);
    var j :| 0 <= j < |out| && out[j].path == chunks[i].path && OnLine(out[j], chunks[i].startLine);
    SharedIsSame(chunks, i, ranks[j], chunks[i].startLine);
    assert ranks[j] == i;
  }

  lemma InsideIsSame(files: map<string, seq<string>>, chunks: seq<Chunk>, a: nat, b: nat)
    requires OneVersion(files, chunks) && AllApart(chunks)
    requires a < |chunks| && b < |chunks| && Inside(chunks[a], chunks[b])
    ensures a == b
  {
    assert CutFrom(files[chunks[a].path], chunks[a]);
    SharedIsSame(chunks, a, b, chunks[a].startLine);
  }

  lemma TwoApart(chunks: seq<Chunk>, a: nat, b: nat)
    requires AllApart(chunks)
    requires a < |chunks| && b < |chunks| && a != b
    ensures Apart(chunks[a], chunks[b])
  {
  }

  lemma SharedIsSame(chunks: seq<Chunk>, a: nat, b: nat, n: int)
    requires AllApart(chunks)
    requires a < |chunks| && b < |chunks| && chunks[a].path == chunks[b].path
    requires OnLine(chunks[a], n) && OnLine(chunks[b], n)
    ensures a == b
  {
    if a != b {
      TwoApart(chunks, a, b);
    }
  }

  ghost predicate Listed(ranks: seq<nat>, i: nat) {
    exists j {:trigger ranks[j]} :: 0 <= j < |ranks| && ranks[j] == i
  }

  // An ascending list of all the numbers below n is 0, 1, 2, ...
  lemma AscendingOnto(ranks: seq<nat>, n: nat)
    requires forall j, k :: 0 <= j < k < |ranks| ==> ranks[j] < ranks[k]
    requires forall j :: 0 <= j < |ranks| ==> ranks[j] < n
    requires forall i: nat :: i < n ==> Listed(ranks, i)
    ensures |ranks| == n && forall j :: 0 <= j < n ==> ranks[j] == j
  {
    var j: nat := 0;
    while j < n
      invariant j <= n && j <= |ranks|
      invariant forall i :: 0 <= i < j ==> ranks[i] == i
    {
      assert Listed(ranks, j);
      var at :| 0 <= at < |ranks| && ranks[at] == j;
      assert at >= j;
      assert j < |ranks| && ranks[j] <= ranks[at];
      if j > 0 {
        assert ranks[j - 1] < ranks[j];
      }
      j := j + 1;
    }
    if |ranks| > n {
      AtLeast(ranks, n);
    }
  }

  lemma {:induction false} AtLeast(ranks: seq<nat>, m: nat)
    requires forall j, k :: 0 <= j < k < |ranks| ==> ranks[j] < ranks[k]
    requires m < |ranks|
    ensures ranks[m] >= m
  {
    if m > 0 {
      AtLeast(ranks, m - 1);
      assert ranks[m - 1] < ranks[m];
    }
  }

  // ---------------------------------------------------------------- the budget

  // The direct spans chosen, with those still to come, are some of what directSpansFor gave.
  ghost predicate ChosenDirect(l: Limits, direct: seq<Chunk>, pending: seq<Chunk>) {
    AllApart(direct + pending) && |direct| + |pending| <= DirectLimit(l.k)
  }

  ghost predicate Sound(files: map<string, seq<string>>, l: Limits, sel: Selection) {
    && OneVersion(files, sel.direct) && OneVersion(files, sel.similar)
    && (sel.accepted >= 1 ==> |sel.direct| + |sel.similar| > 0)
    && (sel.accepted >= 2 ==> Fits(l, sel.direct, sel.similar))
  }

  lemma TakeKeepsSound(files: map<string, seq<string>>, l: Limits, sel: Selection, st: Step)
    requires Sound(files, l, sel) && OneVersion(files, st.chunks) && st.chunks != []
    ensures Sound(files, l, Take(l, sel, st))
  {
  }

  lemma ChosenDrops(l: Limits, direct: seq<Chunk>, pending: seq<Chunk>)
    requires pending != [] && ChosenDirect(l, direct, pending)
    ensures ChosenDirect(l, direct, pending[1..])
    ensures ChosenDirect(l, direct + [pending[0]], pending[1..])
  {
    assert direct + [pending[0]] + pending[1..] == direct + pending;
    var all := direct + pending[1..];
    forall j, k | 0 <= j < k < |all|
      ensures Apart(all[j], all[k])
    {
      var j', k' := if j < |direct| then j else j + 1, if k < |direct| then k else k + 1;
      assert (direct + pending)[j'] == all[j] && (direct + pending)[k'] == all[k];
    }
  }

  lemma TakeAllSnoc(l: Limits, sel: Selection, steps: seq<Step>, st: Step)
    ensures TakeAll(l, sel, steps + [st]) == Take(l, TakeAll(l, sel, steps), st)
  {
    assert (steps + [st])[..|steps|] == steps;
  }

  lemma DirectTaken(files: map<string, seq<string>>, l: Limits, sel: Selection, pending: seq<Chunk>)
    requires pending != [] && Sound(files, l, sel) && ChosenDirect(l, sel.direct, pending) && OneVersion(files, [pending[0]])
    ensures var next := Take(l, sel, DirectStep(pending[0]));
            && Sound(files, l, next) && ChosenDirect(l, next.direct, pending[1..])
            && next.similar == sel.similar && next.placed == sel.placed
  {
    TakeKeepsSound(files, l, sel, DirectStep(pending[0]));
    ChosenDrops(l, sel.direct, pending);
  }

  // What the first n direct spans come to.
  ghost predicate DirectDone(files: map<string, seq<string>>, l: Limits, spans: seq<Chunk>, n: nat, sel: Selection) {
    n <= |spans| && Sound(files, l, sel) && ChosenDirect(l, sel.direct, spans[n..]) && sel.similar == [] && sel.placed == {}
  }

  lemma DirectNext(files: map<string, seq<string>>, l: Limits, spans: seq<Chunk>, n: nat, sel: Selection)
    requires n < |spans| && OneVersion(files, spans) && DirectDone(files, l, spans, n, sel)
    ensures DirectDone(files, l, spans, n + 1, Take(l, sel, DirectStep(spans[n])))
  {
    assert spans[n..][1..] == spans[n + 1..];
    DirectTaken(files, l, sel, spans[n..]);
  }

  lemma DirectStepsNext(spans: seq<Chunk>, n: nat)
    requires n < |spans|
    ensures DirectSteps(spans[..n + 1]) == DirectSteps(spans[..n]) + [DirectStep(spans[n])]
  {
    assert spans[..n + 1][..n] == spans[..n];
  }

  lemma {:induction false} DirectPhase(files: map<string, seq<string>>, l: Limits, spans: seq<Chunk>, n: nat)
    requires n <= |spans| && OneVersion(files, spans) && AllApart(spans) && |spans| <= DirectLimit(l.k)
    ensures DirectDone(files, l, spans, n, TakeAll(l, NOTHING, DirectSteps(spans[..n])))
  {
    if n == 0 {
      assert [] + spans[0..] == spans;
    } else {
      DirectPhase(files, l, spans, n - 1);
      DirectStepsNext(spans, n - 1);
      DirectNext(files, l, spans, n - 1, TakeAll(l, NOTHING, DirectSteps(spans[..n - 1])));
      TakeAllSnoc(l, NOTHING, DirectSteps(spans[..n - 1]), DirectStep(spans[n - 1]));
    }
  }

  lemma {:induction false} LaterPhase(files: map<string, seq<string>>, l: Limits, sel: Selection, steps: seq<Step>)
    requires Sound(files, l, sel) && OneVersionSteps(files, steps) && NoDirect(steps)
    ensures Sound(files, l, TakeAll(l, sel, steps))
    ensures TakeAll(l, sel, steps).direct == sel.direct
    decreases |steps|
  {
    if steps != [] {
      LaterPhase(files, l, sel, steps[..|steps| - 1]);
      TakeKeepsSound(files, l, TakeAll(l, sel, steps[..|steps| - 1]), steps[|steps| - 1]);
    }
  }

  lemma PackedIsSound(
    files: map<string, seq<string>>, l: Limits, direct: seq<Chunk>, hits: seq<Chunk>, wid: seq<seq<Chunk>>, widenFirst: int)
    requires OneVersionInput(files, direct, hits, wid)
    ensures var sel := Packed(l, direct, hits, wid, widenFirst);
            Sound(files, l, sel) && ChosenDirect(l, sel.direct, [])
  {
    var spans := DirectSpansFor(direct, l.k);
    DirectSpansKeep(files, direct, l.k);
    DirectPhase(files, l, spans, |spans|);
    assert spans[..|spans|] == spans && spans[|spans|..] == [];
    var places := PlaceSteps(hits, wid, widenFirst, |hits|);
    var widens := WidenSteps(wid, Max(widenFirst, 0), |hits|);
    PlaceStepsVersion(files, hits, wid, widenFirst, |hits|);
    WidenStepsVersion(files, wid, Max(widenFirst, 0), |hits|);
    TakeAllAppend(l, NOTHING, DirectSteps(spans) + places, widens);
    TakeAllAppend(l, NOTHING, DirectSteps(spans), places);
    LaterPhase(files, l, TakeAll(l, NOTHING, DirectSteps(spans)), places);
    LaterPhase(files, l, TakeAll(l, NOTHING, DirectSteps(spans) + places), widens);
  }

  // Fusing what was chosen is merging it: nothing is cut twice.
  lemma DeliverIsMerged(files: map<string, seq<string>>, l: Limits, sel: Selection)
    requires Sound(files, l, sel) && ChosenDirect(l, sel.direct, [])
    ensures DirectSpansFor(sel.direct, l.k) == sel.direct
    ensures Deliver(sel, l.k).chunks == Capped(Merged(sel.direct + sel.similar), l.k)
  {
    assert sel.direct + [] == sel.direct;
    ApartIsMerged(files, sel.direct);
  }

  lemma MergedNotEmpty(files: map<string, seq<string>>, chunks: seq<Chunk>)
    requires OneVersion(files, chunks) && chunks != []
    ensures Merged(chunks) != []
  {
    var ranks := MergedIsMaximalRuns(files, chunks);
    assert CutFrom(files[chunks[0].path], chunks[0]);
    assert Covered(chunks, chunks[0].path, chunks[0].startLine);
    assert Covered(Merged(chunks), chunks[0].path, chunks[0].startLine);
  }

  // THE BUDGET IS KEPT: once a second step was accepted, all that is delivered, rendered with
  // its labels, fits. (The first thing placed is kept whatever its size.)
  lemma BudgetKept(
    files: map<string, seq<string>>, l: Limits, direct: seq<Chunk>, hits: seq<Chunk>, wid: seq<seq<Chunk>>, widenFirst: int)
    requires OneVersionInput(files, direct, hits, wid)
    ensures var sel := Packed(l, direct, hits, wid, widenFirst);
            sel.accepted >= 2 ==> Total(l.body, Deliver(sel, l.k).chunks) <= l.budget
  {
    var sel := Packed(l, direct, hits, wid, widenFirst);
    PackedIsSound(files, l, direct, hits, wid, widenFirst);
    if sel.accepted >= 2 {
      DeliverIsMerged(files, l, sel);
      MergedNotEmpty(files, sel.direct + sel.similar);
    }
  }
}
