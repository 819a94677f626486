/**
 Widening costs no hit its place (daemon/delivery.go): when nothing is widened before every hit
 had its turn, the lines delivered include all that placing the hits alone would deliver.
 */
module DeliveryWidening {
  import Bytes
  import opened Text
  import opened Wrappers
  import opened ChunkMerge
  import opened ChunkSpans
  import opened Delivery

  // The region around a hit touches or overlaps it, so the two are one span.
  ghost predicate Joins(h: Chunk, w: seq<Chunk>) {
    |Merged([h] + w)| == 1
  }

  // ---------------------------------------------------------------- lines that belong together

  // A stretch of lines that spans standing apart cover lies in one of them.
  lemma StretchInOne(out: seq<Chunk>, path: string, first: int, last: int) returns (j: nat)
    requires AllApart(out) && first <= last
    requires forall n :: first <= n <= last ==> Covered(out, path, n)
    ensures j < |out| && out[j].path == path && out[j].startLine <= first && last <= out[j].endLine
  {
    assert Covered(out, path, first);
    j :| 0 <= j < |out| && out[j].path == path && OnLine(out[j], first);
    if out[j].endLine < last {
      assert Covered(out, path, out[j].endLine + 1);
      var i: nat :| 0 <= i < |out| && out[i].path == path && OnLine(out[i], out[j].endLine + 1);
      TwoApart(out, i, j);
    }
  }

  lemma CoverGrows(a: seq<Chunk>, b: seq<Chunk>, path: string, n: int)
    requires Covered(b, path, n)
    requires forall i :: 0 <= i < |b| ==> b[i] in a
    ensures Covered(a, path, n)
  {
    var i :| 0 <= i < |b| && b[i].path == path && OnLine(b[i], n);
    var j :| 0 <= j < |a| && a[j] == b[i];
  }

  // Each chunk merged into the one span there is, is inside it.
  lemma InsideOnly(files: map<string, seq<string>>, part: seq<Chunk>, i: nat)
    requires OneVersion(files, part) && i < |part| && |Merged(part)| == 1
    ensures Inside(part[i], Merged(part)[0])
  {
    var ranks := MergedIsMaximalRuns(files, part);
    var c := part[i];
    assert CutFrom(files[c.path], c);
    assert Covered(part, c.path, c.startLine) && Covered(part, c.path, c.endLine);
    assert Covered(Merged(part), c.path, c.startLine) && Covered(Merged(part), c.path, c.endLine);
  }

  // What one merge makes of some of the chunks lies in a span of what it makes of all.
  lemma PartInOne(files: map<string, seq<string>>, all: seq<Chunk>, part: seq<Chunk>, f: nat) returns (t: nat)
    requires OneVersion(files, all) && OneVersion(files, part) && f < |Merged(part)|
    requires forall i :: 0 <= i < |part| ==> part[i] in all
    ensures t < |Merged(all)| && Inside(Merged(part)[f], Merged(all)[t])
  {
    var ranks := MergedIsMaximalRuns(files, part);
    var allRanks := MergedIsMaximalRuns(files, all);
    var x := Merged(part)[f];
    forall n | x.startLine <= n <= x.endLine
      ensures Covered(Merged(all), x.path, n)
    {
      assert OnLine(x, n);
      assert Covered(Merged(part), x.path, n);
      CoverGrows(all, part, x.path, n);
    }
    assert CutFrom(files[x.path], x);
    t := StretchInOne(Merged(all), x.path, x.startLine, x.endLine);
  }

  // A hit and the region that joins it are in the same span of any merge of both.
  lemma TogetherInOne(files: map<string, seq<string>>, all: seq<Chunk>, h: Chunk, w: seq<Chunk>, i: nat) returns (j: nat)
    requires OneVersion(files, all) && Joins(h, w) && i < |w|
    requires h in all && forall i :: 0 <= i < |w| ==> w[i] in all
    ensures j < |Merged(all)|
    ensures Inside(h, Merged(all)[j]) && Inside(w[i], Merged(all)[j])
  {
    var part := [h] + w;
    PartIsIn(all, h, w, i);
    PartVersion(files, all, part);
    InsideOnly(files, part, 0);
    InsideOnly(files, part, i + 1);
    j := PartInOne(files, all, part, 0);
  }

  lemma PartIsIn(all: seq<Chunk>, h: Chunk, w: seq<Chunk>, i: nat)
    requires h in all && i < |w| && forall k :: 0 <= k < |w| ==> w[k] in all
    ensures ([h] + w)[0] == h && ([h] + w)[i + 1] == w[i]
    ensures forall k :: 0 <= k < |[h] + w| ==> ([h] + w)[k] in all
  {
  }

  lemma PartVersion(files: map<string, seq<string>>, all: seq<Chunk>, part: seq<Chunk>)
    requires OneVersion(files, all) && forall i :: 0 <= i < |part| ==> part[i] in all
    ensures OneVersion(files, part)
  {
    forall i | 0 <= i < |part|
      ensures part[i].path in files && CutFrom(files[part[i].path], part[i])
    {
      assert part[i] in all;
      var j :| 0 <= j < |all| && all[j] == part[i];
    }
  }

  // ---------------------------------------------------------------- ranks

  // Every span of `base` with what was added holds a chunk of `base`.
  ghost predicate Rooted(ranks: seq<nat>, n: nat) {
    forall j :: 0 <= j < |ranks| ==> ranks[j] < n
  }

  lemma AllAreIn(base: seq<Chunk>, w: seq<Chunk>)
    ensures forall k :: 0 <= k < |w| ==> w[k] in base + w
    ensures forall k :: 0 <= k < |base| ==> base[k] in base + w
  {
    forall k | 0 <= k < |w|
      ensures w[k] in base + w
    {
      assert (base + w)[|base| + k] == w[k];
    }
  }

  lemma WidenedSpan(files: map<string, seq<string>>, base: seq<Chunk>, w: seq<Chunk>, h: Chunk, ranks: seq<nat>, i: nat, j: nat)
    requires OneVersion(files, base + w) && h in base && Joins(h, w)
    requires MaximalRuns(files, base + w, Merged(base + w), ranks)
    requires i < |w| && j < |ranks| && Inside(w[i], Merged(base + w)[j])
    ensures ranks[j] < |base|
  {
    var all := base + w;
    var at: nat :| at < |base| && base[at] == h;
    assert all[at] == h && all[|base| + i] == w[i];
    AllAreIn(base, w);
    var t := TogetherInOne(files, all, h, w, i);
    SameSpan(files, all, Merged(all), ranks, |base| + i, j, t);
    NoLaterThan(all, Merged(all)[j], ranks[j], at);
  }

  lemma NoLaterThan(all: seq<Chunk>, span: Chunk, rank: nat, at: nat)
    requires BestRank(all, rank, span) && at < |all| && Inside(all[at], span)
    ensures rank <= at
  {
  }

  lemma WideningIsRooted(files: map<string, seq<string>>, base: seq<Chunk>, w: seq<Chunk>, h: Chunk, ranks: seq<nat>)
    requires OneVersion(files, base + w) && h in base && Joins(h, w)
    requires MaximalRuns(files, base + w, Merged(base + w), ranks)
    ensures Rooted(ranks, |base|)
  {
    forall j | 0 <= j < |ranks|
      ensures ranks[j] < |base|
    {
      assert BestRank(base + w, ranks[j], Merged(base + w)[j]);
      if ranks[j] >= |base| {
        WidenedSpan(files, base, w, h, ranks, ranks[j] - |base|, j);
      }
    }
  }

  // No chunk is in two spans.
  lemma SameSpan(files: map<string, seq<string>>, all: seq<Chunk>, out: seq<Chunk>, ranks: seq<nat>, i: nat, j: nat, t: nat)
    requires OneVersion(files, all) && MaximalRuns(files, all, out, ranks)
    requires i < |all| && j < |out| && t < |out| && Inside(all[i], out[t]) && Inside(all[i], out[j])
    ensures j == t
  {
    assert CutFrom(files[all[i].path], all[i]);
    if j != t {
      TwoApart(out, j, t);
    }
  }

  // ---------------------------------------------------------------- the cap

  // Span j of the wider merge begins with the best member of a span of the narrower, which
  // stands no earlier.
  lemma {:induction false} RankPosition(
    files: map<string, seq<string>>, base: seq<Chunk>, w: seq<Chunk>, narrow: seq<nat>, wide: seq<nat>, j: nat)
    returns (f: nat)
    requires OneVersion(files, base + w) && OneVersion(files, base)
    requires MaximalRuns(files, base, Merged(base), narrow)
    requires MaximalRuns(files, base + w, Merged(base + w), wide)
    requires Rooted(wide, |base|) && j < |wide|
    ensures j <= f < |narrow| && narrow[f] == wide[j]
  {
    f := SpanOfBest(files, base, w, narrow, wide, j);
    if j > 0 {
      var g := RankPosition(files, base, w, narrow, wide, j - 1);
      assert wide[j - 1] < wide[j];
      SmallerIsEarlier(narrow, g, f);
    }
  }

  lemma SmallerIsEarlier(ranks: seq<nat>, g: nat, f: nat)
    requires forall a, b :: 0 <= a < b < |ranks| ==> ranks[a] < ranks[b]
    requires g < |ranks| && f < |ranks|
    ensures ranks[g] < ranks[f] ==> g < f
    ensures ranks[g] <= ranks[f] ==> g <= f
  {
  }

  lemma SpanOfBest(
    files: map<string, seq<string>>, base: seq<Chunk>, w: seq<Chunk>, narrow: seq<nat>, wide: seq<nat>, j: nat)
    returns (f: nat)
    requires OneVersion(files, base + w) && OneVersion(files, base)
    requires MaximalRuns(files, base, Merged(base), narrow)
    requires MaximalRuns(files, base + w, Merged(base + w), wide)
    requires Rooted(wide, |base|) && j < |wide|
    ensures f < |narrow| && narrow[f] == wide[j]
  {
    var best := base[wide[j]];
    assert (base + w)[wide[j]] == best;
    f := SpanAround(files, base, narrow, wide[j]);
    assert BestRank(base, narrow[f], Merged(base)[f]);
    var t := PartInOne(files, base + w, base, f);
    assert (base + w)[narrow[f]] == base[narrow[f]];
    assert Inside(best, Merged(base + w)[t]);
    SameSpan(files, base + w, Merged(base + w), wide, wide[j], j, t);
    assert BestRank(base + w, wide[j], Merged(base + w)[j]);
  }

  lemma SpanAround(files: map<string, seq<string>>, base: seq<Chunk>, ranks: seq<nat>, i: nat) returns (f: nat)
    requires OneVersion(files, base) && i < |base|
    requires MaximalRuns(files, base, Merged(base), ranks)
    ensures f < |Merged(base)| && Inside(base[i], Merged(base)[f])
  {
    assert CutFrom(files[base[i].path], base[i]);
    forall n | base[i].startLine <= n <= base[i].endLine
      ensures Covered(Merged(base), base[i].path, n)
    {
      assert OnLine(base[i], n);
      assert Covered(base, base[i].path, n);
    }
    f := StretchInOne(Merged(base), base[i].path, base[i].startLine, base[i].endLine);
  }

  // The span of the wider merge that span i of the narrower one lies in stands no later.
  lemma WiderStandsNoLater(files: map<string, seq<string>>, base: seq<Chunk>, w: seq<Chunk>, h: Chunk, i: nat) returns (t: nat)
    requires OneVersion(files, base + w) && OneVersion(files, base) && h in base && Joins(h, w)
    requires i < |Merged(base)|
    ensures t < |Merged(base + w)| && t <= i && Inside(Merged(base)[i], Merged(base + w)[t])
  {
    var narrow := MergedIsMaximalRuns(files, base);
    var wide := MergedIsMaximalRuns(files, base + w);
    WideningIsRooted(files, base, w, h, wide);
    t := PartInOne(files, base + w, base, i);
    var f := RankPosition(files, base, w, narrow, wide, t);
    assert BestRank(base, narrow[i], Merged(base)[i]);
    assert BestRank(base + w, wide[t], Merged(base + w)[t]);
    assert (base + w)[narrow[i]] == base[narrow[i]];
    SmallerIsEarlier(narrow, f, i);
  }

  // Widening a hit that is there pushes no line past the cap.
  lemma WideningKeeps(files: map<string, seq<string>>, base: seq<Chunk>, w: seq<Chunk>, h: Chunk, k: int, path: string, n: int)
    requires OneVersion(files, base + w) && OneVersion(files, base) && h in base && Joins(h, w)
    requires Covered(Capped(Merged(base), k), path, n)
    ensures Covered(Capped(Merged(base + w), k), path, n)
  {
    var shown := Capped(Merged(base), k);
    var i: nat :| i < |shown| && shown[i].path == path && OnLine(shown[i], n);
    var t := WiderStandsNoLater(files, base, w, h, i);
    var wider := Capped(Merged(base + w), k);
    assert wider[t] == Merged(base + w)[t];
  }

  // ---------------------------------------------------------------- the whole of it

  ghost predicate RegionsJoin(hits: seq<Chunk>, wid: seq<seq<Chunk>>) {
    forall i :: 0 <= i < |hits| && Widening(wid, i) != [] ==> Joins(hits[i], Widening(wid, i))
  }

  // Whatever is marked as placed is among what was chosen.
  ghost predicate PlacedAreIn(hits: seq<Chunk>, sel: Selection) {
    forall i :: i in sel.placed ==> 0 <= i < |hits| && hits[i] in sel.similar
  }

  ghost predicate ShowsAll(wider: seq<Chunk>, narrower: seq<Chunk>) {
    forall path, n :: Covered(narrower, path, n) ==> Covered(wider, path, n)
  }

  lemma InGrows(hits: seq<Chunk>, sel: Selection, more: seq<Chunk>)
    requires PlacedAreIn(hits, sel)
    ensures forall i :: i in sel.placed ==> 0 <= i < |hits| && hits[i] in sel.similar + more
  {
  }

  // A step that places a hit brings that hit.
  ghost predicate BringsItsHit(hits: seq<Chunk>, st: Step) {
    st.places >= 0 ==> st.places < |hits| && !st.direct && hits[st.places] in st.chunks
  }

  lemma TakeKeepsIn(l: Limits, sel: Selection, hits: seq<Chunk>, st: Step)
    requires PlacedAreIn(hits, sel) && BringsItsHit(hits, st)
    ensures PlacedAreIn(hits, Take(l, sel, st))
  {
    InGrows(hits, sel, st.chunks);
  }

  lemma {:induction false} PlacingKeepsIn(l: Limits, sel: Selection, hits: seq<Chunk>, steps: seq<Step>)
    requires PlacedAreIn(hits, sel) && forall j :: 0 <= j < |steps| ==> BringsItsHit(hits, steps[j])
    ensures PlacedAreIn(hits, TakeAll(l, sel, steps))
    decreases |steps|
  {
    if steps != [] {
      PlacingKeepsIn(l, sel, hits, steps[..|steps| - 1]);
      TakeKeepsIn(l, TakeAll(l, sel, steps[..|steps| - 1]), hits, steps[|steps| - 1]);
    }
  }

  lemma {:induction false} PlaceStepsBring(hits: seq<Chunk>, n: nat)
    requires n <= |hits|
    ensures forall j :: 0 <= j < |PlaceSteps(hits, [], 0, n)| ==> BringsItsHit(hits, PlaceSteps(hits, [], 0, n)[j])
  {
    if n > 0 {
      PlaceStepsBring(hits, n - 1);
    }
  }

  // With no hit widened early, the hits' own steps are the same whatever the regions.
  lemma {:induction false} PlaceStepsAlone(hits: seq<Chunk>, wid: seq<seq<Chunk>>, widenFirst: int, n: nat)
    requires n <= |hits| && widenFirst <= 0
    ensures PlaceSteps(hits, wid, widenFirst, n) == PlaceSteps(hits, [], 0, n)
  {
    if n > 0 {
      PlaceStepsAlone(hits, wid, widenFirst, n - 1);
    }
  }

  lemma {:induction false} NothingToWiden(end: nat)
    ensures WidenSteps([], 0, end) == []
  {
    if end > 0 {
      NothingToWiden(end - 1);
    }
  }

  // `next` is a selection as good as `sel`, and shows all that `sel` does.
  ghost predicate WidenedTo(files: map<string, seq<string>>, l: Limits, hits: seq<Chunk>, sel: Selection, next: Selection) {
    && Sound(files, l, next) && ChosenDirect(l, next.direct, []) && PlacedAreIn(hits, next)
    && ShowsAll(Deliver(next, l.k).chunks, Deliver(sel, l.k).chunks)
  }

  lemma WidenTaken(
    files: map<string, seq<string>>, l: Limits, sel: Selection, hits: seq<Chunk>, wid: seq<seq<Chunk>>, i: nat)
    requires WidenedTo(files, l, hits, sel, sel)
    requires OneVersionInput(files, [], hits, wid) && RegionsJoin(hits, wid) && Widening(wid, i) != []
    ensures WidenedTo(files, l, hits, sel, Take(l, sel, Step(Widening(wid, i), false, -1, i)))
  {
    var st := Step(Widening(wid, i), false, -1, i);
    TakeKeepsSound(files, l, sel, st);
    if Take(l, sel, st) == Grown(sel, st) && i in sel.placed {
      GrownShows(files, l, hits, sel, Grown(sel, st), Widening(wid, i), i);
    } else {
      assert Take(l, sel, st) == sel;
    }
  }

  lemma GrownShows(
    files: map<string, seq<string>>, l: Limits, hits: seq<Chunk>, sel: Selection, next: Selection, w: seq<Chunk>, i: nat)
    requires WidenedTo(files, l, hits, sel, sel) && Sound(files, l, next)
    requires i in sel.placed && Joins(hits[i], w)
    requires next.direct == sel.direct && next.similar == sel.similar + w && next.placed == sel.placed
    ensures WidenedTo(files, l, hits, sel, next)
  {
    InGrows(hits, sel, w);
    DeliverIsMerged(files, l, sel);
    DeliverIsMerged(files, l, next);
    Bytes.Reassociate(sel.direct, sel.similar, w);
    var base := sel.direct + sel.similar;
    forall path, n | Covered(Capped(Merged(base), l.k), path, n)
      ensures Covered(Capped(Merged(base + w), l.k), path, n)
    {
      WideningKeeps(files, base, w, hits[i], l.k, path, n);
    }
  }

  lemma WidenedTwice(files: map<string, seq<string>>, l: Limits, hits: seq<Chunk>, a: Selection, b: Selection, c: Selection)
    requires WidenedTo(files, l, hits, a, b) && WidenedTo(files, l, hits, b, c)
    ensures WidenedTo(files, l, hits, a, c)
  {
  }

  lemma WidenedLast(
    files: map<string, seq<string>>, l: Limits, sel: Selection, hits: seq<Chunk>, wid: seq<seq<Chunk>>,
    before: seq<Step>, i: nat)
    requires WidenedTo(files, l, hits, sel, TakeAll(l, sel, before))
    requires OneVersionInput(files, [], hits, wid) && RegionsJoin(hits, wid)
    ensures WidenedTo(files, l, hits, sel, TakeAll(l, sel, before + WidenStep(wid, i)))
  {
    if Widening(wid, i) != [] {
      var st := Step(Widening(wid, i), false, -1, i);
      var at := TakeAll(l, sel, before);
      TakeAllSnoc(l, sel, before, st);
      WidenTaken(files, l, at, hits, wid, i);
      WidenedTwice(files, l, hits, sel, at, Take(l, at, st));
    } else {
      assert before + [] == before;
    }
  }

  lemma {:induction false} WideningPhase(
    files: map<string, seq<string>>, l: Limits, sel: Selection, hits: seq<Chunk>, wid: seq<seq<Chunk>>, n: nat)
    requires WidenedTo(files, l, hits, sel, sel)
    requires OneVersionInput(files, [], hits, wid) && RegionsJoin(hits, wid)
    ensures WidenedTo(files, l, hits, sel, TakeAll(l, sel, WidenSteps(wid, 0, n)))
  {
    if n > 0 {
      WideningPhase(files, l, sel, hits, wid, n - 1);
      WidenedLast(files, l, sel, hits, wid, WidenSteps(wid, 0, n - 1), n - 1);
    }
  }

  // HITS FIRST: with none widened early, every line that placing the hits alone would deliver
  // is delivered.
  lemma WideningCostsNothing(
    files: map<string, seq<string>>, l: Limits, direct: seq<Chunk>, hits: seq<Chunk>, wid: seq<seq<Chunk>>)
    requires OneVersionInput(files, direct, hits, wid) && RegionsJoin(hits, wid)
    ensures ShowsAll(Deliver(Packed(l, direct, hits, wid, 0), l.k).chunks, Deliver(Packed(l, direct, hits, [], 0), l.k).chunks)
  {
    var spans := DirectSteps(DirectSpansFor(direct, l.k));
    var places := PlaceSteps(hits, [], 0, |hits|);
    PlaceStepsAlone(hits, wid, 0, |hits|);
    NothingToWiden(|hits|);
    assert spans + places + [] == spans + places;
    PackedIsSound(files, l, direct, hits, [], 0);
    TakeAllAppend(l, NOTHING, spans, places);
    TakeAllAppend(l, NOTHING, spans + places, WidenSteps(wid, 0, |hits|));
    NoPlacesYet(files, l, direct);
    PlaceStepsBring(hits, |hits|);
    PlacingKeepsIn(l, TakeAll(l, NOTHING, spans), hits, places);
    WideningPhase(files, l, TakeAll(l, NOTHING, spans + places), hits, wid, |hits|);
  }

  lemma NoPlacesYet(files: map<string, seq<string>>, l: Limits, direct: seq<Chunk>)
    requires OneVersion(files, direct)
    ensures TakeAll(l, NOTHING, DirectSteps(DirectSpansFor(direct, l.k))).placed == {}
  {
    var spans := DirectSpansFor(direct, l.k);
    DirectSpansKeep(files, direct, l.k);
    DirectPhase(files, l, spans, |spans|);
    assert spans[..|spans|] == spans;
  }
}
