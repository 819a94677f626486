/**
 packHitsFirst itself (daemon/delivery.go): it builds the steps, measures each span once and
 remembers its size, and keeps what fits. For chunks cut from one version of each file the
 sizes it remembers are the real ones, so it delivers exactly what measuring anew would.
 */
module DeliveryPacker {
  import Bytes
  import opened Numbers
  import opened Text
  import opened Wrappers
  import opened ChunkMerge
  import opened ChunkSpans
  import opened Delivery

  // "path:start-end:length", which names a span if its numbers are not negative.
  datatype Key = Key(path: string, startLine: int, endLine: int, length: nat)

  function KeyOf(c: Chunk): Key {
    Key(c.path, c.startLine, c.endLine, |c.content|)
  }

  // Every size remembered is the size, under label 1, of the lines its key names.
  ghost predicate SizesReal(files: map<string, seq<string>>, body: Body, sizes: map<Key, nat>) {
    forall c: Chunk :: c.path in files && CutFrom(files[c.path], c) && KeyOf(c) in sizes ==> sizes[KeyOf(c)] == SizeAt(body, 1, c)
  }

  // A span's text is fixed by its file and range.
  lemma SameKeySameSize(files: map<string, seq<string>>, body: Body, sizes: map<Key, nat>, c: Chunk)
    requires SizesReal(files, body, sizes)
    requires c.path in files && CutFrom(files[c.path], c)
    ensures SizesReal(files, body, sizes[KeyOf(c) := SizeAt(body, 1, c)])
  {
    var more := sizes[KeyOf(c) := SizeAt(body, 1, c)];
    forall d: Chunk | d.path in files && CutFrom(files[d.path], d) && KeyOf(d) in more
      ensures more[KeyOf(d)] == SizeAt(body, 1, d)
    {
      if KeyOf(d) == KeyOf(c) {
        assert d.content == c.content;
      }
    }
  }

  lemma {:induction false} TotalGrows(body: Body, spans: seq<Chunk>, i: nat)
    requires i <= |spans|
    ensures Total(body, spans[..i]) <= Total(body, spans)
    decreases |spans| - i
  {
    if i < |spans| {
      TotalGrows(body, spans, i + 1);
      TotalSnoc(body, spans, i);
    } else {
      assert spans[..i] == spans;
    }
  }

  lemma TotalSnoc(body: Body, spans: seq<Chunk>, i: nat)
    requires i < |spans|
    ensures Total(body, spans[..i + 1]) == Total(body, spans[..i]) + SizeAt(body, i + 1, spans[i])
  {
    assert spans[..i + 1][..i] == spans[..i];
  }

  // The sum, giving up as soon as it is too much.
  method Measure(ghost files: map<string, seq<string>>, sizes: map<Key, nat>, spans: seq<Chunk>, l: Limits)
    returns (ok: bool, sizes': map<Key, nat>)
    ensures OneVersion(files, spans) && SizesReal(files, l.body, sizes) ==>
              && SizesReal(files, l.body, sizes')
              && ok == (spans == [] || Total(l.body, spans) <= l.budget)
  {
    ghost var sound := OneVersion(files, spans) && SizesReal(files, l.body, sizes);
    sizes' := sizes;
    var total: nat := 0;
    for i := 0 to |spans|
      invariant sound ==> SizesReal(files, l.body, sizes') && total == Total(l.body, spans[..i])
      invariant i > 0 ==> total <= l.budget
    {
      var n := SizeAt(l.body, 1, spans[i]);
      if KeyOf(spans[i]) in sizes' {
        n := sizes'[KeyOf(spans[i])];
      } else {
        if sound {
          SameKeySameSize(files, l.body, sizes', spans[i]);
        }
        sizes' := sizes'[KeyOf(spans[i]) := n];
      }
      TotalSnoc(l.body, spans, i);
      total := total + n + |Decimal(i + 1)| - 1;
      if total > l.budget {
        TotalGrows(l.body, spans, i + 1);
        return false, sizes';
      }
    }
    assert spans[..|spans|] == spans;
    return true, sizes';
  }

  method MeasureMerged(ghost files: map<string, seq<string>>, sizes: map<Key, nat>, direct: seq<Chunk>, similar: seq<Chunk>, l: Limits)
    returns (ok: bool, sizes': map<Key, nat>)
    ensures OneVersion(files, direct) && OneVersion(files, similar) && SizesReal(files, l.body, sizes) ==>
              SizesReal(files, l.body, sizes') && ok == Fits(l, direct, similar)
  {
    var merged := MergeAdjacentChunks(direct + similar);
    if l.k > 0 && |merged| > l.k {
      merged := merged[..l.k];
    }
    if OneVersion(files, direct) && OneVersion(files, similar) {
      MergedKeepsVersion(files, direct + similar);
    }
    ok, sizes' := Measure(files, sizes, merged, l);
  }

  // directSpansFor
  method CapDirect(direct: seq<Chunk>, k: int) returns (spans: seq<Chunk>)
    ensures spans == DirectSpansFor(direct, k)
  {
    spans := MergeAdjacentChunks(direct);
    var limit := MAX_DIRECT_SPANS;
    if k >= 2 && limit > k - 1 {
      limit := k - 1;
    }
    if |spans| > limit {
      spans := spans[..limit];
    }
  }

  // fuseDirectSpans, without what it saved.
  method Fuse(direct: seq<Chunk>, similar: seq<Chunk>, k: int) returns (chunks: seq<Chunk>, inputCount: nat, directSpans: nat)
    ensures chunks == Fused(direct, similar, k)
    ensures directSpans == |DirectSpansFor(direct, k)| && inputCount == directSpans + |similar|
  {
    var spans := CapDirect(direct, k);
    chunks := MergeAdjacentChunks(spans + similar);
    directSpans := |spans|;
    inputCount := |spans + similar|;
    if k > 0 && |chunks| > k {
      chunks := chunks[..k];
    }
  }

  method AddDirectSteps(spans: seq<Chunk>) returns (steps: seq<Step>)
    ensures steps == DirectSteps(spans)
  {
    steps := [];
    for i := 0 to |spans|
      invariant steps == DirectSteps(spans[..i])
    {
      assert spans[..i + 1][..i] == spans[..i];
      steps := steps + [Step([spans[i]], true, -1, -1)];
    }
    assert spans[..|spans|] == spans;
  }

  method AddPlaceSteps(before: seq<Step>, hits: seq<Chunk>, wid: seq<seq<Chunk>>, widenFirst: int) returns (steps: seq<Step>)
    ensures steps == before + PlaceSteps(hits, wid, widenFirst, |hits|)
  {
    steps := before;
    for i := 0 to |hits|
      invariant steps == before + PlaceSteps(hits, wid, widenFirst, i)
    {
      ghost var placed := PlaceSteps(hits, wid, widenFirst, i);
      steps := steps + [Step([hits[i]], false, i, -1)];
      Bytes.Reassociate(before, placed, [PlaceStep(hits, i)]);
      var w := Widening(wid, i);
      if i < widenFirst && |w| > 0 {
        steps := steps + [Step(w, false, -1, i)];
        Bytes.Reassociate(before, placed + [PlaceStep(hits, i)], [Step(w, false, -1, i)]);
      } else {
        assert placed + [PlaceStep(hits, i)] + [] == placed + [PlaceStep(hits, i)];
      }
    }
  }

  lemma {:induction false} NoneBefore(wid: seq<seq<Chunk>>, first: nat, end: nat)
    requires end <= first
    ensures WidenSteps(wid, first, end) == []
  {
  }

  lemma WidenStepsNext(before: seq<Step>, wid: seq<seq<Chunk>>, first: nat, i: nat)
    requires first <= i
    ensures before + WidenSteps(wid, first, i + 1) == before + WidenSteps(wid, first, i) + WidenStep(wid, i)
  {
  }

  method AddWidenSteps(before: seq<Step>, hits: seq<Chunk>, wid: seq<seq<Chunk>>, widenFirst: int) returns (steps: seq<Step>)
    ensures steps == before + WidenSteps(wid, Max(widenFirst, 0), |hits|)
  {
    ghost var first: nat := Max(widenFirst, 0);
    steps := before;
    var i: nat := Max(widenFirst, 0);
    NoneBefore(wid, first, i);
    if |hits| <= i {
      NoneBefore(wid, first, |hits|);
    }
    while i < |hits|
      invariant first <= i && (i <= |hits| || i == first)
      invariant steps == before + WidenSteps(wid, first, i)
    {
      var w := Widening(wid, i);
      WidenStepsNext(before, wid, first, i);
      if |w| > 0 {
        steps := steps + [Step(w, false, -1, i)];
      }
      i := i + 1;
    }
  }

  lemma VersionTogether(files: map<string, seq<string>>, a: seq<Chunk>, b: seq<Chunk>)
    requires OneVersion(files, a) && OneVersion(files, b)
    ensures OneVersion(files, a + b)
  {
  }

  // Look at one step; a widening of a hit that is not there is passed over.
  method TakeStep(ghost files: map<string, seq<string>>, l: Limits, sel: Selection, st: Step, sizes: map<Key, nat>)
    returns (sel': Selection, sizes': map<Key, nat>)
    ensures OneVersion(files, sel.direct) && OneVersion(files, sel.similar) && OneVersion(files, st.chunks) && SizesReal(files, l.body, sizes) ==>
              sel' == Take(l, sel, st) && SizesReal(files, l.body, sizes')
  {
    if st.widens >= 0 && st.widens !in sel.placed {
      return sel, sizes;
    }
    if |sel.direct| + |sel.similar| == 0 {
      return Grown(sel, st), sizes;
    }
    var ok;
    ok, sizes' := MeasureGrown(files, l, sel, st, sizes);
    sel' := if ok then Grown(sel, st) else sel.(truncated := sel.truncated || st.widens < 0);
  }

  method MeasureGrown(ghost files: map<string, seq<string>>, l: Limits, sel: Selection, st: Step, sizes: map<Key, nat>)
    returns (ok: bool, sizes': map<Key, nat>)
    ensures OneVersion(files, sel.direct) && OneVersion(files, sel.similar) && OneVersion(files, st.chunks) && SizesReal(files, l.body, sizes) ==>
              && SizesReal(files, l.body, sizes')
              && ok == Fits(l, Grown(sel, st).direct, Grown(sel, st).similar)
  {
    var direct, similar := sel.direct, sel.similar;
    if st.direct {
      direct := direct + st.chunks;
    } else {
      similar := similar + st.chunks;
    }
    if OneVersion(files, sel.direct) && OneVersion(files, sel.similar) && OneVersion(files, st.chunks) {
      VersionTogether(files, sel.direct, st.chunks);
      VersionTogether(files, sel.similar, st.chunks);
    }
    ok, sizes' := MeasureMerged(files, sizes, direct, similar, l);
  }

  method TakeSteps(ghost files: map<string, seq<string>>, l: Limits, steps: seq<Step>) returns (sel: Selection)
    ensures OneVersionSteps(files, steps) ==> sel == TakeAll(l, NOTHING, steps)
  {
    ghost var sound := OneVersionSteps(files, steps);
    var sizes: map<Key, nat> := map[];
    sel := NOTHING;
    for i := 0 to |steps|
      invariant sound ==> sel == TakeAll(l, NOTHING, steps[..i]) && Sound(files, l, sel) && SizesReal(files, l.body, sizes)
    {
      ghost var before := sel;
      sel, sizes := TakeStep(files, l, sel, steps[i], sizes);
      if sound {
        TakeKeepsSound(files, l, before, steps[i]);
        TakeAllSnoc(l, NOTHING, steps[..i], steps[i]);
        Bytes.TakeSnoc(steps, i);
      }
    }
    assert steps[..|steps|] == steps;
  }

  lemma StepsVersion(
    files: map<string, seq<string>>, direct: seq<Chunk>, hits: seq<Chunk>, wid: seq<seq<Chunk>>, widenFirst: int, k: int)
    requires OneVersionInput(files, direct, hits, wid)
    ensures OneVersionSteps(files, Steps(direct, hits, wid, widenFirst, k))
  {
    DirectSpansKeep(files, direct, k);
    DirectStepsVersion(files, DirectSpansFor(direct, k));
    PlaceStepsVersion(files, hits, wid, widenFirst, |hits|);
    WidenStepsVersion(files, wid, Max(widenFirst, 0), |hits|);
  }

  lemma DirectStepsVersion(files: map<string, seq<string>>, spans: seq<Chunk>)
    requires OneVersion(files, spans)
    ensures OneVersionSteps(files, DirectSteps(spans))
  {
    DirectStepsAre(spans);
    forall j | 0 <= j < |spans|
      ensures OneVersion(files, DirectSteps(spans)[j].chunks) && DirectSteps(spans)[j].chunks != []
    {
      assert DirectSteps(spans)[j] == DirectStep(spans[j]);
    }
  }

  method PackHitsFirst(
    ghost files: map<string, seq<string>>, direct: seq<Chunk>, hits: seq<Chunk>, wid: seq<seq<Chunk>>, widenFirst: int, l: Limits)
    returns (d: Delivered)
    ensures OneVersionInput(files, direct, hits, wid) ==>
              d == Deliver(Packed(l, direct, hits, wid, widenFirst), l.k)
  {
    var spans := CapDirect(direct, l.k);
    var steps := AddDirectSteps(spans);
    steps := AddPlaceSteps(steps, hits, wid, widenFirst);
    steps := AddWidenSteps(steps, hits, wid, widenFirst);
    if OneVersionInput(files, direct, hits, wid) {
      StepsVersion(files, direct, hits, wid, widenFirst, l.k);
    }
    var sel := TakeSteps(files, l, steps);
    var chunks, inputCount, directSpans := Fuse(sel.direct, sel.similar, l.k);
    d := Delivered(chunks, sel.truncated, inputCount, directSpans);
  }
}
