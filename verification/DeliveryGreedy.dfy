/**
 What fits is delivered (daemon/delivery.go, packHitsFirst): the packer is greedy in the order
 of its input. This is stated on the merged total, the cap and the budget, and on where each
 span stands among what was chosen.
 */
module DeliveryGreedy {
  import opened Numbers
  import opened ChunkMerge
  import opened Delivery
  import Bytes

  // Whether there is room for the second beside the first.
  type Fitting = (seq<Chunk>, seq<Chunk>) -> bool

  // Nothing is there yet, or what is there and `more`, merged, capped and rendered, are within
  // the budget.
  ghost predicate Room(l: Limits, there: seq<Chunk>, more: seq<Chunk>) {
    var merged := Merged(there + more);
    var spans := if l.k > 0 && |merged| > l.k then merged[..l.k] else merged;
    there == [] || spans == [] || Total(l.body, spans) <= l.budget
  }

  ghost function Rooms(l: Limits): Fitting {
    (there, more) => Room(l, there, more)
  }

  // ---------------------------------------------------------------- the law

  // The direct spans, one after another: `at[i]` of them are chosen before span i.
  ghost predicate GreedyDirect(room: Fitting, chosen: seq<Chunk>, spans: seq<Chunk>, at: seq<nat>) {
    && |at| == |spans| + 1 && at[0] == 0 && at[|spans|] == |chosen|
    && forall i {:trigger DirectAt(room, chosen, spans, at, i)} :: 0 <= i < |spans| ==>
         DirectAt(room, chosen, spans, at, i)
  }

  ghost predicate DirectAt(room: Fitting, chosen: seq<Chunk>, spans: seq<Chunk>, at: seq<nat>, i: nat)
    requires i < |spans| && |at| == |spans| + 1
  {
    && at[i] <= |chosen|
    && if room(chosen[..at[i]], [spans[i]]) then at[i + 1] == at[i] + 1 && at[i] < |chosen| && chosen[at[i]] == spans[i]
       else at[i + 1] == at[i]
  }

  // `more`, looked at when the first `at` of the similar ones were chosen, is chosen or not;
  // then there are `next` of them.
  ghost predicate TakenIfRoom(room: Fitting, sel: Selection, more: seq<Chunk>, at: nat, next: nat) {
    && at <= |sel.similar|
    && if room(sel.direct + sel.similar[..at], more) then
         next == at + |more| <= |sel.similar| && sel.similar[at..next] == more
       else next == at
  }

  // The region around a hit, if it has one.
  ghost predicate RegionAt(room: Fitting, sel: Selection, region: seq<Chunk>, at: nat, next: nat) {
    if region == [] then next == at else TakenIfRoom(room, sel, region, at, next)
  }

  // All the hits in their order, each placed exactly if there is room, the first ones followed
  // by their regions at once.
  ghost predicate GreedyHits(
    room: Fitting, sel: Selection, hits: seq<Chunk>, wid: seq<seq<Chunk>>, widenFirst: int, at: seq<nat>)
  {
    && |at| == |hits| + 1 && at[0] == 0
    && forall i {:trigger GreedyHit(room, sel, hits, wid, widenFirst, at, i)} :: 0 <= i < |hits| ==>
         GreedyHit(room, sel, hits, wid, widenFirst, at, i)
  }

  ghost predicate GreedyHit(
    room: Fitting, sel: Selection, hits: seq<Chunk>, wid: seq<seq<Chunk>>, widenFirst: int, at: seq<nat>, i: nat)
    requires i < |hits| && |at| == |hits| + 1
  {
    if i < widenFirst then
      if i in sel.placed then FirstHit(room, sel, hits[i], Widening(wid, i), at[i], at[i + 1])
      else LeftOut(room, sel, hits[i], at[i], at[i + 1])
    else if i in sel.placed then TakenIfRoom(room, sel, [hits[i]], at[i], at[i + 1]) && at[i + 1] == at[i] + 1
    else LeftOut(room, sel, hits[i], at[i], at[i + 1])
  }

  // A hit placed and widened at once.
  ghost predicate FirstHit(room: Fitting, sel: Selection, hit: Chunk, region: seq<Chunk>, at: nat, next: nat) {
    TakenIfRoom(room, sel, [hit], at, at + 1) && RegionAt(room, sel, region, at + 1, next)
  }

  // A hit for which there is no room.
  ghost predicate LeftOut(room: Fitting, sel: Selection, hit: Chunk, at: nat, next: nat) {
    next == at <= |sel.similar| && !room(sel.direct + sel.similar[..at], [hit])
  }

  // Then the regions of the other hits that were placed.
  ghost predicate GreedyRegions(
    room: Fitting, sel: Selection, hits: seq<Chunk>, wid: seq<seq<Chunk>>, first: nat, start: nat, at: seq<nat>)
  {
    && |at| == |hits| + 1 && at[|hits|] == |sel.similar|
    && (forall i :: 0 <= i <= first && i <= |hits| ==> at[i] == start)
    && forall i {:trigger GreedyRegion(room, sel, hits, wid, at, i)} :: first <= i < |hits| ==>
         GreedyRegion(room, sel, hits, wid, at, i)
  }

  ghost predicate GreedyRegion(room: Fitting, sel: Selection, hits: seq<Chunk>, wid: seq<seq<Chunk>>, at: seq<nat>, i: nat)
    requires i < |hits| && |at| == |hits| + 1
  {
    if i in sel.placed then RegionAt(room, sel, Widening(wid, i), at[i], at[i + 1]) else at[i + 1] == at[i]
  }

  // ---------------------------------------------------------------- one step

  // One step, for any notion of room.
  ghost function Offer(room: Fitting, sel: Selection, st: Step): Selection {
    if st.widens >= 0 && st.widens !in sel.placed then sel
    else if room(sel.direct + sel.similar, st.chunks) then Grown(sel, st)
    else sel.(truncated := sel.truncated || st.widens < 0)
  }

  ghost function OfferAll(room: Fitting, sel: Selection, steps: seq<Step>): Selection {
    if steps == [] then sel else Offer(room, OfferAll(room, sel, steps[..|steps| - 1]), steps[|steps| - 1])
  }

  lemma GrownTogether(sel: Selection, st: Step)
    requires st.direct ==> sel.similar == []
    ensures Grown(sel, st).direct + Grown(sel, st).similar == sel.direct + sel.similar + st.chunks
  {
    if st.direct {
      assert sel.direct + sel.similar == sel.direct && sel.direct + st.chunks + [] == sel.direct + st.chunks;
    } else {
      Bytes.Reassociate(sel.direct, sel.similar, st.chunks);
    }
  }

  lemma RejectedIs(l: Limits, sel: Selection, st: Step)
    requires st.direct ==> sel.similar == []
    ensures Rejected(l, sel, st) <==> !Room(l, sel.direct + sel.similar, st.chunks)
  {
    GrownTogether(sel, st);
    FitsIs(l, sel.direct + sel.similar, st.chunks, Grown(sel, st).direct, Grown(sel, st).similar);
  }

  lemma FitsIs(l: Limits, there: seq<Chunk>, more: seq<Chunk>, direct: seq<Chunk>, similar: seq<Chunk>)
    requires direct + similar == there + more
    ensures Room(l, there, more) <==> there == [] || Fits(l, direct, similar)
  {
  }

  lemma TakeIs(l: Limits, sel: Selection, st: Step, rejected: bool)
    requires rejected == Rejected(l, sel, st)
    ensures Take(l, sel, st) ==
            if st.widens >= 0 && st.widens !in sel.placed then sel
            else if rejected then sel.(truncated := sel.truncated || st.widens < 0) else Grown(sel, st)
  {
  }

  lemma OneOffer(l: Limits, sel: Selection, st: Step)
    requires st.direct ==> sel.similar == []
    ensures Take(l, sel, st) == Offer(Rooms(l), sel, st)
  {
    var room := Room(l, sel.direct + sel.similar, st.chunks);
    RejectedIs(l, sel, st);
    TakeIs(l, sel, st, !room);
    assert Rooms(l)(sel.direct + sel.similar, st.chunks) == room;
  }

  // The packer's steps are such offers: the direct ones, while nothing else is there,
  lemma {:induction false} DirectOffers(l: Limits, spans: seq<Chunk>)
    ensures TakeAll(l, NOTHING, DirectSteps(spans)) == OfferAll(Rooms(l), NOTHING, DirectSteps(spans))
    ensures TakeAll(l, NOTHING, DirectSteps(spans)).similar == []
  {
    if spans != [] {
      var init := spans[..|spans| - 1];
      DirectOffers(l, init);
      OneOffer(l, TakeAll(l, NOTHING, DirectSteps(init)), DirectStep(spans[|spans| - 1]));
      assert DirectSteps(spans)[..|DirectSteps(spans)| - 1] == DirectSteps(init);
    }
  }

  // and all others.
  lemma {:induction false} OtherOffers(l: Limits, sel: Selection, steps: seq<Step>)
    requires NoDirect(steps)
    ensures TakeAll(l, sel, steps) == OfferAll(Rooms(l), sel, steps)
  {
    if steps != [] {
      OtherOffers(l, sel, steps[..|steps| - 1]);
      OneOffer(l, TakeAll(l, sel, steps[..|steps| - 1]), steps[|steps| - 1]);
    }
  }

  lemma {:induction false} OfferAppend(room: Fitting, sel: Selection, a: seq<Step>, b: seq<Step>)
    ensures OfferAll(room, sel, a + b) == OfferAll(room, OfferAll(room, sel, a), b)
    decreases |b|
  {
    if b == [] {
      assert a + b == a;
    } else {
      OfferAppend(room, sel, a, b[..|b| - 1]);
      assert (a + b)[..|a + b| - 1] == a + b[..|b| - 1];
    }
  }

  lemma OfferSnoc(room: Fitting, sel: Selection, steps: seq<Step>, st: Step)
    ensures OfferAll(room, sel, steps + [st]) == Offer(room, OfferAll(room, sel, steps), st)
  {
    assert (steps + [st])[..|steps|] == steps;
  }

  // The rest of the packing adds to what is chosen, and to the hits placed only later ones.
  ghost predicate Later(sel: Selection, end: Selection, placedBelow: int) {
    && sel.direct == end.direct && sel.similar <= end.similar
    && (forall j :: j < placedBelow ==> (j in end.placed <==> j in sel.placed))
  }

  lemma LaterTwice(a: Selection, b: Selection, c: Selection, m: int, n: int)
    requires Later(a, b, m) && Later(b, c, n) && m <= n
    ensures Later(a, c, m)
  {
    forall j | j < m
      ensures j in c.placed <==> j in a.placed
    {
      assert j in b.placed <==> j in a.placed;
    }
  }

  lemma PlaceIs(room: Fitting, sel: Selection, hits: seq<Chunk>, i: nat)
    requires i < |hits|
    ensures var t := Offer(room, sel, PlaceStep(hits, i));
            if room(sel.direct + sel.similar, [hits[i]])
            then t == sel.(similar := sel.similar + [hits[i]], placed := sel.placed + {i}, accepted := sel.accepted + 1)
            else t == sel.(truncated := true)
  {
  }

  lemma DirectIs(room: Fitting, sel: Selection, c: Chunk)
    requires sel.similar == []
    ensures var t := Offer(room, sel, DirectStep(c));
            if room(sel.direct, [c])
            then t == sel.(direct := sel.direct + [c], accepted := sel.accepted + 1)
            else t == sel.(truncated := true)
  {
    assert sel.direct + sel.similar == sel.direct;
  }

  // Looking at the region of one hit, if there is one.
  ghost function Widened(room: Fitting, sel: Selection, wid: seq<seq<Chunk>>, i: nat): Selection {
    OfferAll(room, sel, WidenStep(wid, i))
  }

  lemma TakeOne(room: Fitting, sel: Selection, st: Step)
    ensures OfferAll(room, sel, [st]) == Offer(room, sel, st)
  {
    assert [st][..0] == [];
  }

  lemma WidenIs(room: Fitting, sel: Selection, wid: seq<seq<Chunk>>, i: nat)
    ensures var t, w := Widened(room, sel, wid, i), Widening(wid, i);
            if i in sel.placed && w != [] && room(sel.direct + sel.similar, w)
            then t == sel.(similar := sel.similar + w, accepted := sel.accepted + 1)
            else t == sel
  {
    var w := Widening(wid, i);
    if w != [] {
      var st := Step(w, false, -1, i);
      TakeOne(room, sel, st);
    }
  }

  // ---------------------------------------------------------------- the direct spans

  ghost function AfterDirect(room: Fitting, spans: seq<Chunk>, n: nat): Selection
    requires n <= |spans|
  {
    OfferAll(room, NOTHING, DirectSteps(spans[..n]))
  }

  lemma AfterDirectNext(room: Fitting, spans: seq<Chunk>, n: nat)
    requires n < |spans|
    ensures AfterDirect(room, spans, n + 1) == Offer(room, AfterDirect(room, spans, n), DirectStep(spans[n]))
  {
    DirectStepsNext(spans, n);
    OfferSnoc(room, NOTHING, DirectSteps(spans[..n]), DirectStep(spans[n]));
  }

  // So far `at` says how many were chosen before each.
  ghost predicate DirectSoFar(room: Fitting, spans: seq<Chunk>, n: nat, sel: Selection, at: seq<nat>) {
    && n <= |spans| && |at| == n + 1 && at[0] == 0 && at[n] == |sel.direct|
    && sel.similar == [] && sel.placed == {}
    && (forall i {:trigger DirectAt(room, sel.direct, spans[..n], at, i)} :: 0 <= i < n ==>
          DirectAt(room, sel.direct, spans[..n], at, i))
    && (sel.truncated <==> |sel.direct| < n) && |sel.direct| <= n
  }

  lemma DirectAtStays(
    room: Fitting, spans: seq<Chunk>, n: nat, chosen: seq<Chunk>, more: seq<Chunk>, at: seq<nat>, next: nat, i: nat)
    requires i < n < |spans| && |at| == n + 1
    requires DirectAt(room, chosen, spans[..n], at, i)
    ensures DirectAt(room, chosen + more, spans[..n + 1], at + [next], i)
  {
    assert (chosen + more)[..at[i]] == chosen[..at[i]];
    assert spans[..n][i] == spans[..n + 1][i];
  }

  lemma DirectGrows(room: Fitting, spans: seq<Chunk>, n: nat, sel: Selection, at: seq<nat>) returns (at': seq<nat>)
    requires n < |spans| && DirectSoFar(room, spans, n, sel, at)
    ensures DirectSoFar(room, spans, n + 1, Offer(room, sel, DirectStep(spans[n])), at')
  {
    DirectIs(room, sel, spans[n]);
    var t := Offer(room, sel, DirectStep(spans[n]));
    at' := at + [|t.direct|];
    var more := if room(sel.direct, [spans[n]]) then [spans[n]] else [];
    assert t.direct == sel.direct + more && sel.direct[..|sel.direct|] == sel.direct;
    forall i {:trigger DirectAt(room, t.direct, spans[..n + 1], at', i)} | 0 <= i < n + 1
      ensures DirectAt(room, t.direct, spans[..n + 1], at', i)
    {
      if i < n {
        assert DirectAt(room, sel.direct, spans[..n], at, i);
        DirectAtStays(room, spans, n, sel.direct, more, at, |t.direct|, i);
      } else {
        assert t.direct[..at[n]] == sel.direct;
      }
    }
  }

  lemma {:induction false} DirectLaw(room: Fitting, spans: seq<Chunk>, n: nat) returns (at: seq<nat>)
    requires n <= |spans|
    ensures DirectSoFar(room, spans, n, AfterDirect(room, spans, n), at)
  {
    if n == 0 {
      at := [0];
    } else {
      at := DirectLaw(room, spans, n - 1);
      AfterDirectNext(room, spans, n - 1);
      at := DirectGrows(room, spans, n - 1, AfterDirect(room, spans, n - 1), at);
    }
  }

  // ---------------------------------------------------------------- the hits

  // Looking at one hit, and at its region if it is one of the first.
  ghost function OneHit(
    room: Fitting, sel: Selection, hits: seq<Chunk>, wid: seq<seq<Chunk>>, widenFirst: int, i: nat): Selection
    requires i < |hits|
  {
    var placed := Offer(room, sel, PlaceStep(hits, i));
    if i < widenFirst then Widened(room, placed, wid, i) else placed
  }

  ghost function AfterHits(
    room: Fitting, sel: Selection, hits: seq<Chunk>, wid: seq<seq<Chunk>>, widenFirst: int, n: nat): Selection
    requires n <= |hits|
  {
    Iterated(HitLooked(room, hits, wid, widenFirst), sel, 0, n)
  }

  // Looking at one hit after another, or at one region after another.
  type Look = (Selection, nat) -> Selection

  ghost function Iterated(look: Look, sel: Selection, from: nat, n: nat): Selection
    decreases n
  {
    if n <= from then sel else look(Iterated(look, sel, from, n - 1), n - 1)
  }

  ghost function HitLooked(room: Fitting, hits: seq<Chunk>, wid: seq<seq<Chunk>>, widenFirst: int): Look {
    (t, i: nat) => if i < |hits| then OneHit(room, t, hits, wid, widenFirst, i) else t
  }

  // A look that adds only, and places at most the hit it is at.
  ghost predicate Looks(look: Look, n: nat) {
    forall t, i: nat {:trigger look(t, i)} :: i < n ==>
      && Later(t, look(t, i), i) && look(t, i).placed <= t.placed + {i}
      && (i !in t.placed ==> (look(t, i).truncated <==> t.truncated || i !in look(t, i).placed))
  }

  lemma HitLooks(room: Fitting, hits: seq<Chunk>, wid: seq<seq<Chunk>>, widenFirst: int)
    ensures Looks(HitLooked(room, hits, wid, widenFirst), |hits|)
  {
    forall t, i: nat | i < |hits|
      ensures var u := OneHit(room, t, hits, wid, widenFirst, i);
              && Later(t, u, i) && u.placed <= t.placed + {i}
              && (i !in t.placed ==> (u.truncated <==> t.truncated || i !in u.placed))
    {
      OneHitLater(room, t, hits, wid, widenFirst, i);
    }
  }

  lemma {:induction false} LooksLater(look: Look, sel: Selection, m: nat, n: nat)
    requires Looks(look, n) && m <= n
    ensures Later(Iterated(look, sel, 0, m), Iterated(look, sel, 0, n), m)
    decreases n - m
  {
    if m < n {
      LooksLater(look, sel, m, n - 1);
      var was := Iterated(look, sel, 0, n - 1);
      LaterTwice(Iterated(look, sel, 0, m), was, look(was, n - 1), m, n - 1);
    }
  }

  lemma {:induction false} LooksPlaced(look: Look, sel: Selection, n: nat)
    requires Looks(look, n) && sel.placed == {}
    ensures PlacedBelow(sel, Iterated(look, sel, 0, n), n)
  {
    if n > 0 {
      LooksPlaced(look, sel, n - 1);
      var was := Iterated(look, sel, 0, n - 1);
      PlacedNext(sel, was, look(was, n - 1), n - 1);
    }
  }

  ghost function FirstWidening(wid: seq<seq<Chunk>>, widenFirst: int, i: nat): seq<Step> {
    if i < widenFirst then WidenStep(wid, i) else []
  }

  // The look at hit or region `i` is the offer of its steps.
  ghost predicate OffersNext(room: Fitting, look: Look, sel: Selection, steps: nat -> seq<Step>, i: nat) {
    look(OfferAll(room, sel, steps(i)), i) == OfferAll(room, sel, steps(i + 1))
  }

  lemma {:induction false} LooksOffer(room: Fitting, look: Look, sel: Selection, steps: nat -> seq<Step>, first: nat, n: nat)
    requires forall i: nat :: i <= first ==> steps(i) == []
    requires forall i: nat {:trigger OffersNext(room, look, sel, steps, i)} :: first <= i < n ==>
               OffersNext(room, look, sel, steps, i)
    ensures Iterated(look, sel, first, n) == OfferAll(room, sel, steps(n))
    decreases n
  {
    if n > first {
      LooksOffer(room, look, sel, steps, first, n - 1);
      assert OffersNext(room, look, sel, steps, n - 1);
    }
  }

  ghost function StepsOfHits(hits: seq<Chunk>, wid: seq<seq<Chunk>>, widenFirst: int): nat -> seq<Step> {
    (k: nat) => if k <= |hits| then PlaceSteps(hits, wid, widenFirst, k) else []
  }

  lemma StepsOfHitsGo(hits: seq<Chunk>, wid: seq<seq<Chunk>>, widenFirst: int, i: nat)
    requires i < |hits|
    ensures var steps := StepsOfHits(hits, wid, widenFirst);
            steps(i + 1) == steps(i) + [PlaceStep(hits, i)] + FirstWidening(wid, widenFirst, i)
  {
  }

  lemma HitOffersNext(
    room: Fitting, sel: Selection, hits: seq<Chunk>, wid: seq<seq<Chunk>>, widenFirst: int, steps: nat -> seq<Step>, i: nat)
    requires i < |hits|
    requires steps(i + 1) == steps(i) + [PlaceStep(hits, i)] + FirstWidening(wid, widenFirst, i)
    ensures OffersNext(room, HitLooked(room, hits, wid, widenFirst), sel, steps, i)
  {
    OneHitIs(room, sel, steps(i), hits, wid, widenFirst, i);
  }

  lemma AfterHitsIs(room: Fitting, sel: Selection, hits: seq<Chunk>, wid: seq<seq<Chunk>>, widenFirst: int, n: nat)
    requires n <= |hits|
    ensures AfterHits(room, sel, hits, wid, widenFirst, n) == OfferAll(room, sel, PlaceSteps(hits, wid, widenFirst, n))
  {
    var look, steps := HitLooked(room, hits, wid, widenFirst), StepsOfHits(hits, wid, widenFirst);
    forall i: nat {:trigger OffersNext(room, look, sel, steps, i)} | i < n
      ensures OffersNext(room, look, sel, steps, i)
    {
      StepsOfHitsGo(hits, wid, widenFirst, i);
      HitOffersNext(room, sel, hits, wid, widenFirst, steps, i);
    }
    LooksOffer(room, look, sel, steps, 0, n);
  }

  lemma OneHitIs(
    room: Fitting, sel: Selection, before: seq<Step>, hits: seq<Chunk>, wid: seq<seq<Chunk>>, widenFirst: int, i: nat)
    requires i < |hits|
    ensures OneHit(room, OfferAll(room, sel, before), hits, wid, widenFirst, i) ==
            OfferAll(room, sel, before + [PlaceStep(hits, i)] + FirstWidening(wid, widenFirst, i))
  {
    var placing := before + [PlaceStep(hits, i)];
    OfferSnoc(room, sel, before, PlaceStep(hits, i));
    if i < widenFirst {
      OfferAppend(room, sel, placing, WidenStep(wid, i));
    } else {
      assert placing + [] == placing;
    }
  }

  lemma OneHitLater(room: Fitting, sel: Selection, hits: seq<Chunk>, wid: seq<seq<Chunk>>, widenFirst: int, i: nat)
    requires i < |hits|
    ensures var t := OneHit(room, sel, hits, wid, widenFirst, i);
            && Later(sel, t, i) && t.placed <= sel.placed + {i}
            && (i !in sel.placed ==> (t.truncated <==> sel.truncated || i !in t.placed))
  {
    PlaceIs(room, sel, hits, i);
    WidenIs(room, Offer(room, sel, PlaceStep(hits, i)), wid, i);
  }

  // A list that is chosen first and added to stays where it is.
  lemma StandsThere(sel: Selection, mid: Selection, end: Selection, more: seq<Chunk>)
    requires mid.similar == sel.similar + more && mid.similar <= end.similar
    ensures |sel.similar| + |more| <= |end.similar|
    ensures end.similar[..|sel.similar|] == sel.similar
    ensures end.similar[|sel.similar|..|sel.similar| + |more|] == more
  {
    assert end.similar[..|mid.similar|] == mid.similar;
    assert end.similar[..|sel.similar|] == mid.similar[..|sel.similar|];
    assert end.similar[|sel.similar|..|mid.similar|] == mid.similar[|sel.similar|..];
  }

  lemma RegionTaken(room: Fitting, sel: Selection, wid: seq<seq<Chunk>>, i: nat, end: Selection)
    requires i in sel.placed && Widened(room, sel, wid, i).similar <= end.similar && sel.direct == end.direct
    ensures RegionAt(room, end, Widening(wid, i), |sel.similar|, |Widened(room, sel, wid, i).similar|)
  {
    WidenIs(room, sel, wid, i);
    var w := Widening(wid, i);
    var mid := Widened(room, sel, wid, i);
    StandsThere(sel, mid, end, if mid == sel then [] else w);
    assert mid == sel ==> sel.similar + [] == sel.similar;
  }

  lemma HitTaken(room: Fitting, sel: Selection, hits: seq<Chunk>, i: nat, end: Selection)
    requires i < |hits| && i !in sel.placed
    requires Later(Offer(room, sel, PlaceStep(hits, i)), end, i + 1)
    ensures var t := Offer(room, sel, PlaceStep(hits, i));
            if i in end.placed then
              && i in t.placed && |t.similar| == |sel.similar| + 1
              && TakenIfRoom(room, end, [hits[i]], |sel.similar|, |t.similar|)
            else
              i !in t.placed && LeftOut(room, end, hits[i], |sel.similar|, |t.similar|)
  {
    PlaceIs(room, sel, hits, i);
    var t := Offer(room, sel, PlaceStep(hits, i));
    assert i in end.placed <==> i in t.placed;
    StandsThere(sel, t, end, if i in t.placed then [hits[i]] else []);
    assert sel.direct + end.similar[..|sel.similar|] == sel.direct + sel.similar;
  }

  lemma OneHitTaken(
    room: Fitting, sel: Selection, hits: seq<Chunk>, wid: seq<seq<Chunk>>, widenFirst: int, at: seq<nat>, i: nat, end: Selection)
    requires i < |hits| && i !in sel.placed && |at| == |hits| + 1
    requires at[i] == |sel.similar| && at[i + 1] == |OneHit(room, sel, hits, wid, widenFirst, i).similar|
    requires Later(OneHit(room, sel, hits, wid, widenFirst, i), end, i + 1)
    ensures GreedyHit(room, end, hits, wid, widenFirst, at, i)
  {
    var t := Offer(room, sel, PlaceStep(hits, i));
    if i < widenFirst {
      WidenIs(room, t, wid, i);
      var u := Widened(room, t, wid, i);
      assert t.similar <= u.similar && u.placed == t.placed && u.direct == t.direct;
      LaterTwice(t, u, end, i + 1, i + 1);
      HitTaken(room, sel, hits, i, end);
      if i in end.placed {
        RegionTaken(room, t, wid, i, end);
      }
    } else {
      HitTaken(room, sel, hits, i, end);
    }
  }

  lemma HitsLater(
    room: Fitting, sel: Selection, hits: seq<Chunk>, wid: seq<seq<Chunk>>, widenFirst: int, m: nat, n: nat)
    requires m <= n <= |hits|
    ensures Later(AfterHits(room, sel, hits, wid, widenFirst, m), AfterHits(room, sel, hits, wid, widenFirst, n), m)
  {
    HitLooks(room, hits, wid, widenFirst);
    LooksLater(HitLooked(room, hits, wid, widenFirst), sel, m, n);
  }

  ghost predicate Missed(placed: set<int>, n: nat) {
    exists i :: 0 <= i < n && i !in placed
  }

  // Only hits looked at are placed; it is truncated as soon as one is not.
  ghost predicate PlacedBelow(sel: Selection, t: Selection, n: nat) {
    && (forall j :: j in t.placed ==> 0 <= j < n)
    && (t.truncated <==> sel.truncated || Missed(t.placed, n))
  }

  lemma PlacedNext(sel: Selection, t: Selection, next: Selection, n: nat)
    requires PlacedBelow(sel, t, n) && Later(t, next, n) && next.placed <= t.placed + {n}
    requires next.truncated <==> t.truncated || n !in next.placed
    ensures PlacedBelow(sel, next, n + 1)
  {
  }

  lemma HitsPlaced(
    room: Fitting, sel: Selection, hits: seq<Chunk>, wid: seq<seq<Chunk>>, widenFirst: int, n: nat)
    requires n <= |hits| && sel.placed == {}
    ensures PlacedBelow(sel, AfterHits(room, sel, hits, wid, widenFirst, n), n)
  {
    HitLooks(room, hits, wid, widenFirst);
    LooksPlaced(HitLooked(room, hits, wid, widenFirst), sel, n);
  }

  // ---------------------------------------------------------------- the regions

  ghost function AfterRegions(room: Fitting, sel: Selection, wid: seq<seq<Chunk>>, first: nat, n: nat): Selection {
    Iterated(RegionLooked(room, wid), sel, first, n)
  }

  ghost function RegionLooked(room: Fitting, wid: seq<seq<Chunk>>): Look {
    (t, i: nat) => Widened(room, t, wid, i)
  }

  lemma OneRegionIs(room: Fitting, sel: Selection, before: seq<Step>, wid: seq<seq<Chunk>>, i: nat)
    ensures Widened(room, OfferAll(room, sel, before), wid, i) == OfferAll(room, sel, before + WidenStep(wid, i))
  {
    OfferAppend(room, sel, before, WidenStep(wid, i));
  }

  ghost function StepsOfRegions(wid: seq<seq<Chunk>>, first: nat): nat -> seq<Step> {
    (k: nat) => WidenSteps(wid, first, k)
  }

  lemma RegionOffersNext(room: Fitting, sel: Selection, wid: seq<seq<Chunk>>, steps: nat -> seq<Step>, i: nat)
    requires steps(i + 1) == steps(i) + WidenStep(wid, i)
    ensures OffersNext(room, RegionLooked(room, wid), sel, steps, i)
  {
    OneRegionIs(room, sel, steps(i), wid, i);
  }

  lemma AfterRegionsIs(room: Fitting, sel: Selection, wid: seq<seq<Chunk>>, first: nat, n: nat)
    ensures AfterRegions(room, sel, wid, first, n) == OfferAll(room, sel, WidenSteps(wid, first, n))
  {
    var look, steps := RegionLooked(room, wid), StepsOfRegions(wid, first);
    forall i: nat {:trigger OffersNext(room, look, sel, steps, i)} | first <= i < n
      ensures OffersNext(room, look, sel, steps, i)
    {
      RegionOffersNext(room, sel, wid, steps, i);
    }
    LooksOffer(room, look, sel, steps, first, n);
  }

  // The regions add similar ones, and change nothing else.
  ghost predicate OnlyAdds(sel: Selection, end: Selection) {
    && sel.direct == end.direct && sel.similar <= end.similar
    && sel.placed == end.placed && sel.truncated == end.truncated
  }

  lemma {:induction false} LooksAdd(look: Look, sel: Selection, first: nat, m: nat, n: nat)
    requires forall t, i: nat {:trigger look(t, i)} :: OnlyAdds(t, look(t, i))
    requires m <= n
    ensures OnlyAdds(Iterated(look, sel, first, m), Iterated(look, sel, first, n))
    decreases n - m
  {
    if m < n {
      LooksAdd(look, sel, first, m, n - 1);
    }
  }

  lemma RegionsAdd(room: Fitting, sel: Selection, wid: seq<seq<Chunk>>, first: nat, m: nat, n: nat)
    requires m <= n
    ensures OnlyAdds(AfterRegions(room, sel, wid, first, m), AfterRegions(room, sel, wid, first, n))
  {
    forall t, i: nat
      ensures OnlyAdds(t, Widened(room, t, wid, i))
    {
      WidenIs(room, t, wid, i);
    }
    LooksAdd(RegionLooked(room, wid), sel, first, m, n);
  }

  ghost function RegionMarks(room: Fitting, sel: Selection, wid: seq<seq<Chunk>>, first: nat, n: nat): (at: seq<nat>)
    ensures |at| == n + 1
    ensures forall i {:trigger at[i]} :: 0 <= i <= n ==> at[i] == |AfterRegions(room, sel, wid, first, i).similar|
  {
    seq(n + 1, i requires 0 <= i < n + 1 => |AfterRegions(room, sel, wid, first, i).similar|)
  }

  lemma RegionLaw(
    room: Fitting, sel: Selection, hits: seq<Chunk>, wid: seq<seq<Chunk>>, first: nat, at: seq<nat>, i: nat, end: Selection)
    requires first <= i < |hits| && |at| == |hits| + 1
    requires at[i] == |AfterRegions(room, sel, wid, first, i).similar|
    requires at[i + 1] == |AfterRegions(room, sel, wid, first, i + 1).similar|
    requires OnlyAdds(AfterRegions(room, sel, wid, first, i), end) && OnlyAdds(AfterRegions(room, sel, wid, first, i + 1), end)
    ensures GreedyRegion(room, end, hits, wid, at, i)
  {
    var before := AfterRegions(room, sel, wid, first, i);
    if i in end.placed {
      RegionTaken(room, before, wid, i, end);
    } else {
      WidenIs(room, before, wid, i);
    }
  }

  lemma RegionsLaw(room: Fitting, sel: Selection, hits: seq<Chunk>, wid: seq<seq<Chunk>>, first: nat)
    ensures GreedyRegions(room, AfterRegions(room, sel, wid, first, |hits|), hits, wid, first, |sel.similar|,
                          RegionMarks(room, sel, wid, first, |hits|))
  {
    var end := AfterRegions(room, sel, wid, first, |hits|);
    var at := RegionMarks(room, sel, wid, first, |hits|);
    forall i {:trigger GreedyRegion(room, end, hits, wid, at, i)} | first <= i < |hits|
      ensures GreedyRegion(room, end, hits, wid, at, i)
    {
      RegionsAdd(room, sel, wid, first, i, |hits|);
      RegionsAdd(room, sel, wid, first, i + 1, |hits|);
      RegionLaw(room, sel, hits, wid, first, at, i, end);
    }
  }

  // ---------------------------------------------------------------- all of it

  ghost function HitMarks(
    room: Fitting, sel: Selection, hits: seq<Chunk>, wid: seq<seq<Chunk>>, widenFirst: int): (at: seq<nat>)
    ensures |at| == |hits| + 1
    ensures forall i {:trigger at[i]} :: 0 <= i <= |hits| ==> at[i] == |AfterHits(room, sel, hits, wid, widenFirst, i).similar|
  {
    seq(|hits| + 1, i requires 0 <= i < |hits| + 1 => |AfterHits(room, sel, hits, wid, widenFirst, i).similar|)
  }

  lemma HitsLaw(room: Fitting, sel: Selection, hits: seq<Chunk>, wid: seq<seq<Chunk>>, widenFirst: int, end: Selection)
    requires sel.placed == {} && sel.similar == []
    requires Later(AfterHits(room, sel, hits, wid, widenFirst, |hits|), end, |hits|)
    ensures GreedyHits(room, end, hits, wid, widenFirst, HitMarks(room, sel, hits, wid, widenFirst))
  {
    var at := HitMarks(room, sel, hits, wid, widenFirst);
    forall i {:trigger GreedyHit(room, end, hits, wid, widenFirst, at, i)} | 0 <= i < |hits|
      ensures GreedyHit(room, end, hits, wid, widenFirst, at, i)
    {
      HitsPlaced(room, sel, hits, wid, widenFirst, i);
      HitsLater(room, sel, hits, wid, widenFirst, i + 1, |hits|);
      LaterTwice(AfterHits(room, sel, hits, wid, widenFirst, i + 1), AfterHits(room, sel, hits, wid, widenFirst, |hits|), end,
                 i + 1, |hits|);
      OneHitTaken(room, AfterHits(room, sel, hits, wid, widenFirst, i), hits, wid, widenFirst, at, i, end);
    }
  }

  // The phases of one packing, one after another.
  ghost function Phases(
    room: Fitting, spans: seq<Chunk>, hits: seq<Chunk>, wid: seq<seq<Chunk>>, widenFirst: int): Selection {
    var afterHits := AfterHits(room, AfterDirect(room, spans, |spans|), hits, wid, widenFirst, |hits|);
    AfterRegions(room, afterHits, wid, Max(widenFirst, 0), |hits|)
  }

  ghost predicate Greedy(
    room: Fitting, sel: Selection, spans: seq<Chunk>, hits: seq<Chunk>, wid: seq<seq<Chunk>>, widenFirst: int,
    directAt: seq<nat>, hitAt: seq<nat>, regionAt: seq<nat>)
  {
    && GreedyDirect(room, sel.direct, spans, directAt)
    && GreedyHits(room, sel, hits, wid, widenFirst, hitAt)
    && GreedyRegions(room, sel, hits, wid, Max(widenFirst, 0), hitAt[|hits|], regionAt)
    && (forall i :: i in sel.placed ==> 0 <= i < |hits|)
    && |sel.direct| <= |spans|
    && (sel.truncated <==> |sel.direct| < |spans| || Missed(sel.placed, |hits|))
  }

  lemma PhasesAreGreedy(room: Fitting, spans: seq<Chunk>, hits: seq<Chunk>, wid: seq<seq<Chunk>>, widenFirst: int)
    returns (directAt: seq<nat>, hitAt: seq<nat>, regionAt: seq<nat>)
    ensures Greedy(room, Phases(room, spans, hits, wid, widenFirst), spans, hits, wid, widenFirst, directAt, hitAt, regionAt)
  {
    var first: nat := Max(widenFirst, 0);
    var sel := Phases(room, spans, hits, wid, widenFirst);
    assert spans[..|spans|] == spans;
    directAt := DirectLaw(room, spans, |spans|);
    var afterDirect := AfterDirect(room, spans, |spans|);
    var afterHits := AfterHits(room, afterDirect, hits, wid, widenFirst, |hits|);
    RegionsAdd(room, afterHits, wid, first, 0, |hits|);
    HitsLater(room, afterDirect, hits, wid, widenFirst, 0, |hits|);
    HitsPlaced(room, afterDirect, hits, wid, widenFirst, |hits|);
    HitsLaw(room, afterDirect, hits, wid, widenFirst, sel);
    RegionsLaw(room, afterHits, hits, wid, first);
    hitAt := HitMarks(room, afterDirect, hits, wid, widenFirst);
    regionAt := RegionMarks(room, afterHits, wid, first, |hits|);
  }

  lemma {:induction false} PlaceStepsPlain(hits: seq<Chunk>, wid: seq<seq<Chunk>>, widenFirst: int, n: nat)
    requires n <= |hits|
    ensures NoDirect(PlaceSteps(hits, wid, widenFirst, n))
  {
    if n > 0 {
      PlaceStepsPlain(hits, wid, widenFirst, n - 1);
    }
  }

  lemma {:induction false} WidenStepsPlain(wid: seq<seq<Chunk>>, first: nat, end: nat)
    ensures NoDirect(WidenSteps(wid, first, end))
    decreases end
  {
    if first < end {
      WidenStepsPlain(wid, first, end - 1);
    }
  }

  lemma PackedIsPhases(l: Limits, direct: seq<Chunk>, hits: seq<Chunk>, wid: seq<seq<Chunk>>, widenFirst: int)
    ensures Packed(l, direct, hits, wid, widenFirst) == Phases(Rooms(l), DirectSpansFor(direct, l.k), hits, wid, widenFirst)
  {
    var spans, first: nat := DirectSpansFor(direct, l.k), Max(widenFirst, 0);
    var places, widens := PlaceSteps(hits, wid, widenFirst, |hits|), WidenSteps(wid, first, |hits|);
    assert spans[..|spans|] == spans;
    DirectOffers(l, spans);
    PlaceStepsPlain(hits, wid, widenFirst, |hits|);
    WidenStepsPlain(wid, first, |hits|);
    TakeAllAppend(l, NOTHING, DirectSteps(spans) + places, widens);
    TakeAllAppend(l, NOTHING, DirectSteps(spans), places);
    var afterDirect := TakeAll(l, NOTHING, DirectSteps(spans));
    OtherOffers(l, afterDirect, places);
    OtherOffers(l, TakeAll(l, afterDirect, places), widens);
    AfterHitsIs(Rooms(l), afterDirect, hits, wid, widenFirst, |hits|);
    AfterRegionsIs(Rooms(l), AfterHits(Rooms(l), afterDirect, hits, wid, widenFirst, |hits|), wid, first, |hits|);
  }

  // WHAT FITS IS DELIVERED. Every direct span, in order, is chosen exactly if there is room for
  // it beside those chosen before it; then every hit, by rank, exactly if there is room beside
  // all that was chosen before, the first ones each followed by its region if there is room for
  // that too; then the regions of the other hits placed. It is truncated exactly if a direct
  // span or a hit found no room.
  lemma GreedyLaw(l: Limits, direct: seq<Chunk>, hits: seq<Chunk>, wid: seq<seq<Chunk>>, widenFirst: int)
    returns (directAt: seq<nat>, hitAt: seq<nat>, regionAt: seq<nat>)
    ensures Greedy(Rooms(l), Packed(l, direct, hits, wid, widenFirst), DirectSpansFor(direct, l.k), hits, wid, widenFirst,
                   directAt, hitAt, regionAt)
  {
    PackedIsPhases(l, direct, hits, wid, widenFirst);
    directAt, hitAt, regionAt := PhasesAreGreedy(Rooms(l), DirectSpansFor(direct, l.k), hits, wid, widenFirst);
  }

  // ---------------------------------------------------------------- when everything fits

  // The first `n` hits, those before widenFirst each followed by its region.
  ghost function LaidHits(hits: seq<Chunk>, wid: seq<seq<Chunk>>, widenFirst: int, n: nat): seq<Chunk>
    requires n <= |hits|
  {
    if n == 0 then []
    else LaidHits(hits, wid, widenFirst, n - 1) + [hits[n - 1]] + if n - 1 < widenFirst then Widening(wid, n - 1) else []
  }

  ghost function LaidRegions(wid: seq<seq<Chunk>>, first: nat, n: nat): seq<Chunk>
    decreases n
  {
    if n <= first then [] else LaidRegions(wid, first, n - 1) + Widening(wid, n - 1)
  }

  ghost predicate SpanFits(room: Fitting, spans: seq<Chunk>, i: nat)
    requires i < |spans|
  {
    room(spans[..i], [spans[i]])
  }

  ghost predicate HitFits(
    room: Fitting, spans: seq<Chunk>, hits: seq<Chunk>, wid: seq<seq<Chunk>>, widenFirst: int, i: nat)
    requires i < |hits|
  {
    var there := LaidHits(hits, wid, widenFirst, i);
    room(spans + there, [hits[i]]) && (i < widenFirst ==> room(spans + (there + [hits[i]]), Widening(wid, i)))
  }

  ghost predicate RegionFits(
    room: Fitting, spans: seq<Chunk>, hits: seq<Chunk>, wid: seq<seq<Chunk>>, widenFirst: int, i: nat)
  {
    var there := LaidHits(hits, wid, widenFirst, |hits|) + LaidRegions(wid, Max(widenFirst, 0), i);
    room(spans + there, Widening(wid, i))
  }

  // All of it laid out in order, there is room for each piece beside those before it.
  ghost predicate EverythingFits(
    room: Fitting, spans: seq<Chunk>, hits: seq<Chunk>, wid: seq<seq<Chunk>>, widenFirst: int)
  {
    && (forall i {:trigger SpanFits(room, spans, i)} :: 0 <= i < |spans| ==> SpanFits(room, spans, i))
    && (forall i {:trigger HitFits(room, spans, hits, wid, widenFirst, i)} :: 0 <= i < |hits| ==>
          HitFits(room, spans, hits, wid, widenFirst, i))
    && (forall i {:trigger RegionFits(room, spans, hits, wid, widenFirst, i)} :: Max(widenFirst, 0) <= i < |hits| ==>
          RegionFits(room, spans, hits, wid, widenFirst, i))
  }

  lemma {:induction false} AllDirect(room: Fitting, spans: seq<Chunk>, n: nat)
    requires n <= |spans|
    requires forall i {:trigger SpanFits(room, spans, i)} :: 0 <= i < |spans| ==> SpanFits(room, spans, i)
    ensures var t := AfterDirect(room, spans, n);
            t.direct == spans[..n] && t.similar == [] && t.placed == {} && !t.truncated
  {
    if n > 0 {
      AllDirect(room, spans, n - 1);
      AfterDirectNext(room, spans, n - 1);
      assert SpanFits(room, spans, n - 1);
      assert spans[..n - 1] + [] == spans[..n - 1];
    }
  }

  ghost predicate AllPlaced(t: Selection, direct: seq<Chunk>, similar: seq<Chunk>, n: nat) {
    t.direct == direct && t.similar == similar && !t.truncated && forall i :: i in t.placed <==> 0 <= i < n
  }

  lemma AllOfOne(
    room: Fitting, sel: Selection, hits: seq<Chunk>, wid: seq<seq<Chunk>>, widenFirst: int, i: nat)
    requires i < |hits| && room(sel.direct + sel.similar, [hits[i]])
    requires i < widenFirst ==> room(sel.direct + (sel.similar + [hits[i]]), Widening(wid, i))
    ensures var t := OneHit(room, sel, hits, wid, widenFirst, i);
            && t.direct == sel.direct && t.truncated == sel.truncated && t.placed == sel.placed + {i}
            && t.similar == sel.similar + [hits[i]] + if i < widenFirst then Widening(wid, i) else []
  {
    PlaceIs(room, sel, hits, i);
    var placed := Offer(room, sel, PlaceStep(hits, i));
    WidenIs(room, placed, wid, i);
    assert placed.similar + [] == placed.similar;
  }

  lemma OnePlacedMore(
    room: Fitting, t: Selection, direct: seq<Chunk>, hits: seq<Chunk>, wid: seq<seq<Chunk>>, widenFirst: int, n: nat)
    requires 0 < n <= |hits| && AllPlaced(t, direct, LaidHits(hits, wid, widenFirst, n - 1), n - 1)
    requires HitFits(room, direct, hits, wid, widenFirst, n - 1)
    ensures AllPlaced(OneHit(room, t, hits, wid, widenFirst, n - 1), direct, LaidHits(hits, wid, widenFirst, n), n)
  {
    AllOfOne(room, t, hits, wid, widenFirst, n - 1);
  }

  lemma {:induction false} AllHits(
    room: Fitting, sel: Selection, hits: seq<Chunk>, wid: seq<seq<Chunk>>, widenFirst: int, n: nat)
    requires n <= |hits| && sel.similar == [] && sel.placed == {} && !sel.truncated
    requires EverythingFits(room, sel.direct, hits, wid, widenFirst)
    ensures AllPlaced(AfterHits(room, sel, hits, wid, widenFirst, n), sel.direct, LaidHits(hits, wid, widenFirst, n), n)
  {
    if n > 0 {
      AllHits(room, sel, hits, wid, widenFirst, n - 1);
      assert HitFits(room, sel.direct, hits, wid, widenFirst, n - 1);
      OnePlacedMore(room, AfterHits(room, sel, hits, wid, widenFirst, n - 1), sel.direct, hits, wid, widenFirst, n);
    }
  }

  lemma OneRegionMore(
    room: Fitting, t: Selection, hits: seq<Chunk>, laid: seq<Chunk>, wid: seq<seq<Chunk>>, i: nat)
    requires t.similar == hits + laid && i in t.placed
    requires Widening(wid, i) != [] ==> room(t.direct + t.similar, Widening(wid, i))
    ensures Widened(room, t, wid, i).similar == hits + (laid + Widening(wid, i))
  {
    WidenIs(room, t, wid, i);
    Bytes.Reassociate(hits, laid, Widening(wid, i));
    assert t.similar + [] == t.similar;
  }

  lemma {:induction false} AllRegions(
    room: Fitting, sel: Selection, hits: seq<Chunk>, wid: seq<seq<Chunk>>, widenFirst: int, n: nat)
    requires n <= |hits| && sel.similar == LaidHits(hits, wid, widenFirst, |hits|)
    requires forall i :: 0 <= i < |hits| ==> i in sel.placed
    requires EverythingFits(room, sel.direct, hits, wid, widenFirst)
    ensures AfterRegions(room, sel, wid, Max(widenFirst, 0), n).similar == sel.similar + LaidRegions(wid, Max(widenFirst, 0), n)
    decreases n
  {
    var first: nat := Max(widenFirst, 0);
    if n > first {
      AllRegions(room, sel, hits, wid, widenFirst, n - 1);
      RegionsAdd(room, sel, wid, first, 0, n - 1);
      assert RegionFits(room, sel.direct, hits, wid, widenFirst, n - 1);
      OneRegionMore(room, AfterRegions(room, sel, wid, first, n - 1), sel.similar, LaidRegions(wid, first, n - 1), wid, n - 1);
    } else {
      assert sel.similar + [] == sel.similar;
    }
  }

  // IF EVERYTHING FITS, everything is delivered, and nothing is called truncated.
  lemma EverythingIsTaken(l: Limits, direct: seq<Chunk>, hits: seq<Chunk>, wid: seq<seq<Chunk>>, widenFirst: int)
    requires EverythingFits(Rooms(l), DirectSpansFor(direct, l.k), hits, wid, widenFirst)
    ensures var sel := Packed(l, direct, hits, wid, widenFirst);
            && sel.direct == DirectSpansFor(direct, l.k) && !sel.truncated
            && sel.similar == LaidHits(hits, wid, widenFirst, |hits|) + LaidRegions(wid, Max(widenFirst, 0), |hits|)
            && (forall i :: 0 <= i < |hits| ==> i in sel.placed)
  {
    var room, spans, first: nat := Rooms(l), DirectSpansFor(direct, l.k), Max(widenFirst, 0);
    PackedIsPhases(l, direct, hits, wid, widenFirst);
    AllDirect(room, spans, |spans|);
    assert spans[..|spans|] == spans;
    var afterDirect := AfterDirect(room, spans, |spans|);
    AllHits(room, afterDirect, hits, wid, widenFirst, |hits|);
    var afterHits := AfterHits(room, afterDirect, hits, wid, widenFirst, |hits|);
    AllRegions(room, afterHits, hits, wid, widenFirst, |hits|);
    RegionsAdd(room, afterHits, wid, first, 0, |hits|);
  }
}
