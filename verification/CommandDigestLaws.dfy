/**
 What a digest shows and how long it is (daemon/execdigest.go).
 */
module CommandDigestLaws {
  import opened CommandDigest
  import opened Numbers

  // ---------------------------------------------------------------- order and gaps

  function LinesIn(p: Piece): nat {
    match p case Line(_) => 1 case Gap(n) => n
  }

  function LinesInAll(ps: seq<Piece>): nat {
    if ps == [] then 0 else LinesInAll(ps[..|ps| - 1]) + LinesIn(ps[|ps| - 1])
  }

  // Every line stands where the lines and gaps before it say.
  ghost predicate InPlace(ps: seq<Piece>) {
    ps == [] ||
    (InPlace(ps[..|ps| - 1]) && (ps[|ps| - 1].Line? ==> ps[|ps| - 1].at == LinesInAll(ps[..|ps| - 1])))
  }

  lemma PieceAdded(ps: seq<Piece>, p: Piece)
    ensures LinesInAll(ps + [p]) == LinesInAll(ps) + LinesIn(p)
    ensures InPlace(ps + [p]) <==> InPlace(ps) && (p.Line? ==> p.at == LinesInAll(ps))
  {
    assert (ps + [p])[..|ps|] == ps;
  }

  lemma {:induction false} PiecesInPlace(keep: seq<bool>, n: nat)
    requires n <= |keep|
    ensures InPlace(Pieces(keep, n)) && LinesInAll(Pieces(keep, n)) + OpenGap(keep, n) == n
  {
    if n > 0 {
      PiecesInPlace(keep, n - 1);
      if keep[n - 1] {
        NextInPlace(Pieces(keep, n - 1), OpenGap(keep, n - 1), n - 1);
      }
    }
  }

  lemma NextInPlace(before: seq<Piece>, gap: nat, at: nat)
    requires InPlace(before) && LinesInAll(before) + gap == at
    ensures var ps := before + (if gap > 0 then [Gap(gap)] else []) + [Line(at)];
            InPlace(ps) && LinesInAll(ps) == at + 1
  {
    if gap > 0 {
      PieceAdded(before, Gap(gap));
      PieceAdded(before + [Gap(gap)], Line(at));
    } else {
      assert before + [] == before;
      PieceAdded(before, Line(at));
    }
  }

  lemma {:induction false} PiecesAreKept(keep: seq<bool>, n: nat, i: nat)
    requires n <= |keep|
    ensures Line(i) in Pieces(keep, n) <==> i < n && keep[i]
  {
    if n > 0 {
      PiecesAreKept(keep, n - 1, i);
    }
  }

  // NOTHING GOES MISSING UNCOUNTED: the lines kept stand in their order, each where the lines
  // and gaps before it add up to its place, and all together they are the whole output.
  lemma EveryLineCounted(keep: seq<bool>)
    ensures InPlace(AllPieces(keep)) && LinesInAll(AllPieces(keep)) == |keep|
    ensures forall i: nat :: Line(i) in AllPieces(keep) <==> i < |keep| && keep[i]
  {
    PiecesInPlace(keep, |keep|);
    var ps, gap := Pieces(keep, |keep|), OpenGap(keep, |keep|);
    if gap > 0 {
      PieceAdded(ps, Gap(gap));
    } else {
      assert ps + [] == ps;
    }
    forall i: nat
      ensures Line(i) in AllPieces(keep) <==> i < |keep| && keep[i]
    {
      PiecesAreKept(keep, |keep|, i);
    }
  }

  // ---------------------------------------------------------------- runs

  // Whether a run of kept lines begins at i.
  predicate Begins(keep: seq<bool>, i: nat)
    requires i < |keep|
  {
    keep[i] && (i == 0 || !keep[i - 1])
  }

  function Runs(keep: seq<bool>, n: nat): nat
    requires n <= |keep|
  {
    if n == 0 then 0 else Runs(keep, n - 1) + if Begins(keep, n - 1) then 1 else 0
  }

  function AllRuns(keep: seq<bool>): nat { Runs(keep, |keep|) }

  lemma {:induction false} RunsSet(keep: seq<bool>, i: nat, n: nat)
    requires i < |keep| && !keep[i] && n <= |keep|
    ensures Runs(keep[i := true], n) ==
            Runs(keep, n) + (if i < n && (i == 0 || !keep[i - 1]) then 1 else 0) - (if i + 1 < n && keep[i + 1] then 1 else 0)
  {
    if n > 0 {
      RunsSet(keep, i, n - 1);
      assert Begins(keep[i := true], n - 1) ==
             if n - 1 == i then i == 0 || !keep[i - 1] else if n - 1 == i + 1 then false else Begins(keep, n - 1);
    }
  }

  // Keeping one more line makes at most one run more, and none beside a kept line.
  lemma RunsTake(g: Log, r: Room, i: nat)
    requires Fits(g, r) && i < |g.lines|
    ensures AllRuns(Take(g, r, i).keep) <= AllRuns(r.keep) + 1
    ensures (i > 0 && r.keep[i - 1]) || (i + 1 < |g.lines| && r.keep[i + 1]) ==> AllRuns(Take(g, r, i).keep) <= AllRuns(r.keep)
    ensures Take(g, r, i).keep[i] <==> CanTake(g, r, i)
  {
    if !r.keep[i] {
      RunsSet(r.keep, i, |r.keep|);
    }
  }

  lemma {:induction false} RunsDown(g: Log, r: Room, i: int, stop: int)
    requires Fits(g, r) && i < |g.lines| && 0 <= stop
    ensures AllRuns(TakeDown(g, r, i, stop).keep) <= AllRuns(r.keep) + 1
    ensures i + 1 < |g.lines| && i >= 0 && r.keep[i + 1] ==> AllRuns(TakeDown(g, r, i, stop).keep) <= AllRuns(r.keep)
    decreases i
  {
    if i >= stop && CanTake(g, r, i) {
      RunsTake(g, r, i);
      RunsDown(g, Take(g, r, i), i - 1, stop);
    }
  }

  lemma {:induction false} RunsUp(g: Log, r: Room, i: nat, stop: nat)
    requires Fits(g, r) && stop <= |g.lines|
    ensures AllRuns(TakeUp(g, r, i, stop).keep) <= AllRuns(r.keep) + 1
    ensures 0 < i < |g.lines| && r.keep[i - 1] ==> AllRuns(TakeUp(g, r, i, stop).keep) <= AllRuns(r.keep)
    decreases stop - i
  {
    if i < stop && CanTake(g, r, i) {
      RunsTake(g, r, i);
      RunsUp(g, Take(g, r, i), i + 1, stop);
    }
  }

  lemma RunsAround(g: Log, r: Room, i: nat)
    requires Fits(g, r) && i < |g.lines|
    ensures AllRuns(TakeAround(g, r, i).keep) <= AllRuns(r.keep) + 2
  {
    var before := if i > 0 then Take(g, r, i - 1) else r;
    var at := Take(g, before, i);
    if i > 0 {
      RunsTake(g, r, i - 1);
    }
    RunsTake(g, before, i);
    if i + 1 < |g.lines| {
      RunsTake(g, at, i + 1);
      AroundTwice(g, r, i);
    }
  }

  // Of the three, at most two begin a run.
  lemma AroundTwice(g: Log, r: Room, i: nat)
    requires Fits(g, r) && i + 1 < |g.lines|
    ensures var before := if i > 0 then Take(g, r, i - 1) else r;
            i > 0 && before.keep[i - 1] ==> AllRuns(Take(g, before, i).keep) <= AllRuns(before.keep)
    ensures i > 0 && !Take(g, r, i - 1).keep[i - 1] ==> AllRuns(Take(g, r, i - 1).keep) == AllRuns(r.keep)
  {
    if i > 0 {
      RunsTake(g, Take(g, r, i - 1), i);
    }
  }

  lemma {:induction false} RunsMarked(g: Log, r: Room, i: nat, marked: nat)
    requires Fits(g, r) && marked <= MAX_MARKED
    ensures AllRuns(TakeMarked(g, r, i, marked).keep) <= AllRuns(r.keep) + 2 * (MAX_MARKED - marked)
    decreases |g.lines| - i
  {
    if i < |g.lines| {
      if marked >= MAX_MARKED || !g.fails(g.lines[i]) {
        RunsMarked(g, r, i + 1, marked);
      } else {
        RunsAround(g, r, i);
        RunsMarked(g, TakeAround(g, r, i), i + 1, marked + 1);
      }
    }
  }

  lemma {:induction false} NoRuns(n: nat, m: nat)
    requires m <= n
    ensures Runs(Nothing(n), m) == 0
  {
    if m > 0 {
      NoRuns(n, m - 1);
    }
  }

  lemma RunsChosen(g: Log, limit: int)
    ensures AllRuns(Chosen(g, limit).keep) <= 2 * MAX_MARKED + 2
  {
    NoRuns(|g.lines|, |g.lines|);
    RunsDown(g, Room(Nothing(|g.lines|), StartBudget(g, limit)), |g.lines| - 1, Max(0, |g.lines| - TAIL_LINES));
    RunsMarked(g, TailKept(g, limit), 0, 0);
    RunsUp(g, TakeMarked(g, TailKept(g, limit), 0, 0), 0, Min(|g.lines|, HEAD_LINES));
  }

  // ---------------------------------------------------------------- bytes

  function KeptCost(g: Log, keep: seq<bool>, n: nat): nat
    requires n <= |keep| == |g.lines|
  {
    if n == 0 then 0 else KeptCost(g, keep, n - 1) + if keep[n - 1] then Cost(g, n - 1) else 0
  }

  lemma {:induction false} CostSet(g: Log, keep: seq<bool>, i: nat, n: nat)
    requires i < |keep| == |g.lines| && !keep[i] && n <= |keep|
    ensures KeptCost(g, keep[i := true], n) == KeptCost(g, keep, n) + if i < n then Cost(g, i) else 0
  {
    if n > 0 {
      CostSet(g, keep, i, n - 1);
    }
  }

  // What was there to spend, less what was kept, is left; and it is never overspent.
  ghost predicate Balanced(g: Log, r: Room, start: int) {
    Fits(g, r) && r.budget + KeptCost(g, r.keep, |r.keep|) == start && (start >= 0 ==> r.budget >= 0)
  }

  lemma BalancedTake(g: Log, r: Room, i: nat, start: int)
    requires Balanced(g, r, start) && i < |g.lines|
    ensures Balanced(g, Take(g, r, i), start)
  {
    if !r.keep[i] {
      CostSet(g, r.keep, i, |r.keep|);
    }
  }

  lemma {:induction false} BalancedDown(g: Log, r: Room, i: int, stop: int, start: int)
    requires Balanced(g, r, start) && i < |g.lines| && 0 <= stop
    ensures Balanced(g, TakeDown(g, r, i, stop), start)
    decreases i
  {
    if i >= stop && CanTake(g, r, i) {
      BalancedTake(g, r, i, start);
      BalancedDown(g, Take(g, r, i), i - 1, stop, start);
    }
  }

  lemma {:induction false} BalancedUp(g: Log, r: Room, i: nat, stop: nat, start: int)
    requires Balanced(g, r, start) && stop <= |g.lines|
    ensures Balanced(g, TakeUp(g, r, i, stop), start)
    decreases stop - i
  {
    if i < stop && CanTake(g, r, i) {
      BalancedTake(g, r, i, start);
      BalancedUp(g, Take(g, r, i), i + 1, stop, start);
    }
  }

  lemma BalancedAround(g: Log, r: Room, i: nat, start: int)
    requires Balanced(g, r, start) && i < |g.lines|
    ensures Balanced(g, TakeAround(g, r, i), start)
  {
    var before := if i > 0 then Take(g, r, i - 1) else r;
    if i > 0 {
      BalancedTake(g, r, i - 1, start);
    }
    BalancedTake(g, before, i, start);
    if i + 1 < |g.lines| {
      BalancedTake(g, Take(g, before, i), i + 1, start);
    }
  }

  lemma {:induction false} BalancedMarked(g: Log, r: Room, i: nat, marked: nat, start: int)
    requires Balanced(g, r, start)
    ensures Balanced(g, TakeMarked(g, r, i, marked), start)
    decreases |g.lines| - i
  {
    if i < |g.lines| {
      if marked >= MAX_MARKED || !g.fails(g.lines[i]) {
        BalancedMarked(g, r, i + 1, marked, start);
      } else {
        BalancedAround(g, r, i, start);
        BalancedMarked(g, TakeAround(g, r, i), i + 1, marked + 1, start);
      }
    }
  }

  lemma {:induction false} NoCost(g: Log, n: nat)
    requires n <= |g.lines|
    ensures KeptCost(g, Nothing(|g.lines|), n) == 0
  {
    if n > 0 {
      NoCost(g, n - 1);
    }
  }

  lemma ChosenBalanced(g: Log, limit: int)
    ensures Balanced(g, Chosen(g, limit), StartBudget(g, limit))
  {
    var start := StartBudget(g, limit);
    NoCost(g, |g.lines|);
    BalancedDown(g, Room(Nothing(|g.lines|), start), |g.lines| - 1, Max(0, |g.lines| - TAIL_LINES), start);
    BalancedMarked(g, TailKept(g, limit), 0, 0, start);
    BalancedUp(g, TakeMarked(g, TailKept(g, limit), 0, 0), 0, Min(|g.lines|, HEAD_LINES), start);
  }

  // No gap line is longer than `most`.
  ghost predicate GapsWithin(g: Log, n: nat, most: nat) {
    forall m: nat :: 0 < m <= n ==> |g.gap(m)| <= most
  }

  lemma {:induction false} OpenGapWithin(keep: seq<bool>, n: nat)
    requires n <= |keep|
    ensures OpenGap(keep, n) <= n
  {
    if n > 0 && !keep[n - 1] {
      OpenGapWithin(keep, n - 1);
    }
  }

  // How long what is written for the first n lines is.
  function LengthTo(g: Log, keep: seq<bool>, n: nat): nat
    requires n <= |keep| == |g.lines|
  {
    if n == 0 then 0
    else LengthTo(g, keep, n - 1) + if keep[n - 1] then |GapText(g, OpenGap(keep, n - 1))| + Cost(g, n - 1) else 0
  }

  lemma {:induction false} LengthIs(g: Log, keep: seq<bool>, n: nat)
    requires n <= |keep| == |g.lines|
    ensures |Body(g, keep, n)| == LengthTo(g, keep, n)
  {
    if n > 0 {
      LengthIs(g, keep, n - 1);
    }
  }

  lemma {:induction false} LengthWithin(g: Log, keep: seq<bool>, n: nat, most: nat)
    requires n <= |keep| == |g.lines| && GapsWithin(g, |keep|, most)
    ensures LengthTo(g, keep, n) <= KeptCost(g, keep, n) + Times(Runs(keep, n), most)
  {
    if n > 0 {
      LengthWithin(g, keep, n - 1, most);
      OpenGapWithin(keep, n - 1);
    }
  }

  // THE DIGEST KEEPS TO ITS LIMIT, up to 61 gap lines: there may be 123, and room is set aside
  // for 62 of the longest.
  lemma DigestWithin(g: Log, limit: int, most: nat)
    requires GapsWithin(g, |g.lines|, most) && most <= |g.gap(|g.lines|)|
    requires StartBudget(g, limit) >= 0 && |g.header(|g.lines|)| <= 200
    ensures |Digest(g, limit)| <= limit + 61 * most
  {
    var r := Chosen(g, limit);
    ChosenBalanced(g, limit);
    RunsChosen(g, limit);
    var n := |r.keep|;
    LengthIs(g, r.keep, n);
    LengthWithin(g, r.keep, n, most);
    WholeBody(g, r.keep);
    OpenGapWithin(r.keep, n);
    TimesWithin(AllRuns(r.keep), 122, most);
    TimesIs(122, most);
  }

  // ---- the lines it writes itself

  lemma {:induction false} DecimalGrows(m: nat, n: nat)
    requires m <= n
    ensures 0 < |Decimal(m)| <= |Decimal(n)|
    decreases n
  {
    if n >= 10 && m >= 10 {
      DecimalGrows(m / 10, n / 10);
    }
  }

  function Pow2(k: nat): nat { if k == 0 then 1 else 2 * Pow2(k - 1) }

  lemma {:induction false} DecimalShort(n: nat, k: nat)
    requires n < Pow2(k)
    ensures |Decimal(n)| <= k + 1
  {
    if n >= 10 {
      assert k > 0 && n / 10 < Pow2(k - 1);
      DecimalShort(n / 10, k - 1);
    }
  }

  lemma OwnLines(n: nat, m: nat)
    requires 0 < m <= n
    ensures |GapLine(m)| <= |GapLine(n)|
    ensures |Header(n)| <= |Decimal(n)| + 100
  {
    DecimalGrows(m, n);
  }

  // With the lines it really writes, and as many lines as a 64-bit count allows.
  lemma CommandDigestWithin(output: string, limit: int, cut: string -> string, fails: string -> bool)
    requires var g := LogOf(output, cut, fails);
             |g.lines| < Pow2(63) && StartBudget(g, limit) >= 0
    ensures var g := LogOf(output, cut, fails);
            |Digest(g, limit)| <= limit + 61 * |GapLine(|g.lines|)|
  {
    var g := LogOf(output, cut, fails);
    forall m: nat | 0 < m <= |g.lines|
      ensures |g.gap(m)| <= |GapLine(|g.lines|)|
    {
      OwnLines(|g.lines|, m);
    }
    OwnLines(|g.lines|, |g.lines|);
    DecimalShort(|g.lines|, 63);
    DigestWithin(g, limit, |GapLine(|g.lines|)|);
  }

  // ---------------------------------------------------------------- what is shown

  ghost predicate KeepsAll(a: Room, b: Room) {
    |a.keep| == |b.keep| && b.budget <= a.budget && forall i :: 0 <= i < |a.keep| && a.keep[i] ==> b.keep[i]
  }

  lemma {:induction false} DownKeeps(g: Log, r: Room, i: int, stop: int)
    requires Fits(g, r) && i < |g.lines| && 0 <= stop
    ensures KeepsAll(r, TakeDown(g, r, i, stop))
    decreases i
  {
    if i >= stop && CanTake(g, r, i) {
      DownKeeps(g, Take(g, r, i), i - 1, stop);
    }
  }

  lemma {:induction false} UpKeeps(g: Log, r: Room, i: nat, stop: nat)
    requires Fits(g, r) && stop <= |g.lines|
    ensures KeepsAll(r, TakeUp(g, r, i, stop))
    decreases stop - i
  {
    if i < stop && CanTake(g, r, i) {
      UpKeeps(g, Take(g, r, i), i + 1, stop);
    }
  }

  lemma AroundKeeps(g: Log, r: Room, i: nat)
    requires Fits(g, r) && i < |g.lines|
    ensures KeepsAll(r, TakeAround(g, r, i))
  {
  }

  lemma {:induction false} MarkedKeeps(g: Log, r: Room, i: nat, marked: nat)
    requires Fits(g, r)
    ensures KeepsAll(r, TakeMarked(g, r, i, marked))
    decreases |g.lines| - i
  {
    if i < |g.lines| {
      if marked >= MAX_MARKED || !g.fails(g.lines[i]) {
        MarkedKeeps(g, r, i + 1, marked);
      } else {
        AroundKeeps(g, r, i);
        MarkedKeeps(g, TakeAround(g, r, i), i + 1, marked + 1);
      }
    }
  }

  function CostBetween(g: Log, from: nat, until: nat): nat
    requires from <= until <= |g.lines|
  {
    if from == until then 0 else CostBetween(g, from, until - 1) + Cost(g, until - 1)
  }

  lemma {:induction false} DownTakes(g: Log, r: Room, i: int, stop: int, from: nat)
    requires Fits(g, r) && -1 <= i < |g.lines| && 0 <= stop <= from <= i + 1
    requires forall j :: 0 <= j <= i ==> !r.keep[j]
    requires CostBetween(g, from, i + 1) <= r.budget
    ensures forall j :: from <= j <= i ==> TakeDown(g, r, i, stop).keep[j]
    decreases i
  {
    if from <= i {
      var next := Take(g, r, i);
      DownTakes(g, next, i - 1, stop, from);
      DownKeeps(g, next, i - 1, stop);
    }
  }

  // THE END IS SHOWN FIRST: every stretch of at most eighty last lines that the whole budget
  // pays for is shown, whatever else there is.
  lemma EndIsShown(g: Log, limit: int, from: nat)
    requires |g.lines| - TAIL_LINES <= from <= |g.lines|
    requires CostBetween(g, from, |g.lines|) <= StartBudget(g, limit)
    ensures forall j :: from <= j < |g.lines| ==> Chosen(g, limit).keep[j]
  {
    var n := |g.lines|;
    DownTakes(g, Room(Nothing(n), StartBudget(g, limit)), n - 1, Max(0, n - TAIL_LINES), from);
    var tail := TailKept(g, limit);
    MarkedKeeps(g, tail, 0, 0);
    UpKeeps(g, TakeMarked(g, tail, 0, 0), 0, Min(n, HEAD_LINES));
  }

  // How many lines before i report a failure.
  function FailuresBefore(g: Log, i: nat): nat
    requires i <= |g.lines|
  {
    if i == 0 then 0 else FailuresBefore(g, i - 1) + if g.fails(g.lines[i - 1]) then 1 else 0
  }

  lemma AroundTakes(g: Log, r: Room, i: nat, j: nat)
    requires Fits(g, r) && i < |g.lines| && j < |g.lines| && i - 1 <= j <= i + 1
    ensures var s := TakeAround(g, r, i); s.keep[j] || Cost(g, j) > s.budget
  {
  }

  lemma {:induction false} MarkedTakes(g: Log, r: Room, i: nat, marked: nat, at: nat, j: nat)
    requires Fits(g, r) && i <= at < |g.lines| && j < |g.lines| && at - 1 <= j <= at + 1
    requires g.fails(g.lines[at])
    requires marked == FailuresBefore(g, i) && FailuresBefore(g, at) < MAX_MARKED
    ensures var s := TakeMarked(g, r, i, marked); s.keep[j] || Cost(g, j) > s.budget
    decreases |g.lines| - i
  {
    FailuresGrow(g, i, at);
    if i == at {
      AroundTakes(g, r, i, j);
      MarkedKeeps(g, TakeAround(g, r, i), i + 1, marked + 1);
    } else if g.fails(g.lines[i]) {
      MarkedTakes(g, TakeAround(g, r, i), i + 1, marked + 1, at, j);
    } else {
      MarkedTakes(g, r, i + 1, marked, at, j);
    }
  }

  lemma {:induction false} FailuresGrow(g: Log, i: nat, at: nat)
    requires i <= at <= |g.lines|
    ensures FailuresBefore(g, i) <= FailuresBefore(g, at)
    decreases at
  {
    if i < at {
      FailuresGrow(g, i, at - 1);
    }
  }

  // NO FAILURE IS LEFT OUT FOR NOTHING: of the first sixty lines that report one, each, and
  // each line beside it, is shown unless it would not fit in what is left over at the end.
  lemma FailuresAreShown(g: Log, limit: int, at: nat, j: nat)
    requires at < |g.lines| && g.fails(g.lines[at]) && FailuresBefore(g, at) < MAX_MARKED
    requires j < |g.lines| && at - 1 <= j <= at + 1
    ensures Chosen(g, limit).keep[j] || Cost(g, j) > Chosen(g, limit).budget
  {
    var tail := TailKept(g, limit);
    MarkedTakes(g, tail, 0, 0, at, j);
    UpKeeps(g, TakeMarked(g, tail, 0, 0), 0, Min(|g.lines|, HEAD_LINES));
  }

  // The line is left out, and what is left over does not pay for it.
  ghost predicate NoRoomFor(g: Log, r: Room, k: nat)
    requires Fits(g, r) && k < |g.lines|
  {
    !r.keep[k] && Cost(g, k) > r.budget
  }

  lemma {:induction false} UpTakes(g: Log, r: Room, i: nat, stop: nat, j: nat)
    requires Fits(g, r) && i <= j < stop <= |g.lines|
    ensures var s := TakeUp(g, r, i, stop);
            s.keep[j] || exists k: nat {:trigger NoRoomFor(g, s, k)} :: i <= k <= j && NoRoomFor(g, s, k)
    decreases stop - i
  {
    var s := TakeUp(g, r, i, stop);
    if CanTake(g, r, i) {
      var next := Take(g, r, i);
      UpKeeps(g, next, i + 1, stop);
      assert next.keep[i] && s == TakeUp(g, next, i + 1, stop);
      if i < j {
        UpTakes(g, next, i + 1, stop, j);
      }
    } else {
      assert s == r && NoRoomFor(g, s, i);
    }
  }

  // THE START IS SHOWN up to the first of its fifteen lines that what is left over does not pay
  // for.
  lemma StartIsShown(g: Log, limit: int, j: nat)
    requires j < |g.lines| && j < 15
    ensures var s := Chosen(g, limit);
            s.keep[j] || exists k: nat {:trigger NoRoomFor(g, s, k)} :: k <= j && NoRoomFor(g, s, k)
  {
    UpTakes(g, TakeMarked(g, TailKept(g, limit), 0, 0), 0, Min(|g.lines|, HEAD_LINES), j);
  }

  // A line with a reason to be shown: it is one of the last eighty or the first fifteen, or
  // next to one of the first sixty failures.
  ghost predicate HasReason(g: Log, j: nat)
    requires j < |g.lines|
  {
    || j >= |g.lines| - 80 || j < 15
    || exists at {:trigger g.lines[at]} ::
         0 <= at < |g.lines| && j - 1 <= at <= j + 1 && g.fails(g.lines[at]) && FailuresBefore(g, at) < 60
  }

  ghost predicate AllHaveReason(g: Log, r: Room)
    requires Fits(g, r)
  {
    forall j {:trigger r.keep[j]} :: 0 <= j < |g.lines| && r.keep[j] ==> HasReason(g, j)
  }

  lemma {:induction false} DownHasReason(g: Log, r: Room, i: int, stop: int)
    requires Fits(g, r) && i < |g.lines| && 0 <= stop && stop >= |g.lines| - 80 && AllHaveReason(g, r)
    ensures AllHaveReason(g, TakeDown(g, r, i, stop))
    decreases i
  {
    if i >= stop && CanTake(g, r, i) {
      DownHasReason(g, Take(g, r, i), i - 1, stop);
    }
  }

  lemma AroundHasReason(g: Log, r: Room, i: nat)
    requires Fits(g, r) && i < |g.lines| && g.fails(g.lines[i]) && FailuresBefore(g, i) < 60 && AllHaveReason(g, r)
    ensures AllHaveReason(g, TakeAround(g, r, i))
  {
    forall j | i - 1 <= j <= i + 1 && 0 <= j < |g.lines|
      ensures HasReason(g, j)
    {
      assert g.lines[i] == g.lines[i];
    }
  }

  lemma {:induction false} MarkedHasReason(g: Log, r: Room, i: nat, marked: nat)
    requires Fits(g, r) && AllHaveReason(g, r) && i <= |g.lines|
    requires marked <= FailuresBefore(g, i) && (marked < 60 ==> marked == FailuresBefore(g, i))
    ensures AllHaveReason(g, TakeMarked(g, r, i, marked))
    decreases |g.lines| - i
  {
    if i < |g.lines| {
      if marked >= MAX_MARKED || !g.fails(g.lines[i]) {
        MarkedHasReason(g, r, i + 1, marked);
      } else {
        AroundHasReason(g, r, i);
        MarkedHasReason(g, TakeAround(g, r, i), i + 1, marked + 1);
      }
    }
  }

  lemma {:induction false} UpHasReason(g: Log, r: Room, i: nat, stop: nat)
    requires Fits(g, r) && stop <= |g.lines| && stop <= 15 && AllHaveReason(g, r)
    ensures AllHaveReason(g, TakeUp(g, r, i, stop))
    decreases stop - i
  {
    if i < stop && CanTake(g, r, i) {
      UpHasReason(g, Take(g, r, i), i + 1, stop);
    }
  }

  // AND NOTHING ELSE IS SHOWN.
  lemma ShownHasReason(g: Log, limit: int)
    ensures AllHaveReason(g, Chosen(g, limit))
  {
    var n := |g.lines|;
    DownHasReason(g, Room(Nothing(n), StartBudget(g, limit)), n - 1, Max(0, n - TAIL_LINES));
    MarkedHasReason(g, TailKept(g, limit), 0, 0);
    UpHasReason(g, TakeMarked(g, TailKept(g, limit), 0, 0), 0, Min(n, HEAD_LINES));
  }
}
