/**
 Digesting a command's long output (daemon/execdigest.go): its end, the lines that report a
 failure with their neighbours, and its start, as far as a budget of bytes goes, in their
 order and with every gap counted.
 */
module CommandDigest {
  import Bytes
  import opened Numbers
  import opened Text

  const HEAD_LINES := 15
  const TAIL_LINES := 80
  const MAX_MARKED := 60

  // The lines of an output, how a long line is cut and which lines report a failure (both
  // left open), and the lines written at the top and for a gap.
  datatype Log = Log(
    lines: seq<string>, cut: string -> string, fails: string -> bool, header: nat -> string, gap: nat -> string)

  // The lines kept so far and the bytes left.
  datatype Room = Room(keep: seq<bool>, budget: int)

  function GapLine(n: nat): string {
    "[... " + Decimal(n) + " line(s) left out ...]\n"
  }

  function Header(n: nat): string {
    "[long output, " + Decimal(n) + " lines: showing its start, every line that reports a failure, and its end]\n"
  }

  function Cost(g: Log, i: nat): nat
    requires i < |g.lines|
  {
    |g.cut(g.lines[i])| + 1
  }

  // ---------------------------------------------------------------- choosing lines

  predicate Fits(g: Log, r: Room) {
    |r.keep| == |g.lines|
  }

  // `take` succeeds.
  predicate CanTake(g: Log, r: Room, i: nat)
    requires Fits(g, r) && i < |g.lines|
  {
    r.keep[i] || Cost(g, i) <= r.budget
  }

  function Take(g: Log, r: Room, i: nat): (s: Room)
    requires Fits(g, r) && i < |g.lines|
    ensures Fits(g, s)
  {
    if r.keep[i] || Cost(g, i) > r.budget then r else Room(r.keep[i := true], r.budget - Cost(g, i))
  }

  // The end: from line i up to line `stop`, until one does not fit.
  function TakeDown(g: Log, r: Room, i: int, stop: int): (s: Room)
    requires Fits(g, r) && i < |g.lines| && 0 <= stop
    ensures Fits(g, s)
    decreases i
  {
    if i < stop || !CanTake(g, r, i) then r else TakeDown(g, Take(g, r, i), i - 1, stop)
  }

  function TakeAround(g: Log, r: Room, i: nat): (s: Room)
    requires Fits(g, r) && i < |g.lines|
    ensures Fits(g, s)
  {
    var before := if i > 0 then Take(g, r, i - 1) else r;
    var at := Take(g, before, i);
    if i + 1 < |g.lines| then Take(g, at, i + 1) else at
  }

  // The failures, the first sixty of them.
  function TakeMarked(g: Log, r: Room, i: nat, marked: nat): (s: Room)
    requires Fits(g, r)
    ensures Fits(g, s)
    decreases |g.lines| - i
  {
    if i >= |g.lines| then r
    else if marked >= MAX_MARKED || !g.fails(g.lines[i]) then TakeMarked(g, r, i + 1, marked)
    else TakeMarked(g, TakeAround(g, r, i), i + 1, marked + 1)
  }

  // The start: from line i on, until one does not fit.
  function TakeUp(g: Log, r: Room, i: nat, stop: nat): (s: Room)
    requires Fits(g, r) && stop <= |g.lines|
    ensures Fits(g, s)
    decreases stop - i
  {
    if i >= stop || !CanTake(g, r, i) then r else TakeUp(g, Take(g, r, i), i + 1, stop)
  }

  function StartBudget(g: Log, limit: int): int {
    limit - 200 - (MAX_MARKED + 2) * |g.gap(|g.lines|)|
  }

  function Nothing(n: nat): seq<bool> {
    seq(n, i => false)
  }

  function TailKept(g: Log, limit: int): (s: Room)
    ensures Fits(g, s)
  {
    TakeDown(g, Room(Nothing(|g.lines|), StartBudget(g, limit)), |g.lines| - 1, Max(0, |g.lines| - TAIL_LINES))
  }

  function Chosen(g: Log, limit: int): (s: Room)
    ensures Fits(g, s)
  {
    TakeUp(g, TakeMarked(g, TailKept(g, limit), 0, 0), 0, Min(|g.lines|, HEAD_LINES))
  }

  // ---------------------------------------------------------------- writing them down

  datatype Piece = Line(at: nat) | Gap(lines: nat)

  // What is written for the first n lines, and the gap still open after them.
  function Pieces(keep: seq<bool>, n: nat): seq<Piece>
    requires n <= |keep|
  {
    if n == 0 then []
    else if !keep[n - 1] then Pieces(keep, n - 1)
    else Pieces(keep, n - 1) + (if OpenGap(keep, n - 1) > 0 then [Gap(OpenGap(keep, n - 1))] else []) + [Line(n - 1)]
  }

  function OpenGap(keep: seq<bool>, n: nat): nat
    requires n <= |keep|
  {
    if n == 0 || keep[n - 1] then 0 else OpenGap(keep, n - 1) + 1
  }

  function AllPieces(keep: seq<bool>): seq<Piece> {
    Pieces(keep, |keep|) + if OpenGap(keep, |keep|) > 0 then [Gap(OpenGap(keep, |keep|))] else []
  }

  function Written(g: Log, p: Piece): string {
    match p
    case Line(at) => if at < |g.lines| then g.cut(g.lines[at]) + "\n" else ""
    case Gap(n) => g.gap(n)
  }

  function WrittenAll(g: Log, ps: seq<Piece>): string {
    if ps == [] then "" else WrittenAll(g, ps[..|ps| - 1]) + Written(g, ps[|ps| - 1])
  }

  function TrimRight(s: string): string {
    if s != "" && s[|s| - 1] == '\n' then TrimRight(s[..|s| - 1]) else s
  }

  function LogOf(output: string, cut: string -> string, fails: string -> bool): Log {
    Log(Split(TrimRight(output), '\n'), cut, fails, Header, GapLine)
  }

  function Digest(g: Log, limit: int): string {
    g.header(|g.lines|) + WrittenAll(g, AllPieces(Chosen(g, limit).keep))
  }

  // ---------------------------------------------------------------- commandDigest

  method TakeLine(g: Log, keep: array<bool>, budget: int, i: nat) returns (ok: bool, left: int)
    requires keep.Length == |g.lines| && i < |g.lines|
    modifies keep
    ensures ok == CanTake(g, Room(old(keep[..]), budget), i)
    ensures Room(keep[..], left) == Take(g, Room(old(keep[..]), budget), i)
  {
    if keep[i] {
      return true, budget;
    }
    var cost := |g.cut(g.lines[i])| + 1;
    if cost > budget {
      return false, budget;
    }
    keep[i] := true;
    return true, budget - cost;
  }

  method KeepTail(g: Log, keep: array<bool>, budget: int) returns (left: int)
    requires keep.Length == |g.lines|
    modifies keep
    ensures Room(keep[..], left) == TakeDown(g, Room(old(keep[..]), budget), |g.lines| - 1, Max(0, |g.lines| - TAIL_LINES))
  {
    left := budget;
    var i := |g.lines| - 1;
    ghost var stop := Max(0, |g.lines| - TAIL_LINES);
    while i >= 0 && i >= |g.lines| - TAIL_LINES
      invariant -1 <= i < |g.lines|
      invariant TakeDown(g, Room(keep[..], left), i, stop) == TakeDown(g, Room(old(keep[..]), budget), |g.lines| - 1, stop)
    {
      var ok;
      ok, left := TakeLine(g, keep, left, i);
      if !ok {
        return;
      }
      i := i - 1;
    }
  }

  method KeepAround(g: Log, keep: array<bool>, budget: int, i: nat) returns (left: int)
    requires keep.Length == |g.lines| && i < |g.lines|
    modifies keep
    ensures Room(keep[..], left) == TakeAround(g, Room(old(keep[..]), budget), i)
  {
    left := budget;
    var ok;
    if i > 0 {
      ok, left := TakeLine(g, keep, left, i - 1);
    }
    ok, left := TakeLine(g, keep, left, i);
    if i + 1 < |g.lines| {
      ok, left := TakeLine(g, keep, left, i + 1);
    }
  }

  method KeepFailures(g: Log, keep: array<bool>, budget: int) returns (left: int)
    requires keep.Length == |g.lines|
    modifies keep
    ensures Room(keep[..], left) == TakeMarked(g, Room(old(keep[..]), budget), 0, 0)
  {
    left := budget;
    var marked: nat := 0;
    for i := 0 to |g.lines|
      invariant TakeMarked(g, Room(keep[..], left), i, marked) == TakeMarked(g, Room(old(keep[..]), budget), 0, 0)
    {
      if marked < MAX_MARKED && g.fails(g.lines[i]) {
        marked := marked + 1;
        left := KeepAround(g, keep, left, i);
      }
    }
  }

  method KeepHead(g: Log, keep: array<bool>, budget: int) returns (left: int)
    requires keep.Length == |g.lines|
    modifies keep
    ensures Room(keep[..], left) == TakeUp(g, Room(old(keep[..]), budget), 0, Min(|g.lines|, HEAD_LINES))
  {
    left := budget;
    var i: nat := 0;
    ghost var stop := Min(|g.lines|, HEAD_LINES);
    while i < |g.lines| && i < HEAD_LINES
      invariant i <= stop
      invariant TakeUp(g, Room(keep[..], left), i, stop) == TakeUp(g, Room(old(keep[..]), budget), 0, stop)
      decreases |g.lines| - i
    {
      var ok;
      ok, left := TakeLine(g, keep, left, i);
      if !ok {
        return;
      }
      i := i + 1;
    }
  }

  lemma WrittenSnoc(g: Log, ps: seq<Piece>, p: Piece)
    ensures WrittenAll(g, ps + [p]) == WrittenAll(g, ps) + Written(g, p)
  {
    assert (ps + [p])[..|ps|] == ps;
  }

  lemma PieceStep(g: Log, keep: seq<bool>, i: nat)
    requires i < |keep|
    ensures WrittenAll(g, Pieces(keep, i + 1)) ==
            if !keep[i] then WrittenAll(g, Pieces(keep, i))
            else WrittenAll(g, Pieces(keep, i)) + GapText(g, OpenGap(keep, i)) + Written(g, Line(i))
  {
    if keep[i] {
      var before := Pieces(keep, i);
      PieceGap(g, before, OpenGap(keep, i));
      WrittenSnoc(g, before + if OpenGap(keep, i) > 0 then [Gap(OpenGap(keep, i))] else [], Line(i));
    }
  }

  function GapText(g: Log, n: nat): string {
    if n > 0 then g.gap(n) else ""
  }

  lemma PieceGap(g: Log, before: seq<Piece>, n: nat)
    ensures WrittenAll(g, before + if n > 0 then [Gap(n)] else []) == WrittenAll(g, before) + GapText(g, n)
  {
    if n > 0 {
      WrittenSnoc(g, before, Gap(n));
    } else {
      assert before + [] == before;
      assert WrittenAll(g, before) + "" == WrittenAll(g, before);
    }
  }

  // The same, line by line.
  function Body(g: Log, keep: seq<bool>, n: nat): string
    requires n <= |keep| == |g.lines|
  {
    if n == 0 then ""
    else if !keep[n - 1] then Body(g, keep, n - 1)
    else Body(g, keep, n - 1) + GapText(g, OpenGap(keep, n - 1)) + Written(g, Line(n - 1))
  }

  lemma BodyStep(g: Log, keep: seq<bool>, i: nat, before: seq<Piece>)
    requires i < |keep| == |g.lines| && before == Pieces(keep, i) && Body(g, keep, i) == WrittenAll(g, before)
    ensures Body(g, keep, i + 1) == WrittenAll(g, Pieces(keep, i + 1))
  {
    PieceStep(g, keep, i);
  }

  lemma {:induction false} BodyIs(g: Log, keep: seq<bool>, n: nat)
    requires n <= |keep| == |g.lines|
    ensures Body(g, keep, n) == WrittenAll(g, Pieces(keep, n))
  {
    if n > 0 {
      BodyIs(g, keep, n - 1);
      BodyStep(g, keep, n - 1, Pieces(keep, n - 1));
    }
  }

  method Write(g: Log, keep: array<bool>) returns (text: string)
    requires keep.Length == |g.lines|
    ensures text == g.header(|g.lines|) + Body(g, keep[..], |g.lines|) + GapText(g, OpenGap(keep[..], |g.lines|))
  {
    ghost var kept := keep[..];
    var top := g.header(|g.lines|);
    text := top;
    assert top + "" == top;
    var gap: nat := 0;
    for i := 0 to |g.lines|
      invariant gap == OpenGap(kept, i)
      invariant text == top + Body(g, kept, i)
    {
      if !keep[i] {
        gap := gap + 1;
      } else {
        text := AddLine(g, text, gap, i, top, Body(g, kept, i));
        gap := 0;
      }
    }
    if gap > 0 {
      text := text + g.gap(gap);
    } else {
      assert text + "" == text;
    }
  }

  lemma WholeBody(g: Log, keep: seq<bool>)
    requires |keep| == |g.lines|
    ensures Body(g, keep, |keep|) + GapText(g, OpenGap(keep, |keep|)) == WrittenAll(g, AllPieces(keep))
  {
    BodyIs(g, keep, |keep|);
    PieceGap(g, Pieces(keep, |keep|), OpenGap(keep, |keep|));
  }

  method AddLine(g: Log, text: string, gap: nat, i: nat, ghost top: string, ghost was: string) returns (more: string)
    requires i < |g.lines| && text == top + was
    ensures more == top + (was + GapText(g, gap) + Written(g, Line(i)))
  {
    more := text;
    if gap > 0 {
      more := more + g.gap(gap);
    } else {
      assert more + "" == more;
    }
    more := more + (g.cut(g.lines[i]) + "\n");
    FourTogether(top, was, GapText(g, gap), Written(g, Line(i)));
  }

  lemma FourTogether(a: string, b: string, c: string, d: string)
    ensures a + b + c + d == a + (b + c + d)
  {
  }

  method DigestCommand(output: string, limit: int, cut: string -> string, fails: string -> bool) returns (text: string)
    ensures text == if limit <= 0 || |output| <= limit then output else Digest(LogOf(output, cut, fails), limit)
  {
    if limit <= 0 || |output| <= limit {
      return output;
    }
    text := DigestLog(LogOf(output, cut, fails), limit);
  }

  method Choose(g: Log, keep: array<bool>, limit: int)
    requires keep.Length == |g.lines| && keep[..] == Nothing(|g.lines|)
    modifies keep
    ensures keep[..] == Chosen(g, limit).keep
  {
    var budget := limit - 200 - (MAX_MARKED + 2) * |g.gap(|g.lines|)|;
    budget := KeepTail(g, keep, budget);
    budget := KeepFailures(g, keep, budget);
    budget := KeepHead(g, keep, budget);
  }

  method DigestLog(g: Log, limit: int) returns (text: string)
    ensures text == Digest(g, limit)
  {
    var keep := new bool[|g.lines|](i => false);
    assert keep[..] == Nothing(|g.lines|);
    Choose(g, keep, limit);
    text := Write(g, keep);
    WholeBody(g, keep[..]);
    Bytes.Reassociate(g.header(|g.lines|), Body(g, keep[..], |g.lines|), GapText(g, OpenGap(keep[..], |g.lines|)));
  }
}
