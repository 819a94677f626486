/**
 What the filter of daemon/citemarks.go comes to, said without streaming: a rewrite that
 looks ahead from every opening bracket for the bracket that closes it. Nothing is held,
 released or counted as it goes by.
 */
module CiteMarkRewrite {
  import opened Bytes
  import opened Utf8
  import opened CiteMarks

  // What follows an opening bracket.
  datatype Ending =
    | Closed(at: nat)  // its closing bracket
    | Broken(at: nat)  // a newline, another opening bracket, or one character too many
    | Cut              // the end of the text

  // From the opening bracket at the front of `cs`, looking at `j` and on.
  function Scan(cs: seq<Char>, j: nat): (e: Ending)
    requires 1 <= j <= |cs|
    ensures e.Closed? ==> j <= e.at < |cs| && cs[e.at].r == CLOSE_MARK
    ensures e.Broken? ==> j <= e.at < |cs|
    decreases |cs| - j
  {
    if j == |cs| then Cut
    else if cs[j].r == CLOSE_MARK then Closed(j)
    else if cs[j].r == NEWLINE || cs[j].r == OPEN_MARK || j - 1 >= MAX_CITE_MARK_RUNES then Broken(j)
    else Scan(cs, j + 1)
  }

  predicate HasDagger(cs: seq<Char>) {
    exists i :: 0 <= i < |cs| && cs[i].r == DAGGER
  }

  // What the mark at the front of `cs` comes to: its length and what it is replaced by.
  datatype Mark = NoMark | Mark(length: nat, keep: Str)

  function MarkAt(c: Core, cs: seq<Char>): (m: Mark)
    requires cs != []
    ensures m.Mark? ==> 1 <= m.length <= |cs|
  {
    if cs[0].r != OPEN_MARK || Verbatim(c) then NoMark
    else match Scan(cs, 1)
      case Closed(k) =>
        (match c.judge(Raw(cs[..k + 1]), HasDagger(cs[1..k]), c.cjk)
         case Leave => NoMark
         case Keep(keep) => Mark(k + 1, keep))
      case Broken(_) => NoMark
      case Cut => if HasDagger(cs[1..]) || OPEN_BYTES + [0x7B] <= Raw(cs) then Mark(|cs|, []) else NoMark
  }

  function Rewritten(c: Core, cs: seq<Char>): Core
    decreases |cs|
  {
    if cs == [] then FlushSpaces(c)
    else match MarkAt(c, cs)
      case NoMark => Rewritten(Plain(c, cs[0]), cs[1..])
      case Mark(length, keep) => Rewritten(Replace(c, keep), cs[length..])
  }

  // ---------------------------------------------------------------- the stream is the rewrite

  // The filter while it holds the first `j` characters of `cs`.
  ghost function Holding(c: Core, cs: seq<Char>, j: nat): Filter
    requires 1 <= j <= |cs|
  {
    Filter(c, true, Raw(cs[..j]), j - 1, HasDagger(cs[1..j]))
  }

  lemma RawSnoc(cs: seq<Char>, j: nat)
    requires j < |cs|
    ensures Raw(cs[..j + 1]) == Raw(cs[..j]) + cs[j].raw
  {
    assert cs[..j + 1] == cs[..j] + [cs[j]];
    RawAppend(cs[..j], [cs[j]]);
    assert Raw([cs[j]]) == cs[j].raw + [];
  }

  lemma DaggerSnoc(cs: seq<Char>, j: nat)
    requires 1 <= j < |cs|
    ensures HasDagger(cs[1..j + 1]) <==> HasDagger(cs[1..j]) || cs[j].r == DAGGER
  {
    assert cs[1..j + 1] == cs[1..j] + [cs[j]];
    if cs[j].r == DAGGER {
      assert cs[1..j + 1][j - 1] == cs[j];
    }
    if HasDagger(cs[1..j]) {
      var i :| 0 <= i < j - 1 && cs[1..j][i].r == DAGGER;
      assert cs[1..j + 1][i].r == DAGGER;
    }
    if HasDagger(cs[1..j + 1]) {
      var i :| 0 <= i < j && cs[1..j + 1][i].r == DAGGER;
      if i < j - 1 {
        assert cs[1..j][i].r == DAGGER;
      }
    }
  }

  lemma TakeAllFrom(f: Filter, cs: seq<Char>, j: nat)
    requires j < |cs|
    ensures TakeAll(f, cs[j..]) == TakeAll(Take(f, cs[j]), cs[j + 1..])
  {
    assert cs[j..][1..] == cs[j + 1..];
  }

  predicate Breaks(r: int, j: nat)
  {
    r == NEWLINE || r == OPEN_MARK || j > MAX_CITE_MARK_RUNES
  }

  lemma HoldsOne(c: Core, cs: seq<Char>, j: nat)
    requires 1 <= j < |cs|
    requires cs[j].r != CLOSE_MARK && !Breaks(cs[j].r, j)
    ensures TakeAll(Holding(c, cs, j), cs[j..]) == TakeAll(Holding(c, cs, j + 1), cs[j + 1..])
  {
    TakeAllFrom(Holding(c, cs, j), cs, j);
    RawSnoc(cs, j);
    DaggerSnoc(cs, j);
  }

  // How far the scan from `j` goes.
  function Stop(cs: seq<Char>, j: nat): (k: nat)
    requires 1 <= j <= |cs|
    ensures j <= k <= |cs|
  {
    match Scan(cs, j)
    case Closed(k) => k
    case Broken(k) => k
    case Cut => |cs|
  }

  // The filter holds everything up to there, and none of it opens, closes or breaks a mark.
  lemma {:induction false} HoldsOn(c: Core, cs: seq<Char>, j: nat)
    requires 1 <= j <= |cs|
    ensures TakeAll(Holding(c, cs, j), cs[j..]) == TakeAll(Holding(c, cs, Stop(cs, j)), cs[Stop(cs, j)..])
    ensures forall i :: j <= i < Stop(cs, j) ==> cs[i].r != CLOSE_MARK && !Breaks(cs[i].r, i)
    decreases |cs| - j
  {
    if j < |cs| && cs[j].r != CLOSE_MARK && !Breaks(cs[j].r, j) {
      HoldsOne(c, cs, j);
      HoldsOn(c, cs, j + 1);
    }
  }

  lemma TakeCloses(f: Filter, ch: Char)
    requires f.holding && ch.r == CLOSE_MARK
    ensures Take(f, ch) == ResolveMark(f.(held := f.held + ch.raw), f.held + ch.raw)
  {
  }

  // The filter with a whole mark in hand.
  ghost function Whole(c: Core, cs: seq<Char>, k: nat): Filter
    requires 1 <= k < |cs|
  {
    Filter(c, true, Raw(cs[..k + 1]), k - 1, HasDagger(cs[1..k]))
  }

  lemma HoldCloses(c: Core, cs: seq<Char>, k: nat, g: Filter)
    requires 1 <= k < |cs|
    requires cs[k].r == CLOSE_MARK
    requires g == ResolveMark(Whole(c, cs, k), Raw(cs[..k + 1]))
    ensures TakeAll(Holding(c, cs, k), cs[k..]) == TakeAll(g, cs[k + 1..])
  {
    TakeAllFrom(Holding(c, cs, k), cs, k);
    RawSnoc(cs, k);
    TakeCloses(Holding(c, cs, k), cs[k]);
  }

  lemma HoldBreaks(c: Core, cs: seq<Char>, j: nat)
    requires 1 <= j < |cs|
    requires cs[j].r != CLOSE_MARK && Breaks(cs[j].r, j)
    ensures TakeAll(Holding(c, cs, j), cs[j..]) == TakeAll(Release(Holding(c, cs, j)), cs[j..])
  {
    TakeAllFrom(Holding(c, cs, j), cs, j);
    TakeAllFrom(Release(Holding(c, cs, j)), cs, j);
  }

  // Text without an opening bracket is ordinary text for the rewrite.
  lemma {:induction false} PlainRun(c: Core, cs: seq<Char>, k: nat)
    requires k <= |cs|
    requires forall i :: 0 <= i < k ==> cs[i].r != OPEN_MARK
    ensures Rewritten(c, cs) == Rewritten(PlainAll(c, cs[..k]), cs[k..])
    decreases k
  {
    if k == 0 {
      assert cs[0..] == cs;
    } else {
      assert MarkAt(c, cs) == NoMark;
      PlainRun(Plain(c, cs[0]), cs[1..], k - 1);
      assert cs[..k][1..] == cs[1..][..k - 1];
      assert cs[1..][k - 1..] == cs[k..];
    }
  }

  // The same with an opening bracket in front that turned out to be nothing.
  lemma ReleasedRun(c: Core, cs: seq<Char>, k: nat)
    requires 1 <= k <= |cs|
    requires MarkAt(c, cs) == NoMark
    requires forall i :: 1 <= i < k ==> cs[i].r != OPEN_MARK
    ensures Rewritten(c, cs) == Rewritten(PlainAll(c, cs[..k]), cs[k..])
  {
    PlainRun(Plain(c, cs[0]), cs[1..], k - 1);
    assert cs[..k][1..] == cs[1..][..k - 1];
    assert cs[1..][k - 1..] == cs[k..];
  }

  lemma {:induction false} SuffixChars(p: Str, k: nat) returns (q: Str)
    requires k <= |Chars(p)|
    ensures Chars(q) == Chars(p)[k..]
  {
    if k == 0 {
      q := p;
    } else {
      q := SuffixChars(p[|Decode(p).raw|..], k - 1);
    }
  }

  ghost function Idle(c: Core, heldRunes: nat, dagger: bool): Filter {
    Filter(c, false, [], heldRunes, dagger)
  }

  // THE REFINEMENT: running the filter over a text is rewriting it.
  lemma {:induction false} StreamIsRewrite(c: Core, heldRunes: nat, dagger: bool, p: Str)
    ensures Finish(TakeAll(Idle(c, heldRunes, dagger), Chars(p))).core == Rewritten(c, Chars(p))
    decreases |Chars(p)|, 3
  {
    var cs := Chars(p);
    if cs != [] {
      var f := Idle(c, heldRunes, dagger);
      if cs[0].r == OPEN_MARK && !Verbatim(c) {
        HeldRun(c, heldRunes, dagger, p);
      } else {
        var q := SuffixChars(p, 1);
        StreamIsRewrite(Plain(c, cs[0]), heldRunes, dagger, q);
      }
    }
  }

  lemma HoldStarts(c: Core, heldRunes: nat, dagger: bool, cs: seq<Char>)
    requires cs != [] && cs[0].r == OPEN_MARK && !Verbatim(c)
    ensures TakeAll(Idle(c, heldRunes, dagger), cs) == TakeAll(Holding(c, cs, 1), cs[1..])
  {
    FirstHeld(c, heldRunes, dagger, cs);
  }

  lemma FirstHeld(c: Core, heldRunes: nat, dagger: bool, cs: seq<Char>)
    requires cs != [] && cs[0].r == OPEN_MARK && !Verbatim(c)
    ensures Take(Idle(c, heldRunes, dagger), cs[0]) == Holding(c, cs, 1)
  {
    assert cs[..1] == [cs[0]];
    assert Raw(cs[..1]) == cs[0].raw + [];
    assert !HasDagger(cs[1..1]);
  }

  lemma {:induction false} HeldRun(c: Core, heldRunes: nat, dagger: bool, p: Str)
    requires Chars(p) != [] && Chars(p)[0].r == OPEN_MARK && !Verbatim(c)
    ensures Finish(TakeAll(Idle(c, heldRunes, dagger), Chars(p))).core == Rewritten(c, Chars(p))
    decreases |Chars(p)|, 2
  {
    var cs := Chars(p);
    HoldStarts(c, heldRunes, dagger, cs);
    HoldsOn(c, cs, 1);
    match Scan(cs, 1) {
      case Closed(k) => HeldClosed(c, p, k);
      case Broken(k) => HeldBroken(c, p, k);
      case Cut => HeldCut(c, p);
    }
  }

  lemma {:induction false} HeldClosed(c: Core, p: Str, k: nat)
    requires Chars(p) != [] && Chars(p)[0].r == OPEN_MARK && !Verbatim(c)
    requires Scan(Chars(p), 1) == Closed(k)
    requires forall i :: 1 <= i < k ==> Chars(p)[i].r != OPEN_MARK
    ensures Finish(TakeAll(Holding(c, Chars(p), k), Chars(p)[k..])).core == Rewritten(c, Chars(p))
    decreases |Chars(p)|, 1
  {
    var cs := Chars(p);
    var w := Whole(c, cs, k);
    match c.judge(w.held, w.dagger, c.cjk) {
      case Leave =>
        ClosedLeft(c, p, k);
        ReleasedRun(c, cs, k + 1);
        Resumes(PlainAll(c, cs[..k + 1]), p, k + 1, w.heldRunes, w.dagger);
      case Keep(keep) =>
        ClosedKept(c, cs, k, keep);
        RewritesMark(c, cs, Mark(k + 1, keep));
        Resumes(Replace(c, keep), p, k + 1, w.heldRunes, w.dagger);
    }
  }

  lemma ClosedLeft(c: Core, p: Str, k: nat)
    requires 1 <= k < |Chars(p)| && Chars(p)[k].r == CLOSE_MARK
    requires var w := Whole(c, Chars(p), k); c.judge(w.held, w.dagger, c.cjk) == Leave
    ensures var w := Whole(c, Chars(p), k);
            TakeAll(Holding(c, Chars(p), k), Chars(p)[k..]) ==
            TakeAll(Idle(PlainAll(c, Chars(p)[..k + 1]), w.heldRunes, w.dagger), Chars(p)[k + 1..])
  {
    var w := Whole(c, Chars(p), k);
    MarkLeft(w, p, k);
    HoldCloses(c, Chars(p), k, Idle(PlainAll(c, Chars(p)[..k + 1]), w.heldRunes, w.dagger));
  }

  lemma ClosedKept(c: Core, cs: seq<Char>, k: nat, keep: Str)
    requires 1 <= k < |cs| && cs[k].r == CLOSE_MARK
    requires var w := Whole(c, cs, k); c.judge(w.held, w.dagger, c.cjk) == Keep(keep)
    ensures var w := Whole(c, cs, k);
            TakeAll(Holding(c, cs, k), cs[k..]) == TakeAll(Idle(Replace(c, keep), w.heldRunes, w.dagger), cs[k + 1..])
  {
    var w := Whole(c, cs, k);
    MarkKept(w, w.held, keep);
    HoldCloses(c, cs, k, Idle(Replace(c, keep), w.heldRunes, w.dagger));
  }

  // Past a mark, or past what was not one, the rest is a text of its own.
  lemma {:induction false} Resumes(c: Core, p: Str, n: nat, heldRunes: nat, dagger: bool)
    requires 1 <= n <= |Chars(p)|
    ensures Finish(TakeAll(Idle(c, heldRunes, dagger), Chars(p)[n..])).core == Rewritten(c, Chars(p)[n..])
    decreases |Chars(p)|, 0
  {
    var q := SuffixChars(p, n);
    StreamIsRewrite(c, heldRunes, dagger, q);
  }

  lemma MarkLeft(f: Filter, p: Str, k: nat)
    requires k < |Chars(p)|
    requires f.held == Raw(Chars(p)[..k + 1])
    requires f.core.judge(f.held, f.dagger, f.core.cjk) == Leave
    ensures ResolveMark(f, f.held) == Idle(PlainAll(f.core, Chars(p)[..k + 1]), f.heldRunes, f.dagger)
  {
    CharsOfPrefix(p, k + 1);
  }

  lemma MarkKept(f: Filter, text: Str, keep: Str)
    requires f.core.judge(text, f.dagger, f.core.cjk) == Keep(keep)
    ensures ResolveMark(f, text) == Idle(Replace(f.core, keep), f.heldRunes, f.dagger)
  {
  }

  lemma RewritesMark(c: Core, cs: seq<Char>, m: Mark)
    requires cs != [] && MarkAt(c, cs) == m && m.Mark?
    ensures Rewritten(c, cs) == Rewritten(Replace(c, m.keep), cs[m.length..])
  {
  }

  lemma {:induction false} HeldBroken(c: Core, p: Str, k: nat)
    requires Chars(p) != [] && Chars(p)[0].r == OPEN_MARK && !Verbatim(c)
    requires Scan(Chars(p), 1) == Broken(k)
    requires forall i :: 1 <= i < k ==> Chars(p)[i].r != OPEN_MARK
    ensures Finish(TakeAll(Holding(c, Chars(p), k), Chars(p)[k..])).core == Rewritten(c, Chars(p))
    decreases |Chars(p)|, 1
  {
    var cs := Chars(p);
    ScanBreaks(cs, 1);
    HoldBreaks(c, cs, k);
    CharsOfPrefix(p, k);
    ReleasedRun(c, cs, k);
    assert Release(Holding(c, cs, k)) == Idle(PlainAll(c, cs[..k]), k - 1, HasDagger(cs[1..k]));
    Resumes(PlainAll(c, cs[..k]), p, k, k - 1, HasDagger(cs[1..k]));
  }

  lemma {:induction false} ScanBreaks(cs: seq<Char>, j: nat)
    requires 1 <= j <= |cs|
    ensures var e := Scan(cs, j); e.Broken? ==> cs[e.at].r != CLOSE_MARK && Breaks(cs[e.at].r, e.at)
    decreases |cs| - j
  {
    if j < |cs| {
      ScanBreaks(cs, j + 1);
    }
  }

  lemma HeldCut(c: Core, p: Str)
    requires Chars(p) != [] && Chars(p)[0].r == OPEN_MARK && !Verbatim(c)
    requires Scan(Chars(p), 1) == Cut
    requires forall i :: 1 <= i < |Chars(p)| ==> Chars(p)[i].r != OPEN_MARK
    ensures Finish(TakeAll(Holding(c, Chars(p), |Chars(p)|), [])).core == Rewritten(c, Chars(p))
  {
    var cs := Chars(p);
    assert cs[..|cs|] == cs && cs[1..|cs|] == cs[1..];
    if MarkAt(c, cs) == NoMark {
      CharsOfPrefix(p, |cs|);
      ReleasedRun(c, cs, |cs|);
    }
  }

  lemma FilteredIsRewritten(isCJK: int -> bool, cjk: bool, text: Str)
    ensures Filtered(isCJK, cjk, text) == Rewritten(Start(isCJK, cjk).core, Chars(text))
  {
    StreamIsRewrite(Start(isCJK, cjk).core, 0, false, text);
  }
}
