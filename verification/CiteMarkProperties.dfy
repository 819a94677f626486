/**
 What the mark filter of daemon/citemarks.go promises about any text: what it may change,
 what it never touches, and how much it may hold back.
 */
module CiteMarkProperties {
  import opened Bytes
  import opened Utf8
  import opened CiteMarks
  import opened CiteMarkRewrite

  // ---------------------------------------------------------------- characters as read

  // A space or a tab is one byte.
  predicate AsRead(ch: Char) {
    IsBlank(ch.r) ==> ch.raw == [ch.r as Byte]
  }

  lemma DecodedAsRead(p: Str)
    requires p != []
    ensures AsRead(Decode(p))
  {
    AsciiIsOneByte(p);
  }

  lemma {:induction false} CharsAsRead(p: Str)
    ensures forall i :: 0 <= i < |Chars(p)| ==> AsRead(Chars(p)[i])
    decreases |p|
  {
    if p != [] {
      DecodedAsRead(p);
      CharsAsRead(p[|Decode(p).raw|..]);
    }
  }

  // ---------------------------------------------------------------- text without its blanks

  function NoBlanks(s: Str): Str {
    if s == [] then []
    else (if s[0] == SPACE || s[0] == TAB then [] else [s[0]]) + NoBlanks(s[1..])
  }

  lemma {:induction false} NoBlanksAppend(a: Str, b: Str)
    ensures NoBlanks(a + b) == NoBlanks(a) + NoBlanks(b)
  {
    if a == [] {
      assert a + b == b;
    } else {
      assert (a + b)[1..] == a[1..] + b;
      NoBlanksAppend(a[1..], b);
    }
  }

  // ---------------------------------------------------------------- ordinary text

  // Following the text moves only what says where the reader is.
  ghost predicate SameText(a: Core, b: Core) {
    a.out == b.out && a.spaces == b.spaces && a.removed == b.removed && a.marks == b.marks && a.cjk == b.cjk
  }

  lemma ReadLineStartKeeps(c: Core)
    ensures SameText(ReadLineStart(c).0, c)
  {
  }

  lemma TrackKeeps(c: Core, ch: Char)
    ensures SameText(Track(c, ch), c)
  {
    if ch.r != NEWLINE {
      var c1 := if IsBlank(ch.r) then c else c.(lineHasText := true);
      ReadLineStartKeeps(c1.(lineStart := c1.lineStart + ch.raw));
    }
  }

  // Ordinary text only ever loses blanks.
  lemma PlainWrites(c: Core, ch: Char)
    requires AsRead(ch) && NoBlanks(c.spaces) == []
    ensures NoBlanks(Plain(c, ch).out) == NoBlanks(c.out) + NoBlanks(ch.raw)
    ensures NoBlanks(Plain(c, ch).spaces) == []
    ensures Plain(c, ch).marks == c.marks
    ensures !c.removed ==> !Plain(c, ch).removed
  {
    if IsBlank(ch.r) {
      TrackKeeps(c.(spaces := c.spaces + ch.raw), ch);
      NoBlanksAppend(c.spaces, ch.raw);
      assert ch.raw[1..] == [];
    } else {
      var gap := if c.removed && EndsAClause(ch.r) then [] else c.spaces;
      TrackKeeps(c.(out := c.out + gap + ch.raw, spaces := [], removed := false,
                    cjk := c.cjk || (ch.r >= 0x1100 && c.isCJK(ch.r))), ch);
      BlankGap(c.out, gap, ch.raw);
    }
  }

  lemma BlankGap(out: Str, gap: Str, raw: Str)
    requires NoBlanks(gap) == []
    ensures NoBlanks(out + gap + raw) == NoBlanks(out) + NoBlanks(raw)
  {
    NoBlanksAppend(out + gap, raw);
    NoBlanksAppend(out, gap);
  }

  lemma {:induction false} PlainAllWrites(c: Core, cs: seq<Char>)
    requires forall i :: 0 <= i < |cs| ==> AsRead(cs[i])
    requires NoBlanks(c.spaces) == []
    ensures NoBlanks(PlainAll(c, cs).out) == NoBlanks(c.out) + NoBlanks(Raw(cs))
    ensures NoBlanks(PlainAll(c, cs).spaces) == []
    ensures PlainAll(c, cs).marks == c.marks
    decreases |cs|
  {
    if cs == [] {
      assert NoBlanks(c.out) + [] == NoBlanks(c.out);
    } else {
      PlainWrites(c, cs[0]);
      PlainAllWrites(Plain(c, cs[0]), cs[1..]);
      NoBlanksAppend(cs[0].raw, Raw(cs[1..]));
      Reassociate(NoBlanks(c.out), NoBlanks(cs[0].raw), NoBlanks(Raw(cs[1..])));
    }
  }

  // What a mark is replaced by.
  function Replacement(keep: Str): Str {
    if keep == [] then [] else [0x28] + keep + [0x29]
  }

  lemma InsertedSpaceWrites(c: Core)
    requires NoBlanks(c.spaces) == []
    ensures var c' := Plain(c, Char(SPACE, [SPACE]));
            NoBlanks(c'.out) == NoBlanks(c.out) && NoBlanks(c'.spaces) == [] && c'.marks == c.marks
  {
    PlainWrites(c, Char(SPACE, [SPACE]));
    assert NoBlanks([SPACE]) == [] by { assert [SPACE][1..] == []; }
    assert NoBlanks(c.out) + [] == NoBlanks(c.out);
  }

  lemma RewriteWrites(c: Core, text: Str)
    requires NoBlanks(c.spaces) == []
    ensures NoBlanks(Rewrite(c, text).out) == NoBlanks(c.out) + NoBlanks(text)
    ensures NoBlanks(Rewrite(c, text).spaces) == []
    ensures Rewrite(c, text).marks == c.marks
  {
    InsertedSpaceWrites(c);
    CharsAsRead(text);
    RawOfChars(text);
    PlainAllWrites(if c.lineHasText && c.spaces == [] then Plain(c, Char(SPACE, [SPACE])) else c, Chars(text));
  }

  lemma ReplaceWrites(c: Core, keep: Str)
    requires NoBlanks(c.spaces) == []
    ensures NoBlanks(Replace(c, keep).out) == NoBlanks(c.out) + NoBlanks(Replacement(keep))
    ensures NoBlanks(Replace(c, keep).spaces) == []
    ensures Replace(c, keep).marks == c.marks + 1
  {
    if keep == [] {
      assert NoBlanks(c.out) + [] == NoBlanks(c.out);
    } else {
      RewriteWrites(c.(marks := c.marks + 1), Replacement(keep));
    }
  }

  // ---------------------------------------------------------------- the text in pieces

  // A text is characters kept as they are and marks, each with what it is replaced by.
  datatype Piece = Copied(ch: Char) | Marked(source: seq<Char>, keep: Str)

  function Pieces(c: Core, cs: seq<Char>): seq<Piece>
    decreases |cs|
  {
    if cs == [] then []
    else match MarkAt(c, cs)
      case NoMark => [Copied(cs[0])] + Pieces(Plain(c, cs[0]), cs[1..])
      case Mark(length, keep) => [Marked(cs[..length], keep)] + Pieces(Replace(c, keep), cs[length..])
  }

  // The pieces as they were written ...
  function Sources(ps: seq<Piece>): seq<Char> {
    if ps == [] then []
    else (match ps[0] case Copied(ch) => [ch] case Marked(source, _) => source) + Sources(ps[1..])
  }

  // ... and as they are shown.
  function Targets(ps: seq<Piece>): Str {
    if ps == [] then []
    else (match ps[0] case Copied(ch) => ch.raw case Marked(_, keep) => Replacement(keep)) + Targets(ps[1..])
  }

  function MarksIn(ps: seq<Piece>): nat {
    if ps == [] then 0 else (if ps[0].Marked? then 1 else 0) + MarksIn(ps[1..])
  }

  lemma SourcesStep(p: Piece, ps: seq<Piece>)
    ensures Sources([p] + ps) == (match p case Copied(ch) => [ch] case Marked(source, _) => source) + Sources(ps)
  {
    assert ([p] + ps)[1..] == ps;
  }

  // The pieces are the whole text, each part of it once and in order.
  lemma {:induction false} PiecesAreTheText(c: Core, cs: seq<Char>)
    ensures Sources(Pieces(c, cs)) == cs
    decreases |cs|
  {
    if cs != [] {
      match MarkAt(c, cs)
      case NoMark =>
        PiecesAreTheText(Plain(c, cs[0]), cs[1..]);
        SourcesGoOn(Pieces(Plain(c, cs[0]), cs[1..]), cs, 1, Copied(cs[0]));
      case Mark(length, keep) =>
        PiecesAreTheText(Replace(c, keep), cs[length..]);
        SourcesGoOn(Pieces(Replace(c, keep), cs[length..]), cs, length, Marked(cs[..length], keep));
    }
  }

  lemma SourcesGoOn(rest: seq<Piece>, cs: seq<Char>, n: nat, p: Piece)
    requires 1 <= n <= |cs| && Sources(rest) == cs[n..]
    requires cs[..n] == match p case Copied(ch) => [ch] case Marked(source, _) => source
    ensures Sources([p] + rest) == cs
  {
    SourcesStep(p, rest);
    assert cs[..n] + cs[n..] == cs;
  }

  lemma FlushWrites(c: Core)
    requires NoBlanks(c.spaces) == []
    ensures NoBlanks(FlushSpaces(c).out) == NoBlanks(c.out)
  {
    NoBlanksAppend(c.out, c.spaces);
    assert NoBlanks(c.out) + [] == NoBlanks(c.out);
  }

  // Apart from blanks, what is shown is the text with every mark replaced by its kept text.
  lemma {:induction false} RewriteShows(c: Core, cs: seq<Char>)
    requires forall i :: 0 <= i < |cs| ==> AsRead(cs[i])
    requires NoBlanks(c.spaces) == []
    ensures NoBlanks(Rewritten(c, cs).out) == NoBlanks(c.out) + NoBlanks(Targets(Pieces(c, cs)))
    ensures Rewritten(c, cs).marks == c.marks + MarksIn(Pieces(c, cs))
    decreases |cs|
  {
    if cs == [] {
      FlushWrites(c);
      assert NoBlanks(c.out) + [] == NoBlanks(c.out);
    } else {
      match MarkAt(c, cs)
      case NoMark =>
        var c' := Plain(c, cs[0]);
        PlainWrites(c, cs[0]);
        RewriteShows(c', cs[1..]);
        Joins(c.out, Copied(cs[0]), Pieces(c', cs[1..]), c'.out);
      case Mark(length, keep) =>
        var c' := Replace(c, keep);
        ReplaceWrites(c, keep);
        RewriteShows(c', cs[length..]);
        Joins(c.out, Marked(cs[..length], keep), Pieces(c', cs[length..]), c'.out);
    }
  }

  lemma Joins(before: Str, p: Piece, ps: seq<Piece>, after: Str)
    requires NoBlanks(after) == NoBlanks(before) + NoBlanks(match p case Copied(ch) => ch.raw case Marked(_, keep) => Replacement(keep))
    ensures NoBlanks(before) + NoBlanks(Targets([p] + ps)) == NoBlanks(after) + NoBlanks(Targets(ps))
    ensures MarksIn([p] + ps) == (if p.Marked? then 1 else 0) + MarksIn(ps)
  {
    var target := match p case Copied(ch) => ch.raw case Marked(_, keep) => Replacement(keep);
    assert ([p] + ps)[1..] == ps;
    NoBlanksAppend(target, Targets(ps));
    Reassociate(NoBlanks(before), NoBlanks(target), NoBlanks(Targets(ps)));
  }

  // No mark: nothing changes, blanks included.
  lemma {:induction false} NoMarkNoChange(c: Core, cs: seq<Char>)
    requires forall i :: 0 <= i < |cs| ==> AsRead(cs[i])
    requires NoBlanks(c.spaces) == [] && !c.removed
    requires MarksIn(Pieces(c, cs)) == 0
    ensures Rewritten(c, cs).out == c.out + c.spaces + Raw(cs)
    decreases |cs|
  {
    if cs == [] {
      assert c.out + c.spaces + [] == c.out + c.spaces;
    } else {
      assert MarkAt(c, cs).NoMark?;
      var c' := Plain(c, cs[0]);
      PlainWrites(c, cs[0]);
      PlainKeepsAll(c, cs[0]);
      assert Pieces(c, cs)[1..] == Pieces(c', cs[1..]);
      NoMarkNoChange(c', cs[1..]);
      Reassociate(c.out + c.spaces, cs[0].raw, Raw(cs[1..]));
    }
  }

  // ---------------------------------------------------------------- the three promises

  // THE TEXT, GIVEN BACK. Every text is a sequence of characters and marks; what the filter
  // shows is, blanks aside, the same sequence with each mark replaced by its kept text, and
  // it counts exactly those marks.
  lemma ShownText(isCJK: int -> bool, cjk: bool, text: Str)
    ensures var ps := Pieces(Start(isCJK, cjk).core, Chars(text));
            && Raw(Sources(ps)) == text
            && NoBlanks(Filtered(isCJK, cjk, text).out) == NoBlanks(Targets(ps))
            && Filtered(isCJK, cjk, text).marks == MarksIn(ps)
  {
    var c := Start(isCJK, cjk).core;
    FilteredIsRewritten(isCJK, cjk, text);
    CharsAsRead(text);
    RawOfChars(text);
    PiecesAreTheText(c, Chars(text));
    RewriteShows(c, Chars(text));
    assert [] + NoBlanks(Targets(Pieces(c, Chars(text)))) == NoBlanks(Targets(Pieces(c, Chars(text))));
  }

  // NO MARK, NO CHANGE. A text the filter found no mark in comes out byte for byte.
  lemma UnmarkedTextUnchanged(isCJK: int -> bool, cjk: bool, text: Str)
    requires Filtered(isCJK, cjk, text).marks == 0
    ensures Filtered(isCJK, cjk, text).out == text
  {
    var c := Start(isCJK, cjk).core;
    ShownText(isCJK, cjk, text);
    FilteredIsRewritten(isCJK, cjk, text);
    CharsAsRead(text);
    RawOfChars(text);
    NoMarkNoChange(c, Chars(text));
    assert [] + [] + text == text;
  }

  // ---------------------------------------------------------------- code is never touched

  // Where text is kept byte for byte, nothing is held and no space is being dropped.
  ghost predicate Quiet(f: Filter) {
    Verbatim(f.core) ==> !f.holding && !f.core.removed
  }

  ghost predicate QuietText(c: Core) {
    Verbatim(c) ==> !c.removed
  }

  lemma {:induction false} TrimmedEnd(s: Str)
    requires s != []
    ensures TrimLeftSpaces(s) != [] ==> TrimLeftSpaces(s)[|TrimLeftSpaces(s)| - 1] == s[|s| - 1]
  {
    if s[0] == SPACE && s[1..] != [] {
      TrimmedEnd(s[1..]);
    }
  }

  // A blank completes no fence and no edit-block marker.
  lemma BlankEntersNothing(c: Core, ch: Char)
    requires AsRead(ch) && IsBlank(ch.r) && !Verbatim(c)
    ensures !Verbatim(Track(c, ch))
  {
    var line := c.lineStart + ch.raw;
    assert line[|line| - 1] == ch.r;
    TrimmedEnd(line);
    assert line != EDIT_SEARCH_LINE by {
      assert EDIT_SEARCH_LINE[|EDIT_SEARCH_LINE| - 1] == 'H' as int;
    }
  }

  lemma PlainStaysQuiet(c: Core, ch: Char)
    requires AsRead(ch) && QuietText(c)
    ensures QuietText(Plain(c, ch))
  {
    if IsBlank(ch.r) {
      var c1 := c.(spaces := c.spaces + ch.raw);
      TrackKeeps(c1, ch);
      if !Verbatim(c) {
        BlankEntersNothing(c1, ch);
      }
    } else {
      var gap := if c.removed && EndsAClause(ch.r) then [] else c.spaces;
      TrackKeeps(c.(out := c.out + gap + ch.raw, spaces := [], removed := false,
                    cjk := c.cjk || (ch.r >= 0x1100 && c.isCJK(ch.r))), ch);
    }
  }

  lemma {:induction false} PlainAllStaysQuiet(c: Core, cs: seq<Char>)
    requires forall i :: 0 <= i < |cs| ==> AsRead(cs[i])
    requires QuietText(c)
    ensures QuietText(PlainAll(c, cs))
    decreases |cs|
  {
    if cs != [] {
      PlainStaysQuiet(c, cs[0]);
      PlainAllStaysQuiet(Plain(c, cs[0]), cs[1..]);
    }
  }

  lemma ReleaseStaysQuiet(f: Filter)
    requires QuietText(f.core)
    ensures Quiet(Release(f)) && QuietText(Release(f).core) && !Release(f).holding
  {
    CharsAsRead(f.held);
    PlainAllStaysQuiet(f.core, Chars(f.held));
  }

  lemma ReplaceStaysQuiet(c: Core, keep: Str)
    requires !Verbatim(c)
    ensures QuietText(Replace(c, keep))
  {
    if keep != [] {
      var counted := c.(marks := c.marks + 1);
      var space := Char(SPACE, [SPACE]);
      PlainStaysQuiet(counted, space);
      CharsAsRead(Replacement(keep));
      PlainAllStaysQuiet(if counted.lineHasText && counted.spaces == [] then Plain(counted, space) else counted,
                         Chars(Replacement(keep)));
    }
  }

  // Held text has not been followed yet: while the filter holds, it is not in code.
  ghost predicate Steady(f: Filter) {
    QuietText(f.core) && (f.holding ==> !Verbatim(f.core))
  }

  lemma ResolveStaysSteady(f: Filter, text: Str)
    requires Steady(f) && f.holding
    ensures Steady(ResolveMark(f, text))
  {
    ReleaseStaysQuiet(f);
    match f.core.judge(text, f.dagger, f.core.cjk)
    case Leave =>
    case Keep(keep) => ReplaceStaysQuiet(f.core, keep);
  }

  lemma FreshStaysSteady(f: Filter, ch: Char)
    requires AsRead(ch) && Steady(f) && !f.holding
    ensures Steady(TakeFresh(f, ch))
  {
    PlainStaysQuiet(f.core, ch);
  }

  lemma TakeStaysSteady(f: Filter, ch: Char)
    requires AsRead(ch) && Steady(f)
    ensures Steady(Take(f, ch))
  {
    if !f.holding {
      FreshStaysSteady(f, ch);
    } else if ch.r == CLOSE_MARK {
      ResolveStaysSteady(f.(held := f.held + ch.raw), f.held + ch.raw);
    } else if ch.r == NEWLINE || ch.r == OPEN_MARK || f.heldRunes >= MAX_CITE_MARK_RUNES {
      ReleaseStaysQuiet(f);
      FreshStaysSteady(Release(f), ch);
    }
  }

  lemma {:induction false} TakeAllStaysSteady(f: Filter, cs: seq<Char>)
    requires forall i :: 0 <= i < |cs| ==> AsRead(cs[i])
    requires Steady(f)
    ensures Steady(TakeAll(f, cs))
    decreases |cs|
  {
    if cs != [] {
      TakeStaysSteady(f, cs[0]);
      TakeAllStaysSteady(Take(f, cs[0]), cs[1..]);
    }
  }

  // CODE IS NEVER TOUCHED. However a text got the filter into a fence, an edit block or a
  // code span, it is not holding anything there, no mark has just gone, and the next
  // character goes out, with the spaces before it, exactly as it is.
  lemma CodeIsUntouched(isCJK: int -> bool, cjk: bool, text: Str, ch: Char)
    requires AsRead(ch)
    requires Verbatim(TakeAll(Start(isCJK, cjk), Chars(text)).core)
    ensures var f := TakeAll(Start(isCJK, cjk), Chars(text));
            && !f.holding && !f.core.removed
            && Take(f, ch).core.out + Take(f, ch).core.spaces == f.core.out + f.core.spaces + ch.raw
            && Take(f, ch).core.marks == f.core.marks
  {
    CharsAsRead(text);
    TakeAllStaysSteady(Start(isCJK, cjk), Chars(text));
    var f := TakeAll(Start(isCJK, cjk), Chars(text));
    PlainKeepsAll(f.core, ch);
  }

  lemma PlainKeepsAll(c: Core, ch: Char)
    requires AsRead(ch) && !c.removed
    ensures Plain(c, ch).out + Plain(c, ch).spaces == c.out + c.spaces + ch.raw
    ensures Plain(c, ch).marks == c.marks
  {
    if IsBlank(ch.r) {
      TrackKeeps(c.(spaces := c.spaces + ch.raw), ch);
      Reassociate(c.out, c.spaces, ch.raw);
    } else {
      TrackKeeps(c.(out := c.out + c.spaces + ch.raw, spaces := [], removed := false,
                    cjk := c.cjk || (ch.r >= 0x1100 && c.isCJK(ch.r))), ch);
      assert c.out + c.spaces + ch.raw + [] == c.out + c.spaces + ch.raw;
    }
  }

  // ---------------------------------------------------------------- how much is held

  // What is held is the end of the text read, from an opening bracket, with no more than
  // the bound after it.
  ghost predicate HoldsTail(f: Filter, cs: seq<Char>) {
    f.holding ==>
      && f.heldRunes <= MAX_CITE_MARK_RUNES
      && f.heldRunes + 1 <= |cs|
      && f.held == Raw(cs[|cs| - f.heldRunes - 1..])
      && cs[|cs| - f.heldRunes - 1].r == OPEN_MARK
  }

  // What is held after one character: that character, or one more than before.
  ghost predicate HeldNext(f: Filter, g: Filter, ch: Char) {
    || (g.heldRunes == 0 && g.held == ch.raw && ch.r == OPEN_MARK)
    || (f.holding && g.held == f.held + ch.raw && g.heldRunes == f.heldRunes + 1 <= MAX_CITE_MARK_RUNES)
  }

  lemma TakeHolds(f: Filter, ch: Char)
    ensures Take(f, ch).holding ==> HeldNext(f, Take(f, ch), ch)
  {
  }

  lemma HoldsTailOn(f: Filter, g: Filter, cs: seq<Char>, ch: Char)
    requires HoldsTail(f, cs) && (g.holding ==> HeldNext(f, g, ch))
    ensures HoldsTail(g, cs + [ch])
  {
    var cs' := cs + [ch];
    if g.holding {
      if g.heldRunes == 0 {
        assert cs'[|cs'| - 1..] == [ch];
        assert Raw([ch]) == ch.raw + [] == ch.raw;
      } else {
        TailGrows(cs, f.heldRunes + 1, ch);
      }
    }
  }

  lemma TailGrows(cs: seq<Char>, n: nat, ch: Char)
    requires n <= |cs|
    ensures Raw((cs + [ch])[|cs| - n..]) == Raw(cs[|cs| - n..]) + ch.raw
  {
    var tail := cs[|cs| - n..];
    assert (cs + [ch])[|cs| - n..] == tail + [ch];
    RawAppend(tail, [ch]);
    assert Raw([ch]) == ch.raw + [] == ch.raw;
  }

  // NO MORE THAN 300 CHARACTERS ARE EVER HELD BACK after the opening bracket.
  lemma {:induction false} HeldIsBounded(isCJK: int -> bool, cjk: bool, cs: seq<Char>)
    ensures HoldsTail(TakeAll(Start(isCJK, cjk), cs), cs)
    decreases |cs|
  {
    if cs != [] {
      var init, last := cs[..|cs| - 1], cs[|cs| - 1];
      HeldIsBounded(isCJK, cjk, init);
      assert cs == init + [last];
      TakeAllAppend(Start(isCJK, cjk), init, [last]);
      var f := TakeAll(Start(isCJK, cjk), init);
      TakeHolds(f, last);
      HoldsTailOn(f, Take(f, last), init, last);
    }
  }

  // ---------------------------------------------------------------- what a mark keeps

  // `p` is a part of `t`.
  ghost predicate Part(p: Str, t: Str) {
    exists i :: PartAt(p, t, i)
  }

  ghost predicate PartAt(p: Str, t: Str, i: int) {
    0 <= i <= i + |p| <= |t| && t[i..i + |p|] == p
  }

  lemma PartTransitive(p: Str, q: Str, t: Str)
    requires Part(p, q) && Part(q, t)
    ensures Part(p, t)
  {
    var i :| PartAt(p, q, i);
    var j :| PartAt(q, t, j);
    SliceOfSlice(t, j, j + |q|, i, i + |p|);
    assert PartAt(p, t, j + i);
  }

  lemma SliceIsPart(t: Str, i: nat, j: nat)
    requires i <= j <= |t|
    ensures Part(t[i..j], t)
  {
    assert PartAt(t[i..j], t, i);
  }

  lemma MiddleIsPart(a: Str, p: Str, b: Str)
    ensures Part(p, a + p + b)
  {
    assert PartAt(p, a + p + b, |a|);
  }

  lemma RawSliceIsPart(cs: seq<Char>, i: nat, j: nat)
    requires i <= j <= |cs|
    ensures Part(Raw(cs[i..j]), Raw(cs))
  {
    RawSplit(cs, j);
    RawSplit(cs[..j], i);
    assert cs[..j][..i] == cs[..i] && cs[..j][i..] == cs[i..j];
    MiddleIsPart(Raw(cs[..i]), Raw(cs[i..j]), Raw(cs[j..]));
  }

  lemma RawSplit(cs: seq<Char>, i: nat)
    requires i <= |cs|
    ensures Raw(cs) == Raw(cs[..i]) + Raw(cs[i..])
  {
    assert cs == cs[..i] + cs[i..];
    RawAppend(cs[..i], cs[i..]);
  }

  lemma {:induction false} TrimLeftIsSlice(cs: seq<Char>) returns (i: nat)
    ensures i <= |cs| && TrimLeft(cs) == cs[i..]
  {
    i := 0;
    if cs != [] && IsSpace(cs[0].r) {
      i := TrimLeftIsSlice(cs[1..]);
      i := i + 1;
    }
  }

  lemma {:induction false} TrimRightIsSlice(cs: seq<Char>) returns (j: nat)
    ensures j <= |cs| && TrimRight(cs) == cs[..j]
  {
    j := |cs|;
    if cs != [] && IsSpace(cs[|cs| - 1].r) {
      j := TrimRightIsSlice(cs[..|cs| - 1]);
    }
  }

  lemma TrimIsSlice(cs: seq<Char>) returns (i: nat, j: nat)
    ensures i <= j <= |cs| && TrimRight(TrimLeft(cs)) == cs[i..j]
  {
    i := TrimLeftIsSlice(cs);
    j := TrimRightIsSlice(cs[i..]);
    assert cs[i..][..j] == cs[i..i + j];
    j := i + j;
  }

  lemma TrimmedIsPart(s: Str)
    ensures Part(TrimSpace(s), s)
  {
    var i, j := TrimIsSlice(Chars(s));
    RawSliceIsPart(Chars(s), i, j);
    RawOfChars(s);
  }

  lemma InsideIsSlice(text: Str) returns (i: nat, j: nat)
    ensures i <= j <= |text| && Inside(text) == TrimSpace(text[i..j])
  {
    i := if OPEN_BYTES <= text then |OPEN_BYTES| else 0;
    var t := text[i..];
    var n := if Suffix(CLOSE_BYTES, t) then |t| - |CLOSE_BYTES| else |t|;
    assert t[..n] == text[i..i + n];
    assert t[..|t|] == t;
    j := i + n;
  }

  lemma InsideIsPart(text: Str)
    ensures Part(Inside(text), text)
  {
    var i, j := InsideIsSlice(text);
    SliceIsPart(text, i, j);
    TrimmedIsPart(text[i..j]);
    PartTransitive(Inside(text), text[i..j], text);
  }

  lemma {:induction false} AddressIsPart(cs: seq<Char>)
    ensures Part(FindAddress(cs), Raw(cs))
  {
    if cs == [] {
      SliceIsPart([], 0, 0);
    } else if AddressAt(cs) > 0 {
      assert cs[0..AddressAt(cs)] == cs[..AddressAt(cs)];
      RawSliceIsPart(cs, 0, AddressAt(cs));
    } else {
      AddressIsPart(cs[1..]);
      assert cs[1..|cs|] == cs[1..];
      RawSliceIsPart(cs, 1, |cs|);
      PartTransitive(FindAddress(cs), Raw(cs[1..]), Raw(cs));
    }
  }

  lemma KeptIsPart(text: Str, dagger: bool, cjk: bool, keep: Str)
    requires Judge(text, dagger, cjk) == Keep(keep)
    ensures Part(keep, text)
  {
    InsideIsPart(text);
    AddressIsPart(Chars(Inside(text)));
    RawOfChars(Inside(text));
    PartTransitive(FindAddress(Chars(Inside(text))), Inside(text), text);
  }

  lemma {:induction false} ScanSees(cs: seq<Char>, j: nat)
    requires 1 <= j <= |cs|
    ensures forall i :: j <= i < Stop(cs, j) ==> cs[i].r != CLOSE_MARK && !Breaks(cs[i].r, i)
    decreases |cs| - j
  {
    if j < |cs| && cs[j].r != CLOSE_MARK && !Breaks(cs[j].r, j) {
      ScanSees(cs, j + 1);
    }
  }

  lemma ScanIsShort(cs: seq<Char>)
    requires cs != []
    ensures Stop(cs, 1) <= MAX_CITE_MARK_RUNES + 1
    ensures forall i :: 1 <= i < Stop(cs, 1) ==> cs[i].r != OPEN_MARK && cs[i].r != NEWLINE
  {
    ScanSees(cs, 1);
    var k := Stop(cs, 1);
    if k > 1 {
      assert !Breaks(cs[k - 1].r, k - 1);
    }
  }

  // NOTHING IS INVENTED AND NO WIDE STRETCH GOES: a mark runs from an opening bracket to
  // its closing one, or to the end of a text cut off inside a pointer, on one line, with at
  // most the bound between them ...
  lemma MarkShape(c: Core, cs: seq<Char>, m: Mark)
    requires cs != [] && MarkAt(c, cs) == m && m.Mark?
    ensures cs[0].r == OPEN_MARK && !Verbatim(c)
    ensures m.length <= MAX_CITE_MARK_RUNES + 2
    ensures forall i :: 1 <= i < m.length ==> cs[i].r != OPEN_MARK && cs[i].r != NEWLINE
    ensures (m.length >= 2 && cs[m.length - 1].r == CLOSE_MARK) || (m.length == |cs| && m.keep == [])
  {
    ScanIsShort(cs);
  }

  // ... and what it leaves behind is part of what it said.
  lemma MarkKeepsItsOwn(c: Core, cs: seq<Char>, m: Mark)
    requires c.judge == Judge
    requires cs != [] && MarkAt(c, cs) == m && m.Mark?
    ensures Part(m.keep, Raw(cs[..m.length]))
  {
    if Scan(cs, 1).Closed? {
      MarkWasJudged(c, cs, m);
      KeptIsPart(Raw(cs[..m.length]), HasDagger(cs[1..m.length - 1]), c.cjk, m.keep);
    } else {
      SliceIsPart(Raw(cs[..m.length]), 0, 0);
    }
  }

  lemma MarkWasJudged(c: Core, cs: seq<Char>, m: Mark)
    requires cs != [] && MarkAt(c, cs) == m && m.Mark?
    requires Scan(cs, 1).Closed?
    ensures m.length >= 2 && c.judge(Raw(cs[..m.length]), HasDagger(cs[1..m.length - 1]), c.cjk) == Keep(m.keep)
  {
  }
}
